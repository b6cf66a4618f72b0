/** The format strings are a code of distance 7: three wrong modules do not hide the level and the mask. */
module FormatCode {
  import opened Common
  import opened Placement
  import opened Tables
  import opened Format

  /** The check modules are sums of the first five. */
  predicate IsCodeword(f: seq<int>) {
    && |f| == 15 && (forall i :: 0 <= i < 15 ==> 0 <= f[i] <= 1)
    && f[5] == (1 + f[0] + f[1] + f[3]) % 2 && f[6] == (f[1] + f[2] + f[4]) % 2
    && f[7] == (f[0] + f[1] + f[2]) % 2 && f[8] == (1 + f[1] + f[2] + f[3]) % 2
    && f[9] == (f[2] + f[3] + f[4]) % 2 && f[10] == (1 + f[0] + f[1] + f[4]) % 2
    && f[11] == (f[0] + f[2] + f[3]) % 2 && f[12] == (1 + f[1] + f[3] + f[4]) % 2
    && f[13] == (f[0] + f[1] + f[2] + f[3] + f[4]) % 2 && f[14] == (1 + f[0] + f[2] + f[4]) % 2
  }

  lemma FormatStringLIsCodeword0(id: int)
    requires 0 <= id < 4
    ensures IsCodeword(FormatStringL(id))
  {
  }

  lemma FormatStringLIsCodeword1(id: int)
    requires 4 <= id < 8
    ensures IsCodeword(FormatStringL(id))
  {
  }

  lemma FormatStringMIsCodeword0(id: int)
    requires 0 <= id < 4
    ensures IsCodeword(FormatStringM(id))
  {
  }

  lemma FormatStringMIsCodeword1(id: int)
    requires 4 <= id < 8
    ensures IsCodeword(FormatStringM(id))
  {
  }

  lemma FormatStringQIsCodeword0(id: int)
    requires 0 <= id < 4
    ensures IsCodeword(FormatStringQ(id))
  {
  }

  lemma FormatStringQIsCodeword1(id: int)
    requires 4 <= id < 8
    ensures IsCodeword(FormatStringQ(id))
  {
  }

  lemma FormatStringHIsCodeword0(id: int)
    requires 0 <= id < 4
    ensures IsCodeword(FormatStringH(id))
  {
  }

  lemma FormatStringHIsCodeword1(id: int)
    requires 4 <= id < 8
    ensures IsCodeword(FormatStringH(id))
  {
  }

  lemma FormatIsCodeword(level: int, id: int)
    requires Level(level) && MaskId(id)
    ensures IsCodeword(FormatString(level, id))
  {
    hide IsCodeword, FormatStringL, FormatStringM, FormatStringQ, FormatStringH;
    if level == 1 {
      if id < 4 { FormatStringLIsCodeword0(id); } else { FormatStringLIsCodeword1(id); }
    } else if level == 2 {
      if id < 4 { FormatStringMIsCodeword0(id); } else { FormatStringMIsCodeword1(id); }
    } else if level == 3 {
      if id < 4 { FormatStringQIsCodeword0(id); } else { FormatStringQIsCodeword1(id); }
    } else {
      if id < 4 { FormatStringHIsCodeword0(id); } else { FormatStringHIsCodeword1(id); }
    }
  }

  function Differ(a: int, b: int): int {
    if a == b then 0 else 1
  }

  /** The modules in which two strings differ, from the i-th on. */
  function DifferencesFrom(f: seq<int>, g: seq<int>, i: nat): int
    requires |f| == |g| && i <= |f|
    decreases |f| - i
  {
    if i == |f| then 0 else Differ(f[i], g[i]) + DifferencesFrom(f, g, i + 1)
  }

  lemma {:induction false} DistanceCounts(f: seq<int>, g: seq<int>, i: nat)
    requires |f| == |g| && i <= |f|
    ensures Distance(f[i..], g[i..]) == DifferencesFrom(f, g, i)
    decreases |f| - i
  {
    if i == |f| {
    } else {
      DistanceCounts(f, g, i + 1);
      assert f[i..][1..] == f[i + 1..] && g[i..][1..] == g[i + 1..];
    }
  }

  lemma FifteenDifferences(f: seq<int>, g: seq<int>)
    requires |f| == |g| == 15
    ensures DifferencesFrom(f, g, 0) ==
            Differ(f[0], g[0]) + Differ(f[1], g[1]) + Differ(f[2], g[2]) + Differ(f[3], g[3]) + Differ(f[4], g[4])
            + Differ(f[5], g[5]) + Differ(f[6], g[6]) + Differ(f[7], g[7]) + Differ(f[8], g[8]) + Differ(f[9], g[9])
            + Differ(f[10], g[10]) + Differ(f[11], g[11]) + Differ(f[12], g[12]) + Differ(f[13], g[13])
            + Differ(f[14], g[14])
  {
    hide Differ, DifferencesFrom;
    ThreeDifferences(f, g, 0);
    ThreeDifferences(f, g, 3);
    ThreeDifferences(f, g, 6);
    ThreeDifferences(f, g, 9);
    ThreeDifferences(f, g, 12);
    NoDifferences(f, g);
  }

  lemma ThreeDifferences(f: seq<int>, g: seq<int>, i: nat)
    requires |f| == |g| && i + 3 <= |f|
    ensures DifferencesFrom(f, g, i) ==
            Differ(f[i], g[i]) + Differ(f[i + 1], g[i + 1]) + Differ(f[i + 2], g[i + 2]) + DifferencesFrom(f, g, i + 3)
  {
    hide Differ;
    assert DifferencesFrom(f, g, i + 1) == Differ(f[i + 1], g[i + 1]) + DifferencesFrom(f, g, i + 2);
  }

  lemma NoDifferences(f: seq<int>, g: seq<int>)
    requires |f| == |g|
    ensures DifferencesFrom(f, g, |f|) == 0
  {
  }

  /** Two numbers are of different parity exactly if their difference is odd. */
  lemma ParitiesDiffer(s: int, t: int, k: int, differences: int)
    requires differences == s - t + 2 * k
    ensures Differ(s % 2, t % 2) == differences % 2
  {
  }

  function Below(a: int, b: int): int {
    if a < b then 1 else 0
  }

  lemma BitsDiffer(a: int, b: int)
    requires 0 <= a <= 1 && 0 <= b <= 1
    ensures Differ(a, b) == a - b + 2 * Below(a, b)
  {
  }

  /** Sums modulo 2 differ exactly if the summands differ an odd number of times. */
  lemma SumsDiffer(k: int, a: int, b: int, c: int, x: int, y: int, z: int)
    requires 0 <= a <= 1 && 0 <= b <= 1 && 0 <= c <= 1 && 0 <= x <= 1 && 0 <= y <= 1 && 0 <= z <= 1
    ensures Differ((k + a + b + c) % 2, (k + x + y + z) % 2) == (Differ(a, x) + Differ(b, y) + Differ(c, z)) % 2
  {
    BitsDiffer(a, x);
    BitsDiffer(b, y);
    BitsDiffer(c, z);
    hide Differ, Below;
    ParitiesDiffer(k + a + b + c, k + x + y + z, Below(a, x) + Below(b, y) + Below(c, z),
                   Differ(a, x) + Differ(b, y) + Differ(c, z));
  }

  /** The weight of a difference, first the five data modules, then the ten check modules. */
  function WeightOf(a: int, b: int, c: int, d: int, e: int): int {
    a + b + c + d + e + (a + b + d) % 2 + (b + c + e) % 2 + (a + b + c) % 2 + (b + c + d) % 2
    + (c + d + e) % 2 + (a + b + e) % 2 + (a + c + d) % 2 + (b + d + e) % 2 + (a + b + c + d + e) % 2
    + (a + c + e) % 2
  }

  /** However the first five modules differ, there are seven differences. */
  lemma Weight(a: int, b: int, c: int, d: int, e: int)
    requires 0 <= a <= 1 && 0 <= b <= 1 && 0 <= c <= 1 && 0 <= d <= 1 && 0 <= e <= 1
    requires a + b + c + d + e > 0
    ensures WeightOf(a, b, c, d, e) >= 7
  {
    if a == 0 {
      WeightWith(0, b, c, d, e);
    } else {
      WeightWith(1, b, c, d, e);
    }
  }

  lemma WeightWith(a: int, b: int, c: int, d: int, e: int)
    requires (a == 0 || a == 1) && 0 <= b <= 1 && 0 <= c <= 1 && 0 <= d <= 1 && 0 <= e <= 1
    requires a + b + c + d + e > 0
    ensures WeightOf(a, b, c, d, e) >= 7
  {
    if b == 0 && c == 0 {
    } else if b == 0 {
    } else if c == 0 {
    } else {
    }
  }

  /** Codewords that differ in the first five modules differ in seven. */
  lemma CodewordDistance(f: seq<int>, g: seq<int>)
    requires IsCodeword(f) && IsCodeword(g) && f[..5] != g[..5]
    ensures Distance(f, g) >= 7
  {
    DistanceCounts(f, g, 0);
    assert f[0..] == f && g[0..] == g;
    FifteenDifferences(f, g);
    DataDiffer(f, g);
    DataChecksDiffer(f, g);
    NextChecksDiffer(f, g);
    MoreChecksDiffer(f, g);
    LastChecksDiffer(f, g);
    var a, b, c, d, e := Differ(f[0], g[0]), Differ(f[1], g[1]), Differ(f[2], g[2]), Differ(f[3], g[3]),
                         Differ(f[4], g[4]);
    hide IsCodeword, Differ, DifferencesFrom, Distance;
    Weight(a, b, c, d, e);
  }

  lemma DataDiffer(f: seq<int>, g: seq<int>)
    requires |f| == |g| == 15 && f[..5] != g[..5]
    ensures forall i :: 0 <= i < 5 ==> 0 <= Differ(f[i], g[i]) <= 1
    ensures Differ(f[0], g[0]) + Differ(f[1], g[1]) + Differ(f[2], g[2]) + Differ(f[3], g[3]) + Differ(f[4], g[4]) > 0
  {
    var i :| 0 <= i < 5 && f[..5][i] != g[..5][i];
    assert Differ(f[i], g[i]) == 1;
  }

  lemma DataChecksDiffer(f: seq<int>, g: seq<int>)
    requires IsCodeword(f) && IsCodeword(g)
    ensures var a, b, c, d, e := Differ(f[0], g[0]), Differ(f[1], g[1]), Differ(f[2], g[2]), Differ(f[3], g[3]),
                                 Differ(f[4], g[4]);
            && Differ(f[5], g[5]) == (a + b + d) % 2 && Differ(f[6], g[6]) == (b + c + e) % 2
            && Differ(f[7], g[7]) == (a + b + c) % 2
  {
    hide Differ;
    SumsDiffer(1, f[0], f[1], f[3], g[0], g[1], g[3]);
    SumsDiffer(0, f[1], f[2], f[4], g[1], g[2], g[4]);
    SumsDiffer(0, f[0], f[1], f[2], g[0], g[1], g[2]);
  }

  lemma NextChecksDiffer(f: seq<int>, g: seq<int>)
    requires IsCodeword(f) && IsCodeword(g)
    ensures var a, b, c, d, e := Differ(f[0], g[0]), Differ(f[1], g[1]), Differ(f[2], g[2]), Differ(f[3], g[3]),
                                 Differ(f[4], g[4]);
            Differ(f[8], g[8]) == (b + c + d) % 2 && Differ(f[9], g[9]) == (c + d + e) % 2
  {
    hide Differ;
    SumsDiffer(1, f[1], f[2], f[3], g[1], g[2], g[3]);
    SumsDiffer(0, f[2], f[3], f[4], g[2], g[3], g[4]);
  }

  lemma MoreChecksDiffer(f: seq<int>, g: seq<int>)
    requires IsCodeword(f) && IsCodeword(g)
    ensures var a, b, c, d, e := Differ(f[0], g[0]), Differ(f[1], g[1]), Differ(f[2], g[2]), Differ(f[3], g[3]),
                                 Differ(f[4], g[4]);
            && Differ(f[10], g[10]) == (a + b + e) % 2 && Differ(f[11], g[11]) == (a + c + d) % 2
            && Differ(f[12], g[12]) == (b + d + e) % 2
  {
    hide Differ;
    SumsDiffer(1, f[0], f[1], f[4], g[0], g[1], g[4]);
    SumsDiffer(0, f[0], f[2], f[3], g[0], g[2], g[3]);
    SumsDiffer(1, f[1], f[3], f[4], g[1], g[3], g[4]);
  }

  lemma LastChecksDiffer(f: seq<int>, g: seq<int>)
    requires IsCodeword(f) && IsCodeword(g)
    ensures var a, b, c, d, e := Differ(f[0], g[0]), Differ(f[1], g[1]), Differ(f[2], g[2]), Differ(f[3], g[3]),
                                 Differ(f[4], g[4]);
            Differ(f[13], g[13]) == (a + b + c + d + e) % 2 && Differ(f[14], g[14]) == (a + c + e) % 2
  {
    hide Differ;
    AllDiffer(f[0], f[1], f[2], f[3], f[4], g[0], g[1], g[2], g[3], g[4]);
    SumsDiffer(1, f[0], f[2], f[4], g[0], g[2], g[4]);
  }

  lemma AllDiffer(a: int, b: int, c: int, d: int, e: int, v: int, w: int, x: int, y: int, z: int)
    requires 0 <= a <= 1 && 0 <= b <= 1 && 0 <= c <= 1 && 0 <= d <= 1 && 0 <= e <= 1
    requires 0 <= v <= 1 && 0 <= w <= 1 && 0 <= x <= 1 && 0 <= y <= 1 && 0 <= z <= 1
    ensures Differ((a + b + c + d + e) % 2, (v + w + x + y + z) % 2) ==
            (Differ(a, v) + Differ(b, w) + Differ(c, x) + Differ(d, y) + Differ(e, z)) % 2
  {
    BitsDiffer(a, v);
    BitsDiffer(b, w);
    BitsDiffer(c, x);
    BitsDiffer(d, y);
    BitsDiffer(e, z);
    hide Differ, Below;
    ParitiesDiffer(a + b + c + d + e, v + w + x + y + z,
                   Below(a, v) + Below(b, w) + Below(c, x) + Below(d, y) + Below(e, z),
                   Differ(a, v) + Differ(b, w) + Differ(c, x) + Differ(d, y) + Differ(e, z));
  }

  /** The strings of two different levels or masks differ in at least seven modules. */
  lemma FormatDistance(level: int, id: int, level': int, id': int)
    requires Level(level) && MaskId(id) && Level(level') && MaskId(id')
    requires level != level' || id != id'
    ensures Distance(FormatString(level, id), FormatString(level', id')) >= 7
  {
    var f, g := FormatString(level, id), FormatString(level', id');
    FormatIsCodeword(level, id);
    FormatIsCodeword(level', id');
    FormatIdentifies(level, id);
    FormatIdentifies(level', id');
    hide FormatString, IsCodeword, LevelOf, MaskOf;
    if f[..5] == g[..5] {
      SameData(f, g);
      assert false;
    }
    CodewordDistance(f, g);
  }

  lemma SameData(f: seq<int>, g: seq<int>)
    requires |f| == |g| == 15 && f[..5] == g[..5]
    ensures f[0] == g[0] && f[1] == g[1] && f[2] == g[2] && f[3] == g[3] && f[4] == g[4]
  {
    assert forall i :: 0 <= i < 5 ==> f[i] == f[..5][i] && g[i] == g[..5][i];
  }

  /** No reading of the fifteen modules is within three of two format strings. */
  lemma NearestFormat(read: seq<int>, level: int, id: int, level': int, id': int)
    requires Level(level) && MaskId(id) && Level(level') && MaskId(id') && |read| == 15
    requires Distance(read, FormatString(level, id)) <= 3 && Distance(read, FormatString(level', id')) <= 3
    ensures level == level' && id == id'
  {
    hide FormatString;
    DistanceTriangle(read, FormatString(level, id), FormatString(level', id'));
    if level != level' || id != id' {
      FormatDistance(level, id, level', id');
    }
  }

  // ---------- The way of the strings ----------

  const FIRST_WAY: seq<Cell> :=
    [Cell(0, 8), Cell(1, 8), Cell(2, 8), Cell(3, 8), Cell(4, 8), Cell(5, 8), Cell(7, 8), Cell(8, 8),
     Cell(8, 7), Cell(8, 5), Cell(8, 4), Cell(8, 3), Cell(8, 2), Cell(8, 1), Cell(8, 0)]

  /** The first copy comes in from the left and leaves upwards, across neither timing line. */
  lemma FirstWay(i: nat)
    requires i < 15
    ensures FirstCopy(i) == FIRST_WAY[i]
  {
  }

  /** The second copy starts at the bottom edge, goes up seven modules, and ends at the right edge. */
  lemma SecondWay(n: int, i: nat)
    requires i < 14
    ensures SecondCopy(n, 0) == Cell(8, n - 1) && SecondCopy(n, 14) == Cell(n - 1, 8)
    ensures i < 6 ==> SecondCopy(n, i + 1) == Cell(8, SecondCopy(n, i).y - 1)
    ensures i > 6 ==> SecondCopy(n, i + 1) == Cell(SecondCopy(n, i).x + 1, 8)
  {
  }
}
