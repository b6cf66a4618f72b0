/**
  The version strings are a code of distance 8, and where `format.c` puts them: not where ISO/IEC 18004:2015,
  section 7.10, has the reader look for them.
*/
module VersionCode {
  import opened Common
  import opened Placement
  import opened Pattern
  import opened Format
  import opened FormatCode

  /** The check modules are sums of the first six. */
  predicate IsVersionCodeword(f: seq<int>) {
    Checked(f) && forall i :: 0 <= i < 18 ==> 0 <= f[i] <= 1
  }

  predicate Checked(f: seq<int>) {
    && |f| == 18
    && f[6] == (f[0] + f[1] + f[5]) % 2 && f[7] == (f[2] + f[5]) % 2
    && f[8] == (f[1] + f[3] + f[5]) % 2 && f[9] == (f[0] + f[1] + f[2] + f[4] + f[5]) % 2
    && f[10] == (f[0] + f[2] + f[3]) % 2 && f[11] == (f[0] + f[1] + f[3] + f[4]) % 2
    && f[12] == (f[1] + f[2] + f[4] + f[5]) % 2 && f[13] == (f[0] + f[1] + f[2] + f[3]) % 2
    && f[14] == (f[1] + f[2] + f[3] + f[4]) % 2 && f[15] == (f[0] + f[2] + f[3] + f[4] + f[5]) % 2
    && f[16] == (f[3] + f[4]) % 2 && f[17] == (f[0] + f[4] + f[5]) % 2
  }

  lemma CodewordsFrom7(v: int)
    requires 7 <= v <= 8
    ensures Checked(VersionString1(v))
  {
  }

  lemma CodewordsFrom9(v: int)
    requires 9 <= v <= 10
    ensures Checked(VersionString1(v))
  {
  }

  lemma CodewordsFrom11(v: int)
    requires 11 <= v <= 13
    ensures Checked(VersionString1(v))
  {
  }

  lemma CodewordsFrom14(v: int)
    requires 14 <= v <= 15
    ensures Checked(VersionString2(v))
  {
  }

  lemma CodewordsFrom16(v: int)
    requires 16 <= v <= 17
    ensures Checked(VersionString2(v))
  {
  }

  lemma CodewordsFrom18(v: int)
    requires 18 <= v <= 20
    ensures Checked(VersionString2(v))
  {
  }

  lemma CodewordsFrom21(v: int)
    requires 21 <= v <= 22
    ensures Checked(VersionString3(v))
  {
  }

  lemma CodewordsFrom23(v: int)
    requires 23 <= v <= 24
    ensures Checked(VersionString3(v))
  {
  }

  lemma CodewordsFrom25(v: int)
    requires 25 <= v <= 27
    ensures Checked(VersionString3(v))
  {
  }

  lemma CodewordsFrom28(v: int)
    requires 28 <= v <= 29
    ensures Checked(VersionString4(v))
  {
  }

  lemma CodewordsFrom30(v: int)
    requires 30 <= v <= 31
    ensures Checked(VersionString4(v))
  {
  }

  lemma CodewordsFrom32(v: int)
    requires 32 <= v <= 34
    ensures Checked(VersionString4(v))
  {
  }

  lemma CodewordsFrom35(v: int)
    requires 35 <= v <= 36
    ensures Checked(VersionString5(v))
  {
  }

  lemma CodewordsFrom37(v: int)
    requires 37 <= v <= 38
    ensures Checked(VersionString5(v))
  {
  }

  lemma CodewordsFrom39(v: int)
    requires 39 <= v <= 40
    ensures Checked(VersionString5(v))
  {
  }

  lemma VersionIsCodeword(v: int)
    requires 7 <= v <= 40
    ensures IsVersionCodeword(VersionString(v))
  {
    hide Checked, VersionString1, VersionString2, VersionString3, VersionString4, VersionString5;
    if v <= 8 { CodewordsFrom7(v); }
    else if v <= 10 { CodewordsFrom9(v); }
    else if v <= 13 { CodewordsFrom11(v); }
    else if v <= 15 { CodewordsFrom14(v); }
    else if v <= 17 { CodewordsFrom16(v); }
    else if v <= 20 { CodewordsFrom18(v); }
    else if v <= 22 { CodewordsFrom21(v); }
    else if v <= 24 { CodewordsFrom23(v); }
    else if v <= 27 { CodewordsFrom25(v); }
    else if v <= 29 { CodewordsFrom28(v); }
    else if v <= 31 { CodewordsFrom30(v); }
    else if v <= 34 { CodewordsFrom32(v); }
    else if v <= 36 { CodewordsFrom35(v); }
    else if v <= 38 { CodewordsFrom37(v); }
    else { CodewordsFrom39(v); }
  }

  lemma EighteenDifferences(f: seq<int>, g: seq<int>)
    requires |f| == |g| == 18
    ensures DifferencesFrom(f, g, 0) ==
            Differ(f[0], g[0]) + Differ(f[1], g[1]) + Differ(f[2], g[2]) + Differ(f[3], g[3]) + Differ(f[4], g[4])
            + Differ(f[5], g[5]) + Differ(f[6], g[6]) + Differ(f[7], g[7]) + Differ(f[8], g[8]) + Differ(f[9], g[9])
            + Differ(f[10], g[10]) + Differ(f[11], g[11]) + Differ(f[12], g[12]) + Differ(f[13], g[13])
            + Differ(f[14], g[14]) + Differ(f[15], g[15]) + Differ(f[16], g[16]) + Differ(f[17], g[17])
  {
    hide Differ, DifferencesFrom;
    ThreeDifferences(f, g, 0);
    ThreeDifferences(f, g, 3);
    ThreeDifferences(f, g, 6);
    ThreeDifferences(f, g, 9);
    ThreeDifferences(f, g, 12);
    ThreeDifferences(f, g, 15);
    NoDifferences(f, g);
  }

  /** The weight of a difference, first the six data modules, then the twelve check modules. */
  function VersionWeight(a: int, b: int, c: int, d: int, e: int, h: int): int {
    a + b + c + d + e + h
    + (a + b + h) % 2 + (c + h) % 2 + (b + d + h) % 2 + (a + b + c + e + h) % 2
    + (a + c + d) % 2 + (a + b + d + e) % 2 + (b + c + e + h) % 2 + (a + b + c + d) % 2
    + (b + c + d + e) % 2 + (a + c + d + e + h) % 2 + (d + e) % 2 + (a + e + h) % 2
  }

  lemma LeastWeight(a: int, b: int, c: int, d: int, e: int, h: int)
    requires 0 <= a <= 1 && 0 <= b <= 1 && 0 <= c <= 1 && 0 <= d <= 1 && 0 <= e <= 1 && 0 <= h <= 1
    requires a + b + c + d + e + h > 0
    ensures VersionWeight(a, b, c, d, e, h) >= 8
  {
    if a == 0 {
      WeightStarting(0, b, c, d, e, h);
    } else {
      WeightStarting(1, b, c, d, e, h);
    }
  }

  lemma WeightStarting(a: int, b: int, c: int, d: int, e: int, h: int)
    requires (a == 0 || a == 1) && 0 <= b <= 1 && 0 <= c <= 1 && 0 <= d <= 1 && 0 <= e <= 1 && 0 <= h <= 1
    requires a + b + c + d + e + h > 0
    ensures VersionWeight(a, b, c, d, e, h) >= 8
  {
    hide VersionWeight;
    if b == 0 {
      if c == 0 { WeightFrom(a, 0, 0, d, e, h); } else { WeightFrom(a, 0, 1, d, e, h); }
    } else {
      if c == 0 { WeightFrom(a, 1, 0, d, e, h); } else { WeightFrom(a, 1, 1, d, e, h); }
    }
  }

  lemma WeightFrom(a: int, b: int, c: int, d: int, e: int, h: int)
    requires (a == 0 || a == 1) && (b == 0 || b == 1) && (c == 0 || c == 1)
    requires 0 <= d <= 1 && 0 <= e <= 1 && 0 <= h <= 1 && a + b + c + d + e + h > 0
    ensures VersionWeight(a, b, c, d, e, h) >= 8
  {
    if d == 0 && e == 0 {
    } else if d == 0 {
    } else if e == 0 {
    } else {
    }
  }

  predicate DataDifferences(f: seq<int>, g: seq<int>, a: int, b: int, c: int, d: int, e: int, h: int) {
    && |f| == |g| == 18 && a == Differ(f[0], g[0]) && b == Differ(f[1], g[1]) && c == Differ(f[2], g[2])
    && d == Differ(f[3], g[3]) && e == Differ(f[4], g[4]) && h == Differ(f[5], g[5])
  }

  lemma NoDifference()
    ensures Differ(0, 0) == 0
  {
  }

  // A check module differs exactly if an odd number of its summands differ.

  lemma ChecksFrom6(f: seq<int>, g: seq<int>, a: int, b: int, c: int, d: int, e: int, h: int)
    requires IsVersionCodeword(f) && IsVersionCodeword(g) && DataDifferences(f, g, a, b, c, d, e, h)
    ensures Differ(f[6], g[6]) == (a + b + h) % 2
    ensures Differ(f[7], g[7]) == (c + h) % 2
  {
    NoDifference();
    hide Differ;
    AllDiffer(f[0], f[1], f[5], 0, 0, g[0], g[1], g[5], 0, 0);
    AllDiffer(f[2], f[5], 0, 0, 0, g[2], g[5], 0, 0, 0);
  }

  lemma ChecksFrom8(f: seq<int>, g: seq<int>, a: int, b: int, c: int, d: int, e: int, h: int)
    requires IsVersionCodeword(f) && IsVersionCodeword(g) && DataDifferences(f, g, a, b, c, d, e, h)
    ensures Differ(f[8], g[8]) == (b + d + h) % 2
    ensures Differ(f[9], g[9]) == (a + b + c + e + h) % 2
  {
    NoDifference();
    hide Differ;
    AllDiffer(f[1], f[3], f[5], 0, 0, g[1], g[3], g[5], 0, 0);
    AllDiffer(f[0], f[1], f[2], f[4], f[5], g[0], g[1], g[2], g[4], g[5]);
  }

  lemma ChecksFrom10(f: seq<int>, g: seq<int>, a: int, b: int, c: int, d: int, e: int, h: int)
    requires IsVersionCodeword(f) && IsVersionCodeword(g) && DataDifferences(f, g, a, b, c, d, e, h)
    ensures Differ(f[10], g[10]) == (a + c + d) % 2
    ensures Differ(f[11], g[11]) == (a + b + d + e) % 2
  {
    NoDifference();
    hide Differ;
    AllDiffer(f[0], f[2], f[3], 0, 0, g[0], g[2], g[3], 0, 0);
    AllDiffer(f[0], f[1], f[3], f[4], 0, g[0], g[1], g[3], g[4], 0);
  }

  lemma ChecksFrom12(f: seq<int>, g: seq<int>, a: int, b: int, c: int, d: int, e: int, h: int)
    requires IsVersionCodeword(f) && IsVersionCodeword(g) && DataDifferences(f, g, a, b, c, d, e, h)
    ensures Differ(f[12], g[12]) == (b + c + e + h) % 2
    ensures Differ(f[13], g[13]) == (a + b + c + d) % 2
  {
    NoDifference();
    hide Differ;
    AllDiffer(f[1], f[2], f[4], f[5], 0, g[1], g[2], g[4], g[5], 0);
    AllDiffer(f[0], f[1], f[2], f[3], 0, g[0], g[1], g[2], g[3], 0);
  }

  lemma ChecksFrom14(f: seq<int>, g: seq<int>, a: int, b: int, c: int, d: int, e: int, h: int)
    requires IsVersionCodeword(f) && IsVersionCodeword(g) && DataDifferences(f, g, a, b, c, d, e, h)
    ensures Differ(f[14], g[14]) == (b + c + d + e) % 2
    ensures Differ(f[15], g[15]) == (a + c + d + e + h) % 2
  {
    NoDifference();
    hide Differ;
    AllDiffer(f[1], f[2], f[3], f[4], 0, g[1], g[2], g[3], g[4], 0);
    AllDiffer(f[0], f[2], f[3], f[4], f[5], g[0], g[2], g[3], g[4], g[5]);
  }

  lemma ChecksFrom16(f: seq<int>, g: seq<int>, a: int, b: int, c: int, d: int, e: int, h: int)
    requires IsVersionCodeword(f) && IsVersionCodeword(g) && DataDifferences(f, g, a, b, c, d, e, h)
    ensures Differ(f[16], g[16]) == (d + e) % 2
    ensures Differ(f[17], g[17]) == (a + e + h) % 2
  {
    NoDifference();
    hide Differ;
    AllDiffer(f[3], f[4], 0, 0, 0, g[3], g[4], 0, 0, 0);
    AllDiffer(f[0], f[4], f[5], 0, 0, g[0], g[4], g[5], 0, 0);
  }

  lemma DifferencesAreWeight(f: seq<int>, g: seq<int>, a: int, b: int, c: int, d: int, e: int, h: int)
    requires IsVersionCodeword(f) && IsVersionCodeword(g) && DataDifferences(f, g, a, b, c, d, e, h)
    ensures DifferencesFrom(f, g, 0) == VersionWeight(a, b, c, d, e, h)
  {
    hide IsVersionCodeword, Differ, DifferencesFrom;
    EighteenDifferences(f, g);
    ChecksFrom6(f, g, a, b, c, d, e, h);
    ChecksFrom8(f, g, a, b, c, d, e, h);
    ChecksFrom10(f, g, a, b, c, d, e, h);
    ChecksFrom12(f, g, a, b, c, d, e, h);
    ChecksFrom14(f, g, a, b, c, d, e, h);
    ChecksFrom16(f, g, a, b, c, d, e, h);
  }

  lemma SomeDifference(f: seq<int>, g: seq<int>, a: int, b: int, c: int, d: int, e: int, h: int)
    requires DataDifferences(f, g, a, b, c, d, e, h) && f[..6] != g[..6]
    ensures 0 <= a <= 1 && 0 <= b <= 1 && 0 <= c <= 1 && 0 <= d <= 1 && 0 <= e <= 1 && 0 <= h <= 1
    ensures a + b + c + d + e + h > 0
  {
    var i :| 0 <= i < 6 && f[..6][i] != g[..6][i];
    assert Differ(f[i], g[i]) == 1;
  }

  lemma VersionCodewordDistance(f: seq<int>, g: seq<int>)
    requires IsVersionCodeword(f) && IsVersionCodeword(g) && f[..6] != g[..6]
    ensures Distance(f, g) >= 8
  {
    var a, b, c, d, e, h := Differ(f[0], g[0]), Differ(f[1], g[1]), Differ(f[2], g[2]), Differ(f[3], g[3]),
                            Differ(f[4], g[4]), Differ(f[5], g[5]);
    DistanceCounts(f, g, 0);
    assert f[0..] == f && g[0..] == g;
    hide IsVersionCodeword, Differ, Distance, DifferencesFrom, VersionWeight;
    SomeDifference(f, g, a, b, c, d, e, h);
    DifferencesAreWeight(f, g, a, b, c, d, e, h);
    LeastWeight(a, b, c, d, e, h);
  }

  /** The strings of two versions differ in at least eight modules. */
  lemma VersionDistance(v: int, w: int)
    requires 7 <= v <= 40 && 7 <= w <= 40 && v != w
    ensures Distance(VersionString(v), VersionString(w)) >= 8
  {
    VersionIsCodeword(v);
    VersionIsCodeword(w);
    VersionIdentifies(v);
    VersionIdentifies(w);
    hide VersionString, IsVersionCodeword;
    var f, g := VersionString(v), VersionString(w);
    if f[..6] == g[..6] {
      assert forall i :: 0 <= i < 6 ==> f[i] == f[..6][i] && g[i] == g[..6][i];
      assert false;
    }
    VersionCodewordDistance(f, g);
  }

  /** No reading of the eighteen modules is within three of two version strings. */
  lemma NearestVersion(read: seq<int>, v: int, w: int)
    requires 7 <= v <= 40 && 7 <= w <= 40 && |read| == 18
    requires Distance(read, VersionString(v)) <= 3 && Distance(read, VersionString(w)) <= 3
    ensures v == w
  {
    hide VersionString;
    DistanceTriangle(read, VersionString(v), VersionString(w));
    if v != w {
      VersionDistance(v, w);
    }
  }

  // ---------- Where the standard looks for the version ----------

  /** The module that holds bit k of the version, counted from the lowest bit, in the block at the bottom. */
  function StandardBottom(n: int, k: int): Cell {
    Cell(k / 3, n - 11 + k % 3)
  }

  /** The same for the block at the top, which is the first one transposed. */
  function StandardTop(n: int, k: int): Cell {
    Cell(n - 11 + k % 3, k / 3)
  }

  /** What a reader finds in the two blocks, highest bit first as in the table of the strings. */
  function ReadBottom(g: Grid, n: int): (f: seq<int>)
    requires Square(g, MAX_SIZE) && 11 <= n <= MAX_SIZE
    ensures |f| == 18
  {
    seq(18, i requires 0 <= i < 18 => At(g, StandardBottom(n, 17 - i)))
  }

  function ReadTop(g: Grid, n: int): (f: seq<int>)
    requires Square(g, MAX_SIZE) && 11 <= n <= MAX_SIZE
    ensures |f| == 18
  {
    seq(18, i requires 0 <= i < 18 => At(g, StandardTop(n, 17 - i)))
  }

  function Backwards(f: seq<int>): (r: seq<int>)
    requires |f| == 18
    ensures |r| == 18
  {
    seq(18, i requires 0 <= i < 18 => f[17 - i])
  }

  function Rearranged(f: seq<int>): (r: seq<int>)
    requires |f| == 18
    ensures |r| == 18
  {
    seq(18, i requires 0 <= i < 18 => f[6 * ((17 - i) % 3) + (17 - i) / 3])
  }

  /** The writer stores the highest bit first, the second block by columns: a reader finds the bits permuted. */
  lemma BlocksPermuted(v: int, level: int, id: int, g: Grid)
    requires 7 <= v <= 40 && Square(g, MAX_SIZE)
    ensures var h, n := PutAll(g, Overlay(v, level, id)), SizeOf(v);
            ReadBottom(h, n) == Backwards(VersionString(v)) && ReadTop(h, n) == Rearranged(VersionString(v))
  {
    hide PutAll, Overlay, VersionString;
    var h, n := PutAll(g, Overlay(v, level, id)), SizeOf(v);
    forall i | 0 <= i < 18
      ensures ReadBottom(h, n)[i] == VersionString(v)[17 - i]
      ensures ReadTop(h, n)[i] == VersionString(v)[6 * ((17 - i) % 3) + (17 - i) / 3]
    {
      VersionReadable(v, level, id, g, 17 - i);
      VersionReadable(v, level, id, g, 6 * ((17 - i) % 3) + (17 - i) / 3);
      SamePlaces(n, 17 - i);
    }
  }

  lemma SamePlaces(n: int, k: int)
    requires 0 <= k < 18
    ensures StandardBottom(n, k) == VersionBottom(n, k)
    ensures 0 <= 6 * (k % 3) + k / 3 < 18 && StandardTop(n, k) == VersionTop(n, 6 * (k % 3) + k / 3)
  {
  }

  // Enough modules that differ from what is read in their place.

  predicate FarBackwards(f: seq<int>) {
    && |f| == 18
    && Differ(f[0], f[17]) + Differ(f[1], f[16]) + Differ(f[2], f[15]) + Differ(f[4], f[13]) + Differ(f[6], f[11])
      + Differ(f[7], f[10]) + Differ(f[8], f[9]) >= 2
  }

  predicate FarRearranged(f: seq<int>) {
    && |f| == 18
    && Differ(f[0], f[17]) + Differ(f[1], f[11]) + Differ(f[2], f[5]) + Differ(f[3], f[16]) + Differ(f[5], f[4])
      + Differ(f[6], f[15]) + Differ(f[7], f[9]) + Differ(f[8], f[3]) + Differ(f[10], f[8]) + Differ(f[12], f[13])
      + Differ(f[14], f[1]) >= 4
  }

  lemma BackwardsFrom7(v: int)
    requires 7 <= v <= 9
    ensures FarBackwards(VersionString1(v))
  {
  }

  lemma BackwardsFrom10(v: int)
    requires 10 <= v <= 13
    ensures FarBackwards(VersionString1(v))
  {
  }

  lemma BackwardsFrom14(v: int)
    requires 14 <= v <= 16
    ensures FarBackwards(VersionString2(v))
  {
  }

  lemma BackwardsFrom17(v: int)
    requires 17 <= v <= 20
    ensures FarBackwards(VersionString2(v))
  {
  }

  lemma BackwardsFrom21(v: int)
    requires 21 <= v <= 23
    ensures FarBackwards(VersionString3(v))
  {
  }

  lemma BackwardsFrom24(v: int)
    requires 24 <= v <= 27
    ensures FarBackwards(VersionString3(v))
  {
  }

  lemma BackwardsFrom28(v: int)
    requires 28 <= v <= 30
    ensures FarBackwards(VersionString4(v))
  {
  }

  lemma BackwardsFrom31(v: int)
    requires 31 <= v <= 34
    ensures FarBackwards(VersionString4(v))
  {
  }

  lemma BackwardsFrom35(v: int)
    requires 35 <= v <= 37
    ensures FarBackwards(VersionString5(v))
  {
  }

  lemma BackwardsFrom38(v: int)
    requires 38 <= v <= 40
    ensures FarBackwards(VersionString5(v))
  {
  }

  lemma RearrangedFrom7(v: int)
    requires 7 <= v <= 8
    ensures FarRearranged(VersionString1(v))
  {
  }

  lemma RearrangedFrom9(v: int)
    requires 9 <= v <= 10
    ensures FarRearranged(VersionString1(v))
  {
  }

  lemma RearrangedFrom11(v: int)
    requires 11 <= v <= 13
    ensures FarRearranged(VersionString1(v))
  {
  }

  lemma RearrangedFrom14(v: int)
    requires 14 <= v <= 15
    ensures FarRearranged(VersionString2(v))
  {
  }

  lemma RearrangedFrom16(v: int)
    requires 16 <= v <= 17
    ensures FarRearranged(VersionString2(v))
  {
  }

  lemma RearrangedFrom18(v: int)
    requires 18 <= v <= 20
    ensures FarRearranged(VersionString2(v))
  {
  }

  lemma RearrangedFrom21(v: int)
    requires 21 <= v <= 22
    ensures FarRearranged(VersionString3(v))
  {
  }

  lemma RearrangedFrom23(v: int)
    requires 23 <= v <= 24
    ensures FarRearranged(VersionString3(v))
  {
  }

  lemma RearrangedFrom25(v: int)
    requires 25 <= v <= 27
    ensures FarRearranged(VersionString3(v))
  {
  }

  lemma RearrangedFrom28(v: int)
    requires 28 <= v <= 29
    ensures FarRearranged(VersionString4(v))
  {
  }

  lemma RearrangedFrom30(v: int)
    requires 30 <= v <= 31
    ensures FarRearranged(VersionString4(v))
  {
  }

  lemma RearrangedFrom32(v: int)
    requires 32 <= v <= 34
    ensures FarRearranged(VersionString4(v))
  {
  }

  lemma RearrangedFrom35(v: int)
    requires 35 <= v <= 36
    ensures FarRearranged(VersionString5(v))
  {
  }

  lemma RearrangedFrom37(v: int)
    requires 37 <= v <= 38
    ensures FarRearranged(VersionString5(v))
  {
  }

  lemma RearrangedFrom39(v: int)
    requires 39 <= v <= 40
    ensures FarRearranged(VersionString5(v))
  {
  }

  lemma VersionFarBackwards(v: int)
    requires 7 <= v <= 40
    ensures FarBackwards(VersionString(v))
  {
    hide FarBackwards, VersionString1, VersionString2, VersionString3, VersionString4, VersionString5;
    if v <= 9 { BackwardsFrom7(v); }
    else if v <= 13 { BackwardsFrom10(v); }
    else if v <= 16 { BackwardsFrom14(v); }
    else if v <= 20 { BackwardsFrom17(v); }
    else if v <= 23 { BackwardsFrom21(v); }
    else if v <= 27 { BackwardsFrom24(v); }
    else if v <= 30 { BackwardsFrom28(v); }
    else if v <= 34 { BackwardsFrom31(v); }
    else if v <= 37 { BackwardsFrom35(v); }
    else { BackwardsFrom38(v); }
  }

  lemma VersionFarRearranged(v: int)
    requires 7 <= v <= 40
    ensures FarRearranged(VersionString(v))
  {
    hide FarRearranged, VersionString1, VersionString2, VersionString3, VersionString4, VersionString5;
    if v <= 8 { RearrangedFrom7(v); }
    else if v <= 10 { RearrangedFrom9(v); }
    else if v <= 13 { RearrangedFrom11(v); }
    else if v <= 15 { RearrangedFrom14(v); }
    else if v <= 17 { RearrangedFrom16(v); }
    else if v <= 20 { RearrangedFrom18(v); }
    else if v <= 22 { RearrangedFrom21(v); }
    else if v <= 24 { RearrangedFrom23(v); }
    else if v <= 27 { RearrangedFrom25(v); }
    else if v <= 29 { RearrangedFrom28(v); }
    else if v <= 31 { RearrangedFrom30(v); }
    else if v <= 34 { RearrangedFrom32(v); }
    else if v <= 36 { RearrangedFrom35(v); }
    else if v <= 38 { RearrangedFrom37(v); }
    else { RearrangedFrom39(v); }
  }

  lemma FarMeansDistance(f: seq<int>)
    requires FarBackwards(f) && FarRearranged(f)
    ensures Distance(Backwards(f), f) >= 4 && Distance(Rearranged(f), f) >= 4
  {
    BackwardsDistance(f, Backwards(f));
    RearrangedDistance(f, Rearranged(f));
  }

  lemma BackwardsDistance(f: seq<int>, b: seq<int>)
    requires FarBackwards(f) && b == Backwards(f)
    ensures Distance(b, f) >= 4
  {
    BackwardsAt(f, b);
    DistanceCounts(b, f, 0);
    assert b[0..] == b && f[0..] == f;
    hide DifferencesFrom, Distance, Backwards;
    EighteenDifferences(b, f);
  }

  lemma BackwardsAt(f: seq<int>, b: seq<int>)
    requires |f| == 18 && b == Backwards(f)
    ensures b[0] == f[17] && b[1] == f[16] && b[2] == f[15] && b[3] == f[14] && b[4] == f[13] && b[5] == f[12]
    ensures b[6] == f[11] && b[7] == f[10] && b[8] == f[9] && b[9] == f[8] && b[10] == f[7] && b[11] == f[6]
    ensures b[12] == f[5] && b[13] == f[4] && b[14] == f[3] && b[15] == f[2] && b[16] == f[1] && b[17] == f[0]
  {
  }

  lemma RearrangedDistance(f: seq<int>, r: seq<int>)
    requires FarRearranged(f) && r == Rearranged(f)
    ensures Distance(r, f) >= 4
  {
    RearrangedAt(f, r);
    DistanceCounts(r, f, 0);
    assert r[0..] == r && f[0..] == f;
    hide DifferencesFrom, Distance, Rearranged;
    EighteenDifferences(r, f);
  }

  lemma RearrangedAt(f: seq<int>, r: seq<int>)
    requires |f| == 18 && r == Rearranged(f)
    ensures r[0] == f[17] && r[1] == f[11] && r[2] == f[5] && r[3] == f[16] && r[4] == f[10] && r[5] == f[4]
    ensures r[6] == f[15] && r[7] == f[9] && r[8] == f[3] && r[9] == f[14] && r[10] == f[8] && r[11] == f[2]
    ensures r[12] == f[13] && r[13] == f[7] && r[14] == f[1] && r[15] == f[12] && r[16] == f[6] && r[17] == f[0]
  {
  }

  /**
    In every version that has version blocks, a reader of the standard finds neither of them within the three
    errors that the code can correct.
  */
  lemma VersionUnreadable(v: int, level: int, id: int, g: Grid)
    requires 7 <= v <= 40 && Square(g, MAX_SIZE)
    ensures var h, n := PutAll(g, Overlay(v, level, id)), SizeOf(v);
            && Distance(ReadBottom(h, n), VersionString(v)) >= 4
            && Distance(ReadTop(h, n), VersionString(v)) >= 4
  {
    BlocksPermuted(v, level, id, g);
    VersionFarBackwards(v);
    VersionFarRearranged(v);
    FarMeansDistance(VersionString(v));
    hide *;
  }

  /** In version 27 the block at the top is nearer to the string of version 15 than to any other one. */
  lemma VersionMisread(level: int, id: int, g: Grid, w: int)
    requires Square(g, MAX_SIZE) && 7 <= w <= 40
    ensures var f := ReadTop(PutAll(g, Overlay(27, level, id)), SizeOf(27));
            && Distance(f, VersionString(15)) == 2
            && (Distance(f, VersionString(w)) <= 3 ==> w == 15)
  {
    var f := ReadTop(PutAll(g, Overlay(27, level, id)), SizeOf(27));
    BlocksPermuted(27, level, id, g);
    NearFifteen();
    hide *;
    if Distance(f, VersionString(w)) <= 3 {
      NearestVersion(f, w, 15);
    }
  }

  const READ27: seq<int> := [0, 0, 1, 1, 1, 1, 1, 0, 0, 1, 0, 1, 0, 0, 1, 0, 0, 0]
  const STRING15: seq<int> := [0, 0, 1, 1, 1, 1, 1, 0, 0, 1, 0, 0, 1, 0, 1, 0, 0, 0]

  lemma NearFifteen()
    ensures Distance(Rearranged(VersionString(27)), VersionString(15)) == 2
  {
    Read27();
    String15();
    Read27Differs();
    hide *;
  }

  lemma Read27()
    ensures Rearranged(VersionString(27)) == READ27
  {
    RearrangedAt(VersionString(27), Rearranged(VersionString(27)));
    hide Rearranged;
  }

  lemma String15()
    ensures VersionString(15) == STRING15
  {
  }

  lemma Read27Differs()
    ensures Distance(READ27, STRING15) == 2
  {
    TwoApart(READ27, STRING15);
  }

  lemma TwoApart(f: seq<int>, g: seq<int>)
    requires |f| == |g| == 18 && f[11] != g[11] && f[12] != g[12]
    requires forall i :: 0 <= i < 18 && i != 11 && i != 12 ==> f[i] == g[i]
    ensures Distance(f, g) == 2
  {
    EighteenDifferences(f, g);
    DistanceCounts(f, g, 0);
    hide DifferencesFrom, Distance;
    assert f[0..] == f && g[0..] == g;
  }
}
