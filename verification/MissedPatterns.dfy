/**
  What `evaluate_3` misses in the matrices that it is given: the masked candidates of a symbol. Three
  rows of the bottom left finder pattern lie in the last ten lines, which the loops do not reach.
*/
module MissedPatterns {
  import opened Placement
  import opened Pattern
  import opened FreeModules
  import opened PatternColours
  import opened Evaluation
  import opened Masking
  import opened Generate

  // ---------- The rows of the finder pattern ----------

  /** Rows 2 to 4 of the bottom left finder pattern with its separator and the reserved module. */
  lemma FinderRow(v: int, x: int, y: int)
    requires Version(v) && 0 <= x <= 8 && SizeOf(v) - 5 <= y <= SizeOf(v) - 3
    ensures At(PatternGrid(v), Cell(x, y)) == PATTERN0[x]
  {
    hide PatternGrid;
    if x < 8 {
      FindersShown(v, 3, SizeOf(v) - 4, Cell(x, y));
    } else {
      DarkModule(v, Cell(x, y));
    }
  }

  // ---------- Candidates ----------

  /** A matrix that `evaluate_3` is given: a filled symbol with a mask. */
  function Candidate(v: int, placed: Grid, id: int): (g: Grid)
    requires Version(v) && Square(placed, MAX_SIZE)
    ensures Square(g, MAX_SIZE) && Spans(g, SizeOf(v))
  {
    Masked(PatternGrid(v), placed, SizeOf(v), id)
  }

  lemma CandidateFinder(v: int, bits: seq<int>, placed: Grid, id: int, x: int, y: int)
    requires Version(v) && FilledSymbol(v, bits, placed)
    requires 0 <= x <= 8 && SizeOf(v) - 5 <= y <= SizeOf(v) - 3
    ensures Candidate(v, placed, id)[x][y] == PATTERN0[x]
  {
    hide PatternGrid, FreePath, Flips, XorBit, Taken;
    var c := Cell(x, y);
    FinderRow(v, x, y);
    FreeIffNotTaken(v, c);
    if c in FreePath(v) {
      var k :| 0 <= k < |FreePath(v)| && FreePath(v)[k] == c;
      FreePathCell(v, k);
    }
    assert At(placed, c) == At(PatternGrid(v), c);
    assert At(Candidate(v, placed, id), c) == At(placed, c);
  }

  lemma RowMissed(g: Grid, n: nat, y: int)
    requires Spans(g, n) && 21 <= n && n - 5 <= y <= n - 3
    requires forall x :: 0 <= x <= 8 ==> g[x][y] == PATTERN0[x]
    ensures Cell(0, y) !in Found(g, n, 0)
    ensures Cell(0, y) in LastLines(g, n, PATTERN0, true) <==> g[9][y] == 0 && g[10][y] == 0
  {
    var c := Cell(0, y);
    assert c in TopLeft(n) && c !in TopLeft(n - 10);
    hide TopLeft;
    assert Matches(g, n, PATTERN0, true, c) <==> g[9][y] == 0 && g[10][y] == 0 by {
      assert forall k :: 0 <= k <= 8 ==> g[c.x + k][c.y] == PATTERN0[k];
      assert PATTERN0[9] == PATTERN0[10] == 0;
      if g[9][y] == 0 && g[10][y] == 0 {
        assert Matches(g, n, PATTERN0, true, c);
      }
      if Matches(g, n, PATTERN0, true, c) {
        assert g[c.x + 9][c.y] == 0 && g[c.x + 10][c.y] == 0;
      }
    }
  }

  /**
    In every candidate of every version, the three rows of the bottom left finder pattern are occurrences
    of the first pattern exactly if the two modules behind the reserved one are light; none of them counts.
  */
  lemma FinderMissed(v: int, bits: seq<int>, placed: Grid, id: int, y: int)
    requires Version(v) && FilledSymbol(v, bits, placed)
    requires SizeOf(v) - 5 <= y <= SizeOf(v) - 3
    ensures var g, n := Candidate(v, placed, id), SizeOf(v);
            && Cell(0, y) !in Found(g, n, 0)
            && (Cell(0, y) in LastLines(g, n, PATTERN0, true) <==> g[9][y] == 0 && g[10][y] == 0)
  {
    var g, n, c := Candidate(v, placed, id), SizeOf(v), Cell(0, y);
    forall x | 0 <= x <= 8
      ensures g[x][y] == PATTERN0[x]
    {
      CandidateFinder(v, bits, placed, id, x, y);
    }
    assert Spans(g, n) && 21 <= n;
    hide Candidate, FilledSymbol, LastLines, Found;
    RowMissed(g, n, y);
  }

  // ---------- A symbol with the wrong penalty ----------

  /** The module that gives this one under the mask. */
  function Unmask(value: int, id: int, x: nat, y: nat): int {
    XorBit(value, Flips(id, x, y))
  }

  /** The two modules behind the reserved one, in row 2 of the bottom left finder pattern. */
  predicate Behind(v: int, x: int, y: int) {
    y == SizeOf(v) - 5 && (x == 9 || x == 10)
  }

  /** A matrix whose masked free modules are dark, but for two if `light`. */
  function Drawn(v: int, id: int, light: bool): (g: Grid)
    requires Version(v)
    ensures Square(g, MAX_SIZE)
  {
    seq(MAX_SIZE, x requires 0 <= x < MAX_SIZE => seq(MAX_SIZE, y requires 0 <= y < MAX_SIZE =>
      if x < SizeOf(v) && y < SizeOf(v) && PatternGrid(v)[x][y] == FREE
      then Unmask(if light && Behind(v, x, y) then 0 else 1, id, x, y)
      else PatternGrid(v)[x][y]))
  }

  lemma DrawnFills(v: int, id: int, light: bool) returns (bits: seq<int>)
    requires Version(v)
    ensures FilledSymbol(v, bits, Drawn(v, id, light))
    ensures forall k :: 0 <= k < |bits| ==> 0 <= bits[k] <= 1
  {
    var g, f := Drawn(v, id, light), FreePath(v);
    FreePathInGrid(g, v);
    bits := seq(|f|, k requires 0 <= k < |f| => At(g, f[k]));
    hide PatternGrid, FreePath, Flips, Taken;
    forall k | 0 <= k < |bits|
      ensures 0 <= bits[k] <= 1
    {
      FreePathCell(v, k);
      FreeIffNotTaken(v, f[k]);
    }
    forall c: Cell | InGrid(PatternGrid(v), c) && c !in f
      ensures At(g, c) == At(PatternGrid(v), c)
    {
      if OnSymbol(v, c) {
        FreeIffNotTaken(v, c);
        if !Taken(v, c) {
          FreePathCovers(v, c);
        }
      }
    }
    assert bits[..|f|] == bits;
  }

  /** What the candidate shows. */
  lemma DrawnShows(v: int, id: int, light: bool, c: Cell)
    requires Version(v) && OnSymbol(v, c)
    ensures Candidate(v, Drawn(v, id, light), id)[c.x][c.y] ==
            if At(PatternGrid(v), c) != FREE then At(PatternGrid(v), c)
            else if light && Behind(v, c.x, c.y) then 0 else 1
  {
    hide PatternGrid, Flips;
    var placed := Drawn(v, id, light);
    assert At(Candidate(v, placed, id), c) == MaskedAt(PatternGrid(v), placed, SizeOf(v), id, c);
  }

  /** Alignment patterns leave the columns 9 to 15 alone. */
  predicate Clear(rs: seq<Rect>) {
    forall k :: 0 <= k < |rs| ==> rs[k].x + rs[k].w <= 9 || 16 <= rs[k].x
  }

  lemma {:induction false} ColumnsClearStrip(row: seq<int>, v: int, j: nat, i: nat)
    requires |row| >= 3 && Coordinates(row, v) && j + 1 < |row| && i < |row|
    ensures Clear(RectColumns(row, j, i))
    decreases i
  {
    hide Coordinates;
    if i == 0 {
    } else {
      ColumnsClearStrip(row, v, j, i - 1);
      CrossingPlace(row, v, i - 1);
      CrossingPlace(row, v, j);
    }
  }

  lemma {:induction false} RowsClearStrip(row: seq<int>, v: int, j: nat)
    requires |row| >= 3 && Coordinates(row, v) && j < |row|
    ensures Clear(RectRows(row, j))
    decreases j
  {
    hide Coordinates, RectColumns;
    if j == 0 {
    } else {
      RowsClearStrip(row, v, j - 1);
      ColumnsClearStrip(row, v, j - 1, |row| - 1);
    }
  }

  lemma AlignmentsClearStrip(v: int)
    requires Version(v)
    ensures Clear(AlignmentRects(v))
  {
    if v == 1 {
    } else {
      RowFacts(v);
      hide AlignmentRow, RectRows;
      RowsClearStrip(AlignmentRow(v), v, |AlignmentRow(v)| - 1);
    }
  }

  lemma StripFree(v: int, c: Cell)
    requires Version(v) && OnSymbol(v, c) && 9 <= c.x <= 15
    requires (c.x <= 10 && c.y != 6) || c.y == SizeOf(v) - 5
    ensures At(PatternGrid(v), c) == FREE
  {
    AlignmentsClearStrip(v);
    RectsConcat(v, c);
    assert !InsideAny(AlignmentRects(v), c) by {
      hide AlignmentRects;
    }
    assert !InsideAny(FixedRects(SizeOf(v)), c) && !InsideAny(VersionRects(v), c);
    hide AlignmentRects, Taken, PatternGrid, InsideAny;
    FreeIffNotTaken(v, c);
  }

  /** What matters of such a candidate around the two modules, which are w. */
  predicate Around(g: Grid, n: nat, w: int) {
    && Spans(g, n) && 21 <= n
    && (forall x :: 0 <= x <= 8 ==> g[x][n - 5] == PATTERN0[x])
    && g[9][n - 5] == g[10][n - 5] == w
    && (forall x :: 11 <= x <= 15 ==> g[x][n - 5] == 1)
    && (forall x, y :: 9 <= x <= 10 && 0 <= y < n && y != 6 && y != n - 5 ==> g[x][y] == 1)
  }

  lemma DrawnAround(v: int, id: int, light: bool)
    requires Version(v)
    ensures Around(Candidate(v, Drawn(v, id, light), id), SizeOf(v), if light then 0 else 1)
  {
    hide PatternGrid, Candidate, Drawn;
    var g, n := Candidate(v, Drawn(v, id, light), id), SizeOf(v);
    forall x | 0 <= x <= 8
      ensures g[x][n - 5] == PATTERN0[x]
    {
      FinderRow(v, x, n - 5);
      DrawnShows(v, id, light, Cell(x, n - 5));
    }
    forall x | 9 <= x <= 15
      ensures g[x][n - 5] == if light && x <= 10 then 0 else 1
    {
      StripFree(v, Cell(x, n - 5));
      DrawnShows(v, id, light, Cell(x, n - 5));
    }
    forall x, y | 9 <= x <= 10 && 0 <= y < n && y != 6 && y != n - 5
      ensures g[x][y] == 1
    {
      StripFree(v, Cell(x, y));
      DrawnShows(v, id, light, Cell(x, y));
    }
  }

  /** Where the second pattern fails in the row of the two modules. */
  lemma NoSecondPattern(g: Grid, n: nat, w: int, s: int)
    requires Around(g, n, w) && 0 <= w <= 1 && 0 <= s <= 10
    ensures !Matches(g, n, PATTERN1, true, Cell(s, n - 5))
  {
    var c := Cell(s, n - 5);
    var k := if s == 1 || s == 5 then 1 else if s <= 6 then 0 else if s > 7 then 11 - s else if w == 1 then 2 else 5;
    assert c.x + k < 16 && g[c.x + k][c.y] != PATTERN1[k];
  }

  /** Where the first pattern fails there. */
  lemma NoFirstPattern(g: Grid, n: nat, w: int, s: int)
    requires Around(g, n, w) && 0 <= w <= 1 && 0 <= s <= 10 && (s > 0 || w == 1)
    ensures !Matches(g, n, PATTERN0, true, Cell(s, n - 5))
  {
    var c := Cell(s, n - 5);
    var k := if s == 0 then 9 else if s <= 5 then 10 else if s <= 8 then 15 - s else w;
    assert c.x + k < 16 && g[c.x + k][c.y] != PATTERN0[k];
  }

  /** In the row of the two modules the patterns match nowhere, but for the finder pattern if these are light. */
  lemma NoMatchAcross(g: Grid, n: nat, w: int, pattern: seq<int>, s: int)
    requires Around(g, n, w) && 0 <= w <= 1 && (pattern == PATTERN0 || pattern == PATTERN1) && 0 <= s <= 10
    ensures Matches(g, n, pattern, true, Cell(s, n - 5)) <==> pattern == PATTERN0 && s == 0 && w == 0
  {
    assert PATTERN0[0] != PATTERN1[0];
    if pattern == PATTERN1 {
      NoSecondPattern(g, n, w, s);
    } else if s > 0 || w == 1 {
      NoFirstPattern(g, n, w, s);
    } else {
      RowMissed(g, n, n - 5);
      assert LastLines(g, n, PATTERN0, true) <= Hits(g, n, PATTERN0, true, TopLeft(n));
    }
  }

  /** In the columns of the two modules light modules are too rare. */
  lemma NoMatchDown(g: Grid, n: nat, w: int, pattern: seq<int>, c: Cell)
    requires Around(g, n, w) && (pattern == PATTERN0 || pattern == PATTERN1)
    requires 9 <= c.x <= 10 && 0 <= c.y && c.y + 11 <= n
    ensures !Matches(g, n, pattern, false, c)
  {
    var k := if pattern == PATTERN0 then 7 else 0;
    assert pattern[k] == pattern[k + 1] == 0;
    assert g[c.x][c.y + k] == 1 || g[c.x][c.y + (k + 1)] == 1;
  }

  /** Two matrices that differ in the two modules only. */
  predicate Twins(a: Grid, b: Grid, n: nat) {
    && Around(a, n, 0) && Around(b, n, 1)
    && forall x, y :: 0 <= x < n && 0 <= y < n && !(y == n - 5 && 9 <= x <= 10) ==> a[x][y] == b[x][y]
  }

  lemma TwinMatches(a: Grid, b: Grid, n: nat, pattern: seq<int>, across: bool, c: Cell)
    requires Twins(a, b, n) && (pattern == PATTERN0 || pattern == PATTERN1)
    requires 0 <= c.x < n && 0 <= c.y < n && if across then c.x + 11 <= n else c.y + 11 <= n
    ensures Matches(a, n, pattern, across, c) <==>
            Matches(b, n, pattern, across, c) || (pattern == PATTERN0 && across && c == Cell(0, n - 5))
    ensures pattern == PATTERN0 && across && c == Cell(0, n - 5) ==> !Matches(b, n, pattern, across, c)
  {
    if across && c.y == n - 5 && c.x <= 10 {
      NoMatchAcross(a, n, 0, pattern, c.x);
      NoMatchAcross(b, n, 1, pattern, c.x);
    } else if !across && 9 <= c.x <= 10 {
      NoMatchDown(a, n, 0, pattern, c);
      NoMatchDown(b, n, 1, pattern, c);
    } else {
      SameMatches(a, b, n, pattern, across, c);
    }
  }

  lemma SameMatches(a: Grid, b: Grid, n: nat, pattern: seq<int>, across: bool, c: Cell)
    requires Twins(a, b, n) && |pattern| == 11
    requires 0 <= c.x < n && 0 <= c.y < n && if across then c.x + 11 <= n else c.y + 11 <= n
    requires if across then c.y != n - 5 || c.x > 10 else c.x < 9 || c.x > 10
    ensures Matches(a, n, pattern, across, c) <==> Matches(b, n, pattern, across, c)
  {
    assert Spans(a, n) && Spans(b, n);
    hide Around;
    forall k | 0 <= k < 11
      ensures pattern[k] == (if across then a[c.x + k][c.y] else a[c.x][c.y + k])
         <==> pattern[k] == (if across then b[c.x + k][c.y] else b[c.x][c.y + k])
    {
      if across {
        assert a[c.x + k][c.y] == b[c.x + k][c.y];
      } else {
        assert a[c.x][c.y + k] == b[c.x][c.y + k];
      }
    }
  }

  lemma TwinHits(a: Grid, b: Grid, n: nat, pattern: seq<int>, across: bool, cells: set<Cell>)
    requires Twins(a, b, n) && (pattern == PATTERN0 || pattern == PATTERN1)
    ensures |Hits(a, n, pattern, across, cells)| == |Hits(b, n, pattern, across, cells)|
            + if pattern == PATTERN0 && across && Cell(0, n - 5) in cells then 1 else 0
  {
    hide Matches;
    var h, l := Hits(a, n, pattern, across, cells), Hits(b, n, pattern, across, cells);
    forall c: Cell | 0 <= c.x < n && 0 <= c.y < n && if across then c.x + 11 <= n else c.y + 11 <= n
      ensures Matches(a, n, pattern, across, c) <==>
              Matches(b, n, pattern, across, c) || (pattern == PATTERN0 && across && c == Cell(0, n - 5))
      ensures pattern == PATTERN0 && across && c == Cell(0, n - 5) ==> !Matches(b, n, pattern, across, c)
    {
      TwinMatches(a, b, n, pattern, across, c);
    }
    if pattern == PATTERN0 && across && Cell(0, n - 5) in cells {
      assert h == l + {Cell(0, n - 5)};
    } else {
      assert h == l;
    }
  }

  /** The penalty does not see the difference, although there is one more pattern. */
  lemma TwinPenalties(a: Grid, b: Grid, n: nat)
    requires Twins(a, b, n)
    ensures PatternPenalty(a, n) == PatternPenalty(b, n)
    ensures FullPenalty(a, n) == FullPenalty(b, n) + 40
  {
    assert Cell(0, n - 5) in TopLeft(n) && Cell(0, n - 5) !in TopLeft(n - 10);
    assert PATTERN0[0] != PATTERN1[0];
    TwinHits(a, b, n, PATTERN0, true, TopLeft(n));
    TwinHits(a, b, n, PATTERN0, false, TopLeft(n));
    TwinHits(a, b, n, PATTERN1, true, TopLeft(n));
    TwinHits(a, b, n, PATTERN1, false, TopLeft(n));
    TwinHits(a, b, n, PATTERN0, true, TopLeft(n - 10));
    TwinHits(a, b, n, PATTERN0, false, TopLeft(n - 10));
    TwinHits(a, b, n, PATTERN1, false, TopLeft(n - 10));
    hide Hits, TopLeft, Twins;
  }

  /** Every version and mask has a filled symbol for which the penalty is wrong. */
  lemma PenaltyWrong(v: int, id: int) returns (bits: seq<int>, placed: Grid)
    requires Version(v)
    ensures FilledSymbol(v, bits, placed) && forall k :: 0 <= k < |bits| ==> 0 <= bits[k] <= 1
    ensures PatternPenalty(Candidate(v, placed, id), SizeOf(v)) != FullPenalty(Candidate(v, placed, id), SizeOf(v))
  {
    var n := SizeOf(v);
    var a, b := Candidate(v, Drawn(v, id, true), id), Candidate(v, Drawn(v, id, false), id);
    DrawnAround(v, id, true);
    DrawnAround(v, id, false);
    forall x, y | 0 <= x < n && 0 <= y < n && !(y == n - 5 && 9 <= x <= 10)
      ensures a[x][y] == b[x][y]
    {
      DrawnShows(v, id, true, Cell(x, y));
      DrawnShows(v, id, false, Cell(x, y));
    }
    hide Candidate, Drawn, FilledSymbol, PatternPenalty, FullPenalty, Around, PatternGrid;
    TwinPenalties(a, b, n);
    placed := if PatternPenalty(a, n) == FullPenalty(a, n) then Drawn(v, id, false) else Drawn(v, id, true);
    bits := DrawnFills(v, id, PatternPenalty(a, n) != FullPenalty(a, n));
  }
}
