/** Which modules the function patterns leave free, and how many, for all versions. */
module FreeModules {
  import opened Placement
  import opened Pattern

  /** The rectangles taken by function patterns, cut so that no two overlap. */
  datatype Rect = Rect(x: int, y: int, w: int, h: int)

  predicate Inside(r: Rect, c: Cell) {
    r.x <= c.x < r.x + r.w && r.y <= c.y < r.y + r.h
  }

  function FixedRects(n: int): seq<Rect> {
    [Rect(0, 0, 9, 9), Rect(n - 8, 0, 8, 9), Rect(0, n - 8, 9, 8), Rect(9, 6, n - 17, 1), Rect(6, 9, 1, n - 17)]
  }

  /** What an alignment pattern takes besides the timing lines. */
  function CutRects(cx: int, cy: int): seq<Rect> {
    if cy == 6 then [Rect(cx - 2, 4, 5, 2), Rect(cx - 2, 7, 5, 2)]
    else if cx == 6 then [Rect(4, cy - 2, 2, 5), Rect(7, cy - 2, 2, 5)]
    else [Rect(cx - 2, cy - 2, 5, 5)]
  }

  /** The patterns of row j for the first i columns; three crossings lie under the finder patterns. */
  function RectColumns(row: seq<int>, j: nat, i: nat): seq<Rect>
    requires j + 1 < |row| && i < |row|
  {
    if i == 0 then []
    else RectColumns(row, j, i - 1) + (if Corner(i - 1, j, |row| - 1) then [] else CutRects(row[i], row[j + 1]))
  }

  function RectRows(row: seq<int>, j: nat): seq<Rect>
    requires j < |row|
  {
    if j == 0 then [] else RectRows(row, j - 1) + RectColumns(row, j - 1, |row| - 1)
  }

  function AlignmentRects(v: int): seq<Rect>
    requires Version(v)
  {
    if v == 1 then [] else RectRows(AlignmentRow(v), |AlignmentRow(v)| - 1)
  }

  function VersionRects(v: int): seq<Rect> {
    if v < 7 then [] else [Rect(0, SizeOf(v) - 11, 6, 3), Rect(SizeOf(v) - 11, 0, 3, 6)]
  }

  function TakenRects(v: int): seq<Rect>
    requires Version(v)
  {
    FixedRects(SizeOf(v)) + AlignmentRects(v) + VersionRects(v)
  }

  predicate InsideAny(rs: seq<Rect>, c: Cell) {
    exists k :: 0 <= k < |rs| && Inside(rs[k], c)
  }

  predicate Taken(v: int, c: Cell)
    requires Version(v)
  {
    InsideAny(TakenRects(v), c)
  }

  predicate OnSymbol(v: int, c: Cell) {
    0 <= c.x < SizeOf(v) && 0 <= c.y < SizeOf(v)
  }

  lemma CoveredConcat(a: seq<Stroke>, b: seq<Stroke>, c: Cell)
    ensures Covered(a + b, c) <==> Covered(a, c) || Covered(b, c)
  {
    if Covered(a, c) {
      var k :| 0 <= k < |a| && Covers(a[k], c);
      assert (a + b)[k] == a[k];
    }
    if Covered(b, c) {
      var k :| 0 <= k < |b| && Covers(b[k], c);
      assert (a + b)[|a| + k] == b[k];
    }
  }

  lemma InsideConcat(a: seq<Rect>, b: seq<Rect>, c: Cell)
    ensures InsideAny(a + b, c) <==> InsideAny(a, c) || InsideAny(b, c)
  {
    if InsideAny(a, c) {
      var k :| 0 <= k < |a| && Inside(a[k], c);
      assert (a + b)[k] == a[k];
    }
    if InsideAny(b, c) {
      var k :| 0 <= k < |b| && Inside(b[k], c);
      assert (a + b)[|a| + k] == b[k];
    }
  }

  /** Finder patterns, timing lines and format areas together fill the five fixed rectangles. */
  lemma FixedAreas(v: int, c: Cell)
    requires Version(v) && OnSymbol(v, c)
    ensures Covered(Finders(SizeOf(v)), c) || Covered(Timings(SizeOf(v)), c) || Covered(FormatAreas(SizeOf(v)), c)
            <==> InsideAny(FixedRects(SizeOf(v)), c)
  {
    var n := SizeOf(v);
    var f, t, a, r := Finders(n), Timings(n), FormatAreas(n), FixedRects(n);
    assert Covered(f, c) <==> Covers(f[0], c) || Covers(f[1], c) || Covers(f[2], c);
    assert Covered(t, c) <==> Covers(t[0], c) || Covers(t[1], c);
    assert Covered(a, c) <==> Covers(a[0], c) || Covers(a[1], c) || Covers(a[2], c) || Covers(a[3], c)
                              || Covers(a[4], c) || Covers(a[5], c) || Covers(a[6], c);
    assert InsideAny(r, c) <==> Inside(r[0], c) || Inside(r[1], c) || Inside(r[2], c) || Inside(r[3], c)
                                || Inside(r[4], c);
  }

  /** The cut rectangles of one pattern are the pattern outside of row 6 and column 6. */
  lemma StrokeCut(cx: int, cy: int, c: Cell)
    requires c.x != 6 && c.y != 6
    ensures Covered([AlignmentStroke(cx, cy)], c) <==> InsideAny(CutRects(cx, cy), c)
  {
    var s, r := [AlignmentStroke(cx, cy)], CutRects(cx, cy);
    assert Covered(s, c) <==> Covers(s[0], c);
    if cx == 6 || cy == 6 {
      assert InsideAny(r, c) <==> Inside(r[0], c) || Inside(r[1], c);
    } else {
      assert InsideAny(r, c) <==> Inside(r[0], c);
    }
  }

  lemma {:induction false} ColumnsCovered(row: seq<int>, j: nat, i: nat, c: Cell)
    requires j + 1 < |row| && i < |row| && c.x != 6 && c.y != 6
    ensures Covered(AlignmentColumns(row, j, i), c) <==> InsideAny(RectColumns(row, j, i), c)
    decreases i
  {
    hide AlignmentStroke, CutRects;
    if i == 0 {
    } else {
      ColumnsCovered(row, j, i - 1, c);
      if !Corner(i - 1, j, |row| - 1) {
        StrokeCut(row[i], row[j + 1], c);
        CoveredConcat(AlignmentColumns(row, j, i - 1), [AlignmentStroke(row[i], row[j + 1])], c);
        InsideConcat(RectColumns(row, j, i - 1), CutRects(row[i], row[j + 1]), c);
      } else {
        assert AlignmentColumns(row, j, i) == AlignmentColumns(row, j, i - 1);
        assert RectColumns(row, j, i) == RectColumns(row, j, i - 1);
      }
    }
  }

  lemma {:induction false} RowsCovered(row: seq<int>, j: nat, c: Cell)
    requires j < |row| && c.x != 6 && c.y != 6
    ensures Covered(AlignmentRows(row, j), c) <==> InsideAny(RectRows(row, j), c)
    decreases j
  {
    hide AlignmentColumns, RectColumns;
    if j == 0 {
    } else {
      RowsCovered(row, j - 1, c);
      ColumnsCovered(row, j - 1, |row| - 1, c);
      CoveredConcat(AlignmentRows(row, j - 1), AlignmentColumns(row, j - 1, |row| - 1), c);
      InsideConcat(RectRows(row, j - 1), RectColumns(row, j - 1, |row| - 1), c);
    }
  }

  lemma AlignmentAreas(v: int, c: Cell)
    requires Version(v) && OnSymbol(v, c) && c.x != 6 && c.y != 6
    ensures Covered(Alignments(v), c) <==> InsideAny(AlignmentRects(v), c)
  {
    if v == 1 {
    } else {
      RowFacts(v);
      hide AlignmentRow, AlignmentRows, RectRows;
      RowsCovered(AlignmentRow(v), |AlignmentRow(v)| - 1, c);
    }
  }

  lemma VersionCovered(v: int, c: Cell)
    requires Version(v)
    ensures Covered(VersionAreas(v), c) <==> InsideAny(VersionRects(v), c)
  {
    if v >= 7 {
      var s, r := VersionAreas(v), VersionRects(v);
      assert Covered(s, c) <==> Covers(s[0], c) || Covers(s[1], c);
      assert InsideAny(r, c) <==> Inside(r[0], c) || Inside(r[1], c);
    }
  }

  /** A module of the symbol is free exactly when it lies in none of the rectangles. */
  lemma FreeIffNotTaken(v: int, c: Cell)
    requires Version(v) && OnSymbol(v, c)
    ensures InGrid(PatternGrid(v), c)
    ensures At(PatternGrid(v), c) == FREE <==> !Taken(v, c)
  {
    hide Covers, Inside, InkAt, Taken, TakenRects, Alignments, Finders, Timings, FormatAreas, VersionAreas,
      AlignmentRects, VersionRects, FixedRects;
    var n := SizeOf(v);
    var f, t, a, m, r := Finders(n), Timings(n), Alignments(v), FormatAreas(n), VersionAreas(v);
    var e := PaintAll(EmptyGrid(), BLANK);
    AllFree(c);
    PaintConcat(EmptyGrid(), BLANK, f + t + a + m + r);
    assert Strokes(v) == BLANK + (f + t + a + m + r);
    StrokesNeverFree(v);
    PaintedFree(e, f + t + a + m + r, c);
    CoveredConcat(f + t + a + m, r, c);
    CoveredConcat(f + t + a, m, c);
    CoveredConcat(f + t, a, c);
    CoveredConcat(f, t, c);
    RectsConcat(v, c);
    FixedAreas(v, c);
    VersionCovered(v, c);
    if c.x == 6 || c.y == 6 {
      TimingTaken(v, c);
    } else {
      AlignmentAreas(v, c);
    }
  }

  lemma AllFree(c: Cell)
    requires 0 <= c.x < MAX_SIZE && 0 <= c.y < MAX_SIZE
    ensures InGrid(PaintAll(EmptyGrid(), BLANK), c)
    ensures At(PaintAll(EmptyGrid(), BLANK), c) == FREE
  {
    PaintOne(EmptyGrid(), BLANK[0]);
  }

  lemma RectsConcat(v: int, c: Cell)
    requires Version(v)
    ensures Taken(v, c) <==> InsideAny(FixedRects(SizeOf(v)), c) || InsideAny(AlignmentRects(v), c)
                             || InsideAny(VersionRects(v), c)
  {
    InsideConcat(FixedRects(SizeOf(v)) + AlignmentRects(v), VersionRects(v), c);
    InsideConcat(FixedRects(SizeOf(v)), AlignmentRects(v), c);
  }

  /** Row 6 and column 6 are taken from end to end. */
  lemma TimingTaken(v: int, c: Cell)
    requires Version(v) && OnSymbol(v, c)
    requires c.x == 6 || c.y == 6
    ensures InsideAny(FixedRects(SizeOf(v)), c)
  {
    var r := FixedRects(SizeOf(v));
    assert Inside(r[0], c) || Inside(r[1], c) || Inside(r[2], c) || Inside(r[3], c) || Inside(r[4], c);
  }

  // ---------- How many modules are free ----------

  ghost function Cells(r: Rect): set<Cell> {
    set x: int, y: int | r.x <= x < r.x + r.w && r.y <= y < r.y + r.h :: Cell(x, y)
  }

  lemma {:induction false} RowSize(x: int, y: int, w: nat)
    ensures |Cells(Rect(x, y, w, 1))| == w
  {
    if w == 0 {
      assert Cells(Rect(x, y, w, 1)) == {};
    } else {
      RowSize(x, y, w - 1);
      assert Cells(Rect(x, y, w, 1)) == Cells(Rect(x, y, w - 1, 1)) + {Cell(x + w - 1, y)};
    }
  }

  lemma {:induction false} RectSize(x: int, y: int, w: nat, h: nat)
    ensures |Cells(Rect(x, y, w, h))| == w * h
  {
    if h == 0 {
      assert Cells(Rect(x, y, w, h)) == {};
    } else {
      RectSize(x, y, w, h - 1);
      RowSize(x, y + h - 1, w);
      assert Cells(Rect(x, y, w, h)) == Cells(Rect(x, y, w, h - 1)) + Cells(Rect(x, y + h - 1, w, 1));
      assert w * h == w * (h - 1) + w;
    }
  }

  predicate Apart(r: Rect, s: Rect) {
    r.x + r.w <= s.x || s.x + s.w <= r.x || r.y + r.h <= s.y || s.y + s.h <= r.y
  }

  predicate AllApart(rs: seq<Rect>) {
    && (forall i, j :: 0 <= i < j < |rs| ==> Apart(rs[i], rs[j]))
    && (forall i :: 0 <= i < |rs| ==> 0 <= rs[i].w && 0 <= rs[i].h)
  }

  function Area(rs: seq<Rect>): int {
    if rs == [] then 0 else rs[0].w * rs[0].h + Area(rs[1..])
  }

  ghost function Union(rs: seq<Rect>): set<Cell> {
    if rs == [] then {} else Cells(rs[0]) + Union(rs[1..])
  }

  lemma {:induction false} UnionMembers(rs: seq<Rect>, c: Cell)
    ensures c in Union(rs) <==> InsideAny(rs, c)
  {
    if rs == [] {
    } else {
      UnionMembers(rs[1..], c);
      if InsideAny(rs[1..], c) {
        var k :| 0 <= k < |rs| - 1 && Inside(rs[1..][k], c);
        assert Inside(rs[k + 1], c);
      }
      if InsideAny(rs, c) && !Inside(rs[0], c) {
        var k :| 0 <= k < |rs| && Inside(rs[k], c);
        assert Inside(rs[1..][k - 1], c);
      }
      assert c in Cells(rs[0]) <==> Inside(rs[0], c);
    }
  }

  lemma {:induction false} UnionSize(rs: seq<Rect>)
    requires AllApart(rs)
    ensures |Union(rs)| == Area(rs)
  {
    if rs == [] {
    } else {
      UnionSize(rs[1..]);
      RectSize(rs[0].x, rs[0].y, rs[0].w, rs[0].h);
      forall c | c in Cells(rs[0])
        ensures c !in Union(rs[1..])
      {
        UnionMembers(rs[1..], c);
        assert Inside(rs[0], c);
      }
      assert Cells(rs[0]) !! Union(rs[1..]);
    }
  }

  ghost function FreeSet(v: int): set<Cell>
    requires Version(v)
  {
    set x: int, y: int | 0 <= x < SizeOf(v) && 0 <= y < SizeOf(v) && !Taken(v, Cell(x, y)) :: Cell(x, y)
  }

  // ---------- The rectangles do not overlap ----------

  predicate CrossApart(a: seq<Rect>, b: seq<Rect>) {
    forall i, j :: 0 <= i < |a| && 0 <= j < |b| ==> Apart(a[i], b[j])
  }

  lemma ApartConcat(a: seq<Rect>, b: seq<Rect>)
    requires AllApart(a) && AllApart(b) && CrossApart(a, b)
    ensures AllApart(a + b)
  {
    hide Apart;
    var c := a + b;
    forall i, j | 0 <= i < j < |c|
      ensures Apart(c[i], c[j])
    {
      if j < |a| {
        assert c[i] == a[i] && c[j] == a[j];
      } else if i < |a| {
        assert c[i] == a[i] && c[j] == b[j - |a|];
      } else {
        assert c[i] == b[i - |a|] && c[j] == b[j - |a|];
      }
    }
  }

  /** All rectangles lie within the given columns and rows. */
  predicate Box(rs: seq<Rect>, x0: int, x1: int, y0: int, y1: int) {
    forall k :: 0 <= k < |rs| ==> x0 <= rs[k].x && rs[k].x + rs[k].w <= x1 && y0 <= rs[k].y && rs[k].y + rs[k].h <= y1
  }

  lemma CutBox(cx: int, cy: int)
    ensures Box(CutRects(cx, cy), cx - 2, cx + 3, cy - 2, cy + 3) && AllApart(CutRects(cx, cy))
  {
  }

  lemma BoxConcat(a: seq<Rect>, b: seq<Rect>, x0: int, x1: int, y0: int, y1: int)
    requires Box(a, x0, x1, y0, y1) && Box(b, x0, x1, y0, y1)
    ensures Box(a + b, x0, x1, y0, y1)
  {
  }

  lemma BoxWider(a: seq<Rect>, x0: int, x1: int, y0: int, y1: int, x1': int, y1': int)
    requires Box(a, x0, x1, y0, y1) && x1 <= x1' && y1 <= y1'
    ensures Box(a, x0, x1', y0, y1')
  {
  }

  lemma BoxLower(a: seq<Rect>, x0: int, x1: int, y0: int, y1: int, x0': int, y0': int)
    requires Box(a, x0, x1, y0, y1) && x0' <= x0 && y0' <= y0
    ensures Box(a, x0', x1, y0', y1)
  {
  }

  lemma BoxesApart(a: seq<Rect>, x0: int, x1: int, y0: int, y1: int,
                   b: seq<Rect>, u0: int, u1: int, v0: int, v1: int)
    requires Box(a, x0, x1, y0, y1) && Box(b, u0, u1, v0, v1)
    requires x1 <= u0 || y1 <= v0
    ensures CrossApart(a, b)
  {
  }

  /** The end of the columns, or rows, before coordinate k. */
  function Edge(row: seq<int>, k: nat): int
    requires k < |row|
  {
    if k == 0 then 4 else row[k] + 3
  }

  lemma EdgeGrows(row: seq<int>, v: int, k: nat)
    requires |row| >= 3 && Coordinates(row, v) && 1 <= k < |row|
    ensures Edge(row, k - 1) <= row[k] - 2 && row[k] - 2 >= 4
  {
    CoordinatesGrow(row, v, 1, k);
    if k > 1 {
      CoordinatesGrow(row, v, k - 1, k);
    }
  }

  lemma {:induction false} ColumnsApart(row: seq<int>, v: int, j: nat, i: nat)
    requires |row| >= 3 && Coordinates(row, v) && j + 1 < |row| && i < |row|
    ensures AllApart(RectColumns(row, j, i))
    ensures Box(RectColumns(row, j, i), 4, Edge(row, i), row[j + 1] - 2, row[j + 1] + 3)
    decreases i
  {
    hide AllApart, Box, CutRects, Coordinates, CrossApart;
    if i == 0 {
      NoRects(4, 4, row[j + 1] - 2, row[j + 1] + 3);
    } else {
      var cx, cy := row[i], row[j + 1];
      var before := RectColumns(row, j, i - 1);
      ColumnsApart(row, v, j, i - 1);
      EdgeGrows(row, v, i);
      BoxWider(before, 4, Edge(row, i - 1), cy - 2, cy + 3, Edge(row, i), cy + 3);
      if Corner(i - 1, j, |row| - 1) {
        assert RectColumns(row, j, i) == before;
      } else {
        CutBox(cx, cy);
        BoxesApart(before, 4, Edge(row, i - 1), cy - 2, cy + 3, CutRects(cx, cy), cx - 2, cx + 3, cy - 2, cy + 3);
        ApartConcat(before, CutRects(cx, cy));
        BoxLower(CutRects(cx, cy), cx - 2, cx + 3, cy - 2, cy + 3, 4, cy - 2);
        BoxConcat(before, CutRects(cx, cy), 4, Edge(row, i), cy - 2, cy + 3);
      }
    }
  }

  lemma NoRects(x0: int, x1: int, y0: int, y1: int)
    ensures AllApart([]) && Box([], x0, x1, y0, y1)
  {
  }

  lemma {:induction false} RowsApart(row: seq<int>, v: int, j: nat)
    requires |row| >= 3 && Coordinates(row, v) && j < |row|
    ensures AllApart(RectRows(row, j))
    ensures Box(RectRows(row, j), 4, row[|row| - 1] + 3, 4, Edge(row, j))
    decreases j
  {
    hide AllApart, Box, RectColumns, Coordinates, CrossApart;
    var right := row[|row| - 1] + 3;
    if j == 0 {
      NoRects(4, right, 4, 4);
    } else {
      var above, more := RectRows(row, j - 1), RectColumns(row, j - 1, |row| - 1);
      var cy := row[j];
      RowsApart(row, v, j - 1);
      ColumnsApart(row, v, j - 1, |row| - 1);
      EdgeGrows(row, v, j);
      BoxesApart(above, 4, right, 4, Edge(row, j - 1), more, 4, right, cy - 2, cy + 3);
      ApartConcat(above, more);
      BoxWider(above, 4, right, 4, Edge(row, j - 1), right, Edge(row, j));
      BoxLower(more, 4, right, cy - 2, cy + 3, 4, 4);
      BoxConcat(above, more, 4, right, 4, Edge(row, j));
    }
  }

  /** The areas of finders, timing lines, formats and both version strings. */
  function Reserved(n: int): seq<Rect> {
    FixedRects(n) + [Rect(0, n - 11, 6, 3), Rect(n - 11, 0, 3, 6)]
  }

  /** A crossing that is no corner is clear of all other areas. */
  lemma CutClear(row: seq<int>, v: int, i: nat, j: nat)
    requires |row| >= 3 && Coordinates(row, v) && i + 1 < |row| && j + 1 < |row|
    requires !Corner(i, j, |row| - 1)
    ensures CrossApart(Reserved(SizeOf(v)), CutRects(row[i + 1], row[j + 1]))
  {
    var n, cx, cy := SizeOf(v), row[i + 1], row[j + 1];
    CrossingPlace(row, v, i);
    CrossingPlace(row, v, j);
    hide Coordinates;
    if cy == 6 {
      CrossPair(Reserved(n), Rect(cx - 2, 4, 5, 2), Rect(cx - 2, 7, 5, 2));
    } else if cx == 6 {
      CrossPair(Reserved(n), Rect(4, cy - 2, 2, 5), Rect(7, cy - 2, 2, 5));
    } else {
    }
  }

  /** A coordinate is the first, the last, or well between them. */
  lemma CrossingPlace(row: seq<int>, v: int, k: nat)
    requires |row| >= 3 && Coordinates(row, v) && k + 1 < |row|
    ensures k == 0 <==> row[k + 1] == 6
    ensures k == |row| - 2 <==> row[k + 1] == SizeOf(v) - 7
    ensures row[k + 1] == 6 || row[k + 1] == SizeOf(v) - 7 || 18 <= row[k + 1] <= SizeOf(v) - 19
    ensures 25 <= SizeOf(v)
  {
    CoordinatesGrow(row, v, 1, |row| - 1);
    if k > 0 {
      CoordinatesGrow(row, v, 1, k + 1);
    }
    if k < |row| - 2 {
      CoordinatesGrow(row, v, k + 1, |row| - 1);
    }
  }

  lemma CrossPair(a: seq<Rect>, r: Rect, s: Rect)
    requires CrossApart(a, [r]) && CrossApart(a, [s])
    ensures CrossApart(a, [r, s])
  {
    hide Apart;
    forall i, j | 0 <= i < |a| && 0 <= j < 2
      ensures Apart(a[i], [r, s][j])
    {
      assert Apart(a[i], [r][0]) && Apart(a[i], [s][0]);
    }
  }

  lemma CrossConcat(a: seq<Rect>, b: seq<Rect>, c: seq<Rect>)
    requires CrossApart(a, b) && CrossApart(a, c)
    ensures CrossApart(a, b + c)
  {
    hide Apart;
  }

  lemma {:induction false} ColumnsClear(row: seq<int>, v: int, j: nat, i: nat)
    requires |row| >= 3 && Coordinates(row, v) && j + 1 < |row| && i < |row|
    ensures CrossApart(Reserved(SizeOf(v)), RectColumns(row, j, i))
    decreases i
  {
    hide CrossApart, Reserved, CutRects, Coordinates;
    if i == 0 {
      CrossNothing(Reserved(SizeOf(v)));
    } else {
      ColumnsClear(row, v, j, i - 1);
      if Corner(i - 1, j, |row| - 1) {
        assert RectColumns(row, j, i) == RectColumns(row, j, i - 1);
      } else {
        CutClear(row, v, i - 1, j);
        CrossConcat(Reserved(SizeOf(v)), RectColumns(row, j, i - 1), CutRects(row[i], row[j + 1]));
      }
    }
  }

  lemma CrossNothing(a: seq<Rect>)
    ensures CrossApart(a, [])
  {
  }

  lemma {:induction false} RowsClear(row: seq<int>, v: int, j: nat)
    requires |row| >= 3 && Coordinates(row, v) && j < |row|
    ensures CrossApart(Reserved(SizeOf(v)), RectRows(row, j))
    decreases j
  {
    hide CrossApart, Reserved, RectColumns, Coordinates;
    if j == 0 {
      CrossNothing(Reserved(SizeOf(v)));
    } else {
      RowsClear(row, v, j - 1);
      ColumnsClear(row, v, j - 1, |row| - 1);
      CrossConcat(Reserved(SizeOf(v)), RectRows(row, j - 1), RectColumns(row, j - 1, |row| - 1));
    }
  }

  lemma ReservedApart(n: int)
    requires 21 <= n
    ensures AllApart(FixedRects(n))
    ensures 25 <= n ==> AllApart(Reserved(n))
  {
  }

  /** The rectangles taken are those of finders, timing, formats, versions and cut alignment patterns. */
  lemma TakenRectsApart(v: int)
    requires Version(v)
    ensures AllApart(TakenRects(v))
  {
    var n := SizeOf(v);
    ReservedApart(n);
    if v == 1 {
      assert TakenRects(v) == FixedRects(n);
    } else {
      var row := AlignmentRow(v);
      RowFacts(v);
      RowsApart(row, v, |row| - 1);
      RowsClear(row, v, |row| - 1);
      hide AlignmentRow, RectRows, Coordinates, FixedRects;
      SpliceApart(FixedRects(n), AlignmentRects(v), VersionRects(v), Reserved(n));
    }
  }

  lemma SpliceApart(a: seq<Rect>, b: seq<Rect>, c: seq<Rect>, all: seq<Rect>)
    requires a + c == all || (c == [] && a <= all)
    requires AllApart(all) && AllApart(b) && CrossApart(all, b)
    ensures AllApart(a + b + c)
  {
    hide Apart;
    var s := a + b + c;
    forall i | 0 <= i < |s|
      ensures 0 <= s[i].w && 0 <= s[i].h
    {
      var k := if i < |a| then i else if i < |a| + |b| then i - |a| else i - |b|;
      assert s[i] == if |a| <= i < |a| + |b| then b[k] else all[k];
    }
    forall i, j | 0 <= i < j < |s|
      ensures Apart(s[i], s[j])
    {
      ApartSymmetric(s[i], s[j]);
      var k := if i < |a| then i else if i < |a| + |b| then i - |a| else i - |b|;
      var l := if j < |a| then j else if j < |a| + |b| then j - |a| else j - |b|;
      if i < |a| || i >= |a| + |b| {
        assert s[i] == all[k];
      } else {
        assert s[i] == b[k];
      }
      if j < |a| || j >= |a| + |b| {
        assert s[j] == all[l];
      } else {
        assert s[j] == b[l];
      }
    }
  }

  lemma ApartSymmetric(r: Rect, s: Rect)
    ensures Apart(r, s) <==> Apart(s, r)
  {
  }

  lemma TakenOnSymbol(v: int, c: Cell)
    requires Version(v) && Taken(v, c)
    ensures OnSymbol(v, c)
  {
    RectsConcat(v, c);
    if InsideAny(AlignmentRects(v), c) {
      var row := AlignmentRow(v);
      RowFacts(v);
      RowsApart(row, v, |row| - 1);
      hide AlignmentRow, RectRows, Taken, AllApart;
    }
  }

  lemma FreeModuleCount(v: int)
    requires Version(v)
    ensures |FreeSet(v)| == SizeOf(v) * SizeOf(v) - Area(TakenRects(v))
  {
    hide TakenRects, Area, InsideAny, AllApart;
    var n := SizeOf(v);
    var all := Cells(Rect(0, 0, n, n));
    var rs := TakenRects(v);
    RectSize(0, 0, n, n);
    TakenRectsApart(v);
    UnionSize(rs);
    forall c: Cell
      ensures c in Union(rs) <==> Taken(v, c)
      ensures Taken(v, c) ==> OnSymbol(v, c)
    {
      UnionMembers(rs, c);
      if Taken(v, c) {
        TakenOnSymbol(v, c);
      }
    }
    assert Union(rs) <= all;
    assert FreeSet(v) == all - Union(rs);
  }

  lemma {:induction false} AreaConcat(a: seq<Rect>, b: seq<Rect>)
    ensures Area(a + b) == Area(a) + Area(b)
  {
    if a == [] {
      assert a + b == b;
    } else {
      AreaConcat(a[1..], b);
      assert (a + b)[1..] == a[1..] + b;
    }
  }

  lemma CutArea(cx: int, cy: int)
    ensures Area(CutRects(cx, cy)) == if cx == 6 || cy == 6 then 20 else 25
  {
    var r := CutRects(cx, cy);
    if cx == 6 || cy == 6 {
      assert r[1..] == [r[1]];
      assert Area([r[1]]) == 10;
    } else {
      assert r[1..] == [];
    }
  }

  /** The area of the first i patterns of row j. */
  function ColumnsTotal(loop: int, j: int, i: int): int {
    if i == 0 then 0
    else if j == 0 then 20 * ((if i < loop then i else loop - 1) - 1)
    else if j < loop - 1 then 20 + 25 * (i - 1)
    else 25 * (i - 1)
  }

  lemma {:induction false} ColumnsArea(row: seq<int>, v: int, j: nat, i: nat)
    requires |row| >= 3 && Coordinates(row, v) && j + 1 < |row| && i < |row|
    ensures Area(RectColumns(row, j, i)) == ColumnsTotal(|row| - 1, j, i)
    decreases i
  {
    hide Area, CutRects, Coordinates;
    if i == 0 {
      NoArea();
    } else {
      ColumnsArea(row, v, j, i - 1);
      if Corner(i - 1, j, |row| - 1) {
        assert RectColumns(row, j, i) == RectColumns(row, j, i - 1);
      } else {
        AreaConcat(RectColumns(row, j, i - 1), CutRects(row[i], row[j + 1]));
        CutArea(row[i], row[j + 1]);
        CrossingPlace(row, v, i - 1);
        CrossingPlace(row, v, j);
      }
    }
  }

  lemma NoArea()
    ensures Area([]) == 0
  {
  }

  /** The area of the first j rows of patterns. */
  function RowsTotal(loop: int, j: int): int {
    if j == 0 then 0
    else if j < loop then 20 * (loop - 2) + (j - 1) * (25 * loop - 5)
    else 20 * (loop - 2) + (loop - 2) * (25 * loop - 5) + 25 * (loop - 1)
  }

  lemma {:induction false} RowsArea(row: seq<int>, v: int, j: nat)
    requires |row| >= 3 && Coordinates(row, v) && j < |row|
    ensures Area(RectRows(row, j)) == RowsTotal(|row| - 1, j)
    decreases j
  {
    hide Area, RectColumns, Coordinates;
    if j == 0 {
      NoArea();
    } else {
      RowsArea(row, v, j - 1);
      ColumnsArea(row, v, j - 1, |row| - 1);
      AreaConcat(RectRows(row, j - 1), RectColumns(row, j - 1, |row| - 1));
    }
  }

  /** The area that is taken in a symbol of version v. */
  function TakenTotal(v: int): int {
    var loop := v / 7 + 2;
    225 + 8 * v + (if v == 1 then 0 else RowsTotal(loop, loop)) + (if v < 7 then 0 else 36)
  }

  lemma TakenArea(v: int)
    requires Version(v)
    ensures Area(TakenRects(v)) == TakenTotal(v)
  {
    var n := SizeOf(v);
    AreaConcat(FixedRects(n) + AlignmentRects(v), VersionRects(v));
    AreaConcat(FixedRects(n), AlignmentRects(v));
    FixedArea(n);
    AlignmentArea(v);
    VersionArea(v);
    hide Area, FixedRects, AlignmentRects, VersionRects, RowsTotal;
  }

  lemma FixedArea(n: int)
    ensures Area(FixedRects(n)) == 225 + 2 * (n - 17)
  {
    var r := FixedRects(n);
    assert r[1..] == [r[1], r[2], r[3], r[4]];
    assert r[1..][1..] == [r[2], r[3], r[4]];
    assert r[1..][1..][1..] == [r[3], r[4]];
    assert r[1..][1..][1..][1..] == [r[4]];
    assert Area([r[4]]) == n - 17;
    assert Area([r[3], r[4]]) == 2 * (n - 17);
    assert Area([r[2], r[3], r[4]]) == 72 + 2 * (n - 17);
    assert Area([r[1], r[2], r[3], r[4]]) == 144 + 2 * (n - 17);
  }

  lemma VersionArea(v: int)
    ensures Area(VersionRects(v)) == if v < 7 then 0 else 36
  {
    if v >= 7 {
      var r := VersionRects(v);
      assert r[1..] == [r[1]];
      assert Area([r[1]]) == 18;
    }
  }

  lemma AlignmentArea(v: int)
    requires Version(v)
    ensures Area(AlignmentRects(v)) == if v == 1 then 0 else RowsTotal(v / 7 + 2, v / 7 + 2)
  {
    if v == 1 {
    } else {
      var row := AlignmentRow(v);
      RowFacts(v);
      hide AlignmentRow, RectRows, Area;
      RowsArea(row, v, |row| - 1);
    }
  }
}
