/** The function patterns of all versions: which modules are taken before the bits are placed. */
module Pattern {
  import opened Common
  import opened Placement

  predicate Version(v: int) {
    1 <= v <= 40
  }

  function SizeOf(v: int): int {
    4 * (v - 1) + 21
  }

  // ---------- Strokes ----------

  /** What a stroke leaves in a module: a constant, a ring pattern around a centre, or a timing line. */
  datatype Ink = Solid(value: int) | Finder(cx: int, cy: int) | Alignment(cx: int, cy: int) | Timing

  /** A filled rectangle of w columns and h rows whose top left module is (x, y). */
  datatype Stroke = Stroke(x: int, y: int, w: int, h: int, ink: Ink)

  predicate Covers(s: Stroke, c: Cell) {
    s.x <= c.x < s.x + s.w && s.y <= c.y < s.y + s.h
  }

  function Ring(cx: int, cy: int, c: Cell): int {
    var dx := if c.x < cx then cx - c.x else c.x - cx;
    var dy := if c.y < cy then cy - c.y else c.y - cy;
    if dx < dy then dy else dx
  }

  function InkAt(ink: Ink, c: Cell): int {
    match ink
    case Solid(value) => value
    case Finder(cx, cy) => if Ring(cx, cy, c) == 2 || Ring(cx, cy, c) == 4 then 0 else 1
    case Alignment(cx, cy) => if Ring(cx, cy, c) == 1 then 0 else 1
    case Timing => if (c.x + c.y) % 2 == 0 then 1 else 0
  }

  function Paint(g: Grid, s: Stroke): (h: Grid)
    ensures |h| == |g| && forall x :: 0 <= x < |g| ==> |h[x]| == |g[x]|
    ensures forall c: Cell :: InGrid(g, c) ==> At(h, c) == if Covers(s, c) then InkAt(s.ink, c) else At(g, c)
  {
    seq(|g|, x requires 0 <= x < |g| =>
      seq(|g[x]|, y requires 0 <= y < |g[x]| =>
        if Covers(s, Cell(x, y)) then InkAt(s.ink, Cell(x, y)) else g[x][y]))
  }

  function PaintAll(g: Grid, ss: seq<Stroke>): (h: Grid)
    ensures |h| == |g| && forall x :: 0 <= x < |g| ==> |h[x]| == |g[x]|
  {
    if ss == [] then g else Paint(PaintAll(g, ss[..|ss| - 1]), ss[|ss| - 1])
  }

  lemma SameGrid(g: Grid, h: Grid)
    requires |h| == |g| && forall x :: 0 <= x < |g| ==> |h[x]| == |g[x]|
    requires forall c: Cell :: InGrid(g, c) ==> At(h, c) == At(g, c)
    ensures g == h
  {
    forall x | 0 <= x < |g|
      ensures g[x] == h[x]
    {
      forall y | 0 <= y < |g[x]|
        ensures g[x][y] == h[x][y]
      {
        assert InGrid(g, Cell(x, y));
      }
    }
  }

  /** The nested loops that fill a rectangle. */
  method Draw(a: array2<int>, s: Stroke)
    requires 0 <= s.x && 0 <= s.w && s.x + s.w <= a.Length0
    requires 0 <= s.y && 0 <= s.h && s.y + s.h <= a.Length1
    modifies a
    ensures Snapshot(a) == Paint(old(Snapshot(a)), s)
  {
    var y := s.y;
    while y < s.y + s.h
      invariant s.y <= y <= s.y + s.h
      invariant forall i, j :: 0 <= i < a.Length0 && 0 <= j < a.Length1 ==>
        a[i, j] == if Covers(s, Cell(i, j)) && j < y then InkAt(s.ink, Cell(i, j)) else old(a[i, j])
    {
      var x := s.x;
      while x < s.x + s.w
        invariant s.x <= x <= s.x + s.w
        invariant forall i, j :: 0 <= i < a.Length0 && 0 <= j < a.Length1 ==>
          a[i, j] == if Covers(s, Cell(i, j)) && (j < y || (j == y && i < x)) then InkAt(s.ink, Cell(i, j))
                     else old(a[i, j])
      {
        a[x, y] := InkAt(s.ink, Cell(x, y));
        x := x + 1;
      }
      y := y + 1;
    }
    SameGrid(Snapshot(a), Paint(old(Snapshot(a)), s));
  }

  // ---------- The strokes of a version ----------

  // Rows of the alignment table: the number of patterns, then their coordinates.

  function AlignmentRow1(v: int): (row: seq<int>) {
    if v == 1 then [0]
    else if v == 2 then [1, 6, 18]
    else if v == 3 then [1, 6, 22]
    else if v == 4 then [1, 6, 26]
    else if v == 5 then [1, 6, 30]
    else if v == 6 then [1, 6, 34]
    else if v == 7 then [6, 6, 22, 38]
    else if v == 8 then [6, 6, 24, 42]
    else if v == 9 then [6, 6, 26, 46]
    else [6, 6, 28, 50]
  }

  function AlignmentRow2(v: int): (row: seq<int>) {
    if v == 11 then [6, 6, 30, 54]
    else if v == 12 then [6, 6, 32, 58]
    else if v == 13 then [6, 6, 34, 62]
    else if v == 14 then [13, 6, 26, 46, 66]
    else if v == 15 then [13, 6, 26, 48, 70]
    else if v == 16 then [13, 6, 26, 50, 74]
    else if v == 17 then [13, 6, 30, 54, 78]
    else if v == 18 then [13, 6, 30, 56, 82]
    else if v == 19 then [13, 6, 30, 58, 86]
    else [13, 6, 34, 62, 90]
  }

  function AlignmentRow3(v: int): (row: seq<int>) {
    if v == 21 then [22, 6, 28, 50, 72, 94]
    else if v == 22 then [22, 6, 26, 50, 74, 98]
    else if v == 23 then [22, 6, 30, 54, 78, 102]
    else if v == 24 then [22, 6, 28, 54, 80, 106]
    else if v == 25 then [22, 6, 32, 58, 84, 110]
    else if v == 26 then [22, 6, 30, 58, 86, 114]
    else if v == 27 then [22, 6, 34, 62, 90, 118]
    else if v == 28 then [33, 6, 26, 50, 74, 98, 122]
    else if v == 29 then [33, 6, 30, 54, 78, 102, 126]
    else [33, 6, 26, 52, 78, 104, 130]
  }

  function AlignmentRow4(v: int): (row: seq<int>) {
    if v == 31 then [33, 6, 30, 56, 82, 108, 134]
    else if v == 32 then [33, 6, 34, 60, 86, 112, 138]
    else if v == 33 then [33, 6, 30, 58, 86, 114, 142]
    else if v == 34 then [33, 6, 34, 62, 90, 118, 146]
    else if v == 35 then [46, 6, 30, 54, 78, 102, 126, 150]
    else if v == 36 then [46, 6, 24, 50, 76, 102, 128, 154]
    else if v == 37 then [46, 6, 28, 54, 80, 106, 132, 158]
    else if v == 38 then [46, 6, 32, 58, 84, 110, 136, 162]
    else if v == 39 then [46, 6, 26, 54, 82, 110, 138, 166]
    else [46, 6, 30, 58, 86, 114, 142, 170]
  }

  function AlignmentRow(v: int): (row: seq<int>)
    requires Version(v)
  {
    if v <= 10 then AlignmentRow1(v) else if v <= 20 then AlignmentRow2(v)
    else if v <= 30 then AlignmentRow3(v) else AlignmentRow4(v)
  }

  function SquareRoot(m: nat, r: nat): (s: nat)
    requires r * r <= m
    ensures s * s <= m < (s + 1) * (s + 1)
    decreases m - r * r
  {
    if (r + 1) * (r + 1) <= m then SquareRoot(m, r + 1) else r
  }

  /** Three of the crossings lie under the finder patterns. */
  predicate Corner(i: int, j: int, loop: int) {
    (i == 0 && j == 0) || (i == 0 && j == loop - 1) || (i == loop - 1 && j == 0)
  }

  function AlignmentStroke(cx: int, cy: int): Stroke {
    Stroke(cx - 2, cy - 2, 5, 5, Alignment(cx, cy))
  }

  /** The patterns drawn in row j for the first i columns. */
  function AlignmentColumns(row: seq<int>, j: nat, i: nat): seq<Stroke>
    requires j + 1 < |row| && i < |row|
  {
    if i == 0 then []
    else AlignmentColumns(row, j, i - 1)
         + (if Corner(i - 1, j, |row| - 1) then [] else [AlignmentStroke(row[i], row[j + 1])])
  }

  function AlignmentRows(row: seq<int>, j: nat): seq<Stroke>
    requires j < |row|
  {
    if j == 0 then [] else AlignmentRows(row, j - 1) + AlignmentColumns(row, j - 1, |row| - 1)
  }

  const BLANK := [Stroke(0, 0, MAX_SIZE, MAX_SIZE, Solid(FREE))]

  function Finders(n: int): seq<Stroke> {
    [Stroke(0, 0, 8, 8, Finder(3, 3)),
     Stroke(n - 8, 0, 8, 8, Finder(n - 4, 3)),
     Stroke(0, n - 8, 8, 8, Finder(3, n - 4))]
  }

  function Timings(n: int): seq<Stroke> {
    [Stroke(8, 6, n - 16, 1, Timing), Stroke(6, 8, 1, n - 16, Timing)]
  }

  function Alignments(v: int): seq<Stroke>
    requires Version(v)
  {
    if v == 1 then [] else AlignmentRows(AlignmentRow(v), |AlignmentRow(v)| - 1)
  }

  /** The dark module and the areas kept for the format string. */
  function FormatAreas(n: int): seq<Stroke> {
    [Stroke(8, n - 8, 1, 1, Solid(1)),
     Stroke(0, 8, 6, 1, Solid(0)), Stroke(7, 8, 1, 1, Solid(0)),
     Stroke(8, 0, 1, 6, Solid(0)), Stroke(8, 7, 1, 2, Solid(0)),
     Stroke(8, n - 7, 1, 7, Solid(0)), Stroke(n - 8, 8, 8, 1, Solid(0))]
  }

  /** The areas kept for the version string. */
  function VersionAreas(v: int): seq<Stroke> {
    if v < 7 then []
    else [Stroke(0, SizeOf(v) - 11, 6, 3, Solid(0)), Stroke(SizeOf(v) - 11, 0, 3, 6, Solid(0))]
  }

  function Strokes(v: int): seq<Stroke>
    requires Version(v)
  {
    var n := SizeOf(v);
    BLANK + Finders(n) + Timings(n) + Alignments(v) + FormatAreas(n) + VersionAreas(v)
  }

  function EmptyGrid(): (g: Grid)
    ensures Square(g, MAX_SIZE)
  {
    seq(MAX_SIZE, _ => seq(MAX_SIZE, _ => FREE))
  }

  /** The matrix holding the function patterns of version v. */
  function PatternGrid(v: int): (g: Grid)
    requires Version(v)
    ensures Square(g, MAX_SIZE)
  {
    PaintAll(EmptyGrid(), Strokes(v))
  }

  lemma {:induction false} PaintConcat(g: Grid, a: seq<Stroke>, b: seq<Stroke>)
    ensures PaintAll(g, a + b) == PaintAll(PaintAll(g, a), b)
  {
    if b == [] {
      assert a + b == a;
    } else {
      PaintConcat(g, a, b[..|b| - 1]);
      assert (a + b)[..|a + b| - 1] == a + b[..|b| - 1];
    }
  }

  lemma PaintNone(g: Grid)
    ensures PaintAll(g, []) == g
  {
  }

  lemma PaintOne(g: Grid, s: Stroke)
    ensures PaintAll(g, [s]) == Paint(g, s)
  {
    assert [s][..0] == [];
  }

  /** The first stroke covers the whole matrix, so what was there before does not matter. */
  lemma BlankForgets(g: Grid, h: Grid)
    requires Square(g, MAX_SIZE) && Square(h, MAX_SIZE)
    ensures PaintAll(g, BLANK) == PaintAll(h, BLANK)
  {
    PaintOne(g, BLANK[0]);
    PaintOne(h, BLANK[0]);
    SameGrid(Paint(g, BLANK[0]), Paint(h, BLANK[0]));
  }

  /** Draws ss on top of what has been drawn on g so far. */
  method DrawAll(a: array2<int>, ss: seq<Stroke>, ghost g: Grid, ghost drawn: seq<Stroke>)
    requires forall k :: 0 <= k < |ss| ==> 0 <= ss[k].x && 0 <= ss[k].w && ss[k].x + ss[k].w <= a.Length0
    requires forall k :: 0 <= k < |ss| ==> 0 <= ss[k].y && 0 <= ss[k].h && ss[k].y + ss[k].h <= a.Length1
    requires Snapshot(a) == PaintAll(g, drawn)
    modifies a
    ensures Snapshot(a) == PaintAll(g, drawn + ss)
  {
    var k := 0;
    assert drawn + ss[..0] == drawn;
    while k < |ss|
      invariant 0 <= k <= |ss|
      invariant Snapshot(a) == PaintAll(g, drawn + ss[..k])
    {
      Draw(a, ss[k]);
      PaintConcat(g, drawn + ss[..k], [ss[k]]);
      PaintOne(PaintAll(g, drawn + ss[..k]), ss[k]);
      assert drawn + ss[..k + 1] == drawn + ss[..k] + [ss[k]];
      k := k + 1;
    }
    assert ss[..k] == ss;
  }

  /** The coordinates of one row of the table: from 6 to seven before the end, well apart. */
  predicate Coordinates(row: seq<int>, v: int) {
    && |row| == v / 7 + 3 && |row| >= 3
    && row[0] + 3 == (|row| - 1) * (|row| - 1) && row[0] > 0
    && row[1] == 6 && row[|row| - 1] == SizeOf(v) - 7
    && forall k :: 1 <= k < |row| - 1 ==> row[k] + 12 <= row[k + 1]
  }

  lemma RowFacts1(v: int)
    requires 2 <= v <= 10
    ensures Coordinates(AlignmentRow1(v), v)
  {
  }

  lemma RowFacts2(v: int)
    requires 11 <= v <= 20
    ensures Coordinates(AlignmentRow2(v), v)
  {
  }

  lemma RowFacts3(v: int)
    requires 21 <= v <= 30
    ensures Coordinates(AlignmentRow3(v), v)
  {
  }

  lemma RowFacts4(v: int)
    requires 31 <= v <= 40
    ensures Coordinates(AlignmentRow4(v), v)
  {
  }

  lemma RowFacts(v: int)
    requires Version(v) && v > 1
    ensures Coordinates(AlignmentRow(v), v)
  {
    hide AlignmentRow1, AlignmentRow2, AlignmentRow3, AlignmentRow4, Coordinates;
    if v <= 10 {
      RowFacts1(v);
    } else if v <= 20 {
      RowFacts2(v);
    } else if v <= 30 {
      RowFacts3(v);
    } else {
      RowFacts4(v);
    }
  }

  lemma {:induction false} CoordinatesGrow(row: seq<int>, v: int, j: nat, k: nat)
    requires |row| >= 3 && Coordinates(row, v) && 1 <= j <= k < |row|
    ensures j < k ==> row[j] + 12 <= row[k]
    ensures row[j] <= row[k]
    decreases k
  {
    if j == k {
    } else {
      CoordinatesGrow(row, v, j, k - 1);
      assert row[k - 1] + 12 <= row[k - 1 + 1];
    }
  }

  /** The loop bound computed from the number of patterns is the number of coordinates. */
  lemma RootOfSquare(m: nat, s: nat, t: nat)
    requires m == s * s && t * t <= m < (t + 1) * (t + 1)
    ensures t == s
  {
    if t < s {
      SquareGrows(t + 1, s);
    } else if s < t {
      SquareGrows(s + 1, t);
    }
  }

  lemma SquareGrows(a: nat, b: nat)
    requires a <= b
    ensures a * a <= b * b
    ensures a > 0 ==> (a - 1) * (a - 1) < a * a
  {
    MulMonotone(a, a, b);
    MulMonotone(b, a, b);
    assert a * b == b * a;
  }

  /** The inner loop: the crossings of one row of coordinates. */
  method DrawAlignmentRow(a: array2<int>, row: seq<int>, loop: nat, j: nat, ghost g: Grid, ghost before: seq<Stroke>)
    requires a.Length0 == MAX_SIZE && a.Length1 == MAX_SIZE
    requires loop == |row| - 1 && j < loop && forall k :: 1 <= k < |row| ==> 6 <= row[k] <= 170
    requires Snapshot(a) == PaintAll(g, before)
    modifies a
    ensures Snapshot(a) == PaintAll(g, before + AlignmentColumns(row, j, loop))
  {
    hide PaintAll, Snapshot;
    var i := 0;
    assert before + AlignmentColumns(row, j, 0) == before;
    while i < loop
      invariant 0 <= i <= loop
      invariant Snapshot(a) == PaintAll(g, before + AlignmentColumns(row, j, i))
    {
      ColumnsStep(row, j, i, before);
      if !Corner(i, j, loop) {
        var s := AlignmentStroke(row[i + 1], row[j + 1]);
        DrawAll(a, [s], g, before + AlignmentColumns(row, j, i));
      }
      i := i + 1;
    }
  }

  lemma RowBounds(row: seq<int>, v: int)
    requires Version(v) && |row| >= 3 && Coordinates(row, v)
    ensures row[0] >= 0 && forall k :: 1 <= k < |row| ==> 6 <= row[k] <= 170
  {
    MulMonotone(|row| - 1, 2, |row| - 1);
    forall k | 1 <= k < |row|
      ensures 6 <= row[k] <= 170
    {
      CoordinatesGrow(row, v, 1, k);
      CoordinatesGrow(row, v, k, |row| - 1);
    }
  }

  /** The doubly nested loop over the crossings of the alignment coordinates. */
  method DrawAlignments(a: array2<int>, v: int, ghost g: Grid, ghost drawn: seq<Stroke>)
    requires Version(v) && v > 1
    requires a.Length0 == MAX_SIZE && a.Length1 == MAX_SIZE
    requires Snapshot(a) == PaintAll(g, drawn)
    modifies a
    ensures Snapshot(a) == PaintAll(g, drawn + Alignments(v))
  {
    var row := AlignmentRow(v);
    RowFacts(v);
    RowBounds(row, v);
    hide PaintAll, AlignmentRow, Snapshot, SquareRoot, AlignmentColumns;
    var loop := SquareRoot(row[0] + 3, 0);
    RootOfSquare(row[0] + 3, |row| - 1, loop);
    var j := 0;
    assert drawn + AlignmentRows(row, 0) == drawn;
    while j < loop
      invariant 0 <= j <= loop
      invariant Snapshot(a) == PaintAll(g, drawn + AlignmentRows(row, j))
    {
      DrawAlignmentRow(a, row, loop, j, g, drawn + AlignmentRows(row, j));
      RowsStep(row, j, drawn);
      j := j + 1;
    }
  }

  lemma ColumnsStep(row: seq<int>, j: nat, i: nat, before: seq<Stroke>)
    requires j + 1 < |row| && i + 1 < |row|
    ensures before + AlignmentColumns(row, j, i + 1) ==
            if Corner(i, j, |row| - 1) then before + AlignmentColumns(row, j, i)
            else before + AlignmentColumns(row, j, i) + [AlignmentStroke(row[i + 1], row[j + 1])]
  {
  }

  lemma RowsStep(row: seq<int>, j: nat, drawn: seq<Stroke>)
    requires j + 1 < |row|
    ensures drawn + AlignmentRows(row, j) + AlignmentColumns(row, j, |row| - 1) == drawn + AlignmentRows(row, j + 1)
  {
  }

  lemma NoAlignments()
    ensures Alignments(1) == []
  {
  }

  lemma FirstRow()
    ensures AlignmentRow(1) == [0]
  {
  }

  method FunctionPatterns(a: array2<int>, v: int) returns (n: int)
    requires Version(v)
    requires a.Length0 == MAX_SIZE && a.Length1 == MAX_SIZE
    modifies a
    ensures n == SizeOf(v)
    ensures Snapshot(a) == PatternGrid(v)
  {
    hide PaintAll, Alignments, EmptyGrid, Snapshot, AlignmentRow;
    FirstRow();
    ghost var g, e := Snapshot(a), EmptyGrid();
    n := (v - 1) * 4 + 21;
    PaintNone(g);
    assert [] + BLANK == BLANK;
    DrawAll(a, BLANK, g, []);
    BlankForgets(g, e);
    ghost var drawn := BLANK;
    DrawAll(a, Finders(n), e, drawn);
    drawn := drawn + Finders(n);
    DrawAll(a, Timings(n), e, drawn);
    drawn := drawn + Timings(n);
    assert drawn + [] == drawn;
    if v > 1 {
      RowFacts(v);
      RowBounds(AlignmentRow(v), v);
    }
    if AlignmentRow(v)[0] > 0 {
      DrawAlignments(a, v, e, drawn);
    }
    NoAlignments();
    drawn := drawn + Alignments(v);
    DrawAll(a, FormatAreas(n), e, drawn);
    drawn := drawn + FormatAreas(n);
    assert drawn + [] == drawn;
    if v >= 7 {
      DrawAll(a, VersionAreas(v), e, drawn);
    }
  }

  // ---------- Which modules are taken ----------

  predicate Covered(ss: seq<Stroke>, c: Cell) {
    exists k :: 0 <= k < |ss| && Covers(ss[k], c)
  }

  predicate NeverFree(ss: seq<Stroke>) {
    forall k :: 0 <= k < |ss| ==> ss[k].ink.Solid? ==> ss[k].ink.value != FREE
  }

  lemma {:induction false} PaintedFree(g: Grid, ss: seq<Stroke>, c: Cell)
    requires InGrid(g, c) && NeverFree(ss)
    ensures At(PaintAll(g, ss), c) == FREE <==> At(g, c) == FREE && !Covered(ss, c)
  {
    if ss == [] {
    } else {
      PaintedFree(g, ss[..|ss| - 1], c);
    }
  }

  predicate BinaryInk(ss: seq<Stroke>) {
    forall k :: 0 <= k < |ss| ==> ss[k].ink.Solid? ==> -1 <= ss[k].ink.value <= 1
  }

  lemma {:induction false} PaintedBinary(g: Grid, ss: seq<Stroke>, c: Cell)
    requires InGrid(g, c) && BinaryInk(ss) && -1 <= At(g, c) <= 1
    ensures -1 <= At(PaintAll(g, ss), c) <= 1
  {
    if ss == [] {
    } else {
      PaintedBinary(g, ss[..|ss| - 1], c);
    }
  }

  predicate Rings(ss: seq<Stroke>) {
    forall k :: 0 <= k < |ss| ==> ss[k].ink.Alignment?
  }

  lemma {:induction false} ColumnsRings(row: seq<int>, j: nat, i: nat)
    requires j + 1 < |row| && i < |row|
    ensures Rings(AlignmentColumns(row, j, i))
    decreases i
  {
    if i == 0 {
    } else {
      ColumnsRings(row, j, i - 1);
    }
  }

  lemma {:induction false} RowsRings(row: seq<int>, j: nat)
    requires j < |row|
    ensures Rings(AlignmentRows(row, j))
    decreases j
  {
    if j == 0 {
    } else {
      RowsRings(row, j - 1);
      ColumnsRings(row, j - 1, |row| - 1);
    }
  }

  lemma AlignmentsRings(v: int)
    requires Version(v)
    ensures Rings(Alignments(v))
  {
    if v == 1 {
    } else {
      RowFacts(v);
      RowsRings(AlignmentRow(v), |AlignmentRow(v)| - 1);
    }
  }

  lemma PartsNeverFree(v: int)
    requires Version(v)
    ensures NeverFree(Finders(SizeOf(v))) && NeverFree(Timings(SizeOf(v))) && NeverFree(Alignments(v))
    ensures NeverFree(FormatAreas(SizeOf(v))) && NeverFree(VersionAreas(v))
  {
    AlignmentsRings(v);
    hide Alignments, Rings;
  }

  lemma StrokesNeverFree(v: int)
    requires Version(v)
    ensures NeverFree(Finders(SizeOf(v)) + Timings(SizeOf(v)) + Alignments(v) + FormatAreas(SizeOf(v))
                      + VersionAreas(v))
  {
    var n := SizeOf(v);
    PartsNeverFree(v);
    hide NeverFree, Alignments, Finders, Timings, FormatAreas, VersionAreas;
  }

  lemma StrokesBinary(v: int)
    requires Version(v)
    ensures BinaryInk(Strokes(v))
  {
    var n := SizeOf(v);
    AlignmentsRings(v);
    assert BinaryInk(BLANK) && BinaryInk(Finders(n)) && BinaryInk(Timings(n));
    assert BinaryInk(FormatAreas(n)) && BinaryInk(VersionAreas(v));
    hide BinaryInk, Alignments, Finders, Timings, FormatAreas, VersionAreas;
  }

  /** Apart from free modules the pattern consists of zeros and ones. */
  lemma PatternBinary(v: int, c: Cell)
    requires Version(v) && 0 <= c.x < MAX_SIZE && 0 <= c.y < MAX_SIZE
    ensures -1 <= At(PatternGrid(v), c) <= 1
  {
    StrokesBinary(v);
    hide BinaryInk, Strokes;
    PaintedBinary(EmptyGrid(), Strokes(v), c);
  }
}
