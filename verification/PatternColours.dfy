/** The colours of the function patterns in the finished pattern matrix, for all versions. */
module PatternColours {
  import opened Placement
  import opened Pattern
  import opened FreeModules

  // ---------- The last stroke counts ----------

  /** All strokes over a module give it the same value. */
  predicate Inked(ss: seq<Stroke>, c: Cell, w: int) {
    forall k :: 0 <= k < |ss| && Covers(ss[k], c) ==> InkAt(ss[k].ink, c) == w
  }

  lemma InkedConcat(a: seq<Stroke>, b: seq<Stroke>, c: Cell, w: int)
    requires Inked(a, c, w) && Inked(b, c, w)
    ensures Inked(a + b, c, w)
  {
    hide Covers, InkAt;
  }

  lemma NothingInked(c: Cell, w: int)
    ensures Inked([], c, w)
  {
  }

  lemma {:induction false} PaintedInk(g: Grid, ss: seq<Stroke>, c: Cell, w: int)
    requires InGrid(g, c) && Inked(ss, c, w)
    ensures At(PaintAll(g, ss), c) == if Covered(ss, c) then w else At(g, c)
  {
    hide Covers, InkAt;
    if ss == [] {
    } else {
      var front, last := ss[..|ss| - 1], ss[|ss| - 1];
      assert ss == front + [last];
      assert forall k :: 0 <= k < |front| ==> front[k] == ss[k];
      PaintedInk(g, front, c, w);
      CoveredConcat(front, [last], c);
      assert Covered([last], c) <==> Covers([last][0], c);
    }
  }

  /** Painting more strokes: they give the value w, or leave the module alone. */
  lemma PaintedOver(g: Grid, a: seq<Stroke>, b: seq<Stroke>, c: Cell, w: int)
    requires InGrid(g, c) && Inked(b, c, w)
    ensures At(PaintAll(g, a + b), c) == if Covered(b, c) then w else At(PaintAll(g, a), c)
  {
    PaintConcat(g, a, b);
    PaintedInk(PaintAll(g, a), b, c, w);
  }

  /** The layers of the pattern, from the last one drawn to the first. */
  lemma PatternLayers(v: int, c: Cell, f: int, t: int, a: int, m: int, r: int)
    requires Version(v) && OnSymbol(v, c)
    requires Inked(Finders(SizeOf(v)), c, f) && Inked(Timings(SizeOf(v)), c, t) && Inked(Alignments(v), c, a)
    requires Inked(FormatAreas(SizeOf(v)), c, m) && Inked(VersionAreas(v), c, r)
    ensures At(PatternGrid(v), c) ==
            if Covered(VersionAreas(v), c) then r else if Covered(FormatAreas(SizeOf(v)), c) then m
            else if Covered(Alignments(v), c) then a else if Covered(Timings(SizeOf(v)), c) then t
            else if Covered(Finders(SizeOf(v)), c) then f else FREE
  {
    var n, e := SizeOf(v), EmptyGrid();
    var fs, ts, al, ms, rs := Finders(n), Timings(n), Alignments(v), FormatAreas(n), VersionAreas(v);
    assert InGrid(e, c);
    AllFree(c);
    hide Finders, Timings, Alignments, FormatAreas, VersionAreas, Covered, Inked, PaintAll, EmptyGrid, BLANK;
    PaintedOver(e, BLANK, fs, c, f);
    PaintedOver(e, BLANK + fs, ts, c, t);
    PaintedOver(e, BLANK + fs + ts, al, c, a);
    PaintedOver(e, BLANK + fs + ts + al, ms, c, m);
    PaintedOver(e, BLANK + fs + ts + al + ms, rs, c, r);
  }

  // ---------- The alignment patterns ----------

  /** Crossing (i, j) of the coordinates has a pattern. */
  predicate Crossing(row: seq<int>, i: int, j: int) {
    0 <= i < |row| - 1 && 0 <= j < |row| - 1 && !Corner(i, j, |row| - 1)
  }

  function PatternOf(row: seq<int>, i: int, j: int): Stroke
    requires Crossing(row, i, j)
  {
    AlignmentStroke(row[i + 1], row[j + 1])
  }

  /** All alignment patterns over a module give it the same value. */
  ghost predicate CrossingsInked(row: seq<int>, c: Cell, w: int) {
    forall i, j :: Crossing(row, i, j) && Covers(PatternOf(row, i, j), c) ==> InkAt(PatternOf(row, i, j).ink, c) == w
  }

  lemma {:induction false} ColumnsInked(row: seq<int>, j: nat, i: nat, c: Cell, w: int)
    requires j + 1 < |row| && i < |row| && CrossingsInked(row, c, w)
    ensures Inked(AlignmentColumns(row, j, i), c, w)
    decreases i
  {
    hide Covers, InkAt, AlignmentStroke;
    if i == 0 {
    } else {
      ColumnsInked(row, j, i - 1, c, w);
      if !Corner(i - 1, j, |row| - 1) {
        assert Crossing(row, i - 1, j) && PatternOf(row, i - 1, j) == AlignmentStroke(row[i], row[j + 1]);
        InkedConcat(AlignmentColumns(row, j, i - 1), [AlignmentStroke(row[i], row[j + 1])], c, w);
      }
    }
  }

  lemma {:induction false} RowsInked(row: seq<int>, j: nat, c: Cell, w: int)
    requires j < |row| && CrossingsInked(row, c, w)
    ensures Inked(AlignmentRows(row, j), c, w)
    decreases j
  {
    hide AlignmentColumns, CrossingsInked, Inked;
    if j == 0 {
      NothingInked(c, w);
    } else {
      RowsInked(row, j - 1, c, w);
      ColumnsInked(row, j - 1, |row| - 1, c, w);
      InkedConcat(AlignmentRows(row, j - 1), AlignmentColumns(row, j - 1, |row| - 1), c, w);
    }
  }

  lemma {:induction false} ColumnsHold(row: seq<int>, j: nat, i: nat, k: nat, c: Cell)
    requires k < i < |row| && Crossing(row, k, j) && Covers(PatternOf(row, k, j), c)
    ensures Covered(AlignmentColumns(row, j, i), c)
    decreases i
  {
    hide Covers, AlignmentStroke;
    var last := AlignmentStroke(row[i], row[j + 1]);
    if k == i - 1 {
      assert Covered([last], c) by { assert Covers([last][0], c); }
      CoveredConcat(AlignmentColumns(row, j, i - 1), [last], c);
    } else {
      ColumnsHold(row, j, i - 1, k, c);
      CoveredConcat(AlignmentColumns(row, j, i - 1), if Corner(i - 1, j, |row| - 1) then [] else [last], c);
    }
  }

  lemma {:induction false} RowsHold(row: seq<int>, j: nat, i: nat, k: nat, c: Cell)
    requires k < j < |row| && Crossing(row, i, k) && Covers(PatternOf(row, i, k), c)
    ensures Covered(AlignmentRows(row, j), c)
    decreases j
  {
    hide Covers, AlignmentStroke, AlignmentColumns;
    if k == j - 1 {
      ColumnsHold(row, k, |row| - 1, i, c);
    } else {
      RowsHold(row, j - 1, i, k, c);
    }
    CoveredConcat(AlignmentRows(row, j - 1), AlignmentColumns(row, j - 1, |row| - 1), c);
  }

  /** The three corners of the symbol with the areas kept there. */
  predicate InCorner(n: int, c: Cell) {
    (c.x <= 8 && c.y <= 8) || (n - 11 <= c.x && c.y <= 8) || (c.x <= 8 && n - 11 <= c.y)
  }

  lemma CrossingMissesCorners(row: seq<int>, v: int, i: int, j: int, c: Cell)
    requires |row| >= 3 && Coordinates(row, v) && Crossing(row, i, j) && InCorner(SizeOf(v), c)
    ensures !Covers(PatternOf(row, i, j), c)
  {
    CrossingPlace(row, v, i);
    CrossingPlace(row, v, j);
    hide Coordinates;
  }

  /** In the corners no alignment pattern is drawn. */
  lemma CornersInked(v: int, c: Cell, w: int)
    requires Version(v) && InCorner(SizeOf(v), c)
    ensures Inked(Alignments(v), c, w) && !Covered(Alignments(v), c)
  {
    if v == 1 {
    } else {
      RowFacts(v);
      var row := AlignmentRow(v);
      hide AlignmentRow, AlignmentRows, Coordinates;
      forall i, j | Crossing(row, i, j)
        ensures !Covers(PatternOf(row, i, j), c)
      {
        CrossingMissesCorners(row, v, i, j, c);
      }
      RowsInked(row, |row| - 1, c, w);
      RowsInked(row, |row| - 1, c, w + 1);
    }
  }

  /** Two patterns over one module are the same pattern. */
  lemma SameCrossing(row: seq<int>, v: int, i: int, k: int, x: int)
    requires |row| >= 3 && Coordinates(row, v) && 0 <= i < |row| - 1 && 0 <= k < |row| - 1
    requires row[i + 1] - 2 <= x <= row[i + 1] + 2 && row[k + 1] - 2 <= x <= row[k + 1] + 2
    ensures i == k
  {
    if i < k {
      CoordinatesGrow(row, v, i + 1, k + 1);
    } else if k < i {
      CoordinatesGrow(row, v, k + 1, i + 1);
    }
  }

  lemma OneCrossing(row: seq<int>, v: int, i: int, j: int, c: Cell)
    requires |row| >= 3 && Coordinates(row, v) && Crossing(row, i, j) && Covers(PatternOf(row, i, j), c)
    ensures CrossingsInked(row, c, InkAt(PatternOf(row, i, j).ink, c))
  {
    hide Coordinates, InkAt;
    forall k, m | Crossing(row, k, m) && Covers(PatternOf(row, k, m), c)
      ensures k == i && m == j
    {
      SameCrossing(row, v, i, k, c.x);
      SameCrossing(row, v, j, m, c.y);
    }
  }

  /** Where a pattern is drawn its own ink counts. */
  lemma CrossingDrawn(v: int, i: int, j: int, c: Cell)
    requires Version(v) && v > 1 && Crossing(AlignmentRow(v), i, j) && Covers(PatternOf(AlignmentRow(v), i, j), c)
    ensures Covered(Alignments(v), c)
    ensures Inked(Alignments(v), c, InkAt(PatternOf(AlignmentRow(v), i, j).ink, c))
  {
    RowFacts(v);
    var row := AlignmentRow(v);
    var w := InkAt(PatternOf(row, i, j).ink, c);
    hide AlignmentRow, AlignmentRows, Coordinates, InkAt;
    RowsHold(row, |row| - 1, i, j, c);
    OneCrossing(row, v, i, j, c);
    RowsInked(row, |row| - 1, c, w);
  }

  // ---------- The coordinates ----------

  /** The distance of neighbouring alignment patterns, all but the first two being equally far apart. */
  function Step(v: int): int
    requires 7 <= v
  {
    var patterns := v / 7 + 2;
    if v == 32 then 26 else (4 * v + 2 * patterns + 1) / (2 * patterns - 2) * 2
  }

  predicate Spaced(row: seq<int>, v: int)
    requires 7 <= v
  {
    forall k :: 2 <= k < |row| - 1 ==> row[k + 1] == row[k] + Step(v)
  }

  const STEPS: seq<int> :=
    [16, 18, 20, 22, 24, 26, 28, 20, 22, 24, 24, 26,
     28, 28, 22, 24, 24, 26, 26, 28, 28, 24, 24, 26,
     26, 26, 28, 28, 24, 26, 26, 26, 28, 28]

  lemma StepFrom7(v: int)
    requires 7 <= v <= 13
    ensures Step(v) == STEPS[v - 7]
  {
  }

  lemma StepFrom14(v: int)
    requires 14 <= v <= 20
    ensures Step(v) == STEPS[v - 7]
  {
  }

  lemma StepFrom21(v: int)
    requires 21 <= v <= 27
    ensures Step(v) == STEPS[v - 7]
  {
  }

  lemma StepFrom28(v: int)
    requires 28 <= v <= 34
    ensures Step(v) == STEPS[v - 7]
  {
  }

  lemma StepFrom35(v: int)
    requires 35 <= v <= 40
    ensures Step(v) == STEPS[v - 7]
  {
  }

  lemma StepOf(v: int)
    requires 7 <= v <= 40
    ensures Step(v) == STEPS[v - 7]
  {
    hide Step, STEPS;
    if v <= 13 {
      StepFrom7(v);
    } else if v <= 20 {
      StepFrom14(v);
    } else if v <= 27 {
      StepFrom21(v);
    } else if v <= 34 {
      StepFrom28(v);
    } else {
      StepFrom35(v);
    }
  }

  lemma SpacedFrom7(v: int)
    requires 7 <= v <= 10
    ensures Spaced(AlignmentRow1(v), v)
  {
    StepOf(v);
    hide Step;
  }

  lemma SpacedFrom11(v: int)
    requires 11 <= v <= 15
    ensures Spaced(AlignmentRow2(v), v)
  {
    StepOf(v);
    hide Step;
  }

  lemma SpacedFrom16(v: int)
    requires 16 <= v <= 20
    ensures Spaced(AlignmentRow2(v), v)
  {
    StepOf(v);
    hide Step;
  }

  lemma SpacedFrom21(v: int)
    requires 21 <= v <= 25
    ensures Spaced(AlignmentRow3(v), v)
  {
    StepOf(v);
    hide Step;
  }

  lemma SpacedFrom26(v: int)
    requires 26 <= v <= 30
    ensures Spaced(AlignmentRow3(v), v)
  {
    StepOf(v);
    hide Step;
  }

  lemma SpacedFrom31(v: int)
    requires 31 <= v <= 35
    ensures Spaced(AlignmentRow4(v), v)
  {
    StepOf(v);
    hide Step;
  }

  lemma SpacedFrom36(v: int)
    requires 36 <= v <= 40
    ensures Spaced(AlignmentRow4(v), v)
  {
    StepOf(v);
    hide Step;
  }

  /** The coordinates lie one step apart, counted from the last one; only the gap behind the first differs. */
  lemma AlignmentSpacing(v: int, k: int)
    requires Version(v) && v > 1 && 1 <= k < |AlignmentRow(v)|
    ensures k == 1 ==> AlignmentRow(v)[k] == 6
    ensures k == |AlignmentRow(v)| - 1 ==> AlignmentRow(v)[k] == SizeOf(v) - 7
    ensures 1 < k < |AlignmentRow(v)| - 1 ==> AlignmentRow(v)[k + 1] == AlignmentRow(v)[k] + Step(v)
    ensures |AlignmentRow(v)| == v / 7 + 3
  {
    RowFacts(v);
    if 1 < k < |AlignmentRow(v)| - 1 {
      hide AlignmentRow1, AlignmentRow2, AlignmentRow3, AlignmentRow4, Step;
      if v <= 10 {
        SpacedFrom7(v);
      } else if v <= 15 {
        SpacedFrom11(v);
      } else if v <= 20 {
        SpacedFrom16(v);
      } else if v <= 25 {
        SpacedFrom21(v);
      } else if v <= 30 {
        SpacedFrom26(v);
      } else if v <= 35 {
        SpacedFrom31(v);
      } else {
        SpacedFrom36(v);
      }
    }
  }

  lemma {:induction false} EvenCoordinates(v: int, k: int)
    requires Version(v) && v > 1 && 1 <= k < |AlignmentRow(v)|
    ensures AlignmentRow(v)[k] % 2 == 0
    decreases |AlignmentRow(v)| - k
  {
    hide AlignmentRow;
    AlignmentSpacing(v, k);
    if 1 < k < |AlignmentRow(v)| - 1 {
      EvenCoordinates(v, k + 1);
    }
  }

  // ---------- The colours ----------

  /** A finder pattern with the light modules around it. */
  const FINDER: seq<string> :=
    [".........",
     ".#######.",
     ".#.....#.",
     ".#.###.#.",
     ".#.###.#.",
     ".#.###.#.",
     ".#.....#.",
     ".#######.",
     "........."]

  const ALIGNMENT: seq<string> :=
    ["#####",
     "#...#",
     "#.#.#",
     "#...#",
     "#####"]

  predicate Dark(picture: seq<string>, x: int, y: int) {
    0 <= y < |picture| && 0 <= x < |picture[y]| && picture[y][x] == '#'
  }

  lemma FinderInk(cx: int, cy: int, c: Cell)
    requires cx - 4 <= c.x <= cx + 4 && cy - 4 <= c.y <= cy + 4
    ensures InkAt(Finder(cx, cy), c) == if Dark(FINDER, c.x - cx + 4, c.y - cy + 4) then 1 else 0
  {
  }

  lemma AlignmentInk(cx: int, cy: int, c: Cell)
    requires cx - 2 <= c.x <= cx + 2 && cy - 2 <= c.y <= cy + 2
    ensures InkAt(Alignment(cx, cy), c) == if Dark(ALIGNMENT, c.x - cx + 2, c.y - cy + 2) then 1 else 0
  {
  }

  lemma FinderLayer(n: int, c: Cell, w: int)
    requires 21 <= n && (Covers(Finders(n)[0], c) ==> w == InkAt(Finder(3, 3), c))
    requires Covers(Finders(n)[1], c) ==> w == InkAt(Finder(n - 4, 3), c)
    requires Covers(Finders(n)[2], c) ==> w == InkAt(Finder(3, n - 4), c)
    ensures Inked(Finders(n), c, w)
    ensures Covers(Finders(n)[0], c) || Covers(Finders(n)[1], c) || Covers(Finders(n)[2], c) ==> Covered(Finders(n), c)
  {
    hide InkAt;
  }

  /** Timing lines, format areas and version areas stay clear of the finder patterns and their separators. */
  lemma FinderClear(v: int, c: Cell, w: int)
    requires Version(v) && OnSymbol(v, c)
    requires (c.x < 8 && c.y < 8) || (SizeOf(v) - 8 <= c.x && c.y < 8) || (c.x < 8 && SizeOf(v) - 8 <= c.y)
    ensures Inked(Timings(SizeOf(v)), c, w) && !Covered(Timings(SizeOf(v)), c)
    ensures Inked(FormatAreas(SizeOf(v)), c, w) && !Covered(FormatAreas(SizeOf(v)), c)
    ensures Inked(VersionAreas(v), c, w) && !Covered(VersionAreas(v), c)
  {
    hide InkAt;
  }

  predicate FinderCentre(v: int, cx: int, cy: int) {
    (cx == 3 && cy == 3) || (cx == SizeOf(v) - 4 && cy == 3) || (cx == 3 && cy == SizeOf(v) - 4)
  }

  /** The three finder patterns with their separators look like the picture, as far as they lie on the symbol. */
  lemma FindersShown(v: int, cx: int, cy: int, c: Cell)
    requires Version(v) && OnSymbol(v, c) && FinderCentre(v, cx, cy)
    requires cx - 4 <= c.x <= cx + 4 && cy - 4 <= c.y <= cy + 4
    ensures At(PatternGrid(v), c) == if Dark(FINDER, c.x - cx + 4, c.y - cy + 4) then 1 else 0
  {
    var n, w := SizeOf(v), if Dark(FINDER, c.x - cx + 4, c.y - cy + 4) then 1 else 0;
    FinderInk(cx, cy, c);
    hide InkAt, Dark, PatternGrid, Inked, Covered, Timings, FormatAreas, VersionAreas, Alignments;
    FinderLayer(n, c, w);
    FinderClear(v, c, w);
    CornersInked(v, c, w);
    PatternLayers(v, c, w, w, w, w, w);
  }

  /** Where alignment patterns can lie nothing is drawn later, and no finder pattern lies below. */
  lemma AlignmentClear(v: int, c: Cell, w: int)
    requires Version(v) && OnSymbol(v, c) && !InCorner(SizeOf(v), c)
    ensures Inked(Finders(SizeOf(v)), c, w)
    ensures Inked(FormatAreas(SizeOf(v)), c, w) && !Covered(FormatAreas(SizeOf(v)), c)
    ensures Inked(VersionAreas(v), c, w) && !Covered(VersionAreas(v), c)
  {
    hide InkAt;
  }

  lemma CrossingOnSymbol(row: seq<int>, v: int, i: int, j: int, c: Cell)
    requires |row| >= 3 && Coordinates(row, v) && Crossing(row, i, j) && Covers(PatternOf(row, i, j), c)
    ensures OnSymbol(v, c) && !InCorner(SizeOf(v), c)
  {
    CrossingPlace(row, v, i);
    CrossingPlace(row, v, j);
    hide Coordinates;
  }

  /** Every alignment pattern looks like the picture, the ones on the timing lines included. */
  lemma AlignmentsShown(v: int, i: int, j: int, c: Cell)
    requires Version(v) && v > 1 && Crossing(AlignmentRow(v), i, j) && Covers(PatternOf(AlignmentRow(v), i, j), c)
    ensures OnSymbol(v, c)
    ensures At(PatternGrid(v), c)
            == if Dark(ALIGNMENT, c.x - AlignmentRow(v)[i + 1] + 2, c.y - AlignmentRow(v)[j + 1] + 2) then 1 else 0
  {
    var row, n := AlignmentRow(v), SizeOf(v);
    var w := InkAt(PatternOf(row, i, j).ink, c);
    RowFacts(v);
    AlignmentInk(row[i + 1], row[j + 1], c);
    CrossingOnSymbol(row, v, i, j, c);
    CrossingDrawn(v, i, j, c);
    hide InkAt, Dark, PatternGrid, Inked, Covered, Timings, FormatAreas, VersionAreas, Alignments, AlignmentRow,
      Coordinates, InCorner, Finders;
    AlignmentClear(v, c, w);
    var t := if (c.x + c.y) % 2 == 0 then 1 else 0;
    TimingLayer(n, c, t);
    PatternLayers(v, c, w, t, w, w, w);
  }

  lemma TimingLayer(n: int, c: Cell, w: int)
    requires w == if (c.x + c.y) % 2 == 0 then 1 else 0
    ensures Inked(Timings(n), c, w)
  {
  }

  lemma RingOnLine(cx: int, cy: int, c: Cell)
    requires (cx % 2 == 0 && cy == 6 == c.y && cx - 2 <= c.x <= cx + 2)
             || (cy % 2 == 0 && cx == 6 == c.x && cy - 2 <= c.y <= cy + 2)
    ensures InkAt(Alignment(cx, cy), c) == if (c.x + c.y) % 2 == 0 then 1 else 0
  {
  }

  /** On the timing lines an alignment pattern shows the same colour as the line. */
  lemma CrossingOnLine(row: seq<int>, v: int, i: int, j: int, c: Cell)
    requires |row| >= 3 && Coordinates(row, v) && Crossing(row, i, j) && Covers(PatternOf(row, i, j), c)
    requires row[i + 1] % 2 == 0 && row[j + 1] % 2 == 0 && (c.x == 6 || c.y == 6)
    ensures InkAt(PatternOf(row, i, j).ink, c) == if (c.x + c.y) % 2 == 0 then 1 else 0
  {
    CrossingPlace(row, v, i);
    CrossingPlace(row, v, j);
    hide Coordinates, InkAt;
    RingOnLine(row[i + 1], row[j + 1], c);
  }

  lemma AlignmentsOnLine(v: int, c: Cell, w: int)
    requires Version(v) && (c.x == 6 || c.y == 6) && w == if (c.x + c.y) % 2 == 0 then 1 else 0
    ensures Inked(Alignments(v), c, w)
  {
    if v == 1 {
    } else {
      RowFacts(v);
      var row := AlignmentRow(v);
      hide AlignmentRow, AlignmentRows, Coordinates, InkAt, Covers;
      forall i, j | Crossing(row, i, j) && Covers(PatternOf(row, i, j), c)
        ensures InkAt(PatternOf(row, i, j).ink, c) == w
      {
        EvenCoordinates(v, i + 1);
        EvenCoordinates(v, j + 1);
        CrossingOnLine(row, v, i, j, c);
      }
      RowsInked(row, |row| - 1, c, w);
    }
  }

  lemma LineClear(v: int, c: Cell, w: int)
    requires Version(v)
    requires (c.y == 6 && 8 <= c.x < SizeOf(v) - 8) || (c.x == 6 && 8 <= c.y < SizeOf(v) - 8)
    ensures Inked(Finders(SizeOf(v)), c, w) && Covered(Timings(SizeOf(v)), c)
    ensures Inked(FormatAreas(SizeOf(v)), c, w) && !Covered(FormatAreas(SizeOf(v)), c)
    ensures Inked(VersionAreas(v), c, w) && !Covered(VersionAreas(v), c)
  {
    hide InkAt;
    assert Covers(Timings(SizeOf(v))[0], c) || Covers(Timings(SizeOf(v))[1], c);
  }

  /** Both timing lines alternate from the dark module in column or row 8, alignment patterns on them included. */
  lemma TimingLines(v: int, k: int)
    requires Version(v) && 8 <= k < SizeOf(v) - 8
    ensures At(PatternGrid(v), Cell(k, 6)) == if k % 2 == 0 then 1 else 0
    ensures At(PatternGrid(v), Cell(6, k)) == if k % 2 == 0 then 1 else 0
  {
    var n, w := SizeOf(v), if k % 2 == 0 then 1 else 0;
    assert (k + 6) % 2 == k % 2;
    hide InkAt, PatternGrid, Inked, Covered, Finders, Timings, FormatAreas, VersionAreas, Alignments;
    forall c | c == Cell(k, 6) || c == Cell(6, k)
      ensures At(PatternGrid(v), c) == w
    {
      TimingLayer(n, c, w);
      AlignmentsOnLine(v, c, w);
      LineClear(v, c, w);
      PatternLayers(v, c, w, w, w, w, w);
    }
  }

  predicate FormatModule(n: int, c: Cell) {
    || (c.y == 8 && (c.x < 6 || 7 <= c.x <= 8 || n - 8 <= c.x))
    || (c.x == 8 && (c.y < 6 || 7 <= c.y <= 8 || n - 7 <= c.y))
  }

  /** One module beside the bottom left finder pattern is dark; what is kept for the format string is light. */
  lemma DarkModule(v: int, c: Cell)
    requires Version(v) && OnSymbol(v, c) && (c == Cell(8, SizeOf(v) - 8) || FormatModule(SizeOf(v), c))
    ensures At(PatternGrid(v), c) == if c == Cell(8, SizeOf(v) - 8) then 1 else 0
  {
    var n, w := SizeOf(v), if c == Cell(8, SizeOf(v) - 8) then 1 else 0;
    hide InkAt, PatternGrid, Inked, Covered, Alignments;
    FormatLayer(v, c);
    CornersInked(v, c, w);
    PatternLayers(v, c, w, w, w, w, w);
  }

  lemma FormatLayer(v: int, c: Cell)
    requires Version(v) && OnSymbol(v, c) && (c == Cell(8, SizeOf(v) - 8) || FormatModule(SizeOf(v), c))
    ensures Inked(FormatAreas(SizeOf(v)), c, if c == Cell(8, SizeOf(v) - 8) then 1 else 0)
    ensures Covered(FormatAreas(SizeOf(v)), c)
    ensures !Covered(VersionAreas(v), c)
    ensures forall w ::
              Inked(Finders(SizeOf(v)), c, w) && Inked(Timings(SizeOf(v)), c, w) && Inked(VersionAreas(v), c, w)
  {
    var m := FormatAreas(SizeOf(v));
    assert Covers(m[0], c) || Covers(m[1], c) || Covers(m[2], c) || Covers(m[3], c) || Covers(m[4], c)
           || Covers(m[5], c) || Covers(m[6], c);
  }
}
