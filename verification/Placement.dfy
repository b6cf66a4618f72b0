/** The zigzag walk of `qr_matrix_placement` and the bits it leaves in the matrix. */
module Placement {
  import opened Common

  const MAX_SIZE: nat := 177

  /** A module that no function pattern has taken. */
  const FREE: int := -1

  /** Column x, row y. */
  datatype Cell = Cell(x: int, y: int)

  /** The contents of a matrix, column by column. */
  type Grid = seq<seq<int>>

  predicate InGrid(g: Grid, c: Cell) {
    0 <= c.x < |g| && 0 <= c.y < |g[c.x]|
  }

  function At(g: Grid, c: Cell): int
    requires InGrid(g, c)
  {
    g[c.x][c.y]
  }

  predicate Square(g: Grid, n: nat) {
    |g| == n && forall x :: 0 <= x < n ==> |g[x]| == n
  }

  function Snapshot(a: array2<int>): (g: Grid)
    reads a
    ensures |g| == a.Length0 && forall x :: 0 <= x < |g| ==> |g[x]| == a.Length1
    ensures forall c: Cell :: InGrid(g, c) ==> At(g, c) == a[c.x, c.y]
  {
    seq(a.Length0, x requires 0 <= x < a.Length0 reads a =>
      seq(a.Length1, y requires 0 <= y < a.Length1 reads a => a[x, y]))
  }

  // ---------- The walk in closed form ----------

  /** Symbols have odd sizes; column 6 holds the vertical timing pattern. */
  predicate SymbolSize(n: int) {
    9 <= n <= MAX_SIZE && n % 2 == 1
  }

  /** The right-hand column of the p-th pair of columns: column 6 belongs to no pair. */
  function RightColumn(n: int, p: int): int {
    if n - 1 - 2 * p > 6 then n - 1 - 2 * p else n - 2 - 2 * p
  }

  /** The cell visited after p whole pairs, q whole rows of the current pair and c further modules. */
  function PairCell(n: int, p: int, q: int, c: int): Cell {
    Cell(RightColumn(n, p) - c, if p % 2 == 0 then n - 1 - q else q)
  }

  function StepOf(n: int, p: int, q: int, c: int): int {
    2 * (n * p) + 2 * q + c
  }

  function WalkCell(n: int, t: int): Cell
    requires 0 < n
  {
    var r := t % (2 * n);
    PairCell(n, t / (2 * n), r / 2, r % 2)
  }

  /** The walk over the whole symbol: one entry per module outside column 6. */
  function Walk(n: int): (w: seq<Cell>)
    requires SymbolSize(n)
    ensures |w| == n * (n - 1)
  {
    seq(n * (n - 1), t => WalkCell(n, t))
  }

  lemma DivideStep(n: int, p: int, q: int, c: int)
    requires 0 < n && 0 <= p && 0 <= q < n && 0 <= c < 2
    ensures StepOf(n, p, q, c) / (2 * n) == p
    ensures StepOf(n, p, q, c) % (2 * n) == 2 * q + c
    ensures WalkCell(n, StepOf(n, p, q, c)) == PairCell(n, p, q, c)
  {
    DivideUnique(2 * n, p, 2 * q + c);
    assert (2 * n) * p == 2 * (n * p);
  }

  lemma DivideUnique(d: int, p: int, r: int)
    requires 0 <= r < d
    ensures (d * p + r) / d == p && (d * p + r) % d == r
  {
    var k := (d * p + r) / d;
    assert d * (p - k) == (d * p + r) % d - r;
    if p > k {
      MulMonotone(d, 1, p - k);
      assert false;
    } else if p < k {
      MulMonotone(d, p - k, -1);
      assert false;
    }
  }

  lemma WalkLength(n: int)
    requires SymbolSize(n)
    ensures n * (n - 1) == 2 * (n * ((n - 1) / 2))
  {
    var h := (n - 1) / 2;
    assert n - 1 == 2 * h;
    assert n * (2 * h) == 2 * (n * h);
  }

  /** Every step of the walk is some p, q, c. */
  lemma SplitStep(n: int, t: int) returns (p: int, q: int, c: int)
    requires SymbolSize(n) && 0 <= t < n * (n - 1)
    ensures 0 <= p < (n - 1) / 2 && 0 <= q < n && 0 <= c < 2
    ensures t == StepOf(n, p, q, c)
    ensures WalkCell(n, t) == PairCell(n, p, q, c)
  {
    p := t / (2 * n);
    var r := t % (2 * n);
    q, c := r / 2, r % 2;
    WalkLength(n);
    var h := (n - 1) / 2;
    TwiceProduct(n, h);
    DivideBounds(2 * n, t, h);
    TwiceProduct(n, p);
  }

  lemma TwiceProduct(n: int, p: int)
    ensures (2 * n) * p == 2 * (n * p)
  {
  }

  lemma DivideBounds(d: int, t: int, m: int)
    requires 0 < d && 0 <= t < d * m
    ensures t == d * (t / d) + t % d && 0 <= t % d < d
    ensures 0 <= t / d < m
  {
    var p := t / d;
    if p >= m {
      MulMonotone(d, m, p);
      assert false;
    } else if p < 0 {
      MulMonotone(d, p, -1);
      assert false;
    }
  }

  lemma WithinWalk(n: int, p: int, q: int, c: int)
    requires SymbolSize(n)
    requires 0 <= p < (n - 1) / 2 && 0 <= q < n && 0 <= c < 2
    ensures 0 <= StepOf(n, p, q, c) < n * (n - 1)
  {
    var h := (n - 1) / 2;
    WalkLength(n);
    MulMonotone(n, 0, p);
    MulMonotone(n, p, h - 1);
    assert n * (h - 1) == n * h - n;
  }

  /** The walk stays inside the symbol and never enters column 6. */
  lemma WalkInBounds(n: int, t: int)
    requires SymbolSize(n) && 0 <= t < n * (n - 1)
    ensures 0 <= Walk(n)[t].x < n && Walk(n)[t].x != 6 && 0 <= Walk(n)[t].y < n
  {
    hide StepOf, WalkCell, PairCell;
    var p, q, c := SplitStep(n, t);
    PairCellInBounds(n, p, q, c);
  }

  lemma PairCellInBounds(n: int, p: int, q: int, c: int)
    requires SymbolSize(n) && 0 <= p < (n - 1) / 2 && 0 <= q < n && 0 <= c < 2
    ensures var cell := PairCell(n, p, q, c); 0 <= cell.x < n && cell.x != 6 && 0 <= cell.y < n
  {
  }

  /** No module is visited twice. */
  lemma WalkInjective(n: int, s: int, t: int)
    requires SymbolSize(n) && 0 <= s < n * (n - 1) && 0 <= t < n * (n - 1)
    requires Walk(n)[s] == Walk(n)[t]
    ensures s == t
  {
    hide StepOf, WalkCell, PairCell;
    var p, q, c := SplitStep(n, s);
    var p', q', c' := SplitStep(n, t);
    PairCellInjective(n, p, q, c, p', q', c');
  }

  lemma PairCellInjective(n: int, p: int, q: int, c: int, p': int, q': int, c': int)
    requires SymbolSize(n)
    requires 0 <= p < (n - 1) / 2 && 0 <= q < n && 0 <= c < 2
    requires 0 <= p' < (n - 1) / 2 && 0 <= q' < n && 0 <= c' < 2
    requires PairCell(n, p, q, c) == PairCell(n, p', q', c')
    ensures p == p' && q == q' && c == c'
  {
  }

  lemma PairCellCovers(n: int, cell: Cell) returns (p: int, q: int, c: int)
    requires SymbolSize(n)
    requires 0 <= cell.x < n && 0 <= cell.y < n && cell.x != 6
    ensures 0 <= p < (n - 1) / 2 && 0 <= q < n && 0 <= c < 2
    ensures PairCell(n, p, q, c) == cell
  {
    var z := if cell.x > 6 then n - 1 - cell.x else n - 2 - cell.x;
    p, c := z / 2, z % 2;
    q := if p % 2 == 0 then n - 1 - cell.y else cell.y;
  }

  /** Every module outside column 6 is visited. */
  lemma WalkCovers(n: int, cell: Cell) returns (t: int)
    requires SymbolSize(n)
    requires 0 <= cell.x < n && 0 <= cell.y < n && cell.x != 6
    ensures 0 <= t < n * (n - 1) && Walk(n)[t] == cell
  {
    var p, q, c := PairCellCovers(n, cell);
    hide StepOf, WalkCell, PairCell;
    t := StepOf(n, p, q, c);
    WithinWalk(n, p, q, c);
    DivideStep(n, p, q, c);
  }

  /** It starts at the bottom right module. */
  lemma WalkStarts(n: int)
    requires SymbolSize(n)
    ensures n * (n - 1) > 0 && Walk(n)[0] == Cell(n - 1, n - 1)
  {
    WithinWalk(n, 0, 0, 0);
    DivideStep(n, 0, 0, 0);
    hide WalkCell;
  }

  // ---------- The free modules along the walk ----------

  predicate AllInGrid(g: Grid, path: seq<Cell>) {
    forall i :: 0 <= i < |path| ==> InGrid(g, path[i])
  }

  /** The free modules among those of the path, in the order of the path. */
  function FreeCells(g: Grid, path: seq<Cell>): (f: seq<Cell>)
    requires AllInGrid(g, path)
    ensures |f| <= |path|
  {
    if path == [] then []
    else FreeCells(g, path[..|path| - 1])
         + (if At(g, path[|path| - 1]) == FREE then [path[|path| - 1]] else [])
  }

  lemma FreeCellsStep(g: Grid, path: seq<Cell>, i: nat)
    requires i < |path| && AllInGrid(g, path)
    ensures FreeCells(g, path[..i + 1]) == FreeCells(g, path[..i]) + (if At(g, path[i]) == FREE then [path[i]] else [])
  {
    assert path[..i + 1][..i] == path[..i];
  }

  lemma {:induction false} FreeCellsPrefix(g: Grid, path: seq<Cell>, i: nat)
    requires i <= |path| && AllInGrid(g, path)
    ensures FreeCells(g, path[..i]) <= FreeCells(g, path)
    decreases |path| - i
  {
    if i == |path| {
      assert path[..i] == path;
    } else {
      FreeCellsPrefix(g, path, i + 1);
      FreeCellsStep(g, path, i);
    }
  }

  lemma {:induction false} FreeCellsMember(g: Grid, path: seq<Cell>, k: nat)
    requires AllInGrid(g, path) && k < |FreeCells(g, path)|
    ensures FreeCells(g, path)[k] in path && At(g, FreeCells(g, path)[k]) == FREE
  {
    if path == [] {
    } else {
      var front := path[..|path| - 1];
      if k < |FreeCells(g, front)| {
        FreeCellsMember(g, front, k);
      }
    }
  }

  predicate NoRepeats(path: seq<Cell>) {
    forall i, j :: 0 <= i < j < |path| ==> path[i] != path[j]
  }

  lemma {:induction false} FreeCellsDistinct(g: Grid, path: seq<Cell>)
    requires AllInGrid(g, path) && NoRepeats(path)
    ensures NoRepeats(FreeCells(g, path))
  {
    if path == [] {
    } else {
      var front := path[..|path| - 1];
      FreeCellsDistinct(g, front);
      forall k | 0 <= k < |FreeCells(g, front)|
        ensures FreeCells(g, front)[k] != path[|path| - 1]
      {
        FreeCellsMember(g, front, k);
      }
    }
  }

  lemma {:induction false} FreeCellsComplete(g: Grid, path: seq<Cell>, cell: Cell)
    requires AllInGrid(g, path) && cell in path && At(g, cell) == FREE
    ensures cell in FreeCells(g, path)
  {
    var front := path[..|path| - 1];
    if cell == path[|path| - 1] {
    } else {
      FreeCellsComplete(g, front, cell);
    }
  }

  /** They are listed in the order of the path. */
  lemma {:induction false} FreeCellsOrdered(g: Grid, path: seq<Cell>, j: nat, k: nat) returns (s: nat, t: nat)
    requires AllInGrid(g, path) && j < k < |FreeCells(g, path)|
    ensures s < t < |path| && path[s] == FreeCells(g, path)[j] && path[t] == FreeCells(g, path)[k]
  {
    var front := path[..|path| - 1];
    if k < |FreeCells(g, front)| {
      s, t := FreeCellsOrdered(g, front, j, k);
    } else {
      FreeCellsMember(g, front, j);
      s :| 0 <= s < |front| && front[s] == FreeCells(g, front)[j];
      t := |path| - 1;
    }
  }

  // ---------- The state machine ----------

  datatype State = UpwardRight | UpwardLeft | DownwardRight | DownwardLeft

  function StateOf(p: int, c: int): State {
    if p % 2 == 0 then (if c == 0 then UpwardRight else UpwardLeft)
    else (if c == 0 then DownwardRight else DownwardLeft)
  }

  datatype Outcome = Finished | WrongColumn

  /** The free modules of g have received the first bits, and nothing else has changed. */
  ghost predicate Filled(g: Grid, f: seq<Cell>, bits: seq<int>, h: Grid) {
    && |h| == |g| && |f| <= |bits|
    && (forall x :: 0 <= x < |g| ==> |h[x]| == |g[x]|)
    && (forall k :: 0 <= k < |f| ==> InGrid(h, f[k]) && At(h, f[k]) == bits[k])
    && (forall cell: Cell :: InGrid(g, cell) && cell !in f ==> At(h, cell) == At(g, cell))
  }

  lemma WalkInGrid(g: Grid, n: int)
    requires SymbolSize(n) && n <= |g| && forall x :: 0 <= x < |g| ==> n <= |g[x]|
    ensures AllInGrid(g, Walk(n)) && NoRepeats(Walk(n))
  {
    var w := Walk(n);
    forall i | 0 <= i < |w|
      ensures InGrid(g, w[i])
    {
      WalkInBounds(n, i);
    }
    forall i, j | 0 <= i < j < |w|
      ensures w[i] != w[j]
    {
      if w[i] == w[j] {
        WalkInjective(n, i, j);
      }
    }
  }

  /** The matrix with one module written. */
  ghost predicate Rewritten(h: Grid, h': Grid, c: Cell, value: int) {
    && |h'| == |h|
    && (forall x :: 0 <= x < |h| ==> |h'[x]| == |h[x]|)
    && forall cell: Cell :: InGrid(h, cell) ==>
         InGrid(h', cell) && At(h', cell) == if cell == c then value else At(h, cell)
  }

  /** Writing the next free module keeps the matrix filled so far. */
  lemma FilledStep(g: Grid, path: seq<Cell>, i: nat, bits: seq<int>, h: Grid, h': Grid)
    requires AllInGrid(g, path) && NoRepeats(path) && i < |path|
    requires Filled(g, FreeCells(g, path[..i]), bits, h)
    requires At(g, path[i]) == FREE ==> |FreeCells(g, path[..i])| < |bits|
    requires if At(g, path[i]) == FREE then Rewritten(h, h', path[i], bits[|FreeCells(g, path[..i])|]) else h' == h
    ensures Filled(g, FreeCells(g, path[..i + 1]), bits, h')
  {
    FreeCellsStep(g, path, i);
    UnwrittenYet(g, path, i);
    var f, c := FreeCells(g, path[..i]), path[i];
    assert InGrid(g, c);
    hide FreeCells, NoRepeats, AllInGrid, InGrid, At, Filled, Rewritten;
    if At(g, c) == FREE {
      FilledMore(g, f, c, bits, h, h');
    }
  }

  lemma FilledMore(g: Grid, f: seq<Cell>, c: Cell, bits: seq<int>, h: Grid, h': Grid)
    requires Filled(g, f, bits, h) && |f| < |bits| && InGrid(g, c) && c !in f
    requires Rewritten(h, h', c, bits[|f|])
    ensures Filled(g, f + [c], bits, h')
  {
    var f' := f + [c];
    assert forall cell: Cell :: InGrid(g, cell) <==> InGrid(h, cell);
    assert forall cell: Cell :: InGrid(h', cell) <==> InGrid(h, cell);
    forall k | 0 <= k < |f'|
      ensures InGrid(h', f'[k]) && At(h', f'[k]) == bits[k]
    {
      if k < |f| {
        assert f[k] in f;
      }
    }
    forall cell: Cell | InGrid(g, cell) && cell !in f'
      ensures At(h', cell) == At(g, cell)
    {
      assert f'[|f|] == c;
      assert forall k :: 0 <= k < |f| ==> f'[k] == f[k];
    }
  }

  lemma UnwrittenYet(g: Grid, path: seq<Cell>, i: nat)
    requires AllInGrid(g, path) && NoRepeats(path) && i < |path|
    ensures path[i] !in FreeCells(g, path[..i])
  {
    var f := FreeCells(g, path[..i]);
    if path[i] in f {
      var k :| 0 <= k < |f| && f[k] == path[i];
      FreeCellsMember(g, path[..i], k);
    }
  }

  lemma NextPair(n: int, p: int)
    ensures StepOf(n, p + 1, 0, 0) == StepOf(n, p, n - 1, 1) + 1
  {
    assert n * (p + 1) == n * p + n;
  }

  lemma WalkAt(n: int, p: int, q: int, c: int)
    requires SymbolSize(n) && 0 <= p < (n - 1) / 2 && 0 <= q < n && 0 <= c < 2
    ensures 0 <= StepOf(n, p, q, c) < |Walk(n)|
    ensures Walk(n)[StepOf(n, p, q, c)] == PairCell(n, p, q, c)
    ensures 0 <= PairCell(n, p, q, c).x < n && 0 <= PairCell(n, p, q, c).y < n
  {
    WithinWalk(n, p, q, c);
    DivideStep(n, p, q, c);
  }

  lemma WalkEnds(n: int)
    requires SymbolSize(n)
    ensures StepOf(n, (n - 1) / 2, 0, 0) == |Walk(n)| < n * n
    ensures StepOf(n, 0, 0, 0) == 0
  {
    WalkLength(n);
  }

  lemma StepsOf(n: int, p: int, q: int)
    ensures StepOf(n, p, q, 1) == StepOf(n, p, q, 0) + 1
    ensures StepOf(n, p, q + 1, 0) == StepOf(n, p, q, 1) + 1
  {
  }

  lemma StepParity(n: int, p: int, q: int, c: int)
    requires 0 <= c < 2
    ensures StepOf(n, p, q, c) % 2 == c
  {
  }

  /**
    From one module to the next: from the right one of a row to the left one, from there to the right one
    of the next row, and at the end of a pair of columns to the next pair, over column 6. The pairs are
    walked upwards and downwards in turn.
  */
  lemma WalkOrder(n: int, t: int)
    requires SymbolSize(n) && 0 <= t < n * (n - 1) - 1
    ensures var a, b := Walk(n)[t], Walk(n)[t + 1];
            b == if t % 2 == 0 then Cell(a.x - 1, a.y)
                 else if (t + 1) % (2 * n) == 0 then Cell(if a.x == 7 then 5 else a.x - 1, a.y)
                 else Cell(a.x + 1, if t / (2 * n) % 2 == 0 then a.y - 1 else a.y + 1)
  {
    hide Walk, WalkCell, PairCell;
    var p, q, c := SplitStep(n, t);
    WalkAt(n, p, q, c);
    DivideStep(n, p, q, c);
    StepParity(n, p, q, c);
    StepsOf(n, p, q);
    if c == 0 {
      WalkAt(n, p, q, 1);
      hide StepOf;
      SameRow(n, p, q);
    } else if q < n - 1 {
      WalkAt(n, p, q + 1, 0);
      DivideStep(n, p, q + 1, 0);
      hide StepOf;
      NextRow(n, p, q);
    } else {
      PairEnds(n, p);
      WalkAt(n, p + 1, 0, 0);
      DivideStep(n, p + 1, 0, 0);
      NextPair(n, p);
      hide StepOf;
      LastOfPair(n, p);
    }
  }

  lemma SameRow(n: int, p: int, q: int)
    ensures PairCell(n, p, q, 1) == Cell(PairCell(n, p, q, 0).x - 1, PairCell(n, p, q, 0).y)
  {
  }

  lemma NextRow(n: int, p: int, q: int)
    ensures var a := PairCell(n, p, q, 1);
            PairCell(n, p, q + 1, 0) == Cell(a.x + 1, if p % 2 == 0 then a.y - 1 else a.y + 1)
  {
  }

  lemma LastOfPair(n: int, p: int)
    requires SymbolSize(n) && 0 <= p < (n - 1) / 2 - 1
    ensures var a := PairCell(n, p, n - 1, 1);
            PairCell(n, p + 1, 0, 0) == Cell(if a.x == 7 then 5 else a.x - 1, a.y)
  {
  }

  lemma PairEnds(n: int, p: int)
    requires SymbolSize(n) && 0 <= p < (n - 1) / 2 && StepOf(n, p, n - 1, 1) < n * (n - 1) - 1
    ensures p < (n - 1) / 2 - 1
  {
    NextPair(n, p);
    WalkEnds(n);
    if p + 1 == (n - 1) / 2 {
      assert false;
    }
  }

  /** One step further in the closed form. */
  function Next(n: int, p: int, q: int, c: int): (int, int, int) {
    if c == 0 then (p, q, 1) else if q + 1 < n then (p, q + 1, 0) else (p + 1, 0, 0)
  }

  /** The moves of the four-state machine follow the closed form; only the last leaves the symbol. */
  method Advance(n: int, state: State, x: int, y: int, ghost p: int, ghost q: int, ghost c: int)
    returns (state': State, x': int, y': int)
    requires SymbolSize(n)
    requires 0 <= p < (n - 1) / 2 && 0 <= q < n && 0 <= c < 2
    requires state == StateOf(p, c) && Cell(x, y) == PairCell(n, p, q, c)
    ensures var (p', q', c') := Next(n, p, q, c);
            && state' == StateOf(p', c') && Cell(x', y') == PairCell(n, p', q', c')
            && ((0 <= x' < n) <==> p' < (n - 1) / 2)
  {
    state', x', y' := state, x, y;
    match state {
      case UpwardRight =>
        x' := x' - 1;
        state' := UpwardLeft;
      case UpwardLeft =>
        y' := y' - 1;
        if y' >= 0 {
          x' := x' + 1;
          state' := UpwardRight;
        } else {
          y' := 0;
          x' := x' - 1;
          if x' == 6 { x' := x' - 1; }
          state' := DownwardRight;
        }
      case DownwardRight =>
        x' := x' - 1;
        state' := DownwardLeft;
      case DownwardLeft =>
        y' := y' + 1;
        if y' < n {
          x' := x' + 1;
          state' := DownwardRight;
        } else {
          y' := n - 1;
          x' := x' - 1;
          if x' == 6 { x' := x' - 1; }
          state' := UpwardRight;
        }
    }
  }

  lemma NextStep(n: int, p: int, q: int, c: int)
    requires 0 <= p < (n - 1) / 2 && 0 <= q < n && 0 <= c < 2
    ensures var (p', q', c') := Next(n, p, q, c);
            && StepOf(n, p', q', c') == StepOf(n, p, q, c) + 1
            && 0 <= p' <= (n - 1) / 2 && 0 <= q' < n && 0 <= c' < 2
            && (p' == (n - 1) / 2 ==> q' == c' == 0)
  {
    StepsOf(n, p, q);
    NextPair(n, p);
    hide StepOf;
  }

  /** The module under the walk receives the next bit if it is free. */
  method PutBit(b: array2<int>, cell: Cell, bits: array<int>, j: nat,
                ghost g: Grid, ghost path: seq<Cell>, ghost i: nat) returns (j': nat)
    requires 0 <= cell.x < b.Length0 && 0 <= cell.y < b.Length1
    requires AllInGrid(g, path) && NoRepeats(path) && i < |path| && path[i] == cell
    requires j == |FreeCells(g, path[..i])| < bits.Length
    requires |g| == b.Length0 && forall x :: 0 <= x < |g| ==> |g[x]| == b.Length1
    requires Filled(g, FreeCells(g, path[..i]), bits[..], Snapshot(b))
    modifies b
    ensures j' == |FreeCells(g, path[..i + 1])| <= j + 1
    ensures Filled(g, FreeCells(g, path[..i + 1]), bits[..], Snapshot(b))
  {
    UnwrittenYet(g, path, i);
    FreeCellsStep(g, path, i);
    ghost var h := Snapshot(b);
    assert InGrid(h, cell);
    assert At(h, cell) == At(g, cell);
    j' := j;
    if b[cell.x, cell.y] == FREE {
      b[cell.x, cell.y] := bits[j'];
      j' := j' + 1;
      FilledStep(g, path, i, bits[..], h, Snapshot(b));
    } else {
      FilledStep(g, path, i, bits[..], h, h);
    }
  }

  /** What a placement leaves: bit k in the k-th free module of the path, up to the last bit or the
      last free module. */
  ghost predicate Placed(g: Grid, path: seq<Cell>, bits: seq<int>, total: nat, outcome: Outcome, j: nat, h: Grid)
    requires AllInGrid(g, path)
  {
    var f := FreeCells(g, path);
    && j == (if total <= |f| then total else |f|) <= |bits|
    && outcome == (if total <= |f| then Finished else WrongColumn)
    && Filled(g, f[..j], bits[..j], h)
  }

  lemma PlacedAfter(g: Grid, path: seq<Cell>, i: nat, bits: seq<int>, total: nat, j: nat, h: Grid)
    requires AllInGrid(g, path) && i <= |path| && total <= |bits|
    requires j == |FreeCells(g, path[..i])| <= total
    requires Filled(g, FreeCells(g, path[..i]), bits, h)
    requires j == total || i == |path|
    ensures Placed(g, path, bits, total, if j == total then Finished else WrongColumn, j, h)
  {
    FreeCellsPrefix(g, path, i);
    if i == |path| {
      assert path[..i] == path;
    }
  }

  /** Where the state machine stands after i moves. */
  predicate OnWalk(n: int, i: int, state: State, x: int, y: int, p: int, q: int, c: int) {
    && 0 <= p < (n - 1) / 2 && 0 <= q < n && 0 <= c < 2
    && i == StepOf(n, p, q, c)
    && state == StateOf(p, c) && Cell(x, y) == PairCell(n, p, q, c)
  }

  /** What has been written after i moves. */
  ghost predicate Written(g: Grid, path: seq<Cell>, i: nat, bits: seq<int>, j: nat, h: Grid)
    requires AllInGrid(g, path) && i <= |path|
  {
    && j == |FreeCells(g, path[..i])|
    && Filled(g, FreeCells(g, path[..i]), bits, h)
  }

  /** One round of the loop. */
  method Move(b: array2<int>, n: int, bits: array<int>, state: State, x: int, y: int, j: nat,
              ghost g: Grid, ghost i: nat, ghost p: int, ghost q: int, ghost c: int)
    returns (state': State, x': int, y': int, j': nat, ghost p': int, ghost q': int, ghost c': int)
    requires SymbolSize(n) && n <= b.Length0 && n <= b.Length1
    requires |g| == b.Length0 && forall x :: 0 <= x < |g| ==> |g[x]| == b.Length1
    requires AllInGrid(g, Walk(n)) && NoRepeats(Walk(n)) && i < |Walk(n)|
    requires OnWalk(n, i, state, x, y, p, q, c) && j < bits.Length
    requires Written(g, Walk(n), i, bits[..], j, Snapshot(b))
    modifies b
    ensures j <= j' <= j + 1 && Written(g, Walk(n), i + 1, bits[..], j', Snapshot(b))
    ensures if 0 <= x' < n then i + 1 < |Walk(n)| && OnWalk(n, i + 1, state', x', y', p', q', c')
            else i + 1 == |Walk(n)|
  {
    ghost var path := Walk(n);
    WalkAt(n, p, q, c);
    WalkEnds(n);
    FreeCellsStep(g, path, i);
    NextStep(n, p, q, c);
    hide StateOf, PairCell, Next, Filled, FreeCells, NoRepeats, At, StepOf, Walk, AllInGrid, InGrid, Written, Snapshot;
    j' := PutBit(b, Cell(x, y), bits, j, g, path, i);
    state', x', y' := Advance(n, state, x, y, p, q, c);
    p', q', c' := Next(n, p, q, c).0, Next(n, p, q, c).1, Next(n, p, q, c).2;
    if p' < (n - 1) / 2 {
      WalkAt(n, p', q', c');
    }
  }

  method MatrixPlacement(b: array2<int>, n: int, bits: array<int>, total: nat) returns (outcome: Outcome, j: nat)
    requires SymbolSize(n) && n <= b.Length0 && n <= b.Length1
    requires 0 < total <= bits.Length
    modifies b
    ensures AllInGrid(old(Snapshot(b)), Walk(n))
    ensures Placed(old(Snapshot(b)), Walk(n), bits[..], total, outcome, j, Snapshot(b))
  {
    ghost var g, path := Snapshot(b), Walk(n);
    WalkInGrid(g, n);
    WalkEnds(n);
    var state := UpwardRight;
    var modules := n * n;
    var x, y := n - 1, n - 1;
    j := 0;
    ghost var p, q, c := 0, 0, 0;
    assert path[..0] == [];
    var i := 0;
    assert OnWalk(n, i, state, x, y, p, q, c);
    hide StepOf, Walk, StateOf, PairCell, SymbolSize, FreeCells, NoRepeats, At, OnWalk;
    while i < modules
      invariant 0 <= i < |path|
      invariant OnWalk(n, i, state, x, y, p, q, c)
      invariant j < total && Written(g, path, i, bits[..], j, Snapshot(b))
    {
      hide Filled;
      state, x, y, j, p, q, c := Move(b, n, bits, state, x, y, j, g, i, p, q, c);
      if j == total {
        PlacedAfter(g, path, i + 1, bits[..], total, j, Snapshot(b));
        outcome := Finished;
        return;
      }
      if x < 0 || x >= n {
        PlacedAfter(g, path, i + 1, bits[..], total, j, Snapshot(b));
        outcome := WrongColumn;
        return;
      }
      i := i + 1;
    }
    // the walk always ends by one of the returns above
    assert false;
  }
}
