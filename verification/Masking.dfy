/** `qr_matrix_masking`: the eight masked candidates and the choice between them. */
module Masking {
  import opened Evaluation
  import opened Placement

  /** `v ^= b` on an int. */
  function XorBit(v: int, b: bool): int {
    if !b then v else if v % 2 == 0 then v + 1 else v - 1
  }

  /** Whether mask `id` flips the module in column x, row y. */
  predicate Flips(id: int, x: nat, y: nat) {
    if id == 0 then (y + x) % 2 == 0
    else if id == 1 then y % 2 == 0
    else if id == 2 then x % 3 == 0
    else if id == 3 then (y + x) % 3 == 0
    else if id == 4 then (y / 2 + x / 3) % 2 == 0
    else if id == 5 then (y * x) % 2 + (y * x) % 3 == 0
    else if id == 6 then ((y * x) % 2 + (y * x) % 3) % 2 == 0
    else ((y + x) % 2 + (y * x) % 3) % 2 == 0
  }

  /** The module after masking: only modules of the symbol that no pattern has taken are flipped. */
  function MaskedAt(pattern: Grid, placed: Grid, n: int, id: int, c: Cell): int
    requires InGrid(pattern, c) && InGrid(placed, c)
  {
    if c.x < n && c.y < n && At(pattern, c) == FREE then XorBit(At(placed, c), Flips(id, c.x, c.y)) else At(placed, c)
  }

  function Masked(pattern: Grid, placed: Grid, n: int, id: int): (h: Grid)
    requires Square(pattern, MAX_SIZE) && Square(placed, MAX_SIZE)
    ensures Square(h, MAX_SIZE)
    ensures forall c: Cell :: InGrid(h, c) ==> At(h, c) == MaskedAt(pattern, placed, n, id, c)
  {
    seq(MAX_SIZE, x requires 0 <= x < MAX_SIZE =>
      seq(MAX_SIZE, y requires 0 <= y < MAX_SIZE => MaskedAt(pattern, placed, n, id, Cell(x, y))))
  }

  /** Masking twice with the same mask restores the matrix. */
  lemma MaskingUndone(pattern: Grid, placed: Grid, n: int, id: int)
    requires Square(pattern, MAX_SIZE) && Square(placed, MAX_SIZE)
    ensures Masked(pattern, Masked(pattern, placed, n, id), n, id) == placed
  {
    var twice := Masked(pattern, Masked(pattern, placed, n, id), n, id);
    forall x, y | 0 <= x < MAX_SIZE && 0 <= y < MAX_SIZE
      ensures twice[x][y] == placed[x][y]
    {
      assert InGrid(placed, Cell(x, y)) && InGrid(twice, Cell(x, y));
      assert At(twice, Cell(x, y)) == At(placed, Cell(x, y));
    }
    assert forall x :: 0 <= x < MAX_SIZE ==> twice[x] == placed[x];
  }

  /** One of the eight matrices. */
  function Layer(m: array3<int>, id: int): (g: Grid)
    requires 0 <= id < m.Length0
    reads m
    ensures |g| == m.Length1 && forall x :: 0 <= x < |g| ==> |g[x]| == m.Length2
    ensures forall c: Cell :: InGrid(g, c) ==> At(g, c) == m[id, c.x, c.y]
  {
    seq(m.Length1, x requires 0 <= x < m.Length1 reads m =>
      seq(m.Length2, y requires 0 <= y < m.Length2 reads m => m[id, x, y]))
  }

  /** Copies the placed matrix into layer id and flips its free modules. */
  method FlipLayer(a: array2<int>, b: array2<int>, m: array3<int>, n: int, id: int)
    requires a.Length0 == a.Length1 == b.Length0 == b.Length1 == MAX_SIZE
    requires m.Length0 == 8 && m.Length1 == m.Length2 == MAX_SIZE
    requires 0 <= id < 8 && 0 <= n <= MAX_SIZE
    modifies m
    ensures forall x, y :: 0 <= x < MAX_SIZE && 0 <= y < MAX_SIZE ==>
              m[id, x, y] == if x < n && y < n && a[x, y] == FREE then XorBit(b[x, y], Flips(id, x, y)) else b[x, y]
    ensures forall k, x, y :: 0 <= k < 8 && k != id && 0 <= x < MAX_SIZE && 0 <= y < MAX_SIZE ==>
              m[k, x, y] == old(m[k, x, y])
  {
    forall x, y | 0 <= x < MAX_SIZE && 0 <= y < MAX_SIZE {
      m[id, x, y] := b[x, y];
    }
    hide Flips, XorBit;
    var y := 0;
    while y < n
      invariant 0 <= y <= n
      invariant forall i, j :: 0 <= i < MAX_SIZE && 0 <= j < MAX_SIZE ==>
        m[id, i, j] == if i < n && j < y && a[i, j] == FREE then XorBit(b[i, j], Flips(id, i, j)) else b[i, j]
      invariant forall k, i, j :: 0 <= k < 8 && k != id && 0 <= i < MAX_SIZE && 0 <= j < MAX_SIZE ==>
        m[k, i, j] == old(m[k, i, j])
    {
      var x := 0;
      while x < n
        invariant 0 <= x <= n
        invariant forall i, j :: 0 <= i < MAX_SIZE && 0 <= j < MAX_SIZE ==>
          m[id, i, j] == if i < n && (j < y || (j == y && i < x)) && a[i, j] == FREE
                         then XorBit(b[i, j], Flips(id, i, j)) else b[i, j]
        invariant forall k, i, j :: 0 <= k < 8 && k != id && 0 <= i < MAX_SIZE && 0 <= j < MAX_SIZE ==>
          m[k, i, j] == old(m[k, i, j])
      {
        if a[x, y] == FREE {
          m[id, x, y] := XorBit(m[id, x, y], Flips(id, x, y));
        }
        x := x + 1;
      }
      y := y + 1;
    }
  }

  lemma LayerIsMasked(a: array2<int>, b: array2<int>, m: array3<int>, n: int, id: int)
    requires a.Length0 == a.Length1 == b.Length0 == b.Length1 == MAX_SIZE
    requires m.Length0 == 8 && m.Length1 == m.Length2 == MAX_SIZE
    requires 0 <= id < 8
    requires forall x, y :: 0 <= x < MAX_SIZE && 0 <= y < MAX_SIZE ==>
               m[id, x, y] == if x < n && y < n && a[x, y] == FREE then XorBit(b[x, y], Flips(id, x, y)) else b[x, y]
    ensures Layer(m, id) == Masked(Snapshot(a), Snapshot(b), n, id)
  {
    hide Flips, XorBit;
    var g, h := Layer(m, id), Masked(Snapshot(a), Snapshot(b), n, id);
    forall x, y | 0 <= x < MAX_SIZE && 0 <= y < MAX_SIZE
      ensures g[x][y] == h[x][y]
    {
      assert InGrid(g, Cell(x, y)) && InGrid(h, Cell(x, y));
      assert InGrid(Snapshot(a), Cell(x, y)) && InGrid(Snapshot(b), Cell(x, y));
      assert At(g, Cell(x, y)) == At(h, Cell(x, y));
    }
    assert forall x :: 0 <= x < MAX_SIZE ==> g[x] == h[x];
  }

  lemma LayerEquals(m: array3<int>, id: int, g: Grid)
    requires m.Length0 == 8 && m.Length1 == m.Length2 == MAX_SIZE && 0 <= id < 8
    requires Square(g, MAX_SIZE)
    requires forall x, y :: 0 <= x < MAX_SIZE && 0 <= y < MAX_SIZE ==> m[id, x, y] == g[x][y]
    ensures Layer(m, id) == g
  {
    var h := Layer(m, id);
    forall x, y | 0 <= x < MAX_SIZE && 0 <= y < MAX_SIZE
      ensures h[x][y] == g[x][y]
    {
      assert InGrid(h, Cell(x, y));
      assert At(h, Cell(x, y)) == m[id, x, y];
    }
    assert forall x :: 0 <= x < MAX_SIZE ==> h[x] == g[x];
  }

  method MaskLayer(a: array2<int>, b: array2<int>, m: array3<int>, n: int, id: int)
    requires a.Length0 == a.Length1 == b.Length0 == b.Length1 == MAX_SIZE
    requires m.Length0 == 8 && m.Length1 == m.Length2 == MAX_SIZE
    requires 0 <= id < 8 && 0 <= n <= MAX_SIZE
    modifies m
    ensures Layer(m, id) == Masked(Snapshot(a), Snapshot(b), n, id)
    ensures forall k :: 0 <= k < 8 && k != id ==> Layer(m, k) == old(Layer(m, k))
  {
    hide Flips, XorBit, Masked, Snapshot;
    ghost var was := seq(8, k requires 0 <= k < 8 reads m => Layer(m, k));
    assert forall k, x, y :: 0 <= k < 8 && 0 <= x < MAX_SIZE && 0 <= y < MAX_SIZE ==> was[k][x][y] == m[k, x, y];
    FlipLayer(a, b, m, n, id);
    LayerIsMasked(a, b, m, n, id);
    forall k | 0 <= k < 8 && k != id
      ensures Layer(m, k) == was[k]
    {
      LayerEquals(m, k, was[k]);
    }
  }

  /** `best` is the first of the candidates with the least score. */
  predicate FirstLeast(scores: seq<int>, best: int) {
    && 0 <= best < |scores|
    && forall k :: 0 <= k < |scores| ==> scores[best] <= scores[k] && (k < best ==> scores[best] < scores[k])
  }

  ghost function Scores(pattern: Grid, placed: Grid, n: int): (s: seq<int>)
    requires Square(pattern, MAX_SIZE) && Square(placed, MAX_SIZE) && 11 <= n <= MAX_SIZE
    ensures |s| == 8
  {
    seq(8, id requires 0 <= id < 8 => Score(Masked(pattern, placed, n, id), n))
  }

  /** The score of a matrix: all four evaluations. */
  method Evaluate(matrix: Grid, n: int) returns (score: int)
    requires 11 <= n <= MAX_SIZE && Square(matrix, MAX_SIZE)
    ensures score == Score(matrix, n) < INT_MAX
  {
    hide Runs, Blocks, PatternPenalty, Percent, Steps, TopLeft;
    ScoreBound(matrix, n);
    score := 0;
    var s := Evaluate1(matrix, n);
    score := score + s;
    s := Evaluate2(matrix, n);
    score := score + s;
    s := Evaluate3(matrix, n);
    score := score + s;
    s := Evaluate4(matrix, n);
    score := score + s;
  }

  method MatrixMasking(a: array2<int>, b: array2<int>, m: array3<int>, n: int) returns (maskId: int)
    requires a.Length0 == a.Length1 == b.Length0 == b.Length1 == MAX_SIZE
    requires m.Length0 == 8 && m.Length1 == m.Length2 == MAX_SIZE
    requires 11 <= n <= MAX_SIZE
    modifies m
    ensures forall id :: 0 <= id < 8 ==> Layer(m, id) == Masked(Snapshot(a), Snapshot(b), n, id)
    ensures FirstLeast(Scores(Snapshot(a), Snapshot(b), n), maskId)
    ensures 0 <= maskId < 8
    ensures forall k :: 0 <= k < 8 ==> Score(Layer(m, maskId), n) <= Score(Layer(m, k), n)
    ensures forall k :: 0 <= k < maskId ==> Score(Layer(m, maskId), n) < Score(Layer(m, k), n)
  {
    hide Masked, Snapshot, Layer, Score;
    ghost var ga, gb := Snapshot(a), Snapshot(b);
    ghost var scores := Scores(ga, gb, n);
    var scoreMin := INT_MAX;
    maskId := 0;
    var id := 0;
    while id < 8
      invariant 0 <= id <= 8
      invariant Snapshot(a) == ga && Snapshot(b) == gb
      invariant forall k :: 0 <= k < id ==> Layer(m, k) == Masked(ga, gb, n, k)
      invariant if id == 0 then scoreMin == INT_MAX else FirstLeast(scores[..id], maskId) && scoreMin == scores[maskId]
    {
      MaskLayer(a, b, m, n, id);
      var score := Evaluate(Layer(m, id), n);
      assert score == scores[id];
      if score < scoreMin {
        scoreMin := score;
        maskId := id;
      }
      id := id + 1;
    }
    assert scores[..id] == scores;
    assert forall k :: 0 <= k < 8 ==> scores[k] == Score(Layer(m, k), n);
  }
}
