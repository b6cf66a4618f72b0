/** `evaluate_1` to `evaluate_4`: the penalties whose sum decides which mask is taken. */
module Evaluation {
  import opened Common
  import opened Placement

  const INT_MAX := 2147483647

  predicate Spans(g: Grid, n: nat) {
    1 <= n <= |g| && forall x :: 0 <= x < n ==> n <= |g[x]|
  }

  // ---------- The run penalty ----------

  /** The length of the run of equal modules a line starts with. */
  function FirstRun(line: seq<int>): (r: nat)
    requires line != []
    ensures 1 <= r <= |line|
    ensures forall k :: 0 <= k < r ==> line[k] == line[0]
    ensures r < |line| ==> line[r] != line[0]
  {
    if |line| == 1 || line[1] != line[0] then 1 else 1 + FirstRun(line[1..])
  }

  /** Every maximal run of L >= 5 equal modules costs L - 2. */
  function RunPenalty(line: seq<int>): nat {
    if line == [] then 0
    else var r := FirstRun(line); (if r >= 5 then r - 2 else 0) + RunPenalty(line[r..])
  }

  /** The length of the run a line ends with. */
  function LastRun(line: seq<int>): nat {
    if line == [] then 0
    else var r := FirstRun(line); if r == |line| then r else LastRun(line[r..])
  }

  /** A line whose first run is known, taken apart. */
  lemma FirstRunIs(line: seq<int>, r: nat)
    requires 1 <= r <= |line|
    requires forall k :: 0 <= k < r ==> line[k] == line[0]
    requires r < |line| ==> line[r] != line[0]
    ensures FirstRun(line) == r
    ensures RunPenalty(line) == (if r >= 5 then r - 2 else 0) + RunPenalty(line[r..])
    ensures LastRun(line) == if r == |line| then r else LastRun(line[r..])
  {
  }

  /** One more module behind a line of one colour. */
  lemma WholeRunStep(line: seq<int>, c: int)
    requires line != [] && FirstRun(line) == |line|
    ensures var n := |line|;
            && RunPenalty(line) == (if n >= 5 then n - 2 else 0) && LastRun(line) == n
            && LastRun(line + [c]) == (if c == line[n - 1] then n + 1 else 1)
            && RunPenalty(line + [c]) == (if c == line[n - 1] && n + 1 >= 5 then n - 1 else RunPenalty(line))
  {
    var n, longer := |line|, line + [c];
    assert forall k :: 0 <= k < n ==> longer[k] == line[k] == line[0];
    FirstRunIs(line, n);
    FirstRunIs(longer, if c == line[0] then n + 1 else n);
    SingleModule(c);
    hide FirstRun, RunPenalty, LastRun;
    assert line[n..] == [] && longer[n..] == [c] && longer[n + 1..] == [];
  }

  /** The first of several runs stays as it is. */
  lemma FirstRunStays(line: seq<int>, c: int)
    requires line != [] && FirstRun(line) < |line|
    ensures FirstRun(line + [c]) == FirstRun(line)
    ensures (line + [c])[FirstRun(line)..] == line[FirstRun(line)..] + [c]
  {
    hide FirstRun, RunPenalty, LastRun;
    var r, longer := FirstRun(line), line + [c];
    assert forall k :: 0 <= k <= r ==> longer[k] == line[k];
    FirstRunIs(longer, r);
  }

  /** How the penalty grows with one more module. */
  lemma {:induction false} RunPenaltyStep(line: seq<int>, c: int)
    requires line != []
    ensures var same := c == line[|line| - 1];
            && LastRun(line + [c]) == (if same then LastRun(line) + 1 else 1)
            && RunPenalty(line + [c]) ==
               RunPenalty(line)
               + (if !same then 0 else if LastRun(line) == 4 then 3 else if LastRun(line) > 4 then 1 else 0)
    decreases |line|
  {
    hide *;
    var r := FirstRun(line);
    if r == |line| {
      WholeRunStep(line, c);
    } else {
      FirstRunStays(line, c);
      RunTail(line);
      RunTail(line + [c]);
      RunPenaltyStep(line[r..], c);
    }
  }

  lemma RunTail(line: seq<int>)
    requires line != [] && FirstRun(line) < |line|
    ensures var r := FirstRun(line);
            && RunPenalty(line) == (if r >= 5 then r - 2 else 0) + RunPenalty(line[r..])
            && LastRun(line) == LastRun(line[r..])
  {
  }

  /** Line j of the symbol: a row in the first direction, a column in the second. */
  function Line(g: Grid, n: nat, direction: int, j: nat): (line: seq<int>)
    requires Spans(g, n) && j < n
    ensures |line| == n
  {
    seq(n, i requires 0 <= i < n => if direction == 0 then g[i][j] else g[j][i])
  }

  function PenaltyOfLines(g: Grid, n: nat, direction: int, j: nat): nat
    requires Spans(g, n) && j <= n
  {
    if j == 0 then 0 else PenaltyOfLines(g, n, direction, j - 1) + RunPenalty(Line(g, n, direction, j - 1))
  }

  /** The penalty of all maximal runs, over all rows and all columns. */
  function Runs(g: Grid, n: nat): nat
    requires Spans(g, n)
  {
    PenaltyOfLines(g, n, 0, n) + PenaltyOfLines(g, n, 1, n)
  }

  lemma SingleModule(c: int)
    ensures RunPenalty([c]) == 0 && LastRun([c]) == 1
  {
    assert [c][1..] == [];
  }

  /** The innermost loop of `evaluate_1`: one line, counting the modules of the current run. */
  method EvaluateLine(matrix: Grid, n: nat, direction: int, j: nat) returns (score: int)
    requires Spans(matrix, n) && j < n
    ensures score == RunPenalty(Line(matrix, n, direction, j))
  {
    hide RunPenalty, LastRun;
    ghost var line := Line(matrix, n, direction, j);
    score := 0;
    var count := 1;
    var color := if direction == 0 then matrix[0][j] else matrix[j][0];
    var i := 1;
    assert line[..1] == [color];
    SingleModule(color);
    while i < n
      invariant 1 <= i <= n
      invariant color == line[i - 1]
      invariant count == LastRun(line[..i]) && score == RunPenalty(line[..i])
    {
      var value := if direction == 0 then matrix[i][j] else matrix[j][i];
      assert line[..i + 1] == line[..i] + [value];
      RunPenaltyStep(line[..i], value);
      if color == value {
        count := count + 1;
        if count == 5 { score := score + 3; } else if count > 5 { score := score + 1; }
      } else {
        count := 1;
        color := value;
      }
      i := i + 1;
    }
    assert line[..n] == line;
  }

  /** `evaluate_1`: the penalty of all maximal runs, over all rows and all columns. */
  method Evaluate1(matrix: Grid, n: nat) returns (total: int)
    requires Spans(matrix, n)
    ensures total == Runs(matrix, n)
  {
    hide RunPenalty, Line;
    total := 0;
    var direction := 0;
    while direction < 2
      invariant 0 <= direction <= 2
      invariant total == (if direction > 0 then PenaltyOfLines(matrix, n, 0, n) else 0)
                       + (if direction > 1 then PenaltyOfLines(matrix, n, 1, n) else 0)
    {
      var result := 0;
      var j := 0;
      while j < n
        invariant 0 <= j <= n
        invariant result == PenaltyOfLines(matrix, n, direction, j)
      {
        var score := EvaluateLine(matrix, n, direction, j);
        result := result + score;
        j := j + 1;
      }
      total := total + result;
      direction := direction + 1;
    }
  }

  // ---------- Blocks of one colour ----------

  predicate SameColour(g: Grid, n: nat, x: int, y: int)
    requires Spans(g, n) && 0 <= x < n - 1 && 0 <= y < n - 1
  {
    g[x][y] == g[x + 1][y] && g[x][y] == g[x][y + 1] && g[x][y] == g[x + 1][y + 1]
  }

  /** The module at i in line j. */
  function Place(across: bool, i: int, j: int): Cell {
    if across then Cell(i, j) else Cell(j, i)
  }

  /** What two nested loops have seen of the square of this width: the lines before j, and line j up to i. */
  ghost function Seen(across: bool, width: int, i: int, j: int): set<Cell> {
    set p: int, q: int | 0 <= p < width && 0 <= q < width && (q < j || (q == j && p < i)) :: Place(across, p, q)
  }

  ghost function TopLeft(width: int): set<Cell> {
    set x: int, y: int | 0 <= x < width && 0 <= y < width :: Cell(x, y)
  }

  lemma SeenNothing(across: bool, width: int)
    ensures Seen(across, width, 0, 0) == {}
  {
  }

  lemma SeenStep(across: bool, width: int, i: int, j: int)
    requires 0 <= i < width && 0 <= j < width
    ensures Seen(across, width, i + 1, j) == Seen(across, width, i, j) + {Place(across, i, j)}
    ensures Place(across, i, j) !in Seen(across, width, i, j)
  {
  }

  lemma SeenLine(across: bool, width: int, j: int)
    ensures Seen(across, width, width, j) == Seen(across, width, 0, j + 1)
  {
  }

  lemma SeenAll(across: bool, width: int)
    ensures Seen(across, width, 0, width) == TopLeft(width)
  {
    forall x: int, y: int | 0 <= x < width && 0 <= y < width
      ensures Cell(x, y) in Seen(across, width, 0, width)
    {
      assert Cell(x, y) == if across then Place(across, x, y) else Place(across, y, x);
    }
  }

  lemma {:induction false} SeenSize(width: nat, i: nat, j: nat)
    requires i <= width && j <= width
    ensures |Seen(true, width, i, j)| <= j * width + i
    decreases j, i
  {
    hide Seen;
    if i > 0 && j < width {
      SeenSize(width, i - 1, j);
      SeenStep(true, width, i - 1, j);
    } else if i > 0 {
      SeenBelow(width, i);
      SeenSize(width, 0, j);
    } else if j > 0 {
      SeenSize(width, width, j - 1);
      SeenLine(true, width, j - 1);
      assert j * width == (j - 1) * width + width;
    } else {
      SeenNothing(true, width);
    }
  }

  lemma SeenBelow(width: nat, i: nat)
    ensures Seen(true, width, i, width) == Seen(true, width, 0, width)
  {
  }

  lemma TopLeftSize(width: nat)
    ensures |TopLeft(width)| <= width * width
  {
    SeenSize(width, 0, width);
    SeenAll(true, width);
  }

  lemma SubsetSize(a: set<Cell>, b: set<Cell>)
    requires a <= b
    ensures |a| <= |b|
  {
    assert b == a + (b - a);
  }

  /** Where a 2 x 2 block of one colour starts. */
  ghost function Blocks(g: Grid, n: nat, cells: set<Cell>): set<Cell>
    requires Spans(g, n)
  {
    set c | c in cells && 0 <= c.x < n - 1 && 0 <= c.y < n - 1 && SameColour(g, n, c.x, c.y)
  }

  /** `evaluate_2`: 3 for every 2 x 2 block of one colour; blocks may overlap. */
  method Evaluate2(matrix: Grid, n: nat) returns (result: int)
    requires Spans(matrix, n)
    ensures result == 3 * |Blocks(matrix, n, TopLeft(n - 1))|
  {
    hide Seen, Blocks;
    result := 0;
    var loop := n - 1;
    var y := 0;
    SeenNothing(true, loop);
    NoBlocks(matrix, n);
    while y < loop
      invariant 0 <= y <= loop
      invariant result == 3 * |Blocks(matrix, n, Seen(true, loop, 0, y))|
    {
      var x := 0;
      while x < loop
        invariant 0 <= x <= loop
        invariant result == 3 * |Blocks(matrix, n, Seen(true, loop, x, y))|
      {
        var color := matrix[x][y];
        SeenStep(true, loop, x, y);
        BlocksStep(matrix, n, Seen(true, loop, x, y), x, y);
        if color == matrix[x + 1][y] && color == matrix[x][y + 1] && color == matrix[x + 1][y + 1] {
          result := result + 3;
        }
        x := x + 1;
      }
      SeenLine(true, loop, y);
      y := y + 1;
    }
    SeenAll(true, loop);
  }

  lemma NoBlocks(g: Grid, n: nat)
    requires Spans(g, n)
    ensures Blocks(g, n, {}) == {}
  {
  }

  lemma BlocksStep(g: Grid, n: nat, cells: set<Cell>, x: int, y: int)
    requires Spans(g, n) && 0 <= x < n - 1 && 0 <= y < n - 1 && Cell(x, y) !in cells
    ensures |Blocks(g, n, cells + {Cell(x, y)})| ==
            |Blocks(g, n, cells)| + if SameColour(g, n, x, y) then 1 else 0
  {
    var more := Blocks(g, n, cells + {Cell(x, y)});
    if SameColour(g, n, x, y) {
      assert more == Blocks(g, n, cells) + {Cell(x, y)};
    } else {
      assert more == Blocks(g, n, cells);
    }
  }

  // ---------- Patterns that look like a finder ----------

  const PATTERN0: seq<int> := [1, 0, 1, 1, 1, 0, 1, 0, 0, 0, 0]
  const PATTERN1: seq<int> := [0, 0, 0, 0, 1, 0, 1, 1, 1, 0, 1]

  /** The eleven modules from (x, y) on, to the right or downwards, are the pattern. */
  predicate Matches(g: Grid, n: nat, pattern: seq<int>, across: bool, c: Cell)
    requires Spans(g, n) && |pattern| == 11 && 0 <= c.x < n && 0 <= c.y < n
    requires if across then c.x + 11 <= n else c.y + 11 <= n
  {
    forall k :: 0 <= k < 11 ==> pattern[k] == if across then g[c.x + k][c.y] else g[c.x][c.y + k]
  }

  ghost function Hits(g: Grid, n: nat, pattern: seq<int>, across: bool, cells: set<Cell>): set<Cell>
    requires Spans(g, n) && |pattern| == 11
  {
    set c | c in cells && 0 <= c.x < n && 0 <= c.y < n && (if across then c.x + 11 <= n else c.y + 11 <= n)
            && Matches(g, n, pattern, across, c)
  }

  /** What loop number k finds: only in the top left corner of width n - 10. */
  ghost function Found(g: Grid, n: nat, k: int): set<Cell>
    requires Spans(g, n)
  {
    Hits(g, n, PatternOf(k), k == 0, TopLeft(n - 10))
  }

  function PatternOf(k: int): (p: seq<int>)
    ensures |p| == 11
  {
    if k < 2 then PATTERN0 else PATTERN1
  }

  /** The innermost loop of `evaluate_3`. */
  method MatchHere(matrix: Grid, n: nat, pattern: seq<int>, across: bool, c: Cell) returns (k: int)
    requires Spans(matrix, n) && |pattern| == 11 && 0 <= c.x < n - 10 && 0 <= c.y < n - 10
    ensures k == 11 <==> Matches(matrix, n, pattern, across, c)
  {
    k := 0;
    while k < 11
      invariant 0 <= k <= 11
      invariant forall i :: 0 <= i < k ==>
        pattern[i] == if across then matrix[c.x + i][c.y] else matrix[c.x][c.y + i]
    {
      if pattern[k] != if across then matrix[c.x + k][c.y] else matrix[c.x][c.y + k] { break; }
      k := k + 1;
    }
  }

  lemma NoHits(g: Grid, n: nat, pattern: seq<int>, across: bool)
    requires Spans(g, n) && |pattern| == 11
    ensures Hits(g, n, pattern, across, {}) == {}
  {
  }

  lemma HitsStep(g: Grid, n: nat, pattern: seq<int>, across: bool, cells: set<Cell>, c: Cell)
    requires Spans(g, n) && |pattern| == 11 && 0 <= c.x < n - 10 && 0 <= c.y < n - 10 && c !in cells
    ensures |Hits(g, n, pattern, across, cells + {c})| ==
            |Hits(g, n, pattern, across, cells)| + if Matches(g, n, pattern, across, c) then 1 else 0
  {
    hide Matches;
    var more := Hits(g, n, pattern, across, cells + {c});
    if Matches(g, n, pattern, across, c) {
      assert more == Hits(g, n, pattern, across, cells) + {c};
    } else {
      assert more == Hits(g, n, pattern, across, cells);
    }
  }

  /** One of the four rounds of `evaluate_3`. */
  method CountPattern(matrix: Grid, n: nat, k: int) returns (result: int)
    requires Spans(matrix, n) && 11 <= n && 0 <= k < 4
    ensures result == 40 * |Found(matrix, n, k)|
  {
    hide Seen, Hits, Matches;
    result := 0;
    var loop := n - 11 + 1;
    var across, pattern := k == 0, PatternOf(k);
    SeenNothing(across, loop);
    NoHits(matrix, n, pattern, across);
    var j := 0;
    while j < loop
      invariant 0 <= j <= loop
      invariant result == 40 * |Hits(matrix, n, pattern, across, Seen(across, loop, 0, j))|
    {
      var i := 0;
      while i < loop
        invariant 0 <= i <= loop
        invariant result == 40 * |Hits(matrix, n, pattern, across, Seen(across, loop, i, j))|
      {
        SeenStep(across, loop, i, j);
        HitsStep(matrix, n, pattern, across, Seen(across, loop, i, j), Place(across, i, j));
        var m := MatchHere(matrix, n, pattern, across, Place(across, i, j));
        if m == 11 {
          result := result + 40;
        }
        i := i + 1;
      }
      SeenLine(across, loop, j);
      j := j + 1;
    }
    SeenAll(across, loop);
  }

  /** The penalty of `evaluate_3`. */
  ghost function PatternPenalty(g: Grid, n: nat): nat
    requires Spans(g, n)
  {
    40 * |Found(g, n, 0)| + 40 * |Found(g, n, 1)| + 40 * |Found(g, n, 2)| + 40 * |Found(g, n, 3)|
  }

  method Evaluate3(matrix: Grid, n: nat) returns (total: int)
    requires Spans(matrix, n) && 11 <= n
    ensures total == PatternPenalty(matrix, n)
  {
    hide Found;
    total := 0;
    var k := 0;
    while k < 4
      invariant 0 <= k <= 4
      invariant total == (if k > 0 then 40 * |Found(matrix, n, 0)| else 0)
                       + (if k > 1 then 40 * |Found(matrix, n, 1)| else 0)
                       + (if k > 2 then 40 * |Found(matrix, n, 2)| else 0)
                       + (if k > 3 then 40 * |Found(matrix, n, 3)| else 0)
    {
      var result := CountPattern(matrix, n, k);
      total := total + result;
      k := k + 1;
    }
  }

  /** Both patterns in all rows and all columns. */
  ghost function FullPenalty(g: Grid, n: nat): nat
    requires Spans(g, n)
  {
    40 * |Hits(g, n, PATTERN0, true, TopLeft(n))| + 40 * |Hits(g, n, PATTERN0, false, TopLeft(n))|
    + 40 * |Hits(g, n, PATTERN1, true, TopLeft(n))| + 40 * |Hits(g, n, PATTERN1, false, TopLeft(n))|
  }

  /** The occurrences in the last ten lines. */
  ghost function LastLines(g: Grid, n: nat, pattern: seq<int>, across: bool): set<Cell>
    requires Spans(g, n) && |pattern| == 11
  {
    Hits(g, n, pattern, across, TopLeft(n) - TopLeft(n - 10))
  }

  lemma HitsSplit(g: Grid, n: nat, pattern: seq<int>, across: bool)
    requires Spans(g, n) && |pattern| == 11
    ensures |Hits(g, n, pattern, across, TopLeft(n))| ==
            |Hits(g, n, pattern, across, TopLeft(n - 10))| + |LastLines(g, n, pattern, across)|
  {
    hide Matches;
    var a, b := Hits(g, n, pattern, across, TopLeft(n - 10)), LastLines(g, n, pattern, across);
    assert TopLeft(n - 10) <= TopLeft(n);
    assert Hits(g, n, pattern, across, TopLeft(n)) == a + b && a !! b;
  }

  /**
    The second pattern is searched twice in columns and never in rows, and the last ten lines are not
    searched: by how much the penalty is wrong.
  */
  lemma PatternPenaltyError(g: Grid, n: nat)
    requires Spans(g, n)
    ensures FullPenalty(g, n) - PatternPenalty(g, n) ==
            40 * (|Hits(g, n, PATTERN1, true, TopLeft(n))| + |LastLines(g, n, PATTERN0, true)|
                  + |LastLines(g, n, PATTERN0, false)| + |LastLines(g, n, PATTERN1, false)| - |Found(g, n, 3)|)
  {
    hide Hits, TopLeft, LastLines;
    HitsSplit(g, n, PATTERN0, true);
    HitsSplit(g, n, PATTERN0, false);
    HitsSplit(g, n, PATTERN1, false);
    assert Found(g, n, 2) == Found(g, n, 3);
  }

  // ---------- The share of dark modules ----------

  ghost function Dark(g: Grid, n: nat, cells: set<Cell>): set<Cell>
    requires Spans(g, n)
  {
    set c | c in cells && 0 <= c.x < n && 0 <= c.y < n && g[c.x][c.y] == 1
  }

  /** How many whole steps of five percent lie between a percentage and the band from 45 to 54. */
  function Steps(percent: int): int {
    if percent < 50 then (49 - percent) / 5 else (percent - 50) / 5
  }

  ghost function Percent(g: Grid, n: nat): int
    requires Spans(g, n)
  {
    |Dark(g, n, TopLeft(n))| * 100 / (n * n)
  }

  function Abs(x: int): int {
    if x < 0 then -x else x
  }

  /** `evaluate_4`: 10 for every step. */
  method Evaluate4(matrix: Grid, n: nat) returns (result: int)
    requires Spans(matrix, n)
    ensures result == 10 * Steps(Percent(matrix, n))
  {
    hide Seen, Dark;
    var dark := 0;
    var y := 0;
    SeenNothing(true, n);
    NoDark(matrix, n);
    while y < n
      invariant 0 <= y <= n
      invariant dark == |Dark(matrix, n, Seen(true, n, 0, y))|
    {
      var x := 0;
      while x < n
        invariant 0 <= x <= n
        invariant dark == |Dark(matrix, n, Seen(true, n, x, y))|
      {
        SeenStep(true, n, x, y);
        DarkStep(matrix, n, Seen(true, n, x, y), x, y);
        if matrix[x][y] == 1 {
          dark := dark + 1;
        }
        x := x + 1;
      }
      SeenLine(true, n, y);
      y := y + 1;
    }
    SeenAll(true, n);
    var total := n * n;
    var percent := dark * 100 / total;
    StepsByRounding(percent);
    hide Steps, Abs;
    var below := if percent % 5 != 0 then percent / 5 * 5 else percent;
    var above := below + 5;
    var low, high := Abs(below - 50) / 5, Abs(above - 50) / 5;
    result := if low < high then low else high;
    result := result * 10;
  }

  lemma StepsByRounding(percent: nat)
    ensures var below := if percent % 5 != 0 then percent / 5 * 5 else percent;
            var low, high := Abs(below - 50) / 5, Abs(below + 5 - 50) / 5;
            Steps(percent) == if low < high then low else high
  {
  }

  lemma NoDark(g: Grid, n: nat)
    requires Spans(g, n)
    ensures Dark(g, n, {}) == {}
  {
  }

  lemma DarkStep(g: Grid, n: nat, cells: set<Cell>, x: int, y: int)
    requires Spans(g, n) && 0 <= x < n && 0 <= y < n && Cell(x, y) !in cells
    ensures |Dark(g, n, cells + {Cell(x, y)})| == |Dark(g, n, cells)| + if g[x][y] == 1 then 1 else 0
  {
    var more := Dark(g, n, cells + {Cell(x, y)});
    if g[x][y] == 1 {
      assert more == Dark(g, n, cells) + {Cell(x, y)};
    } else {
      assert more == Dark(g, n, cells);
    }
  }

  // ---------- The score ----------

  /** The sum of the four penalties. */
  ghost function Score(g: Grid, n: nat): int
    requires Spans(g, n)
  {
    Runs(g, n) + 3 * |Blocks(g, n, TopLeft(n - 1))| + PatternPenalty(g, n) + 10 * Steps(Percent(g, n))
  }

  lemma {:induction false} RunPenaltyBound(line: seq<int>)
    ensures RunPenalty(line) <= |line|
  {
    if line == [] {
    } else {
      RunPenaltyBound(line[FirstRun(line)..]);
    }
  }

  lemma {:induction false} LinesBound(g: Grid, n: nat, direction: int, j: nat)
    requires Spans(g, n) && j <= n
    ensures PenaltyOfLines(g, n, direction, j) <= j * n
  {
    hide RunPenalty;
    if j == 0 {
    } else {
      LinesBound(g, n, direction, j - 1);
      RunPenaltyBound(Line(g, n, direction, j - 1));
      assert j * n == (j - 1) * n + n;
    }
  }

  /** No score comes near to the initial minimum, so a mask is always chosen. */
  lemma ScoreBound(g: Grid, n: nat)
    requires Spans(g, n) && n <= MAX_SIZE
    ensures Score(g, n) <= 165 * (n * n) + 100 < INT_MAX
  {
    var square := n * n;
    TopLeftSize(n);
    SubsetSize(Blocks(g, n, TopLeft(n - 1)), TopLeft(n));
    SubsetSize(Found(g, n, 0), TopLeft(n));
    SubsetSize(Found(g, n, 1), TopLeft(n));
    SubsetSize(Found(g, n, 2), TopLeft(n));
    SubsetSize(Found(g, n, 3), TopLeft(n));
    SubsetSize(Dark(g, n, TopLeft(n)), TopLeft(n));
    LinesBound(g, n, 0, n);
    LinesBound(g, n, 1, n);
    hide Blocks, TopLeft, Found, Dark, PenaltyOfLines;
    Share(|Dark(g, n, TopLeft(n))|, square);
    MulMonotone(n, n, MAX_SIZE);
    MulMonotone(MAX_SIZE, n, MAX_SIZE);
    assert n * MAX_SIZE == MAX_SIZE * n && MAX_SIZE * MAX_SIZE == 31329;
  }

  lemma Share(part: nat, whole: nat)
    requires part <= whole && 0 < whole
    ensures 0 <= part * 100 / whole <= 100
  {
    if part * 100 / whole > 100 {
      MulMonotone(whole, 101, part * 100 / whole);
    }
  }
}
