/** Laws of the four penalties that hold for every matrix, and the score of a matrix of one colour. */
module PenaltyLaws {
  import opened Common
  import opened Placement
  import opened FreeModules
  import opened PatternColours
  import E = Evaluation

  // ---------- Rows and columns ----------

  function Transposed(g: Grid, n: nat): (h: Grid)
    requires E.Spans(g, n)
    ensures E.Spans(h, n) && forall x, y :: 0 <= x < n && 0 <= y < n ==> h[x][y] == g[y][x]
  {
    seq(n, x requires 0 <= x < n => seq(n, y requires 0 <= y < n => g[y][x]))
  }

  lemma {:induction false} LinesTransposed(g: Grid, n: nat, j: nat)
    requires E.Spans(g, n) && j <= n
    ensures E.PenaltyOfLines(Transposed(g, n), n, 0, j) == E.PenaltyOfLines(g, n, 1, j)
    ensures E.PenaltyOfLines(Transposed(g, n), n, 1, j) == E.PenaltyOfLines(g, n, 0, j)
  {
    hide E.RunPenalty;
    if j == 0 {
    } else {
      LinesTransposed(g, n, j - 1);
      assert E.Line(Transposed(g, n), n, 0, j - 1) == E.Line(g, n, 1, j - 1);
      assert E.Line(Transposed(g, n), n, 1, j - 1) == E.Line(g, n, 0, j - 1);
    }
  }

  /** Rows and columns count alike: the run penalty of the transposed matrix is the same. */
  lemma RunsTransposed(g: Grid, n: nat)
    requires E.Spans(g, n)
    ensures E.Runs(Transposed(g, n), n) == E.Runs(g, n)
  {
    LinesTransposed(g, n, n);
    hide E.PenaltyOfLines, Transposed;
  }

  // ---------- One colour ----------

  predicate Uniform(g: Grid, n: nat, colour: int)
    requires E.Spans(g, n)
  {
    forall x, y :: 0 <= x < n && 0 <= y < n ==> g[x][y] == colour
  }

  lemma UniformLine(g: Grid, n: nat, colour: int, direction: int, j: nat)
    requires E.Spans(g, n) && Uniform(g, n, colour) && 5 <= n && j < n
    ensures E.RunPenalty(E.Line(g, n, direction, j)) == n - 2
  {
    var line := E.Line(g, n, direction, j);
    assert forall k :: 0 <= k < n ==> line[k] == colour;
    E.FirstRunIs(line, n);
    assert line[n..] == [];
  }

  lemma {:induction false} UniformLines(g: Grid, n: nat, colour: int, direction: int, j: nat)
    requires E.Spans(g, n) && Uniform(g, n, colour) && 5 <= n && j <= n
    ensures E.PenaltyOfLines(g, n, direction, j) == j * (n - 2)
  {
    hide E.RunPenalty, E.Line, Uniform;
    if j == 0 {
    } else {
      UniformLines(g, n, colour, direction, j - 1);
      UniformLine(g, n, colour, direction, j - 1);
      assert j * (n - 2) == (j - 1) * (n - 2) + (n - 2);
    }
  }

  lemma TopLeftExact(width: nat)
    ensures |E.TopLeft(width)| == width * width
  {
    RectSize(0, 0, width, width);
    assert E.TopLeft(width) == Cells(Rect(0, 0, width, width));
  }

  lemma UniformBlocks(g: Grid, n: nat, colour: int)
    requires E.Spans(g, n) && Uniform(g, n, colour)
    ensures |E.Blocks(g, n, E.TopLeft(n - 1))| == (n - 1) * (n - 1)
  {
    TopLeftExact(n - 1);
    assert E.Blocks(g, n, E.TopLeft(n - 1)) == E.TopLeft(n - 1);
  }

  lemma MatchIsUniform(g: Grid, n: nat, colour: int, pattern: seq<int>, across: bool, c: Cell)
    requires E.Spans(g, n) && Uniform(g, n, colour) && |pattern| == 11
    requires 0 <= c.x < n && 0 <= c.y < n && if across then c.x + 11 <= n else c.y + 11 <= n
    requires E.Matches(g, n, pattern, across, c)
    ensures forall k :: 0 <= k < 11 ==> pattern[k] == colour
  {
  }

  lemma UniformNoPattern(g: Grid, n: nat, colour: int, k: int)
    requires E.Spans(g, n) && Uniform(g, n, colour)
    ensures E.Found(g, n, k) == {}
  {
    var across, pattern := k == 0, E.PatternOf(k);
    assert pattern[0] != pattern[1] || pattern[3] != pattern[4];
    forall c: Cell | 0 <= c.x < n && 0 <= c.y < n && (if across then c.x + 11 <= n else c.y + 11 <= n)
      ensures !E.Matches(g, n, pattern, across, c)
    {
      hide E.PatternOf, E.Matches;
      if E.Matches(g, n, pattern, across, c) {
        MatchIsUniform(g, n, colour, pattern, across, c);
        assert false;
      }
    }
  }

  lemma UniformDark(g: Grid, n: nat, colour: int)
    requires E.Spans(g, n) && Uniform(g, n, colour)
    ensures E.Percent(g, n) == if colour == 1 then 100 else 0
  {
    TopLeftExact(n);
    MulMonotone(n, 1, n);
    var cells := E.TopLeft(n);
    assert E.Dark(g, n, cells) == if colour == 1 then cells else {};
    hide E.Dark, E.TopLeft;
    Share(n * n);
  }

  lemma Share(whole: nat)
    requires whole > 0
    ensures whole * 100 / whole == 100 && 0 * 100 / whole == 0
  {
  }

  /** All modules of one colour: every line is one run, every block counts, and nothing or everything is dark. */
  lemma UniformScore(g: Grid, n: nat, colour: int)
    requires E.Spans(g, n) && Uniform(g, n, colour) && 5 <= n && 0 <= colour <= 1
    ensures E.Score(g, n) == 2 * (n * (n - 2)) + 3 * ((n - 1) * (n - 1)) + if colour == 1 then 100 else 90
  {
    UniformLines(g, n, colour, 0, n);
    UniformLines(g, n, colour, 1, n);
    UniformBlocks(g, n, colour);
    UniformNoPattern(g, n, colour, 0);
    UniformNoPattern(g, n, colour, 1);
    UniformNoPattern(g, n, colour, 2);
    UniformNoPattern(g, n, colour, 3);
    UniformDark(g, n, colour);
    hide E.PenaltyOfLines, E.Blocks, E.Found, E.Percent, E.TopLeft, Uniform;
  }

  // ---------- What is searched for ----------

  /** The patterns are the middle row of a finder pattern with four light modules behind or before it. */
  lemma PatternsAreFinderRows(k: nat)
    requires k < 11
    ensures E.PATTERN0[k] == if k < 8 && Dark(FINDER, k + 1, 4) then 1 else 0
    ensures E.PATTERN1[k] == E.PATTERN0[10 - k]
  {
  }

  /** The fourth penalty: the band from 45 to 54 percent is free, every further five percent cost one step. */
  lemma StepsBand(percent: nat, k: nat)
    ensures E.Steps(percent) == k <==> 45 - 5 * k <= percent < 50 - 5 * k || 50 + 5 * k <= percent < 55 + 5 * k
  {
  }
}
