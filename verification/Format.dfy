/** `qr_format_version`: the format and version strings written over the masked matrix. */
module Format {
  import opened Placement
  import opened Pattern
  import opened FreeModules
  import opened Masking
  import opened Tables

  predicate MaskId(id: int) {
    0 <= id < 8
  }

  function FormatStringL(id: int): (f: seq<int>)
    ensures |f| == 15 && forall i :: 0 <= i < 15 ==> 0 <= f[i] <= 1
  {
    if id == 0 then [1, 1, 1, 0, 1, 1, 1, 1, 1, 0, 0, 0, 1, 0, 0]
    else if id == 1 then [1, 1, 1, 0, 0, 1, 0, 1, 1, 1, 1, 0, 0, 1, 1]
    else if id == 2 then [1, 1, 1, 1, 1, 0, 1, 1, 0, 1, 0, 1, 0, 1, 0]
    else if id == 3 then [1, 1, 1, 1, 0, 0, 0, 1, 0, 0, 1, 1, 1, 0, 1]
    else if id == 4 then [1, 1, 0, 0, 1, 1, 0, 0, 0, 1, 0, 1, 1, 1, 1]
    else if id == 5 then [1, 1, 0, 0, 0, 1, 1, 0, 0, 0, 1, 1, 0, 0, 0]
    else if id == 6 then [1, 1, 0, 1, 1, 0, 0, 0, 1, 0, 0, 0, 0, 0, 1]
    else [1, 1, 0, 1, 0, 0, 1, 0, 1, 1, 1, 0, 1, 1, 0]
  }

  function FormatStringM(id: int): (f: seq<int>)
    ensures |f| == 15 && forall i :: 0 <= i < 15 ==> 0 <= f[i] <= 1
  {
    if id == 0 then [1, 0, 1, 0, 1, 0, 0, 0, 0, 0, 1, 0, 0, 1, 0]
    else if id == 1 then [1, 0, 1, 0, 0, 0, 1, 0, 0, 1, 0, 0, 1, 0, 1]
    else if id == 2 then [1, 0, 1, 1, 1, 1, 0, 0, 1, 1, 1, 1, 1, 0, 0]
    else if id == 3 then [1, 0, 1, 1, 0, 1, 1, 0, 1, 0, 0, 1, 0, 1, 1]
    else if id == 4 then [1, 0, 0, 0, 1, 0, 1, 1, 1, 1, 1, 1, 0, 0, 1]
    else if id == 5 then [1, 0, 0, 0, 0, 0, 0, 1, 1, 0, 0, 1, 1, 1, 0]
    else if id == 6 then [1, 0, 0, 1, 1, 1, 1, 1, 0, 0, 1, 0, 1, 1, 1]
    else [1, 0, 0, 1, 0, 1, 0, 1, 0, 1, 0, 0, 0, 0, 0]
  }

  function FormatStringQ(id: int): (f: seq<int>)
    ensures |f| == 15 && forall i :: 0 <= i < 15 ==> 0 <= f[i] <= 1
  {
    if id == 0 then [0, 1, 1, 0, 1, 0, 1, 0, 1, 0, 1, 1, 1, 1, 1]
    else if id == 1 then [0, 1, 1, 0, 0, 0, 0, 0, 1, 1, 0, 1, 0, 0, 0]
    else if id == 2 then [0, 1, 1, 1, 1, 1, 1, 0, 0, 1, 1, 0, 0, 0, 1]
    else if id == 3 then [0, 1, 1, 1, 0, 1, 0, 0, 0, 0, 0, 0, 1, 1, 0]
    else if id == 4 then [0, 1, 0, 0, 1, 0, 0, 1, 0, 1, 1, 0, 1, 0, 0]
    else if id == 5 then [0, 1, 0, 0, 0, 0, 1, 1, 0, 0, 0, 0, 0, 1, 1]
    else if id == 6 then [0, 1, 0, 1, 1, 1, 0, 1, 1, 0, 1, 1, 0, 1, 0]
    else [0, 1, 0, 1, 0, 1, 1, 1, 1, 1, 0, 1, 1, 0, 1]
  }

  function FormatStringH(id: int): (f: seq<int>)
    ensures |f| == 15 && forall i :: 0 <= i < 15 ==> 0 <= f[i] <= 1
  {
    if id == 0 then [0, 0, 1, 0, 1, 1, 0, 1, 0, 0, 0, 1, 0, 0, 1]
    else if id == 1 then [0, 0, 1, 0, 0, 1, 1, 1, 0, 1, 1, 1, 1, 1, 0]
    else if id == 2 then [0, 0, 1, 1, 1, 0, 0, 1, 1, 1, 0, 0, 1, 1, 1]
    else if id == 3 then [0, 0, 1, 1, 0, 0, 1, 1, 1, 0, 1, 0, 0, 0, 0]
    else if id == 4 then [0, 0, 0, 0, 1, 1, 1, 0, 1, 1, 0, 0, 0, 1, 0]
    else if id == 5 then [0, 0, 0, 0, 0, 1, 0, 0, 1, 0, 1, 0, 1, 0, 1]
    else if id == 6 then [0, 0, 0, 1, 1, 0, 1, 0, 0, 0, 0, 1, 1, 0, 0]
    else [0, 0, 0, 1, 0, 0, 0, 0, 0, 1, 1, 1, 0, 1, 1]
  }

  /** The 15 format modules for a level and a mask. */
  function FormatString(level: int, id: int): (f: seq<int>)
    ensures |f| == 15 && forall i :: 0 <= i < 15 ==> 0 <= f[i] <= 1
  {
    if level == 1 then FormatStringL(id) else if level == 2 then FormatStringM(id)
    else if level == 3 then FormatStringQ(id) else FormatStringH(id)
  }

  function VersionString1(v: int): (f: seq<int>)
    ensures |f| == 18 && forall i :: 0 <= i < 18 ==> 0 <= f[i] <= 1
  {
    if v == 7 then [0, 0, 0, 1, 1, 1, 1, 1, 0, 0, 1, 0, 0, 1, 0, 1, 0, 0]
    else if v == 8 then [0, 0, 1, 0, 0, 0, 0, 1, 0, 1, 1, 0, 1, 1, 1, 1, 0, 0]
    else if v == 9 then [0, 0, 1, 0, 0, 1, 1, 0, 1, 0, 1, 0, 0, 1, 1, 0, 0, 1]
    else if v == 10 then [0, 0, 1, 0, 1, 0, 0, 1, 0, 0, 1, 1, 0, 1, 0, 0, 1, 1]
    else if v == 11 then [0, 0, 1, 0, 1, 1, 1, 0, 1, 1, 1, 1, 1, 1, 0, 1, 1, 0]
    else if v == 12 then [0, 0, 1, 1, 0, 0, 0, 1, 1, 1, 0, 1, 1, 0, 0, 0, 1, 0]
    else [0, 0, 1, 1, 0, 1, 1, 0, 0, 0, 0, 1, 0, 0, 0, 1, 1, 1]
  }

  function VersionString2(v: int): (f: seq<int>)
    ensures |f| == 18 && forall i :: 0 <= i < 18 ==> 0 <= f[i] <= 1
  {
    if v == 14 then [0, 0, 1, 1, 1, 0, 0, 1, 1, 0, 0, 0, 0, 0, 1, 1, 0, 1]
    else if v == 15 then [0, 0, 1, 1, 1, 1, 1, 0, 0, 1, 0, 0, 1, 0, 1, 0, 0, 0]
    else if v == 16 then [0, 1, 0, 0, 0, 0, 1, 0, 1, 1, 0, 1, 1, 1, 1, 0, 0, 0]
    else if v == 17 then [0, 1, 0, 0, 0, 1, 0, 1, 0, 0, 0, 1, 0, 1, 1, 1, 0, 1]
    else if v == 18 then [0, 1, 0, 0, 1, 0, 1, 0, 1, 0, 0, 0, 0, 1, 0, 1, 1, 1]
    else if v == 19 then [0, 1, 0, 0, 1, 1, 0, 1, 0, 1, 0, 0, 1, 1, 0, 0, 1, 0]
    else [0, 1, 0, 1, 0, 0, 1, 0, 0, 1, 1, 0, 1, 0, 0, 1, 1, 0]
  }

  function VersionString3(v: int): (f: seq<int>)
    ensures |f| == 18 && forall i :: 0 <= i < 18 ==> 0 <= f[i] <= 1
  {
    if v == 21 then [0, 1, 0, 1, 0, 1, 0, 1, 1, 0, 1, 0, 0, 0, 0, 0, 1, 1]
    else if v == 22 then [0, 1, 0, 1, 1, 0, 1, 0, 0, 0, 1, 1, 0, 0, 1, 0, 0, 1]
    else if v == 23 then [0, 1, 0, 1, 1, 1, 0, 1, 1, 1, 1, 1, 1, 0, 1, 1, 0, 0]
    else if v == 24 then [0, 1, 1, 0, 0, 0, 1, 1, 1, 0, 1, 1, 0, 0, 0, 1, 0, 0]
    else if v == 25 then [0, 1, 1, 0, 0, 1, 0, 0, 0, 1, 1, 1, 1, 0, 0, 0, 0, 1]
    else if v == 26 then [0, 1, 1, 0, 1, 0, 1, 1, 1, 1, 1, 0, 1, 0, 1, 0, 1, 1]
    else [0, 1, 1, 0, 1, 1, 0, 0, 0, 0, 1, 0, 0, 0, 1, 1, 1, 0]
  }

  function VersionString4(v: int): (f: seq<int>)
    ensures |f| == 18 && forall i :: 0 <= i < 18 ==> 0 <= f[i] <= 1
  {
    if v == 28 then [0, 1, 1, 1, 0, 0, 1, 1, 0, 0, 0, 0, 0, 1, 1, 0, 1, 0]
    else if v == 29 then [0, 1, 1, 1, 0, 1, 0, 0, 1, 1, 0, 0, 1, 1, 1, 1, 1, 1]
    else if v == 30 then [0, 1, 1, 1, 1, 0, 1, 1, 0, 1, 0, 1, 1, 1, 0, 1, 0, 1]
    else if v == 31 then [0, 1, 1, 1, 1, 1, 0, 0, 1, 0, 0, 1, 0, 1, 0, 0, 0, 0]
    else if v == 32 then [1, 0, 0, 0, 0, 0, 1, 0, 0, 1, 1, 1, 0, 1, 0, 1, 0, 1]
    else if v == 33 then [1, 0, 0, 0, 0, 1, 0, 1, 1, 0, 1, 1, 1, 1, 0, 0, 0, 0]
    else [1, 0, 0, 0, 1, 0, 1, 0, 0, 0, 1, 0, 1, 1, 1, 0, 1, 0]
  }

  function VersionString5(v: int): (f: seq<int>)
    ensures |f| == 18 && forall i :: 0 <= i < 18 ==> 0 <= f[i] <= 1
  {
    if v == 35 then [1, 0, 0, 0, 1, 1, 0, 1, 1, 1, 1, 0, 0, 1, 1, 1, 1, 1]
    else if v == 36 then [1, 0, 0, 1, 0, 0, 1, 0, 1, 1, 0, 0, 0, 0, 1, 0, 1, 1]
    else if v == 37 then [1, 0, 0, 1, 0, 1, 0, 1, 0, 0, 0, 0, 1, 0, 1, 1, 1, 0]
    else if v == 38 then [1, 0, 0, 1, 1, 0, 1, 0, 1, 0, 0, 1, 1, 0, 0, 1, 0, 0]
    else if v == 39 then [1, 0, 0, 1, 1, 1, 0, 1, 0, 1, 0, 1, 0, 0, 0, 0, 0, 1]
    else [1, 0, 1, 0, 0, 0, 1, 1, 0, 0, 0, 1, 1, 0, 1, 0, 0, 1]
  }

  /** The 18 version modules, from version 7 on. */
  function VersionString(v: int): (f: seq<int>)
    ensures |f| == 18 && forall i :: 0 <= i < 18 ==> 0 <= f[i] <= 1
  {
    if v <= 13 then VersionString1(v) else if v <= 20 then VersionString2(v)
    else if v <= 27 then VersionString3(v) else if v <= 34 then VersionString4(v) else VersionString5(v)
  }

  // ---------- Where the strings go ----------

  /** The copy around the top left finder pattern; column 6 and row 6 are skipped. */
  function FirstCopy(i: int): Cell {
    if i < 6 then Cell(i, 8) else if i == 6 then Cell(7, 8) else if i == 7 then Cell(8, 8)
    else if i == 8 then Cell(8, 7)
    else Cell(8, 14 - i)
  }

  /** The copy split between the bottom left and the top right. */
  function SecondCopy(n: int, i: int): Cell {
    if i < 7 then Cell(8, n - 1 - i) else Cell(n - 15 + i, 8)
  }

  function VersionBottom(n: int, i: int): Cell {
    Cell(i / 3, n - 11 + i % 3)
  }

  function VersionTop(n: int, i: int): Cell {
    Cell(n - 11 + i / 6, i % 6)
  }

  datatype Write = Write(cell: Cell, value: int)

  function FirstWrites(f: seq<int>): (ws: seq<Write>)
    requires |f| == 15
    ensures |ws| == 15
  {
    seq(15, i requires 0 <= i < 15 => Write(FirstCopy(i), f[i]))
  }

  function SecondWrites(n: int, f: seq<int>): (ws: seq<Write>)
    requires |f| == 15
    ensures |ws| == 15
  {
    seq(15, i requires 0 <= i < 15 => Write(SecondCopy(n, i), f[i]))
  }

  function VersionWrites(n: int, f: seq<int>): (ws: seq<Write>)
    requires |f| == 18
    ensures |ws| == 36
  {
    seq(18, i requires 0 <= i < 18 => Write(VersionBottom(n, i), f[i]))
    + seq(18, i requires 0 <= i < 18 => Write(VersionTop(n, i), f[i]))
  }

  /** All writes in program order. */
  function Overlay(v: int, level: int, id: int): seq<Write> {
    var n := SizeOf(v);
    FirstWrites(FormatString(level, id)) + SecondWrites(n, FormatString(level, id))
    + (if v < 7 then [] else VersionWrites(n, VersionString(v)))
  }

  function Put(g: Grid, w: Write): (h: Grid)
    ensures |h| == |g| && forall x :: 0 <= x < |g| ==> |h[x]| == |g[x]|
    ensures forall c: Cell :: InGrid(g, c) ==> At(h, c) == if c == w.cell then w.value else At(g, c)
  {
    if InGrid(g, w.cell) then g[w.cell.x := g[w.cell.x][w.cell.y := w.value]] else g
  }

  function PutAll(g: Grid, ws: seq<Write>): (h: Grid)
    ensures |h| == |g| && forall x :: 0 <= x < |g| ==> |h[x]| == |g[x]|
  {
    if ws == [] then g else Put(PutAll(g, ws[..|ws| - 1]), ws[|ws| - 1])
  }

  // ---------- Only reserved modules are written ----------

  lemma OverlayTaken(v: int, level: int, id: int, k: nat)
    requires Version(v) && k < |Overlay(v, level, id)|
    ensures OnSymbol(v, Overlay(v, level, id)[k].cell)
    ensures Taken(v, Overlay(v, level, id)[k].cell)
  {
    var n := SizeOf(v);
    var c := Overlay(v, level, id)[k].cell;
    var r := FixedRects(n);
    if k < 15 {
      assert c == FirstCopy(k);
      assert Inside(r[0], c);
    } else if k < 30 {
      assert c == SecondCopy(n, k - 15);
      assert Inside(r[1], c) || Inside(r[2], c);
    } else {
      var s := VersionRects(v);
      assert Inside(s[0], c) || Inside(s[1], c);
    }
    RectsConcat(v, c);
  }

  lemma {:induction false} PutAllUntouched(g: Grid, ws: seq<Write>, c: Cell)
    requires InGrid(g, c)
    requires forall k :: 0 <= k < |ws| ==> ws[k].cell != c
    ensures At(PutAll(g, ws), c) == At(g, c)
  {
    if ws == [] {
    } else {
      PutAllUntouched(g, ws[..|ws| - 1], c);
    }
  }

  /** The overlay leaves every free module as the mask left it. */
  lemma OverlayKeepsData(v: int, level: int, id: int, g: Grid, c: Cell)
    requires Version(v) && OnSymbol(v, c) && InGrid(g, c)
    requires !Taken(v, c)
    ensures At(PutAll(g, Overlay(v, level, id)), c) == At(g, c)
  {
    forall k | 0 <= k < |Overlay(v, level, id)|
      ensures Overlay(v, level, id)[k].cell != c
    {
      OverlayTaken(v, level, id, k);
    }
    PutAllUntouched(g, Overlay(v, level, id), c);
  }

  // ---------- The overlay identifies level and mask ----------

  function LevelOf(f0: int, f1: int): int {
    if f0 == 1 then (if f1 == 1 then 1 else 2) else (if f1 == 1 then 3 else 4)
  }

  function MaskOf(f2: int, f3: int, f4: int): int {
    4 * (1 - f2) + 2 * f3 + (1 - f4)
  }

  lemma FormatIdentifies(level: int, id: int)
    requires Level(level) && MaskId(id)
    ensures var f := FormatString(level, id);
            LevelOf(f[0], f[1]) == level && MaskOf(f[2], f[3], f[4]) == id
  {
  }

  lemma {:induction false} PutAllLast(g: Grid, ws: seq<Write>, k: nat)
    requires k < |ws| && InGrid(g, ws[k].cell)
    requires forall j :: k < j < |ws| ==> ws[j].cell != ws[k].cell
    ensures At(PutAll(g, ws), ws[k].cell) == ws[k].value
  {
    if k == |ws| - 1 {
    } else {
      PutAllLast(g, ws[..|ws| - 1], k);
    }
  }

  /** Both copies of the format string can be read back. */
  lemma OverlayReadable(v: int, level: int, id: int, g: Grid, i: nat)
    requires Version(v) && Square(g, MAX_SIZE) && i < 15
    ensures InGrid(g, FirstCopy(i)) && InGrid(g, SecondCopy(SizeOf(v), i))
    ensures At(PutAll(g, Overlay(v, level, id)), FirstCopy(i)) == FormatString(level, id)[i]
    ensures At(PutAll(g, Overlay(v, level, id)), SecondCopy(SizeOf(v), i)) == FormatString(level, id)[i]
  {
    hide FormatString, VersionString, PutAll;
    var ws := Overlay(v, level, id);
    assert ws[i] == Write(FirstCopy(i), FormatString(level, id)[i]);
    assert ws[15 + i] == Write(SecondCopy(SizeOf(v), i), FormatString(level, id)[i]);
    forall j | i < j < |ws|
      ensures ws[j].cell != ws[i].cell
    {
    }
    forall j | 15 + i < j < |ws|
      ensures ws[j].cell != ws[15 + i].cell
    {
    }
    PutAllLast(g, ws, i);
    PutAllLast(g, ws, 15 + i);
  }

  /** Both copies of the version string can be read back. */
  lemma VersionReadable(v: int, level: int, id: int, g: Grid, i: nat)
    requires 7 <= v <= 40 && Square(g, MAX_SIZE) && i < 18
    ensures InGrid(g, VersionBottom(SizeOf(v), i)) && InGrid(g, VersionTop(SizeOf(v), i))
    ensures At(PutAll(g, Overlay(v, level, id)), VersionBottom(SizeOf(v), i)) == VersionString(v)[i]
    ensures At(PutAll(g, Overlay(v, level, id)), VersionTop(SizeOf(v), i)) == VersionString(v)[i]
  {
    hide FormatString, VersionString, PutAll;
    var n := SizeOf(v);
    var ws := Overlay(v, level, id);
    assert ws[30 + i] == Write(VersionBottom(n, i), VersionString(v)[i]);
    assert ws[48 + i] == Write(VersionTop(n, i), VersionString(v)[i]);
    forall j | 30 + i < j < |ws|
      ensures ws[j].cell != ws[30 + i].cell
    {
      assert ws[j].cell == if j < 48 then VersionBottom(n, j - 30) else VersionTop(n, j - 48);
    }
    forall j | 48 + i < j < |ws|
      ensures ws[j].cell != ws[48 + i].cell
    {
      assert ws[j].cell == VersionTop(n, j - 48);
    }
    PutAllLast(g, ws, 30 + i);
    PutAllLast(g, ws, 48 + i);
  }

  /** The first six version modules are the version in binary. */
  predicate SpellsVersion(f: seq<int>, v: int)
    requires |f| == 18
  {
    32 * f[0] + 16 * f[1] + 8 * f[2] + 4 * f[3] + 2 * f[4] + f[5] == v
  }

  lemma VersionString1Spells(v: int)
    requires 7 <= v <= 13
    ensures SpellsVersion(VersionString1(v), v)
  {
  }

  lemma VersionString2Spells(v: int)
    requires 14 <= v <= 20
    ensures SpellsVersion(VersionString2(v), v)
  {
  }

  lemma VersionString3Spells(v: int)
    requires 21 <= v <= 27
    ensures SpellsVersion(VersionString3(v), v)
  {
  }

  lemma VersionString4Spells(v: int)
    requires 28 <= v <= 34
    ensures SpellsVersion(VersionString4(v), v)
  {
  }

  lemma VersionString5Spells(v: int)
    requires 35 <= v <= 40
    ensures SpellsVersion(VersionString5(v), v)
  {
  }

  lemma VersionIdentifies(v: int)
    requires 7 <= v <= 40
    ensures SpellsVersion(VersionString(v), v)
  {
    hide VersionString1, VersionString2, VersionString3, VersionString4, VersionString5, SpellsVersion;
    if v <= 13 {
      VersionString1Spells(v);
    } else if v <= 20 {
      VersionString2Spells(v);
    } else if v <= 27 {
      VersionString3Spells(v);
    } else if v <= 34 {
      VersionString4Spells(v);
    } else {
      VersionString5Spells(v);
    }
  }

  // ---------- The loops ----------

  /** One assignment to the chosen layer, with the writes done so far. */
  method PutModule(m: array3<int>, id: int, cell: Cell, value: int, ghost g: Grid, ghost done: seq<Write>)
    requires m.Length0 == 8 && m.Length1 == m.Length2 == MAX_SIZE && 0 <= id < 8
    requires 0 <= cell.x < MAX_SIZE && 0 <= cell.y < MAX_SIZE
    requires Square(g, MAX_SIZE) && Layer(m, id) == PutAll(g, done)
    modifies m
    ensures Layer(m, id) == PutAll(g, done + [Write(cell, value)])
  {
    ghost var h := Layer(m, id);
    assert forall x, y :: 0 <= x < MAX_SIZE && 0 <= y < MAX_SIZE ==> h[x][y] == m[id, x, y];
    m[id, cell.x, cell.y] := value;
    assert (done + [Write(cell, value)])[..|done|] == done;
    var k := Put(h, Write(cell, value));
    forall x, y | 0 <= x < MAX_SIZE && 0 <= y < MAX_SIZE
      ensures m[id, x, y] == k[x][y]
    {
      assert InGrid(k, Cell(x, y)) && InGrid(h, Cell(x, y));
      assert At(k, Cell(x, y)) == k[x][y] && At(h, Cell(x, y)) == h[x][y];
    }
    LayerEquals(m, id, k);
  }

  lemma NextWrite(before: seq<Write>, ws: seq<Write>, i: nat)
    requires i < |ws|
    ensures before + ws[..i] + [ws[i]] == before + ws[..i + 1]
  {
    assert ws[..i + 1] == ws[..i] + [ws[i]];
  }

  /** The copy of the format string around the top left finder. */
  method WriteFirst(m: array3<int>, id: int, f: seq<int>, ghost g: Grid)
    requires m.Length0 == 8 && m.Length1 == m.Length2 == MAX_SIZE
    requires MaskId(id) && |f| == 15 && Square(g, MAX_SIZE) && Layer(m, id) == g
    modifies m
    ensures Layer(m, id) == PutAll(g, FirstWrites(f))
  {
    hide Layer, PutAll, Put;
    ghost var ws := FirstWrites(f);
    PutNothing(g);
    assert [] + ws[..0] == [];
    var i := 0;
    var x := 0;
    while x < 8
      invariant 0 <= x <= 8 && i == (if x <= 6 then x else x - 1)
      invariant Layer(m, id) == PutAll(g, [] + ws[..i])
    {
      if x != 6 {
        NextWrite([], ws, i);
        PutModule(m, id, Cell(x, 8), f[i], g, [] + ws[..i]);
        i := i + 1;
      }
      x := x + 1;
    }
    var y := 8;
    while y >= 0
      invariant -1 <= y <= 8 && i == (if y >= 6 then 15 - y else 14 - y)
      invariant Layer(m, id) == PutAll(g, [] + ws[..i])
    {
      if y != 6 {
        NextWrite([], ws, i);
        PutModule(m, id, Cell(8, y), f[i], g, [] + ws[..i]);
        i := i + 1;
      }
      y := y - 1;
    }
    assert [] + ws[..15] == ws;
  }

  /** The copy split between the bottom left and the top right. */
  method WriteSecond(m: array3<int>, id: int, v: int, f: seq<int>, ghost g: Grid, ghost done: seq<Write>)
    requires m.Length0 == 8 && m.Length1 == m.Length2 == MAX_SIZE
    requires MaskId(id) && Version(v) && |f| == 15 && Square(g, MAX_SIZE) && Layer(m, id) == PutAll(g, done)
    modifies m
    ensures Layer(m, id) == PutAll(g, done + SecondWrites(SizeOf(v), f))
  {
    hide Layer, PutAll, Put;
    var offset := 4 * v + 9;
    ghost var ws := SecondWrites(SizeOf(v), f);
    assert done + ws[..0] == done;
    var i := 0;
    var y := offset + 7;
    while y >= offset + 1
      invariant offset <= y <= offset + 7 && i == offset + 7 - y
      invariant Layer(m, id) == PutAll(g, done + ws[..i])
    {
      NextWrite(done, ws, i);
      PutModule(m, id, Cell(8, y), f[i], g, done + ws[..i]);
      i := i + 1;
      y := y - 1;
    }
    var x := offset;
    while x < offset + 8
      invariant offset <= x <= offset + 8 && i == 7 + x - offset
      invariant Layer(m, id) == PutAll(g, done + ws[..i])
    {
      NextWrite(done, ws, i);
      PutModule(m, id, Cell(x, 8), f[i], g, done + ws[..i]);
      i := i + 1;
      x := x + 1;
    }
    assert ws[..15] == ws;
  }

  method FormatVersion(m: array3<int>, id: int, v: int, level: int)
    requires m.Length0 == 8 && m.Length1 == m.Length2 == MAX_SIZE
    requires MaskId(id) && Version(v) && Level(level)
    modifies m
    ensures Layer(m, id) == PutAll(old(Layer(m, id)), Overlay(v, level, id))
  {
    hide FormatString, VersionString, Layer, PutAll, FirstWrites, SecondWrites, VersionWrites;
    ghost var g := Layer(m, id);
    var f := FormatString(level, id);
    WriteFirst(m, id, f, g);
    ghost var done := FirstWrites(f);
    WriteSecond(m, id, v, f, g, done);
    done := done + SecondWrites(SizeOf(v), f);
    if v >= 7 {
      WriteVersion(m, id, v, g, done);
      done := done + VersionWrites(SizeOf(v), VersionString(v));
    }
    assert done == Overlay(v, level, id);
  }

  lemma PutNothing(g: Grid)
    ensures PutAll(g, []) == g
  {
  }

  /** The two 6 x 3 blocks of the version string. */
  method WriteVersion(m: array3<int>, id: int, v: int, ghost g: Grid, ghost done: seq<Write>)
    requires m.Length0 == 8 && m.Length1 == m.Length2 == MAX_SIZE
    requires MaskId(id) && 7 <= v <= 40
    requires Square(g, MAX_SIZE) && Layer(m, id) == PutAll(g, done)
    modifies m
    ensures Layer(m, id) == PutAll(g, done + VersionWrites(SizeOf(v), VersionString(v)))
  {
    ghost var ws := VersionWrites(SizeOf(v), VersionString(v));
    hide VersionString, Layer, PutAll;
    assert done + ws[..0] == done;
    WriteBottom(m, id, v, g, done);
    WriteTop(m, id, v, g, done);
    assert ws[..36] == ws;
  }

  /** The block at the bottom left. */
  method WriteBottom(m: array3<int>, id: int, v: int, ghost g: Grid, ghost done: seq<Write>)
    requires m.Length0 == 8 && m.Length1 == m.Length2 == MAX_SIZE
    requires MaskId(id) && 7 <= v <= 40
    requires Square(g, MAX_SIZE)
    requires Layer(m, id) == PutAll(g, done + VersionWrites(SizeOf(v), VersionString(v))[..0])
    modifies m
    ensures Layer(m, id) == PutAll(g, done + VersionWrites(SizeOf(v), VersionString(v))[..18])
  {
    hide VersionString, Layer, PutAll, Put;
    var offset := 4 * v + 9;
    var n := SizeOf(v);
    var f := VersionString(v);
    ghost var ws := VersionWrites(n, f);
    var i := 0;
    var x := 0;
    while x < 6
      invariant 0 <= x <= 6 && i == 3 * x
      invariant Layer(m, id) == PutAll(g, done + ws[..i])
    {
      var y := offset - 3;
      while y < offset
        invariant offset - 3 <= y <= offset && i == 3 * x + y - (offset - 3)
        invariant Layer(m, id) == PutAll(g, done + ws[..i])
      {
        NextWrite(done, ws, i);
        PutModule(m, id, Cell(x, y), f[i], g, done + ws[..i]);
        i := i + 1;
        y := y + 1;
      }
      x := x + 1;
    }
  }

  /** The block at the top right. */
  method WriteTop(m: array3<int>, id: int, v: int, ghost g: Grid, ghost done: seq<Write>)
    requires m.Length0 == 8 && m.Length1 == m.Length2 == MAX_SIZE
    requires MaskId(id) && 7 <= v <= 40
    requires Square(g, MAX_SIZE)
    requires Layer(m, id) == PutAll(g, done + VersionWrites(SizeOf(v), VersionString(v))[..18])
    modifies m
    ensures Layer(m, id) == PutAll(g, done + VersionWrites(SizeOf(v), VersionString(v))[..36])
  {
    hide VersionString, Layer, PutAll, Put;
    var offset := 4 * v + 9;
    var n := SizeOf(v);
    var f := VersionString(v);
    ghost var ws := VersionWrites(n, f);
    var i := 0;
    var x := offset - 3;
    while x < offset
      invariant offset - 3 <= x <= offset && i == 6 * (x - (offset - 3))
      invariant Layer(m, id) == PutAll(g, done + ws[..18 + i])
    {
      var y := 0;
      while y < 6
        invariant 0 <= y <= 6 && i == 6 * (x - (offset - 3)) + y
        invariant Layer(m, id) == PutAll(g, done + ws[..18 + i])
      {
        NextWrite(done, ws, 18 + i);
        PutModule(m, id, Cell(x, y), f[i], g, done + ws[..18 + i]);
        i := i + 1;
        y := y + 1;
      }
      x := x + 1;
    }
  }
}
