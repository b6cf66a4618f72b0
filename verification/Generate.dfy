/** The whole encoder, and a reader that takes a finished symbol apart again. */
module Generate {
  import opened Common
  import opened Gf256
  import opened Bits
  import opened DataCoding
  import opened Interleave
  import opened Tables
  import opened Placement
  import opened Pattern
  import opened FreeModules
  import opened Masking
  import opened Format

  // ---------- Free modules along the walk ----------

  /** The free modules of version v in the order in which the walk meets them. */
  function FreePath(v: int): (f: seq<Cell>)
    requires Version(v)
  {
    WalkInGrid(PatternGrid(v), SizeOf(v));
    FreeCells(PatternGrid(v), Walk(SizeOf(v)))
  }

  lemma FreePathCell(v: int, k: nat)
    requires Version(v) && k < |FreePath(v)|
    ensures OnSymbol(v, FreePath(v)[k]) && !Taken(v, FreePath(v)[k])
  {
    hide PatternGrid, FreeCells, Taken, AllInGrid, NoRepeats, At;
    var n := SizeOf(v);
    WalkInGrid(PatternGrid(v), n);
    FreeCellsMember(PatternGrid(v), Walk(n), k);
    var c := FreePath(v)[k];
    var t :| 0 <= t < |Walk(n)| && Walk(n)[t] == c;
    WalkInBounds(n, t);
    FreeIffNotTaken(v, c);
  }

  lemma FreePathDistinct(v: int)
    requires Version(v)
    ensures NoRepeats(FreePath(v))
  {
    WalkInGrid(PatternGrid(v), SizeOf(v));
    FreeCellsDistinct(PatternGrid(v), Walk(SizeOf(v)));
  }

  lemma FreePathCovers(v: int, c: Cell)
    requires Version(v) && OnSymbol(v, c) && !Taken(v, c)
    ensures c in FreePath(v)
  {
    hide PatternGrid, FreeCells, AllInGrid, NoRepeats, At, InsideAny, FixedRects, AlignmentRects, VersionRects, Taken;
    var n := SizeOf(v);
    WalkInGrid(PatternGrid(v), n);
    FreeIffNotTaken(v, c);
    if c.x == 6 {
      TimingTaken(v, c);
      RectsConcat(v, c);
    }
    var t := WalkCovers(n, c);
    FreeCellsComplete(PatternGrid(v), Walk(n), c);
  }

  ghost function Elements(s: seq<Cell>): set<Cell> {
    set c | c in s
  }

  lemma {:induction false} ElementsSize(s: seq<Cell>)
    requires NoRepeats(s)
    ensures |Elements(s)| == |s|
  {
    if s == [] {
    } else {
      var front, last := s[..|s| - 1], s[|s| - 1];
      ElementsSize(front);
      assert last !in front;
      assert Elements(s) == Elements(front) + {last};
    }
  }

  /** What the function patterns leave free is what the codewords and the remainder bits need. */
  predicate RoomIsExact(v: int) {
    && SizeOf(v) * SizeOf(v) - TakenTotal(v) == 8 * TotalCodewords(v) + RemainderBits(v)
    && 0 < 8 * TotalCodewords(v) + RemainderBits(v) <= 29656
  }

  lemma RoomIsExact0(v: int)
    requires 1 <= v <= 6
    ensures RoomIsExact(v)
  {
    assert v / 7 == 0;
  }

  lemma RoomIsExact1(v: int)
    requires 7 <= v <= 13
    ensures RoomIsExact(v)
  {
    assert v / 7 == 1;
  }

  lemma RoomIsExact2(v: int)
    requires 14 <= v <= 20
    ensures RoomIsExact(v)
  {
    assert v / 7 == 2;
  }

  lemma RoomIsExact3(v: int)
    requires 21 <= v <= 27
    ensures RoomIsExact(v)
  {
    assert v / 7 == 3;
  }

  lemma RoomIsExact4(v: int)
    requires 28 <= v <= 34
    ensures RoomIsExact(v)
  {
    assert v / 7 == 4;
  }

  lemma RoomIsExact5(v: int)
    requires 35 <= v <= 40
    ensures RoomIsExact(v)
  {
    assert v / 7 == 5;
  }

  /** The free modules are exactly as many as the codeword bits and remainder bits, in every version. */
  lemma FreePathLength(v: int)
    requires Version(v)
    ensures |FreePath(v)| == 8 * TotalCodewords(v) + RemainderBits(v)
    ensures 0 < |FreePath(v)| <= 29656
  {
    FreePathElements(v);
    FreeModuleCount(v);
    TakenArea(v);
    hide FreePath, FreeSet, TakenTotal, TotalCodewords, RemainderBits;
    if v < 7 {
      RoomIsExact0(v);
    } else if v < 14 {
      RoomIsExact1(v);
    } else if v < 21 {
      RoomIsExact2(v);
    } else if v < 28 {
      RoomIsExact3(v);
    } else if v < 35 {
      RoomIsExact4(v);
    } else {
      RoomIsExact5(v);
    }
  }

  lemma FreePathElements(v: int)
    requires Version(v)
    ensures |FreePath(v)| == |FreeSet(v)|
  {
    hide Taken, FreePath;
    var f := FreePath(v);
    FreePathDistinct(v);
    ElementsSize(f);
    forall c: Cell
      ensures c in Elements(f) <==> c in FreeSet(v)
    {
      if c in f {
        var k :| 0 <= k < |f| && f[k] == c;
        FreePathCell(v, k);
      }
      if c in FreeSet(v) {
        FreePathCovers(v, c);
      }
    }
    assert Elements(f) == FreeSet(v);
  }

  // ---------- Reading a symbol ----------

  /** The versions with an 8-bit character count. */
  predicate ByteCount(v: int) {
    1 <= v <= 9
  }

  /** The format modules 0 to 4 give the level and the mask. */
  function ReadLevel(g: Grid): (level: int)
    requires Square(g, MAX_SIZE)
    ensures Level(level)
  {
    LevelOf(At(g, FirstCopy(0)), At(g, FirstCopy(1)))
  }

  function ReadMask(g: Grid): int
    requires Square(g, MAX_SIZE)
  {
    MaskOf(At(g, FirstCopy(2)), At(g, FirstCopy(3)), At(g, FirstCopy(4)))
  }

  /** The first n unmasked modules along the walk. */
  function Unmasked(g: Grid, f: seq<Cell>, id: int, n: nat): (s: seq<int>)
    requires n <= |f| && AllInGrid(g, f)
    ensures |s| == n
  {
    seq(n, k requires 0 <= k < n => XorBit(At(g, f[k]), Flips(id, f[k].x, f[k].y)))
  }

  lemma FreePathInGrid(g: Grid, v: int)
    requires Version(v) && Square(g, MAX_SIZE)
    ensures 8 * TotalCodewords(v) <= |FreePath(v)|
    ensures AllInGrid(g, FreePath(v))
  {
    FreePathLength(v);
    hide FreePath, TotalCodewords, RemainderBits, Taken, TakenRects, At;
    forall k | 0 <= k < |FreePath(v)|
      ensures InGrid(g, FreePath(v)[k])
    {
      FreePathCell(v, k);
    }
  }

  /** The codewords in the matrix of a version v symbol, if the mask is known. */
  function ReadCodes(g: Grid, v: int, id: int): (codes: seq<Byte>)
    requires Version(v) && Square(g, MAX_SIZE)
    ensures |codes| == TotalCodewords(v)
  {
    FreePathInGrid(g, v);
    BytesFrom(Unmasked(g, FreePath(v), id, 8 * TotalCodewords(v)))
  }

  /** The data codewords in the matrix of a version v symbol, without using error correction. */
  function ReadData(g: Grid, v: int): (data: seq<Byte>)
    requires Version(v) && Square(g, MAX_SIZE)
  {
    LayoutFits(v, ReadLevel(g));
    Deinterleave(LayoutOf(v, ReadLevel(g)), ReadCodes(g, v, ReadMask(g)))
  }

  /** What a reader finds in the matrix of a symbol whose version has an 8-bit count. */
  function ReadSymbol(g: Grid, v: int): Parsed
    requires ByteCount(v) && Square(g, MAX_SIZE)
  {
    ParseStream(AllBits(ReadData(g, v)))
  }

  // ---------- The stages undo one another ----------

  /** All codewords of a symbol: the data, interleaved block by block with the error correction bytes. */
  ghost predicate Codes(l: Layout, data: seq<Byte>, codes: seq<Byte>)
    requires Regular(l)
  {
    |codes| == CodeTotal(l) && |data| == DataTotal(l) && Interleaved(l, data, codes)
  }

  /** The codewords of a text: those of its data stream. */
  ghost predicate Encodes(text: seq<Byte>, l: Layout, data: seq<Byte>, codes: seq<Byte>)
    requires Regular(l)
  {
    Codes(l, data, codes) && |text| + 2 <= |data| && AllBits(data) == DataStream(text, |data|)
  }

  /** The placed bits start with those of the codewords; what follows are remainder bits. */
  ghost predicate Carries(placed: Grid, v: int, codes: seq<Byte>)
    requires Version(v) && Square(placed, MAX_SIZE)
  {
    && |AllBits(codes)| <= |FreePath(v)|
    && forall k :: 0 <= k < |AllBits(codes)| ==>
         InGrid(placed, FreePath(v)[k]) && At(placed, FreePath(v)[k]) == AllBits(codes)[k]
  }

  /** The finished matrix: masked, then overlaid with the format and version strings. */
  function FinalMatrix(placed: Grid, v: int, level: int, id: int): (g: Grid)
    requires Version(v) && Square(placed, MAX_SIZE)
    ensures Square(g, MAX_SIZE)
  {
    PutAll(Masked(PatternGrid(v), placed, SizeOf(v), id), Overlay(v, level, id))
  }

  lemma FinishedFormat(placed: Grid, v: int, level: int, id: int)
    requires Version(v) && Level(level) && MaskId(id) && Square(placed, MAX_SIZE)
    ensures ReadLevel(FinalMatrix(placed, v, level, id)) == level
    ensures ReadMask(FinalMatrix(placed, v, level, id)) == id
  {
    hide FormatString, Masked, PutAll, Overlay, LevelOf, MaskOf, FirstCopy;
    var m := Masked(PatternGrid(v), placed, SizeOf(v), id);
    OverlayReadable(v, level, id, m, 0);
    OverlayReadable(v, level, id, m, 1);
    OverlayReadable(v, level, id, m, 2);
    OverlayReadable(v, level, id, m, 3);
    OverlayReadable(v, level, id, m, 4);
    FormatIdentifies(level, id);
  }

  /** The overlay and the mask do not hide the bit in the k-th free module. */
  lemma FinishedBit(placed: Grid, v: int, level: int, id: int, k: nat)
    requires Version(v) && Square(placed, MAX_SIZE) && k < |FreePath(v)|
    ensures var c := FreePath(v)[k];
            && 0 <= c.x < MAX_SIZE && 0 <= c.y < MAX_SIZE
            && XorBit(At(FinalMatrix(placed, v, level, id), c), Flips(id, c.x, c.y)) == At(placed, c)
  {
    hide Flips, Taken, Overlay, PutAll, FreePath, PatternGrid;
    var c := FreePath(v)[k];
    FreePathCell(v, k);
    FreeIffNotTaken(v, c);
    OverlayKeepsData(v, level, id, Masked(PatternGrid(v), placed, SizeOf(v), id), c);
  }

  lemma UnmaskedBits(v: int, level: int, id: int, codes: seq<Byte>, placed: Grid)
    requires Version(v) && Square(placed, MAX_SIZE) && Carries(placed, v, codes)
    ensures var g, f, n := FinalMatrix(placed, v, level, id), FreePath(v), |AllBits(codes)|;
            AllInGrid(g, f) && Unmasked(g, f, id, n) == AllBits(codes)
  {
    hide FinalMatrix, FreePath, Flips, XorBit, AllBits;
    var g, f, n := FinalMatrix(placed, v, level, id), FreePath(v), |AllBits(codes)|;
    FreePathInGrid(g, v);
    forall k | 0 <= k < n
      ensures XorBit(At(g, f[k]), Flips(id, f[k].x, f[k].y)) == AllBits(codes)[k]
    {
      FinishedBit(placed, v, level, id, k);
    }
  }

  /** In every version a reader finds level, mask and codewords in the finished matrix. */
  lemma CodesReadBack(v: int, level: int, id: int, codes: seq<Byte>, placed: Grid)
    requires Version(v) && Level(level) && MaskId(id) && |codes| == TotalCodewords(v)
    requires Square(placed, MAX_SIZE) && Carries(placed, v, codes)
    ensures var g := FinalMatrix(placed, v, level, id);
            ReadLevel(g) == level && ReadMask(g) == id && ReadCodes(g, v, id) == codes
  {
    hide FinalMatrix, FreePath, ReadLevel, ReadMask, Unmasked, Carries, AllBits, BytesFrom, TotalCodewords;
    FinishedFormat(placed, v, level, id);
    UnmaskedBits(v, level, id, codes, placed);
    BytesRoundTrip(codes, []);
    assert AllBits(codes) + [] == AllBits(codes);
  }

  /** Where the codewords are those of some data, the reader finds the data. */
  lemma DataReadsBack(v: int, level: int, id: int, data: seq<Byte>, codes: seq<Byte>, placed: Grid)
    requires Version(v) && Level(level) && MaskId(id)
    requires Regular(LayoutOf(v, level)) && Codes(LayoutOf(v, level), data, codes)
    requires Square(placed, MAX_SIZE) && Carries(placed, v, codes)
    ensures ReadData(FinalMatrix(placed, v, level, id), v) == data
  {
    hide FinalMatrix, ReadLevel, ReadMask, ReadCodes, Carries, LayoutOf, DataTotal, CodeTotal, Interleaved,
      Deinterleave, TotalCodewords, DataCodewords;
    var l := LayoutOf(v, level);
    LayoutFits(v, level);
    CodesReadBack(v, level, id, codes, placed);
    DeinterleaveRoundTrip(l, data, codes);
    assert data[..DataTotal(l)] == data;
  }

  lemma TextIsShort(text: seq<Byte>, v: int, level: int, data: seq<Byte>, codes: seq<Byte>)
    requires ByteCount(v) && Level(level) && Regular(LayoutOf(v, level))
    requires Encodes(text, LayoutOf(v, level), data, codes)
    ensures |text| < 256
  {
    LayoutFits(v, level);
    SmallVersionData(v, level);
    hide LayoutOf, DataCodewords, TotalCodewords, AllBits, DataStream, Interleaved, DataTotal, CodeTotal;
  }

  /** The stages of the encoder can be undone: the reader finds the text in the finished matrix. */
  lemma ReadsBack(text: seq<Byte>, v: int, level: int, id: int, data: seq<Byte>, codes: seq<Byte>, placed: Grid)
    requires ByteCount(v) && Level(level) && MaskId(id)
    requires Regular(LayoutOf(v, level)) && Encodes(text, LayoutOf(v, level), data, codes)
    requires Square(placed, MAX_SIZE) && Carries(placed, v, codes)
    ensures ReadSymbol(FinalMatrix(placed, v, level, id), v) == Parsed(text)
  {
    hide FinalMatrix, ReadLevel, ReadMask, ReadCodes, ReadData, Carries, LayoutOf, Codes, ParseStream, DataStream,
      AllBits;
    DataReadsBack(v, level, id, data, codes, placed);
    TextIsShort(text, v, level, data, codes);
    StreamRoundTrip(text, |data|);
  }

  /** Bit k of the buffer is in the k-th free module; the pattern is as it was. */
  ghost predicate FilledSymbol(v: int, bits: seq<int>, placed: Grid)
    requires Version(v)
  {
    && Square(placed, MAX_SIZE) && |FreePath(v)| <= |bits|
    && Filled(PatternGrid(v), FreePath(v), bits[..|FreePath(v)|], placed)
  }

  /** The free modules are exactly enough for the bits, so the placement finishes. */
  lemma PlacementFills(v: int, bits: seq<int>, outcome: Outcome, j: nat, placed: Grid)
    requires Version(v) && AllInGrid(PatternGrid(v), Walk(SizeOf(v))) && Square(placed, MAX_SIZE)
    requires |FreePath(v)| <= |bits|
    requires Placed(PatternGrid(v), Walk(SizeOf(v)), bits, |FreePath(v)|, outcome, j, placed)
    ensures outcome == Finished && j == |FreePath(v)|
    ensures FilledSymbol(v, bits, placed)
  {
    hide PatternGrid, Walk, FreeCells, SymbolSize;
    var f := FreePath(v);
    assert f[..|f|] == f;
  }

  lemma FilledCarries(v: int, bits: seq<int>, codes: seq<Byte>, placed: Grid)
    requires Version(v) && FilledSymbol(v, bits, placed)
    requires |codes| == TotalCodewords(v) && AllBits(codes) <= bits
    ensures Carries(placed, v, codes)
  {
    hide PatternGrid, FreePath, TotalCodewords;
    FreePathLength(v);
  }

  /** Every module of the finished symbol is light or dark: no free module was left out. */
  lemma FinalMatrixBinary(v: int, level: int, id: int, bits: seq<int>, placed: Grid, c: Cell)
    requires Version(v) && Square(placed, MAX_SIZE) && OnSymbol(v, c)
    requires FilledSymbol(v, bits, placed) && forall k :: 0 <= k < |bits| ==> 0 <= bits[k] <= 1
    ensures 0 <= At(FinalMatrix(placed, v, level, id), c) <= 1
  {
    hide PatternGrid, Taken, Flips, Overlay, FreePath;
    var g := PatternGrid(v);
    PatternBinary(v, c);
    FreeIffNotTaken(v, c);
    if !Taken(v, c) {
      FreePathCovers(v, c);
      var k :| 0 <= k < |FreePath(v)| && FreePath(v)[k] == c;
    } else if c in FreePath(v) {
      var k :| 0 <= k < |FreePath(v)| && FreePath(v)[k] == c;
      FreePathCell(v, k);
    }
    assert 0 <= At(placed, c) <= 1;
    OverlayBinary(v, level, id, Masked(g, placed, SizeOf(v), id), c);
  }

  lemma OverlayBinary(v: int, level: int, id: int, g: Grid, c: Cell)
    requires InGrid(g, c) && 0 <= At(g, c) <= 1
    ensures 0 <= At(PutAll(g, Overlay(v, level, id)), c) <= 1
  {
    hide FormatString, VersionString;
    PutAllBinary(g, Overlay(v, level, id), c);
  }

  lemma {:induction false} PutAllBinary(g: Grid, ws: seq<Write>, c: Cell)
    requires InGrid(g, c) && 0 <= At(g, c) <= 1
    requires forall k :: 0 <= k < |ws| ==> 0 <= ws[k].value <= 1
    ensures 0 <= At(PutAll(g, ws), c) <= 1
  {
    if ws == [] {
    } else {
      PutAllBinary(g, ws[..|ws| - 1], c);
    }
  }

  /** Every module is light or dark. */
  ghost predicate LightOrDark(g: Grid, v: int)
    requires Square(g, MAX_SIZE) && Version(v)
  {
    forall c :: OnSymbol(v, c) ==> 0 <= At(g, c) <= 1
  }

  /** A finished symbol of light and dark modules in which a reader finds the text. */
  ghost predicate Shows(g: Grid, v: int, text: seq<Byte>) {
    ByteCount(v) && Square(g, MAX_SIZE) && ReadSymbol(g, v) == Parsed(text) && LightOrDark(g, v)
  }

  /** Everything that is in a finished matrix: codewords, remainder bits, mask, format and version. */
  ghost predicate Complete(g: Grid, v: int, level: int, id: int, codes: seq<Byte>, placed: Grid) {
    && Version(v) && Level(level) && MaskId(id) && |codes| == TotalCodewords(v)
    && Square(placed, MAX_SIZE) && FilledSymbol(v, AllBits(codes) + Zeros(RemainderBits(v)), placed)
    && g == FinalMatrix(placed, v, level, id)
  }

  /** The finished matrix of a text. */
  ghost predicate Built(g: Grid, v: int, level: int, id: int, text: seq<Byte>, codes: seq<Byte>, placed: Grid) {
    && Complete(g, v, level, id, codes, placed)
    && Regular(LayoutOf(v, level))
    && exists data :: Encodes(text, LayoutOf(v, level), data, codes)
  }

  /** The mask is the first one of least score. */
  ghost predicate LeastMask(v: int, placed: Grid, id: int)
    requires Version(v)
  {
    Square(placed, MAX_SIZE) && FirstLeast(Scores(PatternGrid(v), placed, SizeOf(v)), id)
  }

  /** Only the bits that are placed matter. */
  lemma FilledPrefix(v: int, bits: seq<int>, more: seq<int>, placed: Grid)
    requires Version(v) && FilledSymbol(v, bits, placed)
    requires |FreePath(v)| <= |more| && more[..|FreePath(v)|] == bits[..|FreePath(v)|]
    ensures FilledSymbol(v, more, placed)
  {
    hide Filled, PatternGrid, FreePath;
  }

  /** The bit buffer holds the bits of the codewords and zeros behind them. */
  ghost predicate Holds(bits: seq<int>, codes: seq<Byte>) {
    AllBits(codes) <= bits && |bits| == 29656 && forall k :: 8 * |codes| <= k < |bits| ==> bits[k] == 0
  }

  /** The bit buffer up to the number of free modules. */
  lemma BufferPrefix(v: int, bits: seq<int>, codes: seq<Byte>)
    requires Version(v) && |codes| == TotalCodewords(v) && Holds(bits, codes)
    ensures |FreePath(v)| == |AllBits(codes) + Zeros(RemainderBits(v))| <= |bits|
    ensures (AllBits(codes) + Zeros(RemainderBits(v)))[..|FreePath(v)|] == bits[..|FreePath(v)|]
  {
    hide AllBits, FreePath, TotalCodewords;
    FreePathLength(v);
  }

  /** A complete matrix of any version consists of light and dark modules and gives back its codewords. */
  lemma CompleteReadsBack(g: Grid, v: int, level: int, id: int, codes: seq<Byte>, placed: Grid)
    requires Complete(g, v, level, id, codes, placed)
    ensures Square(g, MAX_SIZE) && LightOrDark(g, v)
    ensures ReadLevel(g) == level && ReadMask(g) == id && ReadCodes(g, v, id) == codes
  {
    hide AllBits, FreePath, PatternGrid, FinalMatrix, TotalCodewords, RemainderBits, FilledSymbol, ReadLevel, ReadMask,
      ReadCodes, Carries;
    var bits := AllBits(codes) + Zeros(RemainderBits(v));
    FilledCarries(v, bits, codes, placed);
    CodesReadBack(v, level, id, codes, placed);
    forall c | OnSymbol(v, c)
      ensures 0 <= At(g, c) <= 1
    {
      FinalMatrixBinary(v, level, id, bits, placed, c);
    }
  }

  /** What the stages establish, put together: the finished matrix of a text shows the text. */
  lemma BuiltShows(g: Grid, v: int, level: int, id: int, text: seq<Byte>, codes: seq<Byte>, placed: Grid)
    requires Built(g, v, level, id, text, codes, placed)
    requires ByteCount(v)
    ensures Shows(g, v, text)
  {
    hide AllBits, FreePath, FinalMatrix, LayoutOf, TotalCodewords, RemainderBits, FilledSymbol, ReadSymbol, Encodes,
      LightOrDark, Carries, Level;
    var bits := AllBits(codes) + Zeros(RemainderBits(v));
    CompleteReadsBack(g, v, level, id, codes, placed);
    FilledCarries(v, bits, codes, placed);
    var data :| Encodes(text, LayoutOf(v, level), data, codes);
    ReadsBack(text, v, level, id, data, codes, placed);
  }

  // ---------- The encoder ----------

  /** The global matrices and bit buffer, with the settings of the symbol being drawn. */
  class Symbol {
    const matrixA: array2<int>
    const matrixB: array2<int>
    const masking: array3<int>
    const bits: array<int>
    var matrixSize: int
    var version: int
    var level: int
    var maskId: int
    var totLen: int
    var datLen: int
    var eccLen: int

    ghost predicate Valid()
      reads this
    {
      && matrixA.Length0 == matrixA.Length1 == MAX_SIZE
      && matrixB.Length0 == matrixB.Length1 == MAX_SIZE
      && matrixA != matrixB
      && masking.Length0 == 8 && masking.Length1 == masking.Length2 == MAX_SIZE
      && bits.Length == 29656
      && MaskId(maskId)
    }

    constructor ()
      ensures Valid() && fresh(matrixA) && fresh(matrixB) && fresh(masking) && fresh(bits)
    {
      matrixA := new int[MAX_SIZE, MAX_SIZE];
      matrixB := new int[MAX_SIZE, MAX_SIZE];
      masking := new int[8, MAX_SIZE, MAX_SIZE];
      bits := new int[29656];
      matrixSize, version, level, maskId := 0, 0, 0, 0;
      totLen, datLen, eccLen := 0, 0, 0;
    }

    /** `qr_data_ecc_encode`: fills `bits` with the codewords and counts the remainder bits in. */
    method DataEccEncode(text: seq<Byte>) returns (ghost data: seq<Byte>, ghost codes: seq<Byte>)
      requires Valid() && ByteCount(version) && Level(level)
      requires datLen == 8 * DataCodewords(version - 1, level) && totLen == 8 * TotalCodewords(version)
      requires |text| <= Room(version, level)
      requires forall k :: 0 <= k < bits.Length ==> bits[k] == 0
      modifies bits, this`totLen
      ensures Regular(LayoutOf(version, level)) && Encodes(text, LayoutOf(version, level), data, codes)
      ensures |codes| == TotalCodewords(version) && Holds(bits[..], codes)
      ensures totLen == 8 * TotalCodewords(version) + RemainderBits(version)
    {
      hide AllBits, DataStream, Interleaved, LayoutOf, DataCodewords, TotalCodewords, RemainderBits, DataTotal,
        CodeTotal;
      var l := LayoutOf(version, level);
      LayoutFits(version, level);
      var codeword1 := new Byte[2956];
      var codeword2 := new Byte[3706](_ => ZERO);
      EncodeData(codeword1, text, datLen);
      var len := EncodeBlocks(l, codeword1, codeword2);
      data, codes := codeword1[..datLen / 8], codeword2[..len];
      InterleavedPrefix(l, codeword1[..], codeword2[..]);
      ghost var was := bits[..];
      var count := ExpandBits(codeword2, len, bits);
      totLen := totLen + RemainderBits(version);
    }

    /** Placement, masking and format for the codewords in `bits`, in any version. */
    method FinishSymbol(ghost codes: seq<Byte>) returns (ghost placed: Grid)
      requires Valid() && Version(version) && Level(level) && matrixSize == SizeOf(version)
      requires Snapshot(matrixA) == PatternGrid(version)
      requires |codes| == TotalCodewords(version) && Holds(bits[..], codes)
      requires totLen == 8 * TotalCodewords(version) + RemainderBits(version)
      modifies this`maskId, matrixB, masking
      ensures Valid()
      ensures Complete(Layer(masking, maskId), version, level, maskId, codes, placed)
      ensures LeastMask(version, placed, maskId)
    {
      hide AllBits, Layer, Snapshot, FreePath, PatternGrid, TotalCodewords, RemainderBits, FilledSymbol,
        Masked, Flips, Overlay, PutAll, Scores, Holds;
      FreePathLength(version);
      PlaceBits(matrixA, matrixB, version, bits, totLen);
      placed := Snapshot(matrixB);
      BufferPrefix(version, bits[..], codes);
      FilledPrefix(version, bits[..], AllBits(codes) + Zeros(RemainderBits(version)), placed);
      maskId := MatrixMasking(matrixA, matrixB, masking, matrixSize);
      FormatVersion(masking, maskId, version, level);
    }

    /** The stages in program order, for a version and level already chosen. */
    method DrawSymbol(text: seq<Byte>) returns (ghost codes: seq<Byte>, ghost placed: Grid)
      requires Valid() && ByteCount(version) && Level(level)
      requires datLen == 8 * DataCodewords(version - 1, level) && totLen == 8 * TotalCodewords(version)
      requires |text| <= Room(version, level)
      requires forall k :: 0 <= k < bits.Length ==> bits[k] == 0
      modifies this`totLen, this`maskId, this`matrixSize, matrixA, matrixB, masking, bits
      ensures Valid() && matrixSize == SizeOf(version)
      ensures Shows(Layer(masking, maskId), version, text)
      ensures Built(Layer(masking, maskId), version, level, maskId, text, codes, placed)
      ensures LeastMask(version, placed, maskId)
    {
      hide AllBits, Layer, Snapshot, PatternGrid, LayoutOf, DataCodewords, TotalCodewords, RemainderBits, Encodes,
        Complete, LeastMask, Shows;
      matrixSize := FunctionPatterns(matrixA, version);
      ghost var data;
      data, codes := DataEccEncode(text);
      placed := FinishSymbol(codes);
      BuiltShows(Layer(masking, maskId), version, level, maskId, text, codes, placed);
    }

    /** `qr_code_generate` without the printing. */
    method Generate(text: seq<Byte>, requested: int, lvl: int)
      returns (r: int, ghost codes: seq<Byte>, ghost placed: Grid)
      requires Valid() && Level(lvl)
      requires ChosenVersion(|text|, requested, lvl) <= 9
      modifies this, matrixA, matrixB, masking, bits
      ensures Valid()
      ensures r == if ChosenVersion(|text|, requested, lvl) == 0 then -1 else 0
      ensures r == 0 ==> version == ChosenVersion(|text|, requested, lvl) && level == lvl
      ensures r == 0 ==> matrixSize == SizeOf(version)
      ensures r == 0 ==> Shows(Layer(masking, maskId), version, text)
      ensures r == 0 ==> Built(Layer(masking, maskId), version, level, maskId, text, codes, placed)
      ensures r == 0 ==> LeastMask(version, placed, maskId)
    {
      hide DataCodewords, TotalCodewords, ChosenVersion, Shows, Layer, Built, LeastMask;
      var bytes := |text|;
      var chosen := CheckCapacity(bytes, requested, lvl);
      if chosen == 0 {
        return -1, [], [];
      }
      SmallVersionFits(bytes, requested, lvl);
      version := chosen;
      level := lvl;
      forall k | 0 <= k < bits.Length {
        bits[k] := 0;
      }
      totLen := TotalCodewords(version) * 8;
      datLen := DataCodewords(version - 1, level) * 8;
      eccLen := totLen - datLen;
      codes, placed := DrawSymbol(text);
      r := 0;
    }
  }

  /** memcpy of a matrix. */
  method CopyMatrix(a: array2<int>, b: array2<int>)
    requires a != b && a.Length0 == a.Length1 == b.Length0 == b.Length1 == MAX_SIZE
    modifies b
    ensures Snapshot(b) == Snapshot(a)
  {
    forall x, y | 0 <= x < MAX_SIZE && 0 <= y < MAX_SIZE {
      b[x, y] := a[x, y];
    }
    SameGrid(Snapshot(b), Snapshot(a));
  }

  /** The copy of the pattern and the placement on it. */
  method PlaceBits(a: array2<int>, b: array2<int>, v: int, bits: array<int>, total: int)
    requires a != b && a.Length0 == a.Length1 == b.Length0 == b.Length1 == MAX_SIZE
    requires Version(v) && Snapshot(a) == PatternGrid(v)
    requires total == |FreePath(v)| <= bits.Length
    modifies b
    ensures FilledSymbol(v, bits[..], Snapshot(b))
  {
    hide Filled, FreePath, Snapshot, PatternGrid, Walk, Placed;
    CopyMatrix(a, b);
    FreePathLength(v);
    var outcome, j := MatrixPlacement(b, SizeOf(v), bits, total);
    PlacementFills(v, bits[..], outcome, j, Snapshot(b));
  }

  /** Only the data area and the code area matter to the interleaving. */
  lemma InterleavedPrefix(l: Layout, data: seq<Byte>, codes: seq<Byte>)
    requires Regular(l) && DataTotal(l) <= |data| && CodeTotal(l) <= |codes|
    requires Interleaved(l, data, codes)
    ensures Interleaved(l, data[..DataTotal(l)], codes[..CodeTotal(l)])
  {
    hide DataPos, EccPos, BlockStart, BlockLen, DataTotal, CodeTotal;
    forall i | 0 <= i < Blocks(l)
      ensures BlockData(l, data[..DataTotal(l)], i) == BlockData(l, data, i)
    {
      BlockInRange(l, i);
    }
  }
}
