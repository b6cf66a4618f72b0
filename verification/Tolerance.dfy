/** What the error correction of a finished symbol is worth: damaged modules still determine the text. */
module Tolerance {
  import opened Common
  import opened Gf256
  import opened Bits
  import opened DataCoding
  import opened ReedSolomon
  import opened Interleave
  import opened Tables
  import opened Placement
  import opened Pattern
  import opened FreeModules
  import opened Masking
  import opened Format
  import opened FormatCode
  import opened Generate

  // ---------- Blocks of the codewords ----------

  /** Where the codewords have the data bytes of block i, then its error correction bytes. */
  function Positions(l: Layout, i: int): (ps: seq<int>)
    requires 0 <= i < Blocks(l)
    ensures |ps| == BlockLen(l, i) + l.ecc && Within(ps, CodeTotal(l))
  {
    seq(BlockLen(l, i), j requires 0 <= j < BlockLen(l, i) => DataPos(l, i, j))
    + seq(l.ecc, j requires 0 <= j < l.ecc => EccPos(l, i, j))
  }

  predicate Within(ps: seq<int>, n: int) {
    forall j :: 0 <= j < |ps| ==> 0 <= ps[j] < n
  }

  function ReadAt(codes: seq<Byte>, ps: seq<int>): (w: seq<Byte>)
    requires Within(ps, |codes|)
    ensures |w| == |ps|
  {
    seq(|ps|, j requires 0 <= j < |ps| => codes[ps[j]])
  }

  /** Block i as a reader collects it. */
  function ReadBlock(l: Layout, codes: seq<Byte>, i: int): (w: seq<Byte>)
    requires 0 <= i < Blocks(l) && CodeTotal(l) <= |codes|
    ensures |w| == BlockLen(l, i) + l.ecc
  {
    ReadAt(codes, Positions(l, i))
  }

  lemma BlockReadsCodeword(l: Layout, data: seq<Byte>, codes: seq<Byte>, i: int)
    requires Regular(l) && 0 <= i < Blocks(l) && DataTotal(l) <= |data| && CodeTotal(l) <= |codes|
    requires Interleaved(l, data, codes)
    ensures ReadBlock(l, codes, i) == Codeword(BlockData(l, data, i), l.ecc)
  {
    BlockIsCodeword(l, data, i);
    var block, ecc := BlockData(l, data, i), BlockEcc(l, data, i);
    hide BlockData, BlockEcc, Codeword, ZeroSyndromes;
    assert DataPlaced(l, codes, i, block) && EccPlaced(l, codes, i, ecc);
    hide *;
    PlacedIsRead(l, codes, i, block, ecc);
  }

  lemma PlacedIsRead(l: Layout, codes: seq<Byte>, i: int, block: seq<Byte>, ecc: seq<Byte>)
    requires 0 <= i < Blocks(l) && |block| == BlockLen(l, i) && |ecc| == l.ecc && CodeTotal(l) <= |codes|
    requires DataPlaced(l, codes, i, block) && EccPlaced(l, codes, i, ecc)
    ensures ReadBlock(l, codes, i) == block + ecc
  {
    hide DataPos, EccPos, BlockLen, CodeTotal, DataTotal;
  }

  lemma BlockLenBound(l: Layout, i: int)
    requires 0 <= i < Blocks(l)
    ensures BlockLen(l, i) <= l.s + 1
  {
  }

  /** Every block of the received codewords is damaged in at most half as many bytes as it has for correction. */
  ghost predicate LightlyDamaged(l: Layout, received: seq<Byte>, codes: seq<Byte>)
    requires CodeTotal(l) <= |received| && CodeTotal(l) <= |codes|
  {
    forall i :: 0 <= i < Blocks(l) ==> Distance(ReadBlock(l, received, i), ReadBlock(l, codes, i)) <= l.ecc / 2
  }

  lemma {:induction false} SameBlocks(l: Layout, a: seq<Byte>, b: seq<Byte>, i: nat)
    requires |a| == |b| == DataTotal(l) && i <= Blocks(l)
    requires forall k :: 0 <= k < Blocks(l) ==> BlockData(l, a, k) == BlockData(l, b, k)
    ensures 0 <= BlockStart(l, i) <= |a| && a[..BlockStart(l, i)] == b[..BlockStart(l, i)]
  {
    hide BlockStart, BlockData, DataTotal;
    if i == 0 {
      StartZero(l);
    } else {
      SameBlocks(l, a, b, i - 1);
      BlockSplit(l, a, i - 1);
      BlockSplit(l, b, i - 1);
    }
  }

  lemma LastStart(l: Layout)
    ensures BlockStart(l, Blocks(l)) == DataTotal(l)
  {
  }

  lemma SameBlock(l: Layout, received: seq<Byte>, dataA: seq<Byte>, a: seq<Byte>, dataB: seq<Byte>, b: seq<Byte>,
                  i: int)
    requires Regular(l) && l.s + 1 + l.ecc <= 255 && 0 <= i < Blocks(l) && |received| == CodeTotal(l)
    requires Codes(l, dataA, a) && Codes(l, dataB, b)
    requires LightlyDamaged(l, received, a) && LightlyDamaged(l, received, b)
    ensures BlockData(l, dataA, i) == BlockData(l, dataB, i)
  {
    hide ReadBlock, Codeword, BlockData, Distance, Interleaved, DataTotal, CodeTotal;
    BlockReadsCodeword(l, dataA, a, i);
    BlockReadsCodeword(l, dataB, b, i);
    BlockLenBound(l, i);
    UniqueDecoding(ReadBlock(l, received, i), BlockData(l, dataA, i), BlockData(l, dataB, i), l.ecc);
  }

  /**
    If the received codewords are lightly damaged compared with the codewords of some data, no other data
    of that version and level explain them.
  */
  lemma DamagedDataUnique(v: int, level: int, received: seq<Byte>, dataA: seq<Byte>, a: seq<Byte>,
                          dataB: seq<Byte>, b: seq<Byte>)
    requires Version(v) && Level(level) && Regular(LayoutOf(v, level))
    requires Codes(LayoutOf(v, level), dataA, a) && Codes(LayoutOf(v, level), dataB, b)
    requires |received| == CodeTotal(LayoutOf(v, level))
    requires LightlyDamaged(LayoutOf(v, level), received, a) && LightlyDamaged(LayoutOf(v, level), received, b)
    ensures dataA == dataB
  {
    var l := LayoutOf(v, level);
    LayoutFits(v, level);
    hide LayoutOf, BlockData, Interleaved, DataTotal, CodeTotal, LightlyDamaged, BlockStart, TotalCodewords,
      DataCodewords;
    forall i | 0 <= i < Blocks(l)
      ensures BlockData(l, dataA, i) == BlockData(l, dataB, i)
    {
      SameBlock(l, received, dataA, a, dataB, b, i);
    }
    SameBlocks(l, dataA, dataB, Blocks(l));
    LastStart(l);
    assert dataA[..|dataA|] == dataA && dataB[..|dataB|] == dataB;
  }

  // ---------- Damaged modules ----------

  /** Two matrices agree in the eight modules of codeword k. */
  ghost predicate SameModules(g: Grid, h: Grid, v: int, k: int)
    requires Version(v) && Square(g, MAX_SIZE) && Square(h, MAX_SIZE) && 0 <= k < TotalCodewords(v)
  {
    FreePathInGrid(g, v);
    FreePathInGrid(h, v);
    forall j :: 8 * k <= j < 8 * k + 8 ==> At(g, FreePath(v)[j]) == At(h, FreePath(v)[j])
  }

  /** How many of the given codewords have a module in which the matrices differ. */
  ghost function Damage(g: Grid, h: Grid, v: int, ps: seq<int>): nat
    requires Version(v) && Square(g, MAX_SIZE) && Square(h, MAX_SIZE) && Within(ps, TotalCodewords(v))
  {
    if ps == [] then 0 else (if SameModules(g, h, v, ps[0]) then 0 else 1) + Damage(g, h, v, ps[1..])
  }

  /** The 15 format modules, in one copy or the other. */
  function ReadFormat(g: Grid, v: int, second: bool): (f: seq<int>)
    requires Version(v) && Square(g, MAX_SIZE)
    ensures |f| == 15
  {
    seq(15, i requires 0 <= i < 15 => At(g, if second then SecondCopy(SizeOf(v), i) else FirstCopy(i)))
  }

  lemma CompleteFormat(g: Grid, v: int, level: int, id: int, codes: seq<Byte>, placed: Grid, second: bool)
    requires Complete(g, v, level, id, codes, placed) && Square(g, MAX_SIZE)
    ensures ReadFormat(g, v, second) == FormatString(level, id)
  {
    var m := Masked(PatternGrid(v), placed, SizeOf(v), id);
    forall i: nat | i < 15
      ensures ReadFormat(g, v, second)[i] == FormatString(level, id)[i]
    {
      hide FormatString, Masked, PatternGrid, PutAll, Overlay;
      OverlayReadable(v, level, id, m, i);
    }
  }

  /** At most three modules of a copy of the format string are wrong, and each block has few damaged codewords. */
  ghost predicate SlightlyDamaged(g: Grid, h: Grid, v: int, level: int, second: bool)
    requires Version(v) && Level(level) && Square(g, MAX_SIZE) && Square(h, MAX_SIZE)
  {
    LayoutFits(v, level);
    && Distance(ReadFormat(h, v, second), ReadFormat(g, v, second)) <= 3
    && forall i :: 0 <= i < Blocks(LayoutOf(v, level)) ==>
         Damage(g, h, v, Positions(LayoutOf(v, level), i)) <= LayoutOf(v, level).ecc / 2
  }

  lemma SameSlice(g: Grid, h: Grid, f: seq<Cell>, id: int, n: nat, k: int)
    requires 0 <= 8 * k <= n - 8 && n <= |f|
    requires AllInGrid(g, f) && AllInGrid(h, f)
    requires forall j :: 8 * k <= j < 8 * k + 8 ==> At(g, f[j]) == At(h, f[j])
    ensures Unmasked(g, f, id, n)[8 * k..8 * k + 8] == Unmasked(h, f, id, n)[8 * k..8 * k + 8]
  {
    hide At, InGrid, Flips, XorBit;
  }

  lemma SameModulesSameCode(g: Grid, h: Grid, v: int, id: int, k: int)
    requires Version(v) && Square(g, MAX_SIZE) && Square(h, MAX_SIZE) && 0 <= k < TotalCodewords(v)
    requires SameModules(g, h, v, k)
    ensures ReadCodes(g, v, id)[k] == ReadCodes(h, v, id)[k]
  {
    FreePathInGrid(g, v);
    FreePathInGrid(h, v);
    hide FreePath, TotalCodewords, BytesFrom, ByteFrom, Unmasked, At, AllInGrid;
    var n := 8 * TotalCodewords(v);
    BytesFromAt(Unmasked(g, FreePath(v), id, n), k);
    BytesFromAt(Unmasked(h, FreePath(v), id, n), k);
    SameSlice(g, h, FreePath(v), id, n, k);
  }

  lemma {:induction false} DamageBoundsDistance(g: Grid, h: Grid, v: int, id: int, ps: seq<int>)
    requires Version(v) && Square(g, MAX_SIZE) && Square(h, MAX_SIZE) && Within(ps, TotalCodewords(v))
    ensures Distance(ReadAt(ReadCodes(h, v, id), ps), ReadAt(ReadCodes(g, v, id), ps)) <= Damage(g, h, v, ps)
  {
    hide ReadCodes, SameModules, TotalCodewords;
    if ps == [] {
    } else {
      var a, b := ReadAt(ReadCodes(h, v, id), ps), ReadAt(ReadCodes(g, v, id), ps);
      DamageBoundsDistance(g, h, v, id, ps[1..]);
      assert a[1..] == ReadAt(ReadCodes(h, v, id), ps[1..]);
      assert b[1..] == ReadAt(ReadCodes(g, v, id), ps[1..]);
      if SameModules(g, h, v, ps[0]) {
        SameModulesSameCode(g, h, v, id, ps[0]);
      }
    }
  }

  /** What is left of a slightly damaged symbol still has lightly damaged codewords. */
  lemma DamagedCodes(g: Grid, h: Grid, v: int, level: int, id: int, codes: seq<Byte>, placed: Grid, second: bool)
    requires Complete(g, v, level, id, codes, placed) && Square(g, MAX_SIZE) && Square(h, MAX_SIZE)
    requires SlightlyDamaged(g, h, v, level, second)
    ensures CodeTotal(LayoutOf(v, level)) == |codes|
    ensures LightlyDamaged(LayoutOf(v, level), ReadCodes(h, v, id), codes)
  {
    CompleteReadsBack(g, v, level, id, codes, placed);
    LayoutFits(v, level);
    hide Complete, LayoutOf, TotalCodewords, DataCodewords, CodeTotal, DataTotal, Damage, Distance, Positions,
      ReadCodes, ReadFormat, Level;
    var l := LayoutOf(v, level);
    forall i | 0 <= i < Blocks(l)
      ensures Distance(ReadBlock(l, ReadCodes(h, v, id), i), ReadBlock(l, codes, i)) <= l.ecc / 2
    {
      DamageBoundsDistance(g, h, v, id, Positions(l, i));
    }
  }

  /**
    End to end: no matrix is a slightly damaged form of the finished symbols of two different texts of a
    version, whatever their levels and masks are; and it tells the level and the mask.
  */
  lemma DamagedSymbolUnique(h: Grid, v: int, second: bool,
                            g: Grid, level: int, id: int, text: seq<Byte>, codes: seq<Byte>, placed: Grid,
                            g': Grid, level': int, id': int, text': seq<Byte>, codes': seq<Byte>, placed': Grid)
    requires ByteCount(v) && Square(h, MAX_SIZE)
    requires Built(g, v, level, id, text, codes, placed) && Built(g', v, level', id', text', codes', placed')
    requires Square(g, MAX_SIZE) && Square(g', MAX_SIZE)
    requires SlightlyDamaged(g, h, v, level, second) && SlightlyDamaged(g', h, v, level', second)
    ensures level == level' && id == id' && text == text'
  {
    CompleteFormat(g, v, level, id, codes, placed, second);
    CompleteFormat(g', v, level', id', codes', placed', second);
    assert level == level' && id == id' by {
      hide FormatString, ReadFormat, Distance;
      NearestFormat(ReadFormat(h, v, second), level, id, level', id');
    }
    DamagedCodes(g, h, v, level, id, codes, placed, second);
    DamagedCodes(g', h, v, level', id', codes', placed', second);
    LayoutFits(v, level);
    hide Complete, LayoutOf, Codes, ReadCodes, SlightlyDamaged, LightlyDamaged, DataStream,
      CodeTotal, DataTotal, Level, AllBits, ParseStream, TotalCodewords;
    var l := LayoutOf(v, level);
    var data :| Encodes(text, l, data, codes);
    var data' :| Encodes(text', l, data', codes');
    DamagedDataUnique(v, level, ReadCodes(h, v, id), data, codes, data', codes');
    TextIsShort(text, v, level, data, codes);
    TextIsShort(text', v, level, data', codes');
    StreamRoundTrip(text, |data|);
    StreamRoundTrip(text', |data'|);
  }
}
