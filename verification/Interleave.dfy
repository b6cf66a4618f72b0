/** The block structure of the codewords: splitting the data into blocks, computing each block's error
    correction bytes, and interleaving both. */
module Interleave {
  import opened Common
  import opened Gf256
  import opened ReedSolomon

  /** One row of a block table: g1 blocks of s data bytes, then g2 blocks of s + 1, each with ecc bytes more. */
  datatype Layout = Layout(ecc: nat, g1: nat, s: nat, g2: nat)

  predicate Regular(l: Layout) {
    0 < l.ecc && 0 < l.s && 0 < l.g1 + l.g2
  }

  function Blocks(l: Layout): nat {
    l.g1 + l.g2
  }

  function BlockLen(l: Layout, i: int): nat {
    if i < l.g1 then l.s else l.s + 1
  }

  /** Where block i starts in the data. */
  function BlockStart(l: Layout, i: int): int {
    i * l.s + (if i < l.g1 then 0 else i - l.g1)
  }

  function DataTotal(l: Layout): (n: nat) {
    BlockStart(l, Blocks(l))
  }

  function CodeTotal(l: Layout): (n: nat)
    ensures n >= DataTotal(l)
  {
    DataTotal(l) + l.ecc * Blocks(l)
  }

  /** Byte j of block i within all blocks. */
  predicate IsData(l: Layout, i: int, j: int) {
    0 <= i < Blocks(l) && 0 <= j < BlockLen(l, i)
  }

  predicate IsEcc(l: Layout, i: int, j: int) {
    0 <= i < Blocks(l) && 0 <= j < l.ecc
  }

  lemma TotalIs(l: Layout)
    ensures DataTotal(l) == l.s * Blocks(l) + l.g2
    ensures DataTotal(l) == l.g1 * l.s + l.g2 * (l.s + 1)
  {
    if l.g2 == 0 {
    } else {
      assert (l.g1 + l.g2) * l.s == l.g1 * l.s + l.g2 * l.s;
    }
  }

  lemma DataPosInRange(l: Layout, i: int, j: int)
    requires IsData(l, i, j)
    ensures 0 <= j * Blocks(l) + i - (if j >= l.s then l.g1 else 0) < DataTotal(l)
  {
    TotalIs(l);
    hide DataTotal;
    var b := Blocks(l);
    MulMonotone(b, 0, j);
    if j >= l.s {
      assert j == l.s;
    } else {
      MulMonotone(b, j, l.s - 1);
      assert b * (l.s - 1) == b * l.s - b;
    }
  }

  /** Where data byte j of block i is sent: column by column, the short blocks being skipped in the last column. */
  function DataPos(l: Layout, i: int, j: int): (k: int)
    requires IsData(l, i, j)
    ensures 0 <= k < DataTotal(l)
  {
    DataPosInRange(l, i, j);
    j * Blocks(l) + i - (if j >= l.s then l.g1 else 0)
  }

  lemma EccPosInRange(l: Layout, i: int, j: int)
    requires IsEcc(l, i, j)
    ensures DataTotal(l) <= DataTotal(l) + j * Blocks(l) + i < CodeTotal(l)
  {
    var b := Blocks(l);
    MulMonotone(b, 0, j);
    MulMonotone(b, j, l.ecc - 1);
  }

  function EccPos(l: Layout, i: int, j: int): (k: int)
    requires IsEcc(l, i, j)
    ensures DataTotal(l) <= k < CodeTotal(l)
  {
    EccPosInRange(l, i, j);
    DataTotal(l) + j * Blocks(l) + i
  }

  // ---------- The index maps are bijections ----------

  /** Digits of a two-digit number in base d are unique. */
  lemma DigitsUnique(d: int, a: int, r: int, b: int, t: int)
    requires 0 <= r < d && 0 <= t < d
    requires a * d + r == b * d + t
    ensures a == b && r == t
  {
    assert (a - b) * d == t - r;
    if a > b {
      MulMonotone(d, 1, a - b);
      assert false;
    } else if a < b {
      MulMonotone(d, a - b, -1);
      assert false;
    }
  }

  lemma DataPosInjective(l: Layout, i: int, j: int, i': int, j': int)
    requires IsData(l, i, j) && IsData(l, i', j')
    requires DataPos(l, i, j) == DataPos(l, i', j')
    ensures i == i' && j == j'
  {
    var b := Blocks(l);
    if j < l.s && j' < l.s {
      DigitsUnique(b, j, i, j', i');
    } else if j < l.s {
      MulMonotone(b, j, l.s - 1);
    } else if j' < l.s {
      MulMonotone(b, j', l.s - 1);
    }
  }

  /** Which data byte is found at position k. */
  function DataAt(l: Layout, k: int): (int, int)
    requires Regular(l)
  {
    var b := Blocks(l);
    if k < l.s * b then (k % b, k / b) else (k - l.s * b + l.g1, l.s)
  }

  lemma DataPosSurjective(l: Layout, k: int)
    requires Regular(l) && 0 <= k < DataTotal(l)
    ensures var (i, j) := DataAt(l, k); IsData(l, i, j) && DataPos(l, i, j) == k
  {
    TotalIs(l);
    var b := Blocks(l);
    if k < l.s * b {
      var j, i := k / b, k % b;
      assert k == j * b + i;
      if j >= l.s {
        MulMonotone(b, l.s, j);
        assert false;
      }
      if j < 0 {
        MulMonotone(b, j, -1);
        assert false;
      }
    }
  }

  lemma EccPosInjective(l: Layout, i: int, j: int, i': int, j': int)
    requires IsEcc(l, i, j) && IsEcc(l, i', j')
    requires EccPos(l, i, j) == EccPos(l, i', j')
    ensures i == i' && j == j'
  {
    DigitsUnique(Blocks(l), j, i, j', i');
  }

  lemma EccPosSurjective(l: Layout, k: int)
    requires Regular(l) && DataTotal(l) <= k < CodeTotal(l)
    ensures var r := k - DataTotal(l);
            IsEcc(l, r % Blocks(l), r / Blocks(l)) && EccPos(l, r % Blocks(l), r / Blocks(l)) == k
  {
    var b := Blocks(l);
    var r := k - DataTotal(l);
    var j := r / b;
    assert r == j * b + r % b;
    if j >= l.ecc {
      MulMonotone(b, l.ecc, j);
      assert false;
    }
    if j < 0 {
      MulMonotone(b, j, -1);
      assert false;
    }
  }

  /** Column by column, and in each column the blocks in their order. */
  predicate Before(i: int, j: int, i': int, j': int) {
    j < j' || (j == j' && i < i')
  }

  lemma DataPosOrdered(l: Layout, i: int, j: int, i': int, j': int)
    requires IsData(l, i, j) && IsData(l, i', j')
    ensures DataPos(l, i, j) < DataPos(l, i', j') <==> Before(i, j, i', j')
  {
    if Before(i, j, i', j') {
      DataPosGrows(l, i, j, i', j');
    } else if Before(i', j', i, j) {
      DataPosGrows(l, i', j', i, j);
    }
  }

  lemma DataPosGrows(l: Layout, i: int, j: int, i': int, j': int)
    requires IsData(l, i, j) && IsData(l, i', j') && Before(i, j, i', j')
    ensures DataPos(l, i, j) < DataPos(l, i', j')
  {
    if j < j' {
      ColumnOrder(Blocks(l), i, j, i', j');
    }
  }

  lemma ColumnOrder(b: int, i: int, j: int, i': int, j': int)
    requires 0 <= i < b && 0 <= i' && j < j'
    ensures j * b + i < j' * b + i'
    ensures j * b + b <= j' * b
  {
    MulMonotone(b, j + 1, j');
    assert b * (j + 1) == j * b + b;
    assert b * j' == j' * b;
  }

  lemma EccPosOrdered(l: Layout, i: int, j: int, i': int, j': int)
    requires IsEcc(l, i, j) && IsEcc(l, i', j')
    ensures EccPos(l, i, j) < EccPos(l, i', j') <==> Before(i, j, i', j')
  {
    if j < j' {
      ColumnOrder(Blocks(l), i, j, i', j');
    } else if j' < j {
      ColumnOrder(Blocks(l), i', j', i, j);
    }
  }

  /** The blocks follow each other in the data, the short ones first, and the second kind is one byte longer. */
  lemma BlocksInTurn(l: Layout, i: int)
    requires 0 <= i < Blocks(l)
    ensures BlockStart(l, 0) == 0
    ensures BlockStart(l, i + 1) == BlockStart(l, i) + if i < l.g1 then l.s else l.s + 1
    ensures BlockStart(l, i) + BlockLen(l, i) == if i + 1 < Blocks(l) then BlockStart(l, i + 1) else DataTotal(l)
  {
    BlockInRange(l, i);
  }

  lemma BlockInRange(l: Layout, i: int)
    requires 0 <= i < Blocks(l)
    ensures 0 <= BlockStart(l, i)
    ensures BlockStart(l, i + 1) == BlockStart(l, i) + BlockLen(l, i)
    ensures BlockStart(l, i) + BlockLen(l, i) <= DataTotal(l)
  {
    var b := Blocks(l);
    MulMonotone(l.s, 0, i);
    assert (i + 1) * l.s == i * l.s + l.s;
    MulMonotone(l.s, i + 1, b);
  }

  // ---------- The interleaved codewords ----------

  function BlockData(l: Layout, data: seq<Byte>, i: int): (d: seq<Byte>)
    requires 0 <= i < Blocks(l) && DataTotal(l) <= |data|
    ensures |d| == BlockLen(l, i)
  {
    BlockInRange(l, i);
    data[BlockStart(l, i)..BlockStart(l, i) + BlockLen(l, i)]
  }

  /** The error correction bytes of block i. */
  function BlockEcc(l: Layout, data: seq<Byte>, i: int): (e: seq<Byte>)
    requires Regular(l) && 0 <= i < Blocks(l) && DataTotal(l) <= |data|
    ensures |e| == l.ecc
  {
    Remainder(Generator(l.ecc), BlockData(l, data, i))
  }

  predicate DataPlaced(l: Layout, codes: seq<Byte>, i: int, block: seq<Byte>)
    requires 0 <= i < Blocks(l) && |block| == BlockLen(l, i) && DataTotal(l) <= |codes|
  {
    forall j :: 0 <= j < |block| ==> codes[DataPos(l, i, j)] == block[j]
  }

  predicate EccPlaced(l: Layout, codes: seq<Byte>, i: int, ecc: seq<Byte>)
    requires 0 <= i < Blocks(l) && |ecc| == l.ecc && CodeTotal(l) <= |codes|
  {
    forall j :: 0 <= j < |ecc| ==> codes[EccPos(l, i, j)] == ecc[j]
  }

  /** The codewords hold every data byte and every error correction byte at its interleaved position. */
  predicate Interleaved(l: Layout, data: seq<Byte>, codes: seq<Byte>)
    requires Regular(l) && DataTotal(l) <= |data| && CodeTotal(l) <= |codes|
  {
    forall i :: 0 <= i < Blocks(l) ==>
      DataPlaced(l, codes, i, BlockData(l, data, i)) && EccPlaced(l, codes, i, BlockEcc(l, data, i))
  }

  /** The data of the first i blocks, read back from the interleaved codewords. */
  function BlocksBefore(l: Layout, codes: seq<Byte>, i: nat): (data: seq<Byte>)
    requires i <= Blocks(l) && DataTotal(l) <= |codes|
  {
    if i == 0 then []
    else
      BlocksBefore(l, codes, i - 1)
      + seq(BlockLen(l, i - 1), j requires 0 <= j < BlockLen(l, i - 1) => codes[DataPos(l, i - 1, j)])
  }

  function Deinterleave(l: Layout, codes: seq<Byte>): seq<Byte>
    requires DataTotal(l) <= |codes|
  {
    BlocksBefore(l, codes, Blocks(l))
  }

  lemma {:induction false} BlocksRoundTrip(l: Layout, data: seq<Byte>, codes: seq<Byte>, i: nat)
    requires Regular(l) && DataTotal(l) <= |data| && CodeTotal(l) <= |codes|
    requires Interleaved(l, data, codes) && i <= Blocks(l)
    ensures 0 <= BlockStart(l, i) <= |data|
    ensures BlocksBefore(l, codes, i) == data[..BlockStart(l, i)]
  {
    hide BlockEcc, BlockStart, DataPos;
    if i > 0 {
      var k := i - 1;
      BlocksRoundTrip(l, data, codes, k);
      BlockSplit(l, data, k);
      assert DataPlaced(l, codes, k, BlockData(l, data, k));
    } else {
      StartZero(l);
    }
  }

  lemma StartZero(l: Layout)
    ensures BlockStart(l, 0) == 0
  {
  }

  lemma BlockSplit(l: Layout, data: seq<Byte>, i: int)
    requires 0 <= i < Blocks(l) && DataTotal(l) <= |data|
    ensures 0 <= BlockStart(l, i) <= BlockStart(l, i + 1) <= |data|
    ensures data[..BlockStart(l, i + 1)] == data[..BlockStart(l, i)] + BlockData(l, data, i)
  {
    BlockInRange(l, i);
  }

  /** De-interleaving undoes interleaving. */
  lemma DeinterleaveRoundTrip(l: Layout, data: seq<Byte>, codes: seq<Byte>)
    requires Regular(l) && DataTotal(l) <= |data| && CodeTotal(l) <= |codes|
    requires Interleaved(l, data, codes)
    ensures Deinterleave(l, codes) == data[..DataTotal(l)]
  {
    BlocksRoundTrip(l, data, codes, Blocks(l));
  }

  /** Positions that belong to another block keep their contents. */
  ghost predicate OthersKept(l: Layout, before: seq<Byte>, after: seq<Byte>, i: int)
    requires |before| == |after| && CodeTotal(l) <= |after|
  {
    && (forall i', j' :: IsData(l, i', j') && i' != i ==> after[DataPos(l, i', j')] == before[DataPos(l, i', j')])
    && (forall i', j' :: IsEcc(l, i', j') && i' != i ==> after[EccPos(l, i', j')] == before[EccPos(l, i', j')])
  }

  /** Writing position (i, j) of the data area. */
  lemma DataWrite(l: Layout, i: int, j: int, before: seq<Byte>, c: Byte)
    requires IsData(l, i, j) && CodeTotal(l) <= |before|
    ensures var after := before[DataPos(l, i, j) := c];
            && OthersKept(l, before, after, i)
            && (forall j' :: IsData(l, i, j') && j' != j ==> after[DataPos(l, i, j')] == before[DataPos(l, i, j')])
            && (forall j' :: IsEcc(l, i, j') ==> after[EccPos(l, i, j')] == before[EccPos(l, i, j')])
  {
    forall i', j' | IsData(l, i', j') && DataPos(l, i', j') == DataPos(l, i, j)
      ensures i' == i && j' == j
    {
      DataPosInjective(l, i', j', i, j);
    }
    hide DataPos, EccPos;
  }

  lemma EccWrite(l: Layout, i: int, j: int, before: seq<Byte>, c: Byte)
    requires IsEcc(l, i, j) && CodeTotal(l) <= |before|
    ensures var after := before[EccPos(l, i, j) := c];
            && OthersKept(l, before, after, i)
            && (forall j' :: IsEcc(l, i, j') && j' != j ==> after[EccPos(l, i, j')] == before[EccPos(l, i, j')])
            && (forall j' :: IsData(l, i, j') ==> after[DataPos(l, i, j')] == before[DataPos(l, i, j')])
  {
    forall i', j' | IsEcc(l, i', j') && EccPos(l, i', j') == EccPos(l, i, j)
      ensures i' == i && j' == j
    {
      EccPosInjective(l, i', j', i, j);
    }
    hide DataPos, EccPos;
  }

  /** The scatter loop for the data bytes of block i. */
  method ScatterData(l: Layout, data: array<Byte>, start: nat, codes: array<Byte>, i: int)
    requires 0 <= i < Blocks(l) && data != codes
    requires start + BlockLen(l, i) <= data.Length && CodeTotal(l) <= codes.Length
    modifies codes
    ensures DataPlaced(l, codes[..], i, data[start..start + BlockLen(l, i)])
    ensures OthersKept(l, old(codes[..]), codes[..], i)
  {
    ghost var was, block := codes[..], data[start..start + BlockLen(l, i)];
    var len := BlockLen(l, i);
    var j, k := 0, i;
    while j < len
      invariant 0 <= j <= len
      invariant k == j * Blocks(l) + i - (if j > l.s then l.g1 else 0)
      invariant forall j' :: 0 <= j' < j ==> codes[DataPos(l, i, j')] == block[j']
      invariant OthersKept(l, was, codes[..], i)
    {
      if j == l.s {
        k := k - l.g1;
      }
      assert k == DataPos(l, i, j);
      assert (j + 1) * Blocks(l) == j * Blocks(l) + Blocks(l);
      hide DataPos, EccPos;
      DataWrite(l, i, j, codes[..], data[start + j]);
      codes[k] := data[start + j];
      j := j + 1;
      k := k + Blocks(l);
    }
  }

  /** The scatter loop for the error correction bytes of block i, after its data bytes d. */
  method ScatterEcc(l: Layout, ecc: array<Byte>, codes: array<Byte>, i: int, ghost d: seq<Byte>)
    requires 0 <= i < Blocks(l) && ecc != codes
    requires l.ecc <= ecc.Length && CodeTotal(l) <= codes.Length
    requires |d| == BlockLen(l, i) && DataPlaced(l, codes[..], i, d)
    modifies codes
    ensures DataPlaced(l, codes[..], i, d)
    ensures EccPlaced(l, codes[..], i, ecc[..l.ecc])
    ensures OthersKept(l, old(codes[..]), codes[..], i)
  {
    ghost var was, block := codes[..], ecc[..l.ecc];
    var j, k := 0, DataTotal(l) + i;
    while j < l.ecc
      invariant 0 <= j <= l.ecc
      invariant k == DataTotal(l) + j * Blocks(l) + i
      invariant forall j' :: 0 <= j' < j ==> codes[EccPos(l, i, j')] == block[j']
      invariant DataPlaced(l, codes[..], i, d)
      invariant OthersKept(l, was, codes[..], i)
    {
      EccPosIs(l, i, j);
      hide DataPos, EccPos, DataTotal;
      ghost var before := codes[..];
      EccWrite(l, i, j, codes[..], ecc[j]);
      codes[k] := ecc[j];
      OthersKeptTwice(l, was, before, codes[..], i);
      j := j + 1;
      k := k + Blocks(l);
    }
  }

  lemma EccPosIs(l: Layout, i: int, j: int)
    requires IsEcc(l, i, j)
    ensures EccPos(l, i, j) == DataTotal(l) + j * Blocks(l) + i
    ensures (j + 1) * Blocks(l) == j * Blocks(l) + Blocks(l)
  {
  }

  /** Both scatter loops of one block. */
  method ScatterBlock(l: Layout, data: array<Byte>, start: nat, ecc: array<Byte>, codes: array<Byte>, i: int)
    requires 0 <= i < Blocks(l) && data != codes && ecc != codes
    requires start + BlockLen(l, i) <= data.Length && l.ecc <= ecc.Length && CodeTotal(l) <= codes.Length
    modifies codes
    ensures DataPlaced(l, codes[..], i, data[start..start + BlockLen(l, i)])
    ensures EccPlaced(l, codes[..], i, ecc[..l.ecc])
    ensures OthersKept(l, old(codes[..]), codes[..], i)
  {
    hide *;
    ghost var was, block := codes[..], data[start..start + BlockLen(l, i)];
    ScatterData(l, data, start, codes, i);
    ghost var between := codes[..];
    ScatterEcc(l, ecc, codes, i, block);
    OthersKeptTwice(l, was, between, codes[..], i);
  }

  /** One block: its remainder, then both scatter loops. */
  method EncodeBlock(l: Layout, generator: array<Byte>, data: array<Byte>, start: nat, ecc: array<Byte>,
                     codes: array<Byte>, i: int)
    requires Regular(l) && 0 <= i < Blocks(l) && start == BlockStart(l, i)
    requires l.ecc <= generator.Length && generator[..l.ecc] == Generator(l.ecc)
    requires l.ecc <= ecc.Length && ecc != generator && ecc != data && ecc != codes
    requires codes != data && codes != generator
    requires DataTotal(l) <= data.Length && CodeTotal(l) <= codes.Length
    modifies ecc, codes
    ensures DataPlaced(l, codes[..], i, BlockData(l, data[..], i))
    ensures EccPlaced(l, codes[..], i, BlockEcc(l, data[..], i))
    ensures OthersKept(l, old(codes[..]), codes[..], i)
  {
    hide *;
    BlockIs(l, data[..], i);
    ghost var block := BlockData(l, data[..], i);
    assert data[start..start + BlockLen(l, i)] == data[..][start..start + BlockLen(l, i)];
    ReedSolomonCalc(generator, data, start, BlockLen(l, i), ecc, l.ecc);
    ScatterBlock(l, data, start, ecc, codes, i);
  }

  lemma BlockIs(l: Layout, data: seq<Byte>, i: int)
    requires Regular(l) && 0 <= i < Blocks(l) && DataTotal(l) <= |data|
    ensures 1 <= l.ecc && 0 <= BlockStart(l, i) <= BlockStart(l, i) + BlockLen(l, i) <= DataTotal(l)
    ensures data[BlockStart(l, i)..BlockStart(l, i) + BlockLen(l, i)] == BlockData(l, data, i)
    ensures BlockEcc(l, data, i) == Remainder(Generator(l.ecc), BlockData(l, data, i))
  {
    BlockInRange(l, i);
    hide Remainder, Generator;
  }

  lemma OthersKeptTwice(l: Layout, a: seq<Byte>, b: seq<Byte>, c: seq<Byte>, i: int)
    requires |a| == |b| == |c| && CodeTotal(l) <= |c|
    requires OthersKept(l, a, b, i) && OthersKept(l, b, c, i)
    ensures OthersKept(l, a, c, i)
  {
  }

  /** Blocks other than i stay placed while block i is written. */
  lemma PlacedKept(l: Layout, before: seq<Byte>, after: seq<Byte>, i: int, k: int, d: seq<Byte>, e: seq<Byte>)
    requires |before| == |after| && CodeTotal(l) <= |after|
    requires 0 <= k < Blocks(l) && k != i && OthersKept(l, before, after, i)
    requires |d| == BlockLen(l, k) && |e| == l.ecc
    requires DataPlaced(l, before, k, d) && EccPlaced(l, before, k, e)
    ensures DataPlaced(l, after, k, d) && EccPlaced(l, after, k, e)
  {
    hide DataPos, EccPos;
  }

  /** Step [6] of the encoder: all blocks, sharing one generator. */
  method EncodeBlocks(l: Layout, data: array<Byte>, codes: array<Byte>) returns (len: nat)
    requires Regular(l) && l.ecc <= 30 && data != codes
    requires DataTotal(l) <= data.Length && CodeTotal(l) <= codes.Length
    modifies codes
    ensures len == CodeTotal(l)
    ensures Interleaved(l, data[..], codes[..])
  {
    hide DataPos, EccPos, Remainder, Generator, BlockData, BlockEcc, DataPlaced, EccPlaced, OthersKept, DataTotal;
    var generator := new Byte[30];
    var ecc := new Byte[30];
    var blockNum := Blocks(l);
    len := CodeTotal(l);
    ghost var d := data[..];
    ReedSolomonPoly(generator, l.ecc);
    var start: nat := 0;
    var i := 0;
    StartZero(l);
    while i < blockNum
      invariant 0 <= i <= blockNum && start == BlockStart(l, i)
      invariant generator[..l.ecc] == Generator(l.ecc)
      invariant forall k :: 0 <= k < i ==>
        DataPlaced(l, codes[..], k, BlockData(l, d, k)) && EccPlaced(l, codes[..], k, BlockEcc(l, d, k))
    {
      BlockInRange(l, i);
      ghost var before := codes[..];
      EncodeBlock(l, generator, data, start, ecc, codes, i);
      forall k | 0 <= k < i
        ensures DataPlaced(l, codes[..], k, BlockData(l, d, k)) && EccPlaced(l, codes[..], k, BlockEcc(l, d, k))
      {
        PlacedKept(l, before, codes[..], i, k, BlockData(l, d, k), BlockEcc(l, d, k));
      }
      start := start + BlockLen(l, i);
      i := i + 1;
    }
  }

  /** Every transmitted block together with its error correction bytes is a codeword of the code. */
  lemma BlockIsCodeword(l: Layout, data: seq<Byte>, i: int)
    requires Regular(l) && 0 <= i < Blocks(l) && DataTotal(l) <= |data|
    ensures BlockData(l, data, i) + BlockEcc(l, data, i) == Codeword(BlockData(l, data, i), l.ecc)
    ensures ZeroSyndromes(BlockData(l, data, i) + BlockEcc(l, data, i), l.ecc)
  {
    CodewordHasZeroSyndromes(BlockData(l, data, i), l.ecc);
  }
}
