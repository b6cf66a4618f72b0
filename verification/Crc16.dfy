/**
  The parametric CRC-16 of `checksum/crc16.c`: any polynomial, start value, reflection and final XOR.
  A message is fed as a sequence of bits, first bit first.
*/
module Crc16 {

  datatype Register = Register(bits: bv16)

  const ZERO := Register(0)

  function XorBits(a: bv16, b: bv16): bv16 {
    a ^ b
  }

  function Xor(a: Register, b: Register): Register {
    Register(XorBits(a.bits, b.bits))
  }

  // ---------- One bit ----------

  function TopBit(c: bv16): bool {
    c & 0x8000 != 0
  }

  function ShlBits(c: bv16): bv16 {
    c << 1
  }

  function FeedBits(poly: bv16, c: bv16, bit: bool): bv16 {
    var shifted := if TopBit(c) then XorBits(ShlBits(c), poly) else ShlBits(c);
    if bit then XorBits(shifted, poly) else shifted
  }

  function Top(c: Register): bool {
    TopBit(c.bits)
  }

  function Shl(c: Register): Register {
    Register(ShlBits(c.bits))
  }

  /** One step of the register, for one bit of data. */
  function Feed(poly: bv16, c: Register, bit: bool): Register {
    Register(FeedBits(poly, c.bits, bit))
  }

  function Run(poly: bv16, c: Register, bits: seq<bool>): Register {
    if bits == [] then c else Feed(poly, Run(poly, c, bits[..|bits| - 1]), bits[|bits| - 1])
  }

  // ---------- Bits of bytes ----------

  function Reverse8(b: bv8): bv8 {
    ((b & 0x80) >> 7) | ((b & 0x40) >> 5) | ((b & 0x20) >> 3) | ((b & 0x10) >> 1)
    | ((b & 0x01) << 7) | ((b & 0x02) << 5) | ((b & 0x04) << 3) | ((b & 0x08) << 1)
  }

  function Reverse16(c: bv16): bv16 {
    ((c & 0x8000) >> 15) | ((c & 0x4000) >> 13) | ((c & 0x2000) >> 11) | ((c & 0x1000) >> 9)
    | ((c & 0x0800) >> 7) | ((c & 0x0400) >> 5) | ((c & 0x0200) >> 3) | ((c & 0x0100) >> 1)
    | ((c & 0x0001) << 15) | ((c & 0x0002) << 13) | ((c & 0x0004) << 11) | ((c & 0x0008) << 9)
    | ((c & 0x0010) << 7) | ((c & 0x0020) << 5) | ((c & 0x0040) << 3) | ((c & 0x0080) << 1)
  }

  function Mask(k: nat): bv8 {
    if k == 0 then 0x80 else if k == 1 then 0x40 else if k == 2 then 0x20 else if k == 3 then 0x10
    else if k == 4 then 8 else if k == 5 then 4 else if k == 6 then 2 else if k == 7 then 1 else 0
  }

  function BitOf(b: bv8, mask: bv8): bool {
    b & mask != 0
  }

  /** The bits of a byte, highest first. */
  function ByteBits(b: bv8): (bits: seq<bool>)
    ensures |bits| == 8
  {
    seq(8, k requires 0 <= k < 8 => BitOf(b, Mask(k)))
  }

  function Reflected(refin: bool, b: bv8): bv8 {
    if refin then Reverse8(b) else b
  }

  function Bits(refin: bool, message: seq<bv8>): seq<bool> {
    if message == [] then []
    else Bits(refin, message[..|message| - 1]) + ByteBits(Reflected(refin, message[|message| - 1]))
  }

  function Output(refout: bool, c: Register): Register {
    if refout then Register(Reverse16(c.bits)) else c
  }

  function Crc(poly: bv16, init: bv16, refin: bool, refout: bool, xout: bv16, message: seq<bv8>): Register {
    Xor(Output(refout, Run(poly, Register(init), Bits(refin, message))), Register(xout))
  }

  // ---------- The loops ----------

  lemma {:induction false} RunConcat(poly: bv16, c: Register, a: seq<bool>, b: seq<bool>)
    ensures Run(poly, c, a + b) == Run(poly, Run(poly, c, a), b)
    decreases |b|
  {
    hide Feed;
    if b == [] {
      assert a + b == a;
    } else {
      RunConcat(poly, c, a, b[..|b| - 1]);
      assert (a + b)[..|a + b| - 1] == a + b[..|b| - 1];
    }
  }

  lemma RunOne(poly: bv16, c: Register, bits: seq<bool>, bit: bool)
    ensures Run(poly, c, bits + [bit]) == Feed(poly, Run(poly, c, bits), bit)
  {
    hide Feed;
    assert (bits + [bit])[..|bits|] == bits;
  }

  lemma NextMask(k: nat)
    requires k < 8
    ensures Mask(k) >> 1 == Mask(k + 1) && Mask(k) != 0
  {
  }

  /** The inner loop: the eight bits of one byte. */
  method FeedByte(poly: bv16, start: Register, refin: bool, value: bv8) returns (crc: Register)
    ensures crc == Run(poly, start, ByteBits(Reflected(refin, value)))
  {
    hide Feed, Reflected, Mask, ByteBits, BitOf;
    crc := start;
    var j: bv8 := 0x80;
    ghost var k := 0;
    ghost var bits := ByteBits(Reflected(refin, value));
    FirstMask();
    while j != 0
      invariant 0 <= k <= 8 && j == Mask(k) && (j == 0 <==> k == 8)
      invariant crc == Run(poly, start, bits[..k])
      decreases 8 - k
    {
      var val8 := Reflected(refin, value);
      BitAt(val8, k);
      RunOne(poly, start, bits[..k], bits[k]);
      assert bits[..k + 1] == bits[..k] + [bits[k]];
      crc := Feed(poly, crc, BitOf(val8, j));
      NextMask(k);
      k := k + 1;
      j := j >> 1;
      LastMask(k);
    }
    assert bits[..8] == bits;
  }

  lemma FirstMask()
    ensures Mask(0) == 0x80
  {
  }

  lemma LastMask(k: nat)
    requires k <= 8
    ensures Mask(k) == 0 <==> k == 8
  {
  }

  lemma BitAt(b: bv8, k: nat)
    requires k < 8
    ensures ByteBits(b)[k] == BitOf(b, Mask(k))
  {
  }

  method Crc16(poly: bv16, init: bv16, refin: bool, refout: bool, xout: bv16, data: seq<bv8>)
    returns (result: Register)
    ensures result == Crc(poly, init, refin, refout, xout, data)
  {
    hide Feed, ByteBits, Reflected, Run, Output, Xor;
    var crc := Register(init);
    var i := 0;
    RunEmpty(poly, Register(init));
    while i < |data|
      invariant 0 <= i <= |data|
      invariant crc == Run(poly, Register(init), Bits(refin, data[..i]))
    {
      assert data[..i + 1][..i] == data[..i];
      RunConcat(poly, Register(init), Bits(refin, data[..i]), ByteBits(Reflected(refin, data[i])));
      crc := FeedByte(poly, crc, refin, data[i]);
      i := i + 1;
    }
    assert data[..i] == data;
    crc := Output(refout, crc);
    result := Xor(crc, Register(xout));
  }

  lemma RunEmpty(poly: bv16, c: Register)
    ensures Run(poly, c, []) == c
  {
  }

  // ---------- Algebra of registers ----------

  lemma XorThen(a: Register, b: Register, c: Register)
    ensures Xor(Xor(a, b), c) == Register(a.bits ^ b.bits ^ c.bits)
  {
    assert Xor(a, b) == Register(a.bits ^ b.bits);
  }

  lemma XorCommutes(a: Register, b: Register)
    ensures Xor(a, b) == Xor(b, a)
  {
  }

  lemma XorAssociates(a: Register, b: Register, c: Register)
    ensures Xor(Xor(a, b), c) == Xor(a, Xor(b, c))
  {
    hide Xor;
    XorThen(a, b, c);
    XorThen(b, c, a);
    XorCommutes(Xor(b, c), a);
  }

  lemma XorSelf(a: Register)
    ensures Xor(a, a) == ZERO && Xor(ZERO, a) == a && Xor(a, ZERO) == a
  {
  }

  lemma XorSwaps(a: Register, b: Register, c: Register, d: Register)
    ensures Xor(Xor(a, b), Xor(c, d)) == Xor(Xor(a, c), Xor(b, d))
  {
    hide *;
    calc {
      Xor(Xor(a, b), Xor(c, d));
      { XorAssociates(a, b, Xor(c, d)); XorAssociates(b, c, d); }
      Xor(a, Xor(Xor(b, c), d));
      { XorCommutes(b, c); XorAssociates(c, b, d); }
      Xor(a, Xor(c, Xor(b, d)));
      { XorAssociates(a, c, Xor(b, d)); }
      Xor(Xor(a, c), Xor(b, d));
    }
  }

  /** The polynomial, if it is added. */
  function Choose(poly: bv16, add: bool): Register {
    Register(if add then poly else 0)
  }

  lemma ChooseXor(poly: bv16, a: bool, b: bool)
    ensures Choose(poly, a != b) == Xor(Choose(poly, a), Choose(poly, b))
  {
    hide Xor;
    XorSelf(Register(poly));
    XorSelf(ZERO);
  }

  /** The polynomial is added exactly when the top bit differs from the data bit. */
  lemma FeedNet(poly: bv16, c: Register, bit: bool)
    ensures Feed(poly, c, bit) == Xor(Shl(c), Choose(poly, Top(c) != bit))
  {
    hide TopBit, ShlBits, XorBits;
    XorBitsTwice(ShlBits(c.bits), poly);
  }

  lemma XorBitsTwice(a: bv16, b: bv16)
    ensures XorBits(XorBits(a, b), b) == a && XorBits(a, 0) == a
  {
  }

  lemma ShlXor(a: Register, b: Register)
    ensures Shl(Xor(a, b)) == Xor(Shl(a), Shl(b))
  {
  }

  lemma TopXor(a: Register, b: Register)
    ensures Top(Xor(a, b)) == (Top(a) != Top(b))
  {
    assert (a.bits ^ b.bits) & 0x8000 == (a.bits & 0x8000) ^ (b.bits & 0x8000);
    assert a.bits & 0x8000 == 0 || a.bits & 0x8000 == 0x8000;
    assert b.bits & 0x8000 == 0 || b.bits & 0x8000 == 0x8000;
  }

  lemma FeedLinear(poly: bv16, a: Register, b: Register, x: bool, y: bool)
    ensures Feed(poly, Xor(a, b), x != y) == Xor(Feed(poly, a, x), Feed(poly, b, y))
  {
    hide *;
    FeedNet(poly, Xor(a, b), x != y);
    FeedNet(poly, a, x);
    FeedNet(poly, b, y);
    ShlXor(a, b);
    TopXor(a, b);
    assert (Top(Xor(a, b)) != (x != y)) == ((Top(a) != x) != (Top(b) != y));
    ChooseXor(poly, Top(a) != x, Top(b) != y);
    XorSwaps(Shl(a), Choose(poly, Top(a) != x), Shl(b), Choose(poly, Top(b) != y));
  }

  function XorSeq(a: seq<bool>, b: seq<bool>): (r: seq<bool>)
    requires |a| == |b|
    ensures |r| == |a|
  {
    seq(|a|, i requires 0 <= i < |a| => a[i] != b[i])
  }

  /** The register map is linear in the start value and the bits together. */
  lemma {:induction false} RunLinear(poly: bv16, c: Register, d: Register, a: seq<bool>, b: seq<bool>)
    requires |a| == |b|
    ensures Run(poly, Xor(c, d), XorSeq(a, b)) == Xor(Run(poly, c, a), Run(poly, d, b))
    decreases |a|
  {
    hide Feed, Xor;
    if a == [] {
    } else {
      var n := |a| - 1;
      RunLinear(poly, c, d, a[..n], b[..n]);
      assert XorSeq(a, b)[..n] == XorSeq(a[..n], b[..n]);
      FeedLinear(poly, Run(poly, c, a[..n]), Run(poly, d, b[..n]), a[n], b[n]);
    }
  }

  // ---------- Feeding a register to itself ----------

  /** The k highest bits of a register. */
  function TopBits(c: Register, k: nat): (bits: seq<bool>)
    ensures |bits| == k
    decreases k
  {
    if k == 0 then [] else [Top(c)] + TopBits(Shl(c), k - 1)
  }

  function ShlN(c: Register, k: nat): Register
    decreases k
  {
    if k == 0 then c else ShlN(Shl(c), k - 1)
  }

  lemma FeedTop(poly: bv16, c: Register)
    ensures Feed(poly, c, Top(c)) == Shl(c)
  {
    FeedNet(poly, c, Top(c));
    XorSelf(Shl(c));
    hide Feed, Xor, Shl, Top;
  }

  lemma {:induction false} RunTopBits(poly: bv16, c: Register, k: nat)
    ensures Run(poly, c, TopBits(c, k)) == ShlN(c, k)
    decreases k
  {
    hide Feed, Shl, Top;
    if k == 0 {
    } else {
      FeedTop(poly, c);
      RunOne(poly, c, [], Top(c));
      assert [] + [Top(c)] == [Top(c)];
      RunConcat(poly, c, [Top(c)], TopBits(Shl(c), k - 1));
      RunTopBits(poly, Shl(c), k - 1);
    }
  }

  function ShiftBits(x: bv16, k: nat): bv16
    requires k <= 16
  {
    if k == 0 then x else if k == 1 then x << 1 else if k == 2 then x << 2 else if k == 3 then x << 3
    else if k == 4 then x << 4 else if k == 5 then x << 5 else if k == 6 then x << 6 else if k == 7 then
    x << 7 else if k == 8 then x << 8 else if k == 9 then x << 9 else if k == 10 then x << 10 else if k
    == 11 then x << 11 else if k == 12 then x << 12 else if k == 13 then x << 13 else if k == 14 then x
    << 14 else if k == 15 then x << 15 else 0
  }

  lemma ShiftTwice1(x: bv16, k: nat)
    requires 1 <= k <= 4
    ensures ShiftBits(ShlBits(x), k - 1) == ShiftBits(x, k)
  {
    if k == 1 {} else if k == 2 {} else if k == 3 {} else {}
  }

  lemma ShiftTwice2(x: bv16, k: nat)
    requires 5 <= k <= 8
    ensures ShiftBits(ShlBits(x), k - 1) == ShiftBits(x, k)
  {
    if k == 5 {} else if k == 6 {} else if k == 7 {} else {}
  }

  lemma ShiftTwice3(x: bv16, k: nat)
    requires 9 <= k <= 12
    ensures ShiftBits(ShlBits(x), k - 1) == ShiftBits(x, k)
  {
    if k == 9 {} else if k == 10 {} else if k == 11 {} else {}
  }

  lemma ShiftTwice4(x: bv16, k: nat)
    requires 13 <= k <= 16
    ensures ShiftBits(ShlBits(x), k - 1) == ShiftBits(x, k)
  {
    if k == 13 {} else if k == 14 {} else if k == 15 {} else {}
  }

  lemma ShiftTwice(x: bv16, k: nat)
    requires 1 <= k <= 16
    ensures ShiftBits(ShlBits(x), k - 1) == ShiftBits(x, k)
  {
    hide ShiftBits, ShlBits;
    if k <= 4 { ShiftTwice1(x, k); } else if k <= 8 { ShiftTwice2(x, k); }
    else if k <= 12 { ShiftTwice3(x, k); } else { ShiftTwice4(x, k); }
  }

  lemma {:induction false} ShlNIs(c: Register, k: nat)
    requires k <= 16
    ensures ShlN(c, k) == Register(ShiftBits(c.bits, k))
    decreases k
  {
    hide ShiftBits, ShlBits;
    if k == 0 {
      ShiftNone(c.bits);
    } else {
      ShlNIs(Shl(c), k - 1);
      ShiftTwice(c.bits, k);
    }
  }

  lemma ShiftNone(x: bv16)
    ensures ShiftBits(x, 0) == x
  {
  }

  function High(c: Register): bv8 {
    (c.bits >> 8) as bv8
  }

  function Low(c: Register): bv8 {
    (c.bits & 0xFF) as bv8
  }

  lemma TopAt1(c: Register, k: nat)
    requires 0 <= k <= 3
    ensures TopBit(ShiftBits(c.bits, k)) == BitOf(High(c), Mask(k))
  {
    if k == 0 {} else if k == 1 {} else if k == 2 {} else {}
  }

  lemma TopAt2(c: Register, k: nat)
    requires 4 <= k <= 7
    ensures TopBit(ShiftBits(c.bits, k)) == BitOf(High(c), Mask(k))
  {
    if k == 4 {} else if k == 5 {} else if k == 6 {} else {}
  }

  lemma TopAt3(c: Register, k: nat)
    requires 8 <= k <= 11
    ensures TopBit(ShiftBits(c.bits, k)) == BitOf(Low(c), Mask(k - 8))
  {
    if k == 8 {} else if k == 9 {} else if k == 10 {} else {}
  }

  lemma TopAt4(c: Register, k: nat)
    requires 12 <= k <= 15
    ensures TopBit(ShiftBits(c.bits, k)) == BitOf(Low(c), Mask(k - 8))
  {
    if k == 12 {} else if k == 13 {} else if k == 14 {} else {}
  }

  lemma TopAt(c: Register, k: nat)
    requires k < 16
    ensures TopBit(ShiftBits(c.bits, k)) == if k < 8 then BitOf(High(c), Mask(k)) else BitOf(Low(c), Mask(k - 8))
  {
    hide *;
    if k <= 3 { TopAt1(c, k); } else if k <= 7 { TopAt2(c, k); }
    else if k <= 11 { TopAt3(c, k); } else { TopAt4(c, k); }
  }

  lemma {:induction false} TopBitsAt(c: Register, n: nat, k: nat)
    requires k < n
    ensures TopBits(c, n)[k] == Top(ShlN(c, k))
    decreases k
  {
    hide Top, Shl;
    if k == 0 {
    } else {
      TopBitsAt(Shl(c), n - 1, k - 1);
    }
  }

  /** The bits of the two bytes of a register are its bits, highest first. */
  lemma BytesAreTopBits(c: Register)
    ensures ByteBits(High(c)) + ByteBits(Low(c)) == TopBits(c, 16)
  {
    hide TopBits, BitOf, Mask, TopBit, ShlN, ShiftBits, High, Low;
    forall k | 0 <= k < 16
      ensures (ByteBits(High(c)) + ByteBits(Low(c)))[k] == TopBits(c, 16)[k]
    {
      TopBitsAt(c, 16, k);
      ShlNIs(c, k);
      TopAt(c, k);
    }
  }

  lemma RunOwnBytes(poly: bv16, c: Register)
    ensures Run(poly, c, ByteBits(High(c)) + ByteBits(Low(c))) == ZERO
  {
    BytesAreTopBits(c);
    RunTopBits(poly, c, 16);
    ShlNIs(c, 16);
    hide Run, TopBits, ByteBits, High, Low;
  }

  // ---------- A message followed by its CRC ----------

  /** The CRC as it is appended: high byte first, or low byte first if everything is reflected. */
  function Check(reflected: bool, c: Register): seq<bv8> {
    if reflected then [Low(c), High(c)] else [High(c), Low(c)]
  }

  lemma ReversedBytes(x: bv16)
    ensures Reverse8((Reverse16(x) & 0xFF) as bv8) == (x >> 8) as bv8
    ensures Reverse8((Reverse16(x) >> 8) as bv8) == (x & 0xFF) as bv8
  {
  }

  lemma BitsAppend(refin: bool, message: seq<bv8>, p: bv8, q: bv8)
    ensures Bits(refin, message + [p, q])
         == Bits(refin, message) + (ByteBits(Reflected(refin, p)) + ByteBits(Reflected(refin, q)))
  {
    hide ByteBits, Reflected;
    var both := message + [p, q];
    assert both[..|both| - 1] == message + [p];
    assert (message + [p])[..|message|] == message;
  }

  /**
    A message followed by its CRC before the final XOR has the final XOR as its CRC, in particular 0
    if there is none, for any polynomial and start value.
  */
  lemma AppendedCrc(poly: bv16, init: bv16, reflected: bool, xout: bv16, message: seq<bv8>)
    ensures var plain := Xor(Crc(poly, init, reflected, reflected, xout, message), Register(xout));
            Crc(poly, init, reflected, reflected, xout, message + Check(reflected, plain)) == Register(xout)
  {
    var c := Run(poly, Register(init), Bits(reflected, message));
    var plain := Output(reflected, c);
    var check := Check(reflected, plain);
    BitsAppend(reflected, message, check[0], check[1]);
    assert message + [check[0], check[1]] == message + check;
    CheckBits(reflected, c);
    RunConcat(poly, Register(init), Bits(reflected, message), ByteBits(High(c)) + ByteBits(Low(c)));
    RunOwnBytes(poly, c);
    XorSelf(Register(xout));
    hide *;
  }

  lemma CheckBits(reflected: bool, c: Register)
    ensures var check := Check(reflected, Output(reflected, c));
            |check| == 2 && Reflected(reflected, check[0]) == High(c) && Reflected(reflected, check[1]) == Low(c)
  {
    hide Reverse8, Reverse16;
    ReversedBytes(c.bits);
  }

  // ---------- Linearity in messages ----------

  function XorByte(a: bv8, b: bv8): bv8 {
    a ^ b
  }

  function XorBytes(a: seq<bv8>, b: seq<bv8>): (r: seq<bv8>)
    requires |a| == |b|
    ensures |r| == |a|
  {
    seq(|a|, i requires 0 <= i < |a| => XorByte(a[i], b[i]))
  }

  lemma ByteBitsXor(refin: bool, a: bv8, b: bv8)
    ensures ByteBits(Reflected(refin, XorByte(a, b)))
         == XorSeq(ByteBits(Reflected(refin, a)), ByteBits(Reflected(refin, b)))
  {
    hide Reverse8, BitOf, Mask, XorByte;
    Reverse8Xor(a, b);
    forall k | 0 <= k < 8
      ensures BitOf(Reflected(refin, XorByte(a, b)), Mask(k))
           == (BitOf(Reflected(refin, a), Mask(k)) != BitOf(Reflected(refin, b), Mask(k)))
    {
      BitOfXor(Reflected(refin, a), Reflected(refin, b), k);
    }
  }

  lemma Reverse8Xor(a: bv8, b: bv8)
    ensures Reverse8(XorByte(a, b)) == XorByte(Reverse8(a), Reverse8(b))
  {
  }

  lemma BitOfXor(a: bv8, b: bv8, k: nat)
    requires k < 8
    ensures BitOf(XorByte(a, b), Mask(k)) == (BitOf(a, Mask(k)) != BitOf(b, Mask(k)))
  {
    if k < 4 {
      BitOfXorHigh(a, b, k);
    } else {
      BitOfXorLow(a, b, k);
    }
    hide *;
  }

  lemma BitOfXorHigh(a: bv8, b: bv8, k: nat)
    requires k < 4
    ensures BitOf(XorByte(a, b), Mask(k)) == (BitOf(a, Mask(k)) != BitOf(b, Mask(k)))
  {
  }

  lemma BitOfXorLow(a: bv8, b: bv8, k: nat)
    requires 4 <= k < 8
    ensures BitOf(XorByte(a, b), Mask(k)) == (BitOf(a, Mask(k)) != BitOf(b, Mask(k)))
  {
  }

  lemma {:induction false} BitsXor(refin: bool, a: seq<bv8>, b: seq<bv8>)
    requires |a| == |b|
    ensures |Bits(refin, a)| == |Bits(refin, b)| == 8 * |a|
    ensures Bits(refin, XorBytes(a, b)) == XorSeq(Bits(refin, a), Bits(refin, b))
    decreases |a|
  {
    hide ByteBits, Reflected, XorByte;
    if a == [] {
    } else {
      var n := |a| - 1;
      BitsXor(refin, a[..n], b[..n]);
      assert XorBytes(a, b)[..n] == XorBytes(a[..n], b[..n]);
      ByteBitsXor(refin, a[n], b[n]);
    }
  }

  lemma OutputXor(refout: bool, a: Register, b: Register)
    ensures Output(refout, Xor(a, b)) == Xor(Output(refout, a), Output(refout, b))
  {
  }

  /** The CRC is linear in start value, final XOR and message together. */
  lemma CrcLinear(poly: bv16, refin: bool, refout: bool, init: Register, init': Register, xout: Register,
                  xout': Register, a: seq<bv8>, b: seq<bv8>)
    requires |a| == |b|
    ensures Crc(poly, Xor(init, init').bits, refin, refout, Xor(xout, xout').bits, XorBytes(a, b))
         == Xor(Crc(poly, init.bits, refin, refout, xout.bits, a), Crc(poly, init'.bits, refin, refout, xout'.bits, b))
  {
    BitsXor(refin, a, b);
    hide Xor, Run, Output, Bits, XorBytes, XorSeq;
    var p, q := Bits(refin, a), Bits(refin, b);
    RunLinear(poly, init, init', p, q);
    OutputXor(refout, Run(poly, init, p), Run(poly, init', q));
    XorSwaps(Output(refout, Run(poly, init, p)), Output(refout, Run(poly, init', q)), xout, xout');
  }

  // ---------- Bursts ----------

  predicate Odd(poly: bv16) {
    poly & 1 == 1
  }

  /** A mask of the k + 1 lowest bits. */
  function LowMask(k: nat): bv16 {
    if k == 0 then 0x1 else if k == 1 then 0x3 else if k == 2 then 0x7 else if k == 3 then 0xF else if k == 4
    then 0x1F else if k == 5 then 0x3F else if k == 6 then 0x7F else if k == 7 then 0xFF else if k == 8 then
    0x1FF else if k == 9 then 0x3FF else if k == 10 then 0x7FF else if k == 11 then 0xFFF else if k == 12
    then 0x1FFF else if k == 13 then 0x3FFF else if k == 14 then 0x7FFF else 0xFFFF
  }

  predicate Meets(c: bv16, mask: bv16) {
    c & mask != 0
  }

  lemma NextLowMask(k: nat)
    requires k < 15
    ensures LowMask(k + 1) == (LowMask(k) << 1) | 1 && LowMask(k) & 0x8000 == 0
  {
    if k == 0 {} else if k == 1 {} else if k == 2 {} else if k == 3 {} else if k == 4 {} else if k == 5
    {} else if k == 6 {} else if k == 7 {} else if k == 8 {} else if k == 9 {} else if k == 10 {} else
    if k == 11 {} else if k == 12 {} else if k == 13 {} else {}
  }

  lemma LowBitStays(poly: bv16, c: bv16, bit: bool, mask: bv16)
    requires Odd(poly) && Meets(c, mask) && mask & 0x8000 == 0
    ensures Meets(FeedBits(poly, c, bit), (mask << 1) | 1)
  {
  }

  predicate AllFalse(e: seq<bool>) {
    forall i :: 0 <= i < |e| ==> !e[i]
  }

  lemma FeedZero(poly: bv16)
    ensures Feed(poly, ZERO, false) == ZERO && Feed(poly, ZERO, true) == Register(poly)
  {
  }

  lemma LowMaskHasOne(poly: bv16, k: nat)
    requires Odd(poly)
    ensures Meets(poly, LowMask(k))
  {
  }

  /** With an odd polynomial no pattern of up to sixteen bits takes the zero register back to zero. */
  lemma {:induction false} BurstNonzero(poly: bv16, e: seq<bool>)
    requires |e| <= 16
    ensures AllFalse(e) ==> Run(poly, ZERO, e) == ZERO
    ensures !AllFalse(e) && Odd(poly) ==> Meets(Run(poly, ZERO, e).bits, LowMask(|e| - 1))
    decreases |e|
  {
    hide LowMask, Meets, FeedBits, Odd;
    if e == [] {
    } else {
      var n := |e| - 1;
      BurstNonzero(poly, e[..n]);
      FeedZero(poly);
      if !AllFalse(e) && Odd(poly) {
        if AllFalse(e[..n]) {
          LowMaskHasOne(poly, n);
        } else {
          NextLowMask(n - 1);
          LowBitStays(poly, Run(poly, ZERO, e[..n]).bits, e[n], LowMask(n - 1));
        }
      }
    }
  }

  lemma FeedNonzero(poly: bv16, c: bv16)
    requires Odd(poly) && c != 0
    ensures FeedBits(poly, c, false) != 0
  {
  }

  lemma {:induction false} RunNonzero(poly: bv16, c: Register, e: seq<bool>)
    requires Odd(poly) && c != ZERO && AllFalse(e)
    ensures Run(poly, c, e) != ZERO
    decreases |e|
  {
    hide FeedBits;
    if e == [] {
    } else {
      RunNonzero(poly, c, e[..|e| - 1]);
      FeedNonzero(poly, Run(poly, c, e[..|e| - 1]).bits);
    }
  }

  /** Two messages that differ only within sixteen consecutive bits end in different registers. */
  lemma BurstDetected(poly: bv16, c: Register, a: seq<bool>, x: seq<bool>, y: seq<bool>, b: seq<bool>)
    requires Odd(poly) && |x| == |y| <= 16 && x != y
    ensures Run(poly, c, a + x + b) != Run(poly, c, a + y + b)
  {
    hide Run, Xor, Odd, LowMask;
    var d := Run(poly, c, a);
    RunConcat(poly, c, a, x + b);
    RunConcat(poly, c, a, y + b);
    assert a + x + b == a + (x + b) && a + y + b == a + (y + b);
    RunLinear(poly, d, d, x + b, y + b);
    XorSelf(d);
    XorSelf(Run(poly, d, x + b));
    var e, zeros := XorSeq(x, y), XorSeq(b, b);
    assert XorSeq(x + b, y + b) == e + zeros;
    RunConcat(poly, ZERO, e, zeros);
    BurstNonzero(poly, e);
    DifferenceSeen(x, y);
    RunNonzero(poly, Run(poly, ZERO, e), zeros);
  }

  lemma DifferenceSeen(x: seq<bool>, y: seq<bool>)
    requires |x| == |y| && x != y
    ensures !AllFalse(XorSeq(x, y))
  {
    var i :| 0 <= i < |x| && x[i] != y[i];
    assert XorSeq(x, y)[i];
  }

  // ---------- Bursts in messages ----------

  /** Two messages, as the bits that are fed, differ only within sixteen consecutive bits. */
  ghost predicate Burst(refin: bool, m: seq<bv8>, n: seq<bv8>) {
    exists a, x, y, b :: DiffersWithin(Bits(refin, m), Bits(refin, n), a, x, y, b)
  }

  predicate DiffersWithin(m: seq<bool>, n: seq<bool>, a: seq<bool>, x: seq<bool>, y: seq<bool>, b: seq<bool>) {
    |x| == |y| <= 16 && x != y && m == a + x + b && n == a + y + b
  }

  /** With an odd polynomial a burst always changes the CRC. */
  lemma BurstChangesCrc(poly: bv16, init: bv16, refin: bool, refout: bool, xout: bv16, m: seq<bv8>, n: seq<bv8>)
    requires Odd(poly) && Burst(refin, m, n)
    ensures Crc(poly, init, refin, refout, xout, m) != Crc(poly, init, refin, refout, xout, n)
  {
    var a, x, y, b :| DiffersWithin(Bits(refin, m), Bits(refin, n), a, x, y, b);
    BurstDetected(poly, Register(init), a, x, y, b);
    var c, d := Run(poly, Register(init), a + x + b), Run(poly, Register(init), a + y + b);
    hide Run, Xor, Output, Odd;
    if Output(refout, c) == Output(refout, d) {
    }
  }

  /** Shifting the polynomial in as data undoes it: sixteen bits that take the zero register to zero. */
  function Undone(poly: bv16): Register {
    Register(0x8000 | (poly >> 1))
  }

  lemma UndoneBits(poly: bv16)
    requires !Odd(poly)
    ensures Top(Undone(poly)) && Shl(Undone(poly)) == Register(poly)
  {
    assert poly & 1 == 0 || poly & 1 == 1;
    assert (0x8000 | (poly >> 1)) << 1 == poly;
  }

  lemma UndoneRuns(poly: bv16)
    requires !Odd(poly)
    ensures TopBits(Undone(poly), 16) == [true] + TopBits(Register(poly), 15)
    ensures Run(poly, ZERO, TopBits(Undone(poly), 16)) == ZERO
  {
    hide Run, Feed, ShlN, ShiftBits, Odd, Undone, Top, Shl;
    var p := Register(poly);
    UndoneBits(poly);
    RunConcat(poly, ZERO, [true], TopBits(p, 15));
    RunOne(poly, ZERO, [], true);
    assert [] + [true] == [true];
    FeedZero(poly);
    RunEmpty(poly, ZERO);
    RunTopBits(poly, p, 15);
    ShlNIs(p, 15);
    ShiftedOut(poly);
  }

  lemma ShiftedOut(poly: bv16)
    requires !Odd(poly)
    ensures ShiftBits(poly, 15) == 0
  {
    assert poly & 1 == 0 || poly & 1 == 1;
  }

  lemma Reverse8Twice(b: bv8)
    ensures Reverse8(Reverse8(b)) == b
  {
  }

  /** The message whose bits, as they are fed, are those of two given bytes. */
  function Fed(refin: bool, p: bv8, q: bv8): seq<bv8> {
    [Reflected(refin, p), Reflected(refin, q)]
  }

  lemma FedBits(refin: bool, p: bv8, q: bv8)
    ensures Bits(refin, Fed(refin, p, q)) == ByteBits(p) + ByteBits(q)
  {
    Reverse8Twice(p);
    Reverse8Twice(q);
    hide Reverse8, ByteBits;
    BitsAppend(refin, [], Reflected(refin, p), Reflected(refin, q));
    assert [] + Fed(refin, p, q) == Fed(refin, p, q);
    assert Bits(refin, []) + (ByteBits(p) + ByteBits(q)) == ByteBits(p) + ByteBits(q);
  }

  /** For every even polynomial there are two messages of two bytes with the same CRC. */
  lemma EvenMisses(poly: bv16, init: bv16, refin: bool, refout: bool, xout: bv16) returns (m: seq<bv8>, n: seq<bv8>)
    requires !Odd(poly)
    ensures |m| == |n| == 2 && m != n && Burst(refin, m, n)
    ensures Crc(poly, init, refin, refout, xout, m) == Crc(poly, init, refin, refout, xout, n)
  {
    var u := Undone(poly);
    var x, y := ByteBits(High(u)) + ByteBits(Low(u)), ByteBits(0) + ByteBits(0);
    UndoneRuns(poly);
    BytesAreTopBits(u);
    m, n := Fed(refin, High(u), Low(u)), Fed(refin, 0, 0);
    FedBits(refin, High(u), Low(u));
    FedBits(refin, 0, 0);
    BurstNonzero(poly, y);
    UndoneBits(poly);
    hide *;
    DiffersAlone(x, y);
    assert Bits(refin, m) != Bits(refin, n);
    SameFromZero(poly, Register(init), x, y);
  }

  lemma DiffersAlone(x: seq<bool>, y: seq<bool>)
    requires |x| == |y| == 16 && x[0] && AllFalse(y)
    ensures x != y && DiffersWithin(x, y, [], x, y, [])
  {
    assert [] + x + [] == x && [] + y + [] == y;
  }

  /** Bits that take the zero register to the same value do so from every register. */
  lemma SameFromZero(poly: bv16, c: Register, x: seq<bool>, y: seq<bool>)
    requires |x| == |y| && Run(poly, ZERO, x) == Run(poly, ZERO, y)
    ensures Run(poly, c, x) == Run(poly, c, y)
  {
    hide Run, Xor;
    var e := XorSeq(x, y);
    RunLinear(poly, ZERO, ZERO, x, y);
    XorSelf(ZERO);
    XorSelf(Run(poly, ZERO, x));
    RunLinear(poly, c, ZERO, x, e);
    XorSelf(c);
    XorSelf(Run(poly, c, x));
    assert XorSeq(x, e) == y;
  }

  /** Whether every burst changes the CRC. */
  ghost predicate DetectsBursts(poly: bv16, init: bv16, refin: bool, refout: bool, xout: bv16) {
    forall m: seq<bv8>, n: seq<bv8> :: Burst(refin, m, n) ==>
      Crc(poly, init, refin, refout, xout, m) != Crc(poly, init, refin, refout, xout, n)
  }

  /** Whatever the other parameters are, all bursts change the CRC exactly with the odd polynomials. */
  lemma DetectsBurstsIffOdd(poly: bv16, init: bv16, refin: bool, refout: bool, xout: bv16)
    ensures DetectsBursts(poly, init, refin, refout, xout) <==> Odd(poly)
  {
    hide Crc, Burst, Odd;
    if Odd(poly) {
      forall m: seq<bv8>, n: seq<bv8> | Burst(refin, m, n)
        ensures Crc(poly, init, refin, refout, xout, m) != Crc(poly, init, refin, refout, xout, n)
      {
        BurstChangesCrc(poly, init, refin, refout, xout, m, n);
      }
    } else {
      var m, n := EvenMisses(poly, init, refin, refout, xout);
    }
  }

  // ---------- Start value, order of the bits, and a sample ----------

  /** Of no bytes the CRC is the start value, reflected on request, with the final XOR. */
  lemma EmptyCrc(poly: bv16, init: bv16, refin: bool, refout: bool, xout: bv16)
    ensures Crc(poly, init, refin, refout, xout, []) == Xor(Output(refout, Register(init)), Register(xout))
  {
    hide Output, Xor;
  }

  lemma {:induction false} BitsConcat(refin: bool, a: seq<bv8>, b: seq<bv8>)
    ensures Bits(refin, a + b) == Bits(refin, a) + Bits(refin, b)
    decreases |b|
  {
    hide ByteBits, Reflected;
    if b == [] {
      assert a + b == a;
    } else {
      BitsConcat(refin, a, b[..|b| - 1]);
      assert (a + b)[..|a + b| - 1] == a + b[..|b| - 1];
    }
  }

  lemma StartSwapped(poly: bv16, init: Register, own: seq<bool>, x: seq<bool>)
    requires |own| == |x| && Run(poly, init, own) == ZERO
    ensures Run(poly, init, x) == Run(poly, ZERO, XorSeq(own, x))
  {
    hide Run, Xor;
    RunLinear(poly, init, ZERO, own, XorSeq(own, x));
    assert XorSeq(own, XorSeq(own, x)) == x;
    XorSelf(init);
    XorSelf(Run(poly, ZERO, XorSeq(own, x)));
  }

  /** A start value does the same as its two bytes, as they are fed, added to the first two bytes of the message. */
  lemma StartIsPrefix(poly: bv16, init: bv16, refin: bool, refout: bool, xout: bv16, message: seq<bv8>)
    requires |message| >= 2
    ensures var start := Fed(refin, High(Register(init)), Low(Register(init)));
            Crc(poly, init, refin, refout, xout, message)
            == Crc(poly, 0, refin, refout, xout, XorBytes(start, message[..2]) + message[2..])
  {
    var c := Register(init);
    var own, head, rest := Fed(refin, High(c), Low(c)), message[..2], message[2..];
    FedBits(refin, High(c), Low(c));
    RunOwnBytes(poly, c);
    BitsXor(refin, own, head);
    StartSwapped(poly, c, Bits(refin, own), Bits(refin, head));
    hide Output, Xor, Bits, Run, Fed, XorBytes, XorSeq, High, Low;
    assert message == head + rest;
    BitsConcat(refin, head, rest);
    BitsConcat(refin, XorBytes(own, head), rest);
    RunConcat(poly, c, Bits(refin, head), Bits(refin, rest));
    RunConcat(poly, ZERO, Bits(refin, XorBytes(own, head)), Bits(refin, rest));
  }

  const HIGHEST_FIRST: seq<bv8> := [0x80, 0x40, 0x20, 0x10, 8, 4, 2, 1]
  const LOWEST_FIRST: seq<bv8> := [1, 2, 4, 8, 0x10, 0x20, 0x40, 0x80]

  /** Bit k of a byte in the order in which it is fed. */
  predicate FedBit(refin: bool, b: bv8, k: nat)
    requires k < 8
  {
    b & (if refin then LOWEST_FIRST else HIGHEST_FIRST)[k] != 0
  }

  lemma ByteOrder(refin: bool, b: bv8, k: nat)
    requires k < 8
    ensures ByteBits(Reflected(refin, b))[k] == FedBit(refin, b, k)
  {
  }

  /** The bytes are fed in order, each highest bit first, or lowest bit first if they are reflected. */
  lemma {:induction false} BitOrder(refin: bool, message: seq<bv8>, i: nat, k: nat)
    requires i < |message| && k < 8
    ensures |Bits(refin, message)| == 8 * |message|
    ensures Bits(refin, message)[8 * i + k] == FedBit(refin, message[i], k)
  {
    var n := |message| - 1;
    BitsXor(refin, message, message);
    BitsXor(refin, message[..n], message[..n]);
    hide ByteBits, Reflected, FedBit, XorBytes, XorSeq;
    if i == n {
      ByteOrder(refin, message[i], k);
    } else {
      BitOrder(refin, message[..n], i, k);
    }
  }

  /** Reflection of the result exchanges the highest and the lowest bit and so on. */
  lemma OutputMirrors(c: Register)
    ensures Output(false, c) == c
    ensures Output(true, c).bits & 0x0001 != 0 <==> c.bits & 0x8000 != 0
    ensures Output(true, c).bits & 0x0002 != 0 <==> c.bits & 0x4000 != 0
    ensures Output(true, c).bits & 0x0004 != 0 <==> c.bits & 0x2000 != 0
    ensures Output(true, c).bits & 0x0008 != 0 <==> c.bits & 0x1000 != 0
    ensures Output(true, c).bits & 0x0010 != 0 <==> c.bits & 0x0800 != 0
    ensures Output(true, c).bits & 0x0020 != 0 <==> c.bits & 0x0400 != 0
    ensures Output(true, c).bits & 0x0040 != 0 <==> c.bits & 0x0200 != 0
    ensures Output(true, c).bits & 0x0080 != 0 <==> c.bits & 0x0100 != 0
    ensures Output(true, c).bits & 0x0100 != 0 <==> c.bits & 0x0080 != 0
    ensures Output(true, c).bits & 0x0200 != 0 <==> c.bits & 0x0040 != 0
    ensures Output(true, c).bits & 0x0400 != 0 <==> c.bits & 0x0020 != 0
    ensures Output(true, c).bits & 0x0800 != 0 <==> c.bits & 0x0010 != 0
    ensures Output(true, c).bits & 0x1000 != 0 <==> c.bits & 0x0008 != 0
    ensures Output(true, c).bits & 0x2000 != 0 <==> c.bits & 0x0004 != 0
    ensures Output(true, c).bits & 0x4000 != 0 <==> c.bits & 0x0002 != 0
    ensures Output(true, c).bits & 0x8000 != 0 <==> c.bits & 0x0001 != 0
  {
  }

  lemma RunEight(poly: bv16, c: Register, x: seq<bool>)
    requires |x| == 8
    ensures Run(poly, c, x) == Feed(poly, Feed(poly, Feed(poly, Feed(poly, Feed(poly, Feed(poly, Feed(poly, Feed(poly,
                                 c, x[0]), x[1]), x[2]), x[3]), x[4]), x[5]), x[6]), x[7])
  {
    hide Feed, Run;
    RunEmpty(poly, c);
    assert x[..0] == [] && x[..8] == x;
    RunNext(poly, c, x, 0);
    RunNext(poly, c, x, 1);
    RunNext(poly, c, x, 2);
    RunNext(poly, c, x, 3);
    RunNext(poly, c, x, 4);
    RunNext(poly, c, x, 5);
    RunNext(poly, c, x, 6);
    RunNext(poly, c, x, 7);
  }

  lemma RunNext(poly: bv16, c: Register, x: seq<bool>, k: nat)
    requires k < |x|
    ensures Run(poly, c, x[..k + 1]) == Feed(poly, Run(poly, c, x[..k]), x[k])
  {
    hide Feed;
    RunOne(poly, c, x[..k], x[k]);
    assert x[..k + 1] == x[..k] + [x[k]];
  }

  lemma BitsMore(poly: bv16, c: Register, message: seq<bv8>, b: bv8)
    ensures Run(poly, c, Bits(false, message + [b])) == Run(poly, Run(poly, c, Bits(false, message)), ByteBits(b))
  {
    hide ByteBits, Run;
    assert (message + [b])[..|message|] == message;
    RunConcat(poly, c, Bits(false, message), ByteBits(b));
  }

  const SAMPLE: seq<bv8> := [0x31, 0x32, 0x33, 0x34, 0x35, 0x36, 0x37, 0x38, 0x39]

  lemma NextSample(k: nat, was: bv16, now: bv16)
    requires k < |SAMPLE| && Run(0x1021, Register(0xFFFF), Bits(false, SAMPLE[..k])) == Register(was)
    requires Run(0x1021, Register(was), ByteBits(SAMPLE[k])) == Register(now)
    ensures Run(0x1021, Register(0xFFFF), Bits(false, SAMPLE[..k + 1])) == Register(now)
  {
    hide ByteBits, Run, Bits, SAMPLE;
    BitsMore(0x1021, Register(0xFFFF), SAMPLE[..k], SAMPLE[k]);
    assert SAMPLE[..k + 1] == SAMPLE[..k] + [SAMPLE[k]];
  }

  lemma Step1()
    ensures Run(0x1021, Register(0xFFFF), ByteBits(SAMPLE[0])) == Register(0xC782)
  {
    RunEight(0x1021, Register(0xFFFF), ByteBits(SAMPLE[0]));
    assert ByteBits(0x31) == [false, false, true, true, false, false, false, true];
  }

  lemma Step2()
    ensures Run(0x1021, Register(0xC782), ByteBits(SAMPLE[1])) == Register(0x3DBA)
  {
    RunEight(0x1021, Register(0xC782), ByteBits(SAMPLE[1]));
    assert ByteBits(0x32) == [false, false, true, true, false, false, true, false];
  }

  lemma Step3()
    ensures Run(0x1021, Register(0x3DBA), ByteBits(SAMPLE[2])) == Register(0x5BCE)
  {
    RunEight(0x1021, Register(0x3DBA), ByteBits(SAMPLE[2]));
    assert ByteBits(0x33) == [false, false, true, true, false, false, true, true];
  }

  lemma Step4()
    ensures Run(0x1021, Register(0x5BCE), ByteBits(SAMPLE[3])) == Register(0x5349)
  {
    RunEight(0x1021, Register(0x5BCE), ByteBits(SAMPLE[3]));
    assert ByteBits(0x34) == [false, false, true, true, false, true, false, false];
  }

  lemma Step5()
    ensures Run(0x1021, Register(0x5349), ByteBits(SAMPLE[4])) == Register(0x4560)
  {
    RunEight(0x1021, Register(0x5349), ByteBits(SAMPLE[4]));
    assert ByteBits(0x35) == [false, false, true, true, false, true, false, true];
  }

  lemma Step6()
    ensures Run(0x1021, Register(0x4560), ByteBits(SAMPLE[5])) == Register(0x2EF4)
  {
    RunEight(0x1021, Register(0x4560), ByteBits(SAMPLE[5]));
    assert ByteBits(0x36) == [false, false, true, true, false, true, true, false];
  }

  lemma Step7()
    ensures Run(0x1021, Register(0x2EF4), ByteBits(SAMPLE[6])) == Register(0x7718)
  {
    RunEight(0x1021, Register(0x2EF4), ByteBits(SAMPLE[6]));
    assert ByteBits(0x37) == [false, false, true, true, false, true, true, true];
  }

  lemma Step8()
    ensures Run(0x1021, Register(0x7718), ByteBits(SAMPLE[7])) == Register(0xA12B)
  {
    RunEight(0x1021, Register(0x7718), ByteBits(SAMPLE[7]));
    assert ByteBits(0x38) == [false, false, true, true, true, false, false, false];
  }

  lemma Step9()
    ensures Run(0x1021, Register(0xA12B), ByteBits(SAMPLE[8])) == Register(0x29B1)
  {
    RunEight(0x1021, Register(0xA12B), ByteBits(SAMPLE[8]));
    assert ByteBits(0x39) == [false, false, true, true, true, false, false, true];
  }

  lemma Sample3()
    ensures Run(0x1021, Register(0xFFFF), Bits(false, SAMPLE[..3])) == Register(0x5BCE)
  {
    RunEmpty(0x1021, Register(0xFFFF));
    assert Bits(false, SAMPLE[..0]) == [];
    hide ByteBits, Run, Bits;
    Step1();
    NextSample(0, 0xFFFF, 0xC782);
    Step2();
    NextSample(1, 0xC782, 0x3DBA);
    Step3();
    NextSample(2, 0x3DBA, 0x5BCE);
  }

  lemma Sample6()
    ensures Run(0x1021, Register(0xFFFF), Bits(false, SAMPLE[..6])) == Register(0x2EF4)
  {
    hide ByteBits, Run, Bits;
    Sample3();
    Step4();
    NextSample(3, 0x5BCE, 0x5349);
    Step5();
    NextSample(4, 0x5349, 0x4560);
    Step6();
    NextSample(5, 0x4560, 0x2EF4);
  }

  lemma Sample9()
    ensures Run(0x1021, Register(0xFFFF), Bits(false, SAMPLE[..9])) == Register(0x29B1)
  {
    hide ByteBits, Run, Bits;
    Sample6();
    Step7();
    NextSample(6, 0x2EF4, 0x7718);
    Step8();
    NextSample(7, 0x7718, 0xA12B);
    Step9();
    NextSample(8, 0xA12B, 0x29B1);
  }

  /** The published check value: polynomial 0x1021, start value 0xFFFF, the text "123456789". */
  lemma SampleCrc()
    ensures Crc(0x1021, 0xFFFF, false, false, 0, SAMPLE) == Register(0x29B1)
  {
    hide Xor;
    Sample9();
    assert SAMPLE[..9] == SAMPLE;
    XorSelf(Register(0x29B1));
    hide Run, Bits;
  }
}
