/** Bytes as bit strings, most significant bit first. */
module Bits {
  import opened Gf256

  function Low(b: bv8): int {
    if b & 1 == 1 then 1 else 0
  }

  function BitsOf(b: Byte): (s: seq<int>)
    ensures |s| == 8 && forall k :: 0 <= k < 8 ==> 0 <= s[k] <= 1
  {
    [Low(b.bits >> 7), Low(b.bits >> 6), Low(b.bits >> 5), Low(b.bits >> 4),
     Low(b.bits >> 3), Low(b.bits >> 2), Low(b.bits >> 1), Low(b.bits)]
  }

  function AllBits(bs: seq<Byte>): (s: seq<int>)
    ensures |s| == 8 * |bs|
    ensures forall k :: 0 <= k < |s| ==> 0 <= s[k] <= 1
  {
    if bs == [] then [] else AllBits(bs[..|bs| - 1]) + BitsOf(bs[|bs| - 1])
  }

  function Power(b: int, i: int): bv8 {
    if b == 0 then 0
    else if i == 7 then 0x80 else if i == 6 then 0x40 else if i == 5 then 0x20 else if i == 4 then 0x10
    else if i == 3 then 0x08 else if i == 2 then 0x04 else if i == 1 then 0x02 else 0x01
  }

  /** The byte with the given bits. */
  function ByteFrom(s: seq<int>): Byte
    requires |s| == 8
  {
    Byte(Power(s[0], 7) | Power(s[1], 6) | Power(s[2], 5) | Power(s[3], 4)
         | Power(s[4], 3) | Power(s[5], 2) | Power(s[6], 1) | Power(s[7], 0))
  }

  lemma ByteRoundTrip(b: Byte)
    ensures ByteFrom(BitsOf(b)) == b
  {
  }

  /** The bytes written by a bit string; bits beyond the last whole byte are dropped. */
  function BytesFrom(s: seq<int>): (bs: seq<Byte>)
    ensures |bs| == |s| / 8
  {
    if |s| < 8 then [] else [ByteFrom(s[..8])] + BytesFrom(s[8..])
  }

  lemma {:induction false} BytesFromAt(s: seq<int>, k: nat)
    requires 8 * k + 8 <= |s|
    ensures BytesFrom(s)[k] == ByteFrom(s[8 * k..8 * k + 8])
  {
    hide ByteFrom;
    if k == 0 {
    } else {
      BytesFromAt(s[8..], k - 1);
      assert s[8..][8 * (k - 1)..8 * (k - 1) + 8] == s[8 * k..8 * k + 8];
    }
  }

  lemma {:induction false} AllBitsConcat(a: seq<Byte>, b: seq<Byte>)
    ensures AllBits(a + b) == AllBits(a) + AllBits(b)
  {
    hide BitsOf;
    if b == [] {
      assert a + b == a;
    } else {
      AllBitsConcat(a, b[..|b| - 1]);
      assert (a + b)[..|a + b| - 1] == a + b[..|b| - 1];
    }
  }

  lemma AllBitsSingle(b: Byte)
    ensures AllBits([b]) == BitsOf(b)
  {
    assert [b][..0] == [];
  }

  /** A bit string that starts with the bits of some bytes yields those bytes. */
  lemma {:induction false} BytesRoundTrip(bs: seq<Byte>, rest: seq<int>)
    requires |rest| < 8
    ensures BytesFrom(AllBits(bs) + rest) == bs
  {
    hide BitsOf, ByteFrom;
    if bs == [] {
    } else {
      var s := AllBits(bs) + rest;
      AllBitsConcat([bs[0]], bs[1..]);
      AllBitsSingle(bs[0]);
      assert [bs[0]] + bs[1..] == bs;
      assert s[..8] == BitsOf(bs[0]);
      assert s[8..] == AllBits(bs[1..]) + rest;
      ByteRoundTrip(bs[0]);
      BytesRoundTrip(bs[1..], rest);
    }
  }

  /** The inner loop of the bit expansion: one byte, from the highest bit down. */
  method ExpandByte(b: Byte, bits: array<int>, start: nat)
    requires start + 8 <= bits.Length
    modifies bits
    ensures bits[..] == old(bits[..start]) + BitsOf(b) + old(bits[start + 8..])
  {
    hide Low, Gf256.Bit, BitsOf;
    ghost var was := bits[..];
    var count := start;
    var i := 7;
    while i >= 0
      invariant -1 <= i <= 7 && count == start + 7 - i
      invariant forall k :: 0 <= k < bits.Length ==>
        bits[k] == if start <= k < count then BitsOf(b)[k - start] else was[k]
    {
      ShiftIsBit(b.bits, i);
      BitsOfAt(b, 7 - i);
      bits[count] := Low(b.bits >> i);
      count := count + 1;
      i := i - 1;
    }
  }

  /** The bit expansion: `count` bits of all codewords. */
  method ExpandBits(codewords: array<Byte>, len: nat, bits: array<int>) returns (count: nat)
    requires len <= codewords.Length && 8 * len <= bits.Length
    modifies bits
    ensures count == 8 * len
    ensures bits[..] == AllBits(codewords[..len]) + old(bits[count..])
  {
    hide BitsOf;
    ghost var was := bits[..];
    count := 0;
    var j := 0;
    while j < len
      invariant 0 <= j <= len && count == 8 * j
      invariant bits[..] == AllBits(codewords[..j]) + was[count..]
    {
      ghost var done, now := AllBits(codewords[..j]), bits[..];
      assert now[..count] == done && now[count + 8..] == was[count + 8..];
      ExpandByte(codewords[j], bits, count);
      assert codewords[..j + 1][..j] == codewords[..j];
      count := count + 8;
      j := j + 1;
    }
  }

  lemma BitsOfAt(b: Byte, k: nat)
    requires k < 8
    ensures BitsOf(b)[k] == Low(Gf256.Bit(b.bits, 7 - k))
  {
  }
}
