/** The data codewords of byte mode for versions 1 to 9: mode, count, bytes, terminator, padding. */
module DataCoding {
  import opened Gf256
  import opened Bits

  /** The character count indicator of versions 1 to 9. */
  function CountBits(n: int): (s: seq<int>)
    ensures |s| == 8
  {
    [n / 128 % 2, n / 64 % 2, n / 32 % 2, n / 16 % 2, n / 8 % 2, n / 4 % 2, n / 2 % 2, n % 2]
  }

  /** The pad bytes, alternating from 0xEC. */
  function PadBytes(n: nat): (p: seq<Byte>)
    ensures |p| == n
  {
    seq(n, k => if k % 2 == 0 then Byte(0xEC) else Byte(0x11))
  }

  const MODE: seq<int> := [0, 1, 0, 0]
  const TERMINATOR: seq<int> := [0, 0, 0, 0]

  /** The bit stream of the standard: mode indicator, character count, data, terminator, pad bytes. */
  function DataStream(text: seq<Byte>, codewords: nat): (s: seq<int>)
    requires |text| + 2 <= codewords
    ensures |s| == 8 * codewords
  {
    MODE + CountBits(|text|) + AllBits(text) + TERMINATOR + AllBits(PadBytes(codewords - |text| - 2))
  }

  /** `b |= bit << k` for one bit of an int. */
  function OrBit(b: bv8, bit: int, k: int): bv8 {
    b | Power(bit, k)
  }

  lemma HeaderBits(n: nat, c0: bv8, c1: bv8)
    requires c0 == OrBit(OrBit(OrBit(OrBit(0x40, n / 128 % 2, 3), n / 64 % 2, 2), n / 32 % 2, 1), n / 16 % 2, 0)
    requires c1 == OrBit(OrBit(OrBit(OrBit(0, n / 8 % 2, 7), n / 4 % 2, 6), n / 2 % 2, 5), n % 2, 4)
    ensures BitsOf(Byte(c0)) + BitsOf(Byte(c1)) == MODE + CountBits(n) + TERMINATOR
  {
    hide BitsOf, OrBit;
    var a, b, c, d := n / 128 % 2, n / 64 % 2, n / 32 % 2, n / 16 % 2;
    var e, f, g, h := n / 8 % 2, n / 4 % 2, n / 2 % 2, n % 2;
    HighHeader(a, b, c, d, c0);
    LowHeader(e, f, g, h, c1);
  }

  lemma HighHeader(a: int, b: int, c: int, d: int, c0: bv8)
    requires 0 <= a <= 1 && 0 <= b <= 1 && 0 <= c <= 1 && 0 <= d <= 1
    requires c0 == OrBit(OrBit(OrBit(OrBit(0x40, a, 3), b, 2), c, 1), d, 0)
    ensures BitsOf(Byte(c0)) == [0, 1, 0, 0, a, b, c, d]
  {
  }

  lemma LowHeader(a: int, b: int, c: int, d: int, c1: bv8)
    requires 0 <= a <= 1 && 0 <= b <= 1 && 0 <= c <= 1 && 0 <= d <= 1
    requires c1 == OrBit(OrBit(OrBit(OrBit(0, a, 7), b, 6), c, 5), d, 4)
    ensures BitsOf(Byte(c1)) == [a, b, c, d, 0, 0, 0, 0]
  {
  }

  /** The bits of a low nibble. */
  function Nibble(x: Byte): (s: seq<int>)
    ensures |s| == 4
  {
    [Low(x.bits >> 3), Low(x.bits >> 2), Low(x.bits >> 1), Low(x.bits)]
  }

  function High(x: Byte): Byte {
    Byte(x.bits >> 4)
  }

  predicate SameNibble(x: Byte, y: Byte) {
    x.bits & 0xF == y.bits & 0xF
  }

  /** `b |= (t >> 4) & 0xF`. */
  function FinishedBy(b: Byte, t: Byte): Byte {
    Byte(b.bits | ((t.bits >> 4) & 0xF))
  }

  /** `(t & 0xF) << 4`. */
  function StartedBy(t: Byte): Byte {
    Byte((t.bits & 0xF) << 4)
  }

  lemma BitsOfNibbles(b: Byte)
    ensures BitsOf(b) == Nibble(High(b)) + Nibble(b)
  {
  }

  lemma NibbleOf(x: Byte, y: Byte)
    requires SameNibble(x, y)
    ensures Nibble(x) == Nibble(y)
  {
    assert (x.bits >> 3) & 1 == (y.bits >> 3) & 1 && (x.bits >> 2) & 1 == (y.bits >> 2) & 1;
    assert (x.bits >> 1) & 1 == (y.bits >> 1) & 1 && x.bits & 1 == y.bits & 1;
  }

  lemma NibbleZero()
    ensures Nibble(ZERO) == TERMINATOR
  {
  }

  lemma Straddle(b: Byte, t: Byte)
    requires SameNibble(b, ZERO)
    ensures SameNibble(High(FinishedBy(b, t)), High(b)) && SameNibble(FinishedBy(b, t), High(t))
    ensures SameNibble(High(StartedBy(t)), t) && SameNibble(StartedBy(t), ZERO)
  {
  }

  /** A data byte straddles two codewords: its high nibble completes one, its low nibble starts the next. */
  lemma NibbleBits(b: Byte, t: Byte)
    requires SameNibble(b, ZERO)
    ensures BitsOf(b) == Nibble(High(b)) + TERMINATOR
    ensures BitsOf(FinishedBy(b, t)) + BitsOf(StartedBy(t)) == Nibble(High(b)) + BitsOf(t) + TERMINATOR
  {
    hide BitsOf, Nibble, High, SameNibble, FinishedBy, StartedBy;
    var c, d := FinishedBy(b, t), StartedBy(t);
    Straddle(b, t);
    NibbleZero();
    BitsOfNibbles(b);
    BitsOfNibbles(t);
    BitsOfNibbles(c);
    BitsOfNibbles(d);
    NibbleOf(b, ZERO);
    NibbleOf(d, ZERO);
    NibbleOf(High(c), High(b));
    NibbleOf(c, High(t));
    NibbleOf(High(d), t);
  }

  /** Rounds up to a whole number of bytes, although the bound of the loop moves with the count. */
  method AlignCount(start: int) returns (count: int)
    requires 0 <= start
    ensures count == (start + 7) / 8 * 8
  {
    count := start;
    var i := 0;
    while i < count % 8
      invariant 0 <= i <= 7 && count == start + i
      invariant (start + 7) / 8 == (count + 7) / 8
      decreases 8 - i
    {
      count := count + 1;
      i := i + 1;
    }
  }

  /** The first two codewords: mode indicator and character count. */
  method EncodeHeader(codeword1: array<Byte>, infoLen: int) returns (count: int)
    requires 2 <= codeword1.Length && 0 <= infoLen
    modifies codeword1
    ensures count == 12
    ensures SameNibble(codeword1[1], ZERO)
    ensures AllBits(codeword1[..2]) == MODE + CountBits(infoLen) + TERMINATOR
    ensures codeword1[2..] == old(codeword1[2..])
  {
    hide BitsOf, CountBits, OrBit, SameNibble;
    count := 0;
    var c0: bv8 := 0x40;
    count := count + 4;
    c0 := OrBit(c0, infoLen / 128 % 2, 3);
    c0 := OrBit(c0, infoLen / 64 % 2, 2);
    c0 := OrBit(c0, infoLen / 32 % 2, 1);
    c0 := OrBit(c0, infoLen / 16 % 2, 0);
    var c1: bv8 := OrBit(0, infoLen / 8 % 2, 7);
    c1 := OrBit(c1, infoLen / 4 % 2, 6);
    c1 := OrBit(c1, infoLen / 2 % 2, 5);
    c1 := OrBit(c1, infoLen % 2, 4);
    codeword1[0], codeword1[1] := Byte(c0), Byte(c1);
    count := count + 8;
    HeaderBits(infoLen, c0, c1);
    LowNibbleEmpty(infoLen, c1);
    AllBitsConcat([Byte(c0)], [Byte(c1)]);
    AllBitsSingle(Byte(c0));
    AllBitsSingle(Byte(c1));
    assert codeword1[..2] == [Byte(c0)] + [Byte(c1)];
  }

  lemma LowNibbleEmpty(n: int, c1: bv8)
    requires c1 == OrBit(OrBit(OrBit(OrBit(0, n / 8 % 2, 7), n / 4 % 2, 6), n / 2 % 2, 5), n % 2, 4)
    ensures SameNibble(Byte(c1), ZERO)
  {
  }

  /** The loop over the text, half a byte out of step with the codewords. */
  method EncodeText(codeword1: array<Byte>, text: seq<Byte>) returns (j: int)
    requires |text| + 2 <= codeword1.Length
    requires SameNibble(codeword1[1], ZERO)
    modifies codeword1
    ensures AllBits(codeword1[..|text| + 2]) == old(AllBits(codeword1[..2]))[..12] + AllBits(text) + TERMINATOR
  {
    hide BitsOf, SameNibble, FinishedBy, StartedBy;
    ghost var head := AllBits(codeword1[..2])[..12];
    j := 1;
    var i := 0;
    LastNibble(codeword1[..2]);
    assert head + AllBits([]) == head;
    while i < |text|
      invariant 0 <= i <= |text| && j == i + 1
      invariant SameNibble(codeword1[j], ZERO)
      invariant AllBits(codeword1[..j + 1]) == head + AllBits(text[..i]) + TERMINATOR
    {
      ghost var front, b := codeword1[..j], codeword1[j];
      assert codeword1[..j + 1] == front + [b];
      codeword1[j] := FinishedBy(codeword1[j], text[i]);
      codeword1[j + 1] := StartedBy(text[i]);
      assert codeword1[..j + 2] == front + [codeword1[j]] + [codeword1[j + 1]];
      TextStep(front, b, text[i], head + AllBits(text[..i]));
      TextSoFar(head, text, i);
      i := i + 1;
      j := j + 1;
    }
    assert text[..i] == text;
  }

  lemma TextSoFar(head: seq<int>, text: seq<Byte>, i: nat)
    requires i < |text|
    ensures head + AllBits(text[..i + 1]) == head + AllBits(text[..i]) + BitsOf(text[i])
  {
    hide BitsOf;
    assert text[..i + 1][..i] == text[..i];
  }

  lemma LastNibble(bs: seq<Byte>)
    requires |bs| == 2 && SameNibble(bs[1], ZERO)
    ensures AllBits(bs) == AllBits(bs)[..12] + TERMINATOR
  {
    hide BitsOf, SameNibble, FinishedBy, StartedBy;
    NibbleBits(bs[1], ZERO);
    assert AllBits(bs) == AllBits(bs[..1]) + BitsOf(bs[1]);
  }

  lemma TextStep(front: seq<Byte>, b: Byte, t: Byte, stream: seq<int>)
    requires SameNibble(b, ZERO)
    requires AllBits(front + [b]) == stream + TERMINATOR
    ensures AllBits(front + [FinishedBy(b, t)] + [StartedBy(t)]) == stream + BitsOf(t) + TERMINATOR
    ensures SameNibble(StartedBy(t), ZERO)
  {
    hide BitsOf, Nibble, High, SameNibble, FinishedBy, StartedBy, AllBits;
    var c, d := FinishedBy(b, t), StartedBy(t);
    Straddle(b, t);
    NibbleBits(b, t);
    AllBitsConcat(front, [b]);
    AllBitsConcat(front, [c]);
    AllBitsConcat(front + [c], [d]);
    AllBitsSingle(b);
    AllBitsSingle(c);
    AllBitsSingle(d);
    Splice(AllBits(front), Nibble(High(b)), TERMINATOR, BitsOf(t), BitsOf(c), BitsOf(d), stream);
  }

  lemma Splice(s: seq<int>, u: seq<int>, z: seq<int>, w: seq<int>, x: seq<int>, y: seq<int>, stream: seq<int>)
    requires s + (u + z) == stream + z
    requires x + y == u + w + z
    ensures s + x + y == stream + w + z
  {
    assert stream == (stream + z)[..|stream|] == s + u;
    calc {
      s + x + y;
      s + (x + y);
      s + (u + w + z);
      (s + u) + w + z;
    }
  }

  /** The pad bytes from codeword j on. */
  method PadData(codeword1: array<Byte>, start: int, datLen: int)
    requires 0 <= start <= datLen <= 8 * codeword1.Length && start % 8 == 0 && datLen % 8 == 0
    modifies codeword1
    ensures codeword1[..datLen / 8] == old(codeword1[..start / 8]) + PadBytes(datLen / 8 - start / 8)
  {
    ghost var was := codeword1[..];
    var count := start;
    var i := 0;
    var j := count / 8;
    while count < datLen
      invariant start <= count <= datLen && count % 8 == 0 && j == count / 8
      invariant i == (j - start / 8) % 2
      invariant codeword1[..j] == was[..start / 8] + PadBytes(j - start / 8)
    {
      ghost var front := codeword1[..j];
      codeword1[j] := if i == 0 then Byte(0xEC) else Byte(0x11);
      assert codeword1[..j + 1] == front + [codeword1[j]];
      j := j + 1;
      i := 1 - i;
      count := count + 8;
    }
  }

  method EncodeData(codeword1: array<Byte>, text: seq<Byte>, datLen: int)
    requires 0 <= datLen <= 8 * codeword1.Length && datLen % 8 == 0
    requires 8 * |text| + 16 <= datLen
    modifies codeword1
    ensures AllBits(codeword1[..datLen / 8]) == DataStream(text, datLen / 8)
  {
    hide BitsOf, CountBits, PadBytes, SameNibble;
    forall k | 0 <= k < codeword1.Length {
      codeword1[k] := ZERO;
    }
    var infoLen := |text|;
    var count := EncodeHeader(codeword1, infoLen);
    assert (MODE + CountBits(infoLen) + TERMINATOR)[..12] == MODE + CountBits(infoLen);
    hide AllBits, DataStream;
    var j := EncodeText(codeword1, text);
    count := count + infoLen * 8;
    // terminator: at most four zero bits, fewer if the data area is full
    var i := 0;
    while i < 4
      invariant 0 <= i <= 4 && count == 12 + infoLen * 8 + i
    {
      if count >= datLen { break; }
      count := count + 1;
      i := i + 1;
    }
    AlignedCount(infoLen, i);
    count := AlignCount(count);
    ghost var front := codeword1[..infoLen + 2];
    PadData(codeword1, count, datLen);
    StreamParts(text, datLen / 8, front);
  }

  lemma AlignedCount(n: int, i: int)
    requires 0 <= n && 0 <= i <= 4
    ensures (12 + n * 8 + i + 7) / 8 * 8 == 8 * (n + 2) && 8 * (n + 2) / 8 == n + 2 && 8 * (n + 2) % 8 == 0
  {
    assert (12 + n * 8 + i + 7) / 8 == n + 2;
  }

  lemma StreamParts(text: seq<Byte>, codewords: nat, front: seq<Byte>)
    requires |text| + 2 <= codewords
    requires AllBits(front) == MODE + CountBits(|text|) + AllBits(text) + TERMINATOR
    ensures AllBits(front + PadBytes(codewords - |text| - 2)) == DataStream(text, codewords)
  {
    AllBitsConcat(front, PadBytes(codewords - |text| - 2));
    hide AllBits, CountBits, PadBytes;
  }

  // ---------- Reading the stream back ----------

  /** Mode indicator, count and bytes, as a reader of the symbol takes them apart. */
  datatype Parsed = Parsed(text: seq<Byte>) | Malformed

  function CountOf(s: seq<int>): int
    requires |s| == 8
  {
    128 * s[0] + 64 * s[1] + 32 * s[2] + 16 * s[3] + 8 * s[4] + 4 * s[5] + 2 * s[6] + s[7]
  }

  function ParseStream(s: seq<int>): Parsed {
    if |s| < 12 || s[..4] != MODE then Malformed
    else
      var n := CountOf(s[4..12]);
      if n < 0 || |s| < 12 + 8 * n then Malformed else Parsed(BytesFrom(s[12..12 + 8 * n]))
  }

  lemma StreamRoundTrip(text: seq<Byte>, codewords: nat)
    requires |text| + 2 <= codewords && |text| < 256
    ensures ParseStream(DataStream(text, codewords)) == Parsed(text)
  {
    hide BitsOf, PadBytes, BytesFrom, CountBits, CountOf;
    var s := DataStream(text, codewords);
    assert s[..4] == MODE;
    assert s[4..12] == CountBits(|text|);
    CountRoundTrip(|text|);
    assert s[12..12 + 8 * |text|] == AllBits(text) + [];
    BytesRoundTrip(text, []);
  }

  lemma CountRoundTrip(n: int)
    requires 0 <= n < 256
    ensures CountOf(CountBits(n)) == n
  {
    assert n / 128 == n / 128 % 2;
    assert n / 64 == 2 * (n / 128) + n / 64 % 2;
    assert n / 32 == 2 * (n / 64) + n / 32 % 2;
    assert n / 16 == 2 * (n / 32) + n / 16 % 2;
    assert n / 8 == 2 * (n / 16) + n / 8 % 2;
    assert n / 4 == 2 * (n / 8) + n / 4 % 2;
    assert n / 2 == 2 * (n / 4) + n / 2 % 2;
    assert n == 2 * (n / 2) + n % 2;
  }
}
