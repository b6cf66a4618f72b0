/** The data codewords as numbers: mode, count, text and padding as they stand in the first codewords. */
module Codewords {
  import opened Gf256
  import opened Bits
  import opened DataCoding

  function Number(b: Byte): (v: int)
    ensures 0 <= v < 256
  {
    b.bits as int
  }

  function High4(s: seq<int>, k: int): int
    requires 0 <= k && k + 4 <= |s|
  {
    8 * s[k] + 4 * s[k + 1] + 2 * s[k + 2] + s[k + 3]
  }

  /** The bits of a byte are its binary digits, highest first. */
  lemma BitsAreDigits(b: Byte)
    ensures Number(b) == 128 * BitsOf(b)[0] + 64 * BitsOf(b)[1] + 32 * BitsOf(b)[2] + 16 * BitsOf(b)[3]
                         + 8 * BitsOf(b)[4] + 4 * BitsOf(b)[5] + 2 * BitsOf(b)[6] + BitsOf(b)[7]
  {
  }

  lemma Nibbles(b: Byte)
    ensures Number(b) / 16 == High4(BitsOf(b), 0) && Number(b) % 16 == High4(BitsOf(b), 4)
    ensures Number(b) == 16 * High4(BitsOf(b), 0) + High4(BitsOf(b), 4)
  {
    BitsAreDigits(b);
    hide Number, BitsOf;
    var s := BitsOf(b);
    assert 0 <= High4(s, 4) < 16;
  }

  lemma {:induction false} AllBitsAt(bs: seq<Byte>, k: nat)
    requires k < |bs|
    ensures AllBits(bs)[8 * k..8 * k + 8] == BitsOf(bs[k])
  {
    hide BitsOf;
    var n := |bs| - 1;
    var front := AllBits(bs[..n]);
    assert AllBits(bs) == front + BitsOf(bs[n]);
    if k < n {
      AllBitsAt(bs[..n], k);
      hide AllBits;
      assert (front + BitsOf(bs[n]))[8 * k..8 * k + 8] == front[8 * k..8 * k + 8];
    } else {
      hide AllBits;
      assert (front + BitsOf(bs[n]))[8 * k..8 * k + 8] == BitsOf(bs[n]);
    }
  }

  lemma SliceHigh4(s: seq<int>, t: seq<int>, at: nat, k: nat)
    requires at + |t| <= |s| && s[at..at + |t|] == t && k + 4 <= |t|
    ensures High4(s, at + k) == High4(t, k)
  {
    var part := s[at..at + |t|];
    assert part[k] == s[at + k] && part[k + 1] == s[at + k + 1];
    assert part[k + 2] == s[at + k + 2] && part[k + 3] == s[at + k + 3];
  }

  /** A codeword consists of two nibbles of the stream. */
  lemma CodewordNibbles(codes: seq<Byte>, k: nat)
    requires k < |codes|
    ensures Number(codes[k]) == 16 * High4(AllBits(codes), 8 * k) + High4(AllBits(codes), 8 * k + 4)
  {
    AllBitsAt(codes, k);
    Nibbles(codes[k]);
    hide BitsOf, Number, High4;
    SliceHigh4(AllBits(codes), BitsOf(codes[k]), 8 * k, 0);
    SliceHigh4(AllBits(codes), BitsOf(codes[k]), 8 * k, 4);
  }

  lemma CountNibbles(n: nat)
    requires n < 256
    ensures High4(CountBits(n), 0) == n / 16 && High4(CountBits(n), 4) == n % 16
  {
    CountRoundTrip(n);
    var s := CountBits(n);
    assert 0 <= High4(s, 4) < 16;
  }

  /** What the codewords carry after the mode indicator: the count, the text, and an empty terminator. */
  function Carried(text: seq<Byte>, i: nat): int
    requires i <= |text| + 1
  {
    if i == 0 then |text| else if i <= |text| then Number(text[i - 1]) else 0
  }

  predicate Spelled(codes: seq<Byte>, text: seq<Byte>) {
    |text| < 256 && |text| + 2 <= |codes| && AllBits(codes) == DataStream(text, |codes|)
  }

  predicate Laid(s: seq<int>, text: seq<Byte>) {
    && |s| >= 8 * |text| + 16
    && s[..4] == MODE && s[4..12] == CountBits(|text|)
    && s[12..12 + 8 * |text|] == AllBits(text) && s[12 + 8 * |text|..16 + 8 * |text|] == TERMINATOR
  }

  lemma StreamLaid(text: seq<Byte>, codewords: nat)
    requires |text| + 2 <= codewords
    ensures Laid(DataStream(text, codewords), text)
  {
    hide CountBits, AllBits, PadBytes;
  }

  lemma TextSlice(s: seq<int>, text: seq<Byte>)
    requires Laid(s, text)
    ensures |s| >= 12 + |AllBits(text)| && s[12..12 + |AllBits(text)|] == AllBits(text)
  {
    hide AllBits, CountBits;
  }

  lemma TextNibbles(s: seq<int>, text: seq<Byte>, i: nat)
    requires Laid(s, text) && 1 <= i <= |text|
    ensures High4(s, 8 * i + 4) == Number(text[i - 1]) / 16
    ensures High4(s, 8 * i + 8) == Number(text[i - 1]) % 16
  {
    hide *;
    TextSlice(s, text);
    AllBitsAt(text, i - 1);
    Nibbles(text[i - 1]);
    var bits, byte, at := AllBits(text), BitsOf(text[i - 1]), 8 * (i - 1);
    SliceHigh4(bits, byte, at, 0);
    SliceHigh4(bits, byte, at, 4);
    SliceHigh4(s, bits, 12, at);
    SliceHigh4(s, bits, 12, at + 4);
  }

  lemma HeaderNibbles(s: seq<int>, text: seq<Byte>)
    requires Laid(s, text) && |text| < 256
    ensures High4(s, 0) == 4 && High4(s, 4) == |text| / 16 && High4(s, 8) == |text| % 16
    ensures High4(s, 12 + 8 * |text|) == 0
  {
    CountNibbles(|text|);
    assert High4(MODE, 0) == 4 && High4(TERMINATOR, 0) == 0;
    hide High4, CountBits, AllBits;
    SliceHigh4(s, MODE, 0, 0);
    SliceHigh4(s, CountBits(|text|), 4, 0);
    SliceHigh4(s, CountBits(|text|), 4, 4);
    SliceHigh4(s, TERMINATOR, 12 + 8 * |text|, 0);
  }

  lemma StreamNibbles(s: seq<int>, text: seq<Byte>, i: nat)
    requires Laid(s, text) && |text| < 256 && i <= |text| + 1
    ensures High4(s, 8 * i) == if i == 0 then 4 else Carried(text, i - 1) % 16
    ensures High4(s, 8 * i + 4) == Carried(text, i) / 16
  {
    hide High4, CountBits, AllBits, Number, Laid;
    HeaderNibbles(s, text);
    if 1 <= i <= |text| {
      TextNibbles(s, text, i);
    }
    if 2 <= i {
      TextNibbles(s, text, i - 1);
    }
  }

  /** The first codeword holds mode 4 and the high half of the count; then every byte is split over two codewords. */
  lemma CodewordsCarry(codes: seq<Byte>, text: seq<Byte>, i: nat)
    requires Spelled(codes, text) && i <= |text| + 1
    ensures Number(codes[i]) == (if i == 0 then 64 else Carried(text, i - 1) % 16 * 16) + Carried(text, i) / 16
  {
    CodewordNibbles(codes, i);
    StreamLaid(text, |codes|);
    StreamNibbles(AllBits(codes), text, i);
    hide High4, DataStream, AllBits, Number, Carried, Laid;
  }

  /** Behind them the pad bytes alternate, 0xEC first. */
  lemma PaddingAlternates(codes: seq<Byte>, text: seq<Byte>, k: nat)
    requires Spelled(codes, text) && |text| + 2 + k < |codes|
    ensures codes[|text| + 2 + k] == Byte(if k % 2 == 0 then 0xEC else 0x11)
  {
    hide CountBits, BitsOf, AllBits;
    var n := |text| + 2;
    var pads, s := PadBytes(|codes| - n), DataStream(text, |codes|);
    AllBitsConcat(codes[..n], codes[n..]);
    assert codes == codes[..n] + codes[n..];
    assert AllBits(codes[n..]) == AllBits(codes)[8 * n..];
    assert s[8 * n..] == AllBits(pads);
    hide DataStream, PadBytes;
    BytesRoundTrip(codes[n..], []);
    BytesRoundTrip(pads, []);
    assert AllBits(pads) + [] == AllBits(codes[n..]) + [];
    assert codes[n..] == pads;
    PadAt(|codes| - n, k);
  }

  lemma PadAt(n: nat, k: nat)
    requires k < n
    ensures PadBytes(n)[k] == Byte(if k % 2 == 0 then 0xEC else 0x11)
  {
  }
}
