/** Streaming MD5 (RFC 1321): the context, its updates in chunks of any size, and the final padding.
    The compression function is a parameter; everything here holds for any of them. */
module Md5 {
  import opened Common

  type word = x: int | 0 <= x < 0x1_0000_0000

  const WORD := 0x1_0000_0000
  const DOUBLE_WORD := 0x1_0000_0000_0000_0000

  /** The four words of the chaining state. */
  datatype State = State(a: word, b: word, c: word, d: word)

  type Compression = (State, seq<byte>) -> State

  const INITIAL := State(0x67452301, 0xEFCDAB89, 0x98BADCFE, 0x10325476)

  /** The compression function folded over the whole 64-byte blocks of a message. */
  function Fold(compress: Compression, st: State, message: seq<byte>): State
    decreases |message|
  {
    if |message| < 64 then st else Fold(compress, compress(st, message[..64]), message[64..])
  }

  /** The bytes after the last whole block. */
  function Tail(message: seq<byte>): (t: seq<byte>)
    ensures |t| == |message| % 64
  {
    message[|message| / 64 * 64..]
  }

  /** Folding a + b: first the whole blocks of a, then its tail together with b. */
  lemma {:induction false} FoldAppend(compress: Compression, st: State, a: seq<byte>, b: seq<byte>)
    ensures Fold(compress, st, a + b) == Fold(compress, Fold(compress, st, a), Tail(a) + b)
    decreases |a|
  {
    if |a| < 64 {
      assert Tail(a) == a;
    } else {
      assert (a + b)[..64] == a[..64];
      assert (a + b)[64..] == a[64..] + b;
      assert Tail(a[64..]) == Tail(a);
      FoldAppend(compress, compress(st, a[..64]), a[64..], b);
    }
  }

  lemma {:induction false} TailAppend(a: seq<byte>, b: seq<byte>)
    ensures Tail(a + b) == Tail(Tail(a) + b)
  {
    var k := |a| / 64 * 64;
    var c := a + b;
    assert Tail(a) + b == c[k..];
    assert |c[k..]| / 64 * 64 == |c| / 64 * 64 - k;
  }

  // ---------- Words and bytes ----------

  /** n written in k bytes, least significant first. */
  function LittleEndian(n: nat, k: nat): (s: seq<byte>)
    ensures |s| == k
  {
    if k == 0 then [] else [n % 256] + LittleEndian(n / 256, k - 1)
  }

  function FromLittleEndian(s: seq<byte>): nat {
    if s == [] then 0 else s[0] + 256 * FromLittleEndian(s[1..])
  }

  function Words(ws: seq<word>): (s: seq<byte>)
    ensures |s| == 4 * |ws|
  {
    if ws == [] then [] else Words(ws[..|ws| - 1]) + LittleEndian(ws[|ws| - 1], 4)
  }

  lemma FourBytes(n: word)
    ensures LittleEndian(n, 4) == [n % 256, n / 0x100 % 256, n / 0x1_0000 % 256, n / 0x100_0000 % 256]
  {
    assert n / 256 / 256 == n / 0x1_0000;
    assert n / 256 / 256 / 256 == n / 0x100_0000;
    assert LittleEndian(n, 4) == [n % 256] + LittleEndian(n / 256, 3);
    assert LittleEndian(n / 256, 3) == [n / 256 % 256] + LittleEndian(n / 256 / 256, 2);
    assert LittleEndian(n / 256 / 256, 2) == [n / 256 / 256 % 256] + LittleEndian(n / 256 / 256 / 256, 1);
    assert LittleEndian(n / 256 / 256 / 256, 1) == [n / 256 / 256 / 256 % 256];
  }

  method PutWord(output: array<byte>, j: nat, w: word)
    requires j + 4 <= output.Length
    modifies output
    ensures output[..] == old(output[..j]) + LittleEndian(w, 4) + old(output[j + 4..])
  {
    FourBytes(w);
    output[j] := w % 256;
    output[j + 1] := w / 0x100 % 256;
    output[j + 2] := w / 0x1_0000 % 256;
    output[j + 3] := w / 0x100_0000 % 256;
  }

  /** `MD5Encode`: words to bytes. */
  method Encode(output: array<byte>, input: seq<word>, len: nat)
    requires len == 4 * |input| <= output.Length
    modifies output
    ensures output[..] == Words(input) + old(output[len..])
  {
    hide LittleEndian, Words;
    ghost var was := output[..];
    var i, j := 0, 0;
    while j < len
      invariant 0 <= i <= |input| && j == 4 * i
      invariant output[..] == Words(input[..i]) + was[j..]
    {
      ghost var done := Words(input[..i]);
      WordsAppend(input, i);
      PutWord(output, j, input[i]);
      i := i + 1;
      j := j + 4;
    }
    assert input[..i] == input;
  }

  lemma WordsAppend(ws: seq<word>, i: nat)
    requires i < |ws|
    ensures Words(ws[..i + 1]) == Words(ws[..i]) + LittleEndian(ws[i], 4)
  {
    assert ws[..i + 1][..i] == ws[..i];
    hide LittleEndian;
  }

  function WordOf(a: byte, b: byte, c: byte, d: byte): word {
    a + 0x100 * b + 0x1_0000 * c + 0x100_0000 * d
  }

  lemma WordOfBytes(a: byte, b: byte, c: byte, d: byte)
    ensures LittleEndian(WordOf(a, b, c, d), 4) == [a, b, c, d]
  {
    assert WordOf(a, b, c, d) == a + 256 * (b + 256 * (c + 256 * d));
    LittleEndianStep(a, b + 256 * (c + 256 * d), 4);
    LittleEndianStep(b, c + 256 * d, 3);
    LittleEndianStep(c, d, 2);
    LittleEndianStep(d, 0, 1);
  }

  lemma LittleEndianStep(a: byte, q: nat, k: nat)
    requires k > 0
    ensures LittleEndian(a + 256 * q, k) == [a] + LittleEndian(q, k - 1)
  {
    assert LittleEndian(a + 256 * q, k) == [(a + 256 * q) % 256] + LittleEndian((a + 256 * q) / 256, k - 1);
    hide LittleEndian;
  }

  /** `MD5Decode`: bytes to words. */
  method Decode(input: seq<byte>) returns (output: seq<word>)
    requires |input| % 4 == 0
    ensures 4 * |output| == |input| && Words(output) == input
  {
    hide LittleEndian, WordOf;
    output := [];
    var j := 0;
    while j < |input|
      invariant 0 <= j <= |input| && j == 4 * |output|
      invariant Words(output) == input[..j]
    {
      var w := WordOf(input[j], input[j + 1], input[j + 2], input[j + 3]);
      WordOfBytes(input[j], input[j + 1], input[j + 2], input[j + 3]);
      assert (output + [w])[..|output|] == output;
      assert input[..j + 4] == input[..j] + [input[j], input[j + 1], input[j + 2], input[j + 3]];
      output := output + [w];
      j := j + 4;
    }
  }

  lemma {:induction false} LittleEndianRoundTrip(n: nat, k: nat)
    requires n < Power256(k)
    ensures FromLittleEndian(LittleEndian(n, k)) == n
  {
    if k == 0 {
    } else {
      assert n == n % 256 + 256 * (n / 256);
      LittleEndianRoundTrip(n / 256, k - 1);
      assert LittleEndian(n, k)[1..] == LittleEndian(n / 256, k - 1);
    }
  }

  function Power256(k: nat): nat {
    if k == 0 then 1 else 256 * Power256(k - 1)
  }

  // ---------- The padded message ----------

  /** The number of zero bytes that brings the length after the 0x80 byte to 56 modulo 64. */
  function ZeroCount(n: nat): (z: nat)
    ensures z < 64 && (n + 1 + z) % 64 == 56
  {
    if n % 64 < 56 then 55 - n % 64 else 119 - n % 64
  }

  lemma NextBlock(m: nat)
    requires m % 64 == 56
    ensures (m + 8) % 64 == 0
  {
  }

  /** RFC 1321, sections 3.1 and 3.2: a 1 bit, zeros up to 56 modulo 64, the length in bits modulo 2^64. */
  function Padded(message: seq<byte>): (p: seq<byte>)
    ensures |p| % 64 == 0
    ensures |message| + 9 <= |p| <= |message| + 72
  {
    NextBlock(|message| + 1 + ZeroCount(|message|));
    message + [0x80] + Zeros(ZeroCount(|message|)) + LittleEndian(8 * |message| % DOUBLE_WORD, 8)
  }

  function Digest(compress: Compression, message: seq<byte>): (d: seq<byte>)
    ensures |d| == 16
  {
    var st := Fold(compress, INITIAL, Padded(message));
    Words([st.a, st.b, st.c, st.d])
  }

  /** The two counter words, low word first, are the 64-bit length. */
  lemma CounterBytes(lo: word, hi: word)
    ensures Words([lo, hi]) == LittleEndian(lo + WORD * hi, 8)
  {
    assert [lo, hi][..1] == [lo] && [lo][..0] == [];
    assert Words([lo, hi]) == LittleEndian(lo, 4) + LittleEndian(hi, 4);
    hide LittleEndian;
    assert Power256(4) == WORD;
    LittleEndianSplit(lo, 4, hi, 4);
  }

  lemma {:induction false} LittleEndianSplit(a: nat, j: nat, b: nat, k: nat)
    requires a < Power256(j)
    ensures LittleEndian(a + Power256(j) * b, j + k) == LittleEndian(a, j) + LittleEndian(b, k)
  {
    if j == 0 {
    } else {
      var q, p := a / 256, Power256(j - 1);
      assert a == a % 256 + 256 * q;
      assert 256 * p * b == 256 * (p * b);
      LittleEndianSplit(q, j - 1, b, k);
      LittleEndianStep(a % 256, q + p * b, j + k);
      LittleEndianStep(a % 256, q, j);
    }
  }

  lemma CounterMeaning(n: nat, lo: word, hi: word, wraps: nat)
    requires 8 * n == lo + WORD * hi + DOUBLE_WORD * wraps
    ensures lo + WORD * hi == 8 * n % DOUBLE_WORD
    ensures lo / 8 % 64 == n % 64
  {
    assert 0 <= 8 * n - DOUBLE_WORD * wraps < DOUBLE_WORD;
    var k := hi + WORD * wraps;
    var m := n - 0x2000_0000 * k;
    assert lo == 8 * m;
    assert n == m + 64 * (0x80_0000 * k);
  }

  // ---------- The context ----------

  class Context {
    var count0: word
    var count1: word
    var state: State
    const buffer: array<byte>
    const compress: Compression
    /** All bytes fed so far, and how often the 64-bit counter has overflowed. */
    ghost var fed: seq<byte>
    ghost var wraps: nat

    /** The context is a function of the bytes fed, however they were cut into chunks. */
    ghost predicate Valid()
      reads this, buffer
    {
      && buffer.Length == 64
      && 8 * |fed| == count0 + WORD * count1 + DOUBLE_WORD * wraps
      && state == Fold(compress, INITIAL, fed)
      && buffer[..|fed| % 64] == Tail(fed)
    }

    /** `MD5Init`. */
    constructor (f: Compression)
      ensures Valid() && fed == [] && compress == f && fresh(buffer)
    {
      compress := f;
      buffer := new byte[64];
      count0, count1 := 0, 0;
      state := INITIAL;
      fed, wraps := [], 0;
    }

    /** The counter is 8 times the bytes fed modulo 2^64, and its low part gives the fill of the buffer. */
    lemma Counter()
      requires Valid()
      ensures count0 + WORD * count1 == 8 * |fed| % DOUBLE_WORD
      ensures count0 / 8 % 64 == |fed| % 64
    {
      CounterMeaning(|fed|, count0, count1, wraps);
    }

    /** The counter part of `MD5Update`: two 32-bit words with a carry. */
    method AddToCounter(len: nat)
      requires len < WORD
      modifies this`count0, this`count1, this`wraps
      ensures count0 + WORD * count1 + DOUBLE_WORD * wraps ==
              old(count0 + WORD * count1 + DOUBLE_WORD * wraps) + 8 * len
    {
      var shifted: word := 8 * len % WORD;
      var high := len / 0x2000_0000;
      assert 8 * len == shifted + WORD * high;
      ghost var sum := count0 + shifted;
      count0 := (count0 + shifted) % WORD;
      ghost var carry := if count0 < shifted then 1 else 0;
      assert sum == count0 + WORD * carry;
      if count0 < shifted {
        if count1 + 1 == WORD { wraps := wraps + 1; }
        count1 := (count1 + 1) % WORD;
      }
      assert count1 + WORD * wraps == old(count1 + WORD * wraps) + carry;
      if count1 + high >= WORD { wraps := wraps + 1; }
      count1 := (count1 + high) % WORD;
      assert count1 + WORD * wraps == old(count1 + WORD * wraps) + carry + high;
    }

    /** memcpy of input[i..] to the buffer at index. */
    method CopyIn(index: nat, input: seq<byte>, from: nat, to: nat)
      requires from <= to <= |input| && index + to - from <= buffer.Length
      modifies buffer
      ensures buffer[..index + to - from] == old(buffer[..index]) + input[from..to]
    {
      forall k | 0 <= k < to - from {
        buffer[index + k] := input[from + k];
      }
    }

    /** The blocks of `MD5Update` after the first: compresses input[from..] and returns where the rest starts. */
    method CompressBlocks(input: seq<byte>, from: nat) returns (i: nat)
      requires from <= |input| < WORD - 64
      modifies this`state
      ensures from <= i <= |input| < i + 64
      ensures state == Fold(compress, old(state), input[from..])
      ensures input[i..] == Tail(input[from..])
    {
      hide Fold, Tail;
      i := from;
      while i + 64 <= |input|
        invariant from <= i <= |input|
        invariant Fold(compress, old(state), input[from..]) == Fold(compress, state, input[i..])
        invariant Tail(input[from..]) == Tail(input[i..])
      {
        FoldStep(compress, state, input[i..]);
        assert input[i..][..64] == input[i..i + 64] && input[i..][64..] == input[i + 64..];
        state := compress(state, input[i..i + 64]);
        i := i + 64;
      }
      FoldShort(compress, state, input[i..]);
    }

    /** `MD5Update`. */
    method Update(input: seq<byte>)
      requires Valid()
      requires |input| < WORD - 64
      modifies this, buffer
      ensures Valid() && fed == old(fed) + input
    {
      hide Fold, Tail;
      ghost var pending, st, was := Tail(fed), state, fed;
      var inputlen := |input|;
      Counter();
      var index := count0 / 8 % 64;
      var partlen := 64 - index;
      AddToCounter(inputlen);
      FoldAppend(compress, INITIAL, fed, input);
      TailAppend(fed, input);
      fed := fed + input;
      var i := 0;
      if inputlen >= partlen {
        CopyIn(index, input, 0, partlen);
        assert buffer[..] == (pending + input)[..64] && input[partlen..] == (pending + input)[64..];
        state := compress(state, buffer[..]);
        FoldStep(compress, st, pending + input);
        i := CompressBlocks(input, partlen);
        index := 0;
        CopyIn(index, input, i, inputlen);
        assert input[i..inputlen] == input[i..] && |input[i..]| == inputlen - i;
        assert Tail(fed) == input[i..];
        assert |fed| % 64 == inputlen - i;
        assert buffer[..|fed| % 64] == input[i..];
      } else {
        FoldShort(compress, st, pending + input);
        CopyIn(index, input, i, inputlen);
        assert buffer[..|fed| % 64] == pending + input;
      }
    }

    /** `MD5Final`: pads, appends the length, and writes the state out. */
    method Final(digest: array<byte>)
      requires Valid() && digest.Length == 16 && digest != buffer
      modifies this, buffer, digest
      ensures digest[..] == Digest(compress, old(fed))
      ensures Valid() && fed == Padded(old(fed))
    {
      hide Fold, Tail, Words, LittleEndian, Zeros;
      ghost var message := fed;
      Counter();
      var index := count0 / 8 % 64;
      var padlen := if index < 56 then 56 - index else 120 - index;
      var bits := new byte[8];
      Encode(bits, [count0, count1], 8);
      CounterBytes(count0, count1);
      Update(([0x80] + Zeros(63))[..padlen]);
      Update(bits[..]);
      PaddingIs(message, padlen, bits[..]);
      Encode(digest, [state.a, state.b, state.c, state.d], 16);
    }

    method UpdateAll(chunks: seq<seq<byte>>)
      requires Valid()
      requires forall i :: 0 <= i < |chunks| ==> |chunks[i]| < WORD - 64
      modifies this, buffer
      ensures Valid() && fed == old(fed) + Concat(chunks)
    {
      hide Valid;
      var i := 0;
      ghost var was := fed;
      while i < |chunks|
        invariant 0 <= i <= |chunks|
        invariant Valid() && fed == was + Concat(chunks[..i])
      {
        Update(chunks[i]);
        assert chunks[..i + 1][..i] == chunks[..i];
        i := i + 1;
      }
      assert chunks[..i] == chunks;
    }
  }

  function Concat(chunks: seq<seq<byte>>): seq<byte> {
    if chunks == [] then [] else Concat(chunks[..|chunks| - 1]) + chunks[|chunks| - 1]
  }

  lemma PaddingIs(message: seq<byte>, padlen: nat, bits: seq<byte>)
    requires padlen == if |message| % 64 < 56 then 56 - |message| % 64 else 120 - |message| % 64
    requires bits == LittleEndian(8 * |message| % DOUBLE_WORD, 8)
    ensures message + ([0x80] + Zeros(63))[..padlen] + bits == Padded(message)
  {
    var z := ZeroCount(|message|);
    ZerosPrefix(z);
    assert Padded(message) == message + [0x80] + Zeros(z) + bits;
    hide *;
    Regroup(message, [0x80], Zeros(z), bits);
  }

  lemma Regroup(m: seq<byte>, a: seq<byte>, z: seq<byte>, b: seq<byte>)
    ensures m + (a + z) + b == m + a + z + b
  {
  }

  lemma ZerosPrefix(z: nat)
    requires z <= 63
    ensures ([0x80] + Zeros(63))[..1 + z] == [0x80] + Zeros(z)
  {
  }

  lemma CounterDigits(lo: word, hi: word, lo': word, hi': word)
    requires lo + WORD * hi == lo' + WORD * hi'
    ensures lo == lo' && hi == hi'
  {
  }

  /** The digest does not depend on how the message is cut into chunks. */
  method Hash(compress: Compression, chunks: seq<seq<byte>>) returns (d: seq<byte>)
    requires forall i :: 0 <= i < |chunks| ==> |chunks[i]| < WORD - 64
    ensures d == Digest(compress, Concat(chunks))
  {
    hide Digest, Context.Valid, Concat;
    var context := new Context(compress);
    var digest := new byte[16];
    context.UpdateAll(chunks);
    assert [] + Concat(chunks) == Concat(chunks);
    context.Final(digest);
    d := digest[..];
  }

  /** Two contexts that were fed the same bytes agree in state, counter and live buffer. */
  lemma SameBytesSameContext(c: Context, d: Context)
    requires c.Valid() && d.Valid() && c.compress == d.compress && c.fed == d.fed
    ensures c.state == d.state && c.count0 == d.count0 && c.count1 == d.count1
    ensures c.buffer[..|c.fed| % 64] == d.buffer[..|c.fed| % 64]
  {
    c.Counter();
    d.Counter();
    CounterDigits(c.count0, c.count1, d.count0, d.count1);
    hide Fold, Tail;
  }

  lemma FoldStep(compress: Compression, st: State, message: seq<byte>)
    requires |message| >= 64
    ensures Fold(compress, st, message) == Fold(compress, compress(st, message[..64]), message[64..])
    ensures Tail(message) == Tail(message[64..])
  {
  }

  lemma FoldShort(compress: Compression, st: State, message: seq<byte>)
    requires |message| < 64
    ensures Fold(compress, st, message) == st && Tail(message) == message
  {
  }

  // ---------- The constants of the standard ----------

  /** RFC 1321, section 3.3: the initial words, low byte first, count up and down. */
  const COUNTING: seq<byte> :=
    [0x01, 0x23, 0x45, 0x67, 0x89, 0xAB, 0xCD, 0xEF, 0xFE, 0xDC, 0xBA, 0x98, 0x76, 0x54, 0x32, 0x10]

  lemma FourWords(a: word, b: word, c: word, d: word)
    ensures Words([a, b, c, d])
            == LittleEndian(a, 4) + LittleEndian(b, 4) + LittleEndian(c, 4) + LittleEndian(d, 4)
  {
    hide LittleEndian;
    var ws := [a, b, c, d];
    assert ws[..0] == [] && ws[..4] == ws;
    hide Words;
    NoWords();
    WordsAppend(ws, 0);
    WordsAppend(ws, 1);
    WordsAppend(ws, 2);
    WordsAppend(ws, 3);
  }

  lemma NoWords()
    ensures Words([]) == []
  {
  }

  lemma InitialBytes()
    ensures Words([INITIAL.a, INITIAL.b, INITIAL.c, INITIAL.d]) == COUNTING
  {
    FourWords(INITIAL.a, INITIAL.b, INITIAL.c, INITIAL.d);
    FourBytes(INITIAL.a);
    FourBytes(INITIAL.b);
    FourBytes(INITIAL.c);
    FourBytes(INITIAL.d);
    hide Words, LittleEndian;
  }

  lemma {:induction false} FoldNothing(compress: Compression, st: State, message: seq<byte>)
    requires forall s: State, block: seq<byte> :: compress(s, block) == s
    ensures Fold(compress, st, message) == st
    decreases |message|
  {
    if |message| < 64 {
    } else {
      FoldNothing(compress, st, message[64..]);
    }
  }

  /** With a compression function that changes nothing, the digest of every message is the initial state. */
  lemma DigestStarts(compress: Compression, message: seq<byte>)
    requires forall s: State, block: seq<byte> :: compress(s, block) == s
    ensures Digest(compress, message) == COUNTING
  {
    FoldNothing(compress, INITIAL, Padded(message));
    InitialBytes();
    hide Words, Fold, Padded;
  }

  /** The padding: one byte 0x80, the fewest zeros that fill the last block, the length in bits, low byte first. */
  lemma PaddingLaid(message: seq<byte>)
    ensures var p, n := Padded(message), |message|;
            && p[..n] == message && p[n] == 0x80
            && (forall k :: n < k < |p| - 8 ==> p[k] == 0)
            && |p| % 64 == 0 && n + 9 <= |p| < n + 9 + 64
            && FromLittleEndian(p[|p| - 8..]) == 8 * n % 0x1_0000_0000_0000_0000
  {
    var p, n, z := Padded(message), |message|, ZeroCount(|message|);
    var bits := LittleEndian(8 * n % DOUBLE_WORD, 8);
    EightBytes();
    LittleEndianRoundTrip(8 * n % DOUBLE_WORD, 8);
    hide LittleEndian, FromLittleEndian;
    assert p == message + [0x80] + Zeros(z) + bits;
    assert p[|p| - 8..] == bits;
  }

  lemma EightBytes()
    ensures Power256(8) == 0x1_0000_0000_0000_0000
  {
    assert Power256(4) == 0x1_0000_0000;
    assert Power256(8) == 256 * (256 * (256 * (256 * Power256(4))));
  }
}
