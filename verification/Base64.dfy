/** The stream encoder and decoder of `base64/base64.c` (RFC 4648, section 4, with line breaks). */
module Base64 {
  import opened Common

  const NEWLINE: byte := 10
  const PADDING: byte := 61

  type sextet = x: int | 0 <= x < 64

  /** The table `cb64`: A to Z, a to z, 0 to 9, plus, slash. */
  function Character(v: sextet): (c: byte)
    ensures Value(c) == v + 1
  {
    if v < 26 then 65 + v
    else if v < 52 then 97 + (v - 26)
    else if v < 62 then 48 + (v - 52)
    else if v == 62 then 43
    else 47
  }

  /** The decoder's `v` after the lookup in `cd64`: 0 for noise, otherwise one more than the sextet. */
  function Value(c: byte): (v: int)
    ensures 0 <= v <= 64
  {
    if c < 43 || c > 122 then 0
    else if c == 43 then 63
    else if c == 47 then 64
    else if 48 <= c <= 57 then c - 48 + 53
    else if 65 <= c <= 90 then c - 65 + 1
    else if 97 <= c <= 122 then c - 97 + 27
    else 0
  }

  // ---------- Specification ----------

  /** The four characters for a block of one to three bytes. */
  function Block(b: seq<byte>): (q: seq<byte>)
    requires 1 <= |b| <= 3
    ensures |q| == 4
  {
    var b1: byte := if |b| > 1 then b[1] else 0;
    var b2: byte := if |b| > 2 then b[2] else 0;
    [Character(b[0] / 4),
     Character(b[0] % 4 * 16 + b1 / 16),
     if |b| > 1 then Character(b1 % 16 * 4 + b2 / 64) else PADDING,
     if |b| > 2 then Character(b2 % 64) else PADDING]
  }

  /** C's division: towards zero. */
  function BlocksPerLine(lineSize: int): int {
    if lineSize >= 0 then lineSize / 4 else -(-lineSize / 4)
  }

  /** The text for x when `blocks` blocks are already on the line. */
  function Encoded(x: seq<byte>, blocks: nat, lineSize: int): seq<byte> {
    if |x| < 3 then
      if x == [] then (if blocks > 0 then [NEWLINE] else []) else Block(x) + [NEWLINE]
    else if blocks + 1 >= BlocksPerLine(lineSize) then
      Block(x[..3]) + [NEWLINE] + Encoded(x[3..], 0, lineSize)
    else
      Block(x[..3]) + Encoded(x[3..], blocks + 1, lineSize)
  }

  /** The characters that count: everything outside of the alphabet is noise. */
  function Sextets(text: seq<byte>): seq<sextet> {
    if text == [] then []
    else if Value(text[0]) == 0 then Sextets(text[1..])
    else [Value(text[0]) - 1] + Sextets(text[1..])
  }

  /** The bytes of two to four sextets. */
  function Bytes(s: seq<sextet>): (b: seq<byte>)
    requires 2 <= |s| <= 4
    ensures |b| == |s| - 1
  {
    [s[0] as int * 4 + s[1] / 16]
    + (if |s| > 2 then [s[1] as int * 16 % 256 + s[2] / 4] else [])
    + (if |s| > 3 then [s[2] as int * 64 % 256 + s[3]] else [])
  }

  function Decoded(s: seq<sextet>): seq<byte> {
    if |s| >= 4 then Bytes(s[..4]) + Decoded(s[4..])
    else if |s| >= 2 then Bytes(s)
    else []
  }

  // ---------- Streams ----------

  /** A `FILE` that is read: the flag is set when a read fails, not when the last character is read. */
  class InputStream {
    const data: seq<byte>
    var pos: nat
    var eof: bool

    predicate Valid()
      reads this
    {
      pos <= |data| && (eof ==> pos == |data|)
    }

    function Rest(): seq<byte>
      requires Valid()
      reads this
    {
      data[pos..]
    }

    constructor (data: seq<byte>)
      ensures Valid() && !eof && this.data == data && Rest() == data
    {
      this.data, pos, eof := data, 0, false;
    }

    /** `(unsigned char) getc(file)`. */
    method Getc() returns (c: byte)
      requires Valid()
      modifies this
      ensures Valid()
      ensures old(Rest()) == [] ==> eof && Rest() == [] && c == 0xFF
      ensures old(Rest()) != [] ==> eof == old(eof) && old(Rest()) == [c] + Rest()
    {
      if pos < |data| {
        c := data[pos];
        pos := pos + 1;
      } else {
        eof := true;
        c := 0xFF;
      }
    }
  }

  // ---------- Encoder ----------

  method EncodeBlock(block: array<byte>, len: nat) returns (quad: seq<byte>)
    requires block.Length == 3 && 1 <= len <= 3
    requires forall i :: len <= i < 3 ==> block[i] == 0
    ensures quad == Block(block[..len])
  {
    quad := [Character(block[0] / 4),
             Character(block[0] % 4 * 16 + block[1] / 16),
             if len > 1 then Character(block[1] % 16 * 4 + block[2] / 64) else PADDING,
             if len > 2 then Character(block[2] % 64) else PADDING];
  }

  /** The reading half of a round of `encode`. */
  method ReadBlock(stream: InputStream, block: array<byte>) returns (len: nat)
    requires stream.Valid() && !stream.eof && block.Length == 3
    modifies stream, block
    ensures stream.Valid()
    ensures len == if old(|stream.Rest()|) < 3 then old(|stream.Rest()|) else 3
    ensures stream.eof <==> len < 3
    ensures block[..len] == old(stream.Rest())[..len]
    ensures forall i :: len <= i < 3 ==> block[i] == 0
    ensures stream.Rest() == old(stream.Rest())[len..]
  {
    ghost var all := stream.Rest();
    len := 0;
    var i := 0;
    while i < 3
      invariant 0 <= len <= i <= 3 && len <= |all|
      invariant stream.Valid() && stream.Rest() == all[len..]
      invariant stream.eof <==> len < i
      invariant len < i ==> len == |all|
      invariant forall k :: 0 <= k < len ==> block[k] == all[k]
      invariant forall k :: len <= k < i ==> block[k] == 0
    {
      block[i] := stream.Getc();
      if !stream.eof {
        len := len + 1;
      } else {
        block[i] := 0;
      }
      i := i + 1;
    }
  }

  lemma EncodedBlock(out: seq<byte>, rest: seq<byte>, blocks: nat, lineSize: int)
    requires |rest| >= 3
    ensures blocks + 1 >= BlocksPerLine(lineSize) ==>
              out + Block(rest[..3]) + [NEWLINE] + Encoded(rest[3..], 0, lineSize)
              == out + Encoded(rest, blocks, lineSize)
    ensures blocks + 1 < BlocksPerLine(lineSize) ==>
              out + Block(rest[..3]) + Encoded(rest[3..], blocks + 1, lineSize) == out + Encoded(rest, blocks, lineSize)
  {
    hide Block;
  }

  lemma EncodedEnd(out: seq<byte>, rest: seq<byte>, blocks: nat, lineSize: int)
    requires |rest| < 3
    ensures out + Encoded(rest, blocks, lineSize)
         == if rest == [] then (if blocks > 0 then out + [NEWLINE] else out) else out + Block(rest) + [NEWLINE]
  {
    hide Block;
  }

  method Encode(infile: InputStream, lineSize: int) returns (outfile: seq<byte>)
    requires infile.Valid() && !infile.eof
    modifies infile
    ensures outfile == Encoded(old(infile.Rest()), 0, lineSize)
  {
    hide Block, BlocksPerLine;
    var block := new byte[3];
    var blocksOut := 0;
    outfile := [];
    ghost var x := infile.Rest();
    while !infile.eof
      invariant infile.Valid() && 0 <= blocksOut
      invariant infile.eof ==> outfile == Encoded(x, 0, lineSize)
      invariant !infile.eof ==> outfile + Encoded(infile.Rest(), blocksOut, lineSize) == Encoded(x, 0, lineSize)
      decreases !infile.eof, |infile.Rest()|
    {
      ghost var rest := infile.Rest();
      if |rest| >= 3 {
        EncodedBlock(outfile, rest, blocksOut, lineSize);
      } else {
        EncodedEnd(outfile, rest, blocksOut, lineSize);
        assert rest[..|rest|] == rest;
      }
      var len := ReadBlock(infile, block);
      if len > 0 {
        var quad := EncodeBlock(block, len);
        outfile := outfile + quad;
        blocksOut := blocksOut + 1;
      }
      if blocksOut >= BlocksPerLine(lineSize) || infile.eof {
        if blocksOut > 0 {
          outfile := outfile + [NEWLINE];
        }
        blocksOut := 0;
      }
    }
  }

  // ---------- Decoder ----------

  method DecodeBlock(quad: array<sextet>) returns (out: seq<byte>)
    requires quad.Length == 4
    ensures out == Bytes(quad[..])
  {
    out := [quad[0] as int * 4 + quad[1] / 16,
            quad[1] as int * 16 % 256 + quad[2] / 4,
            quad[2] as int * 64 % 256 + quad[3]];
  }

  /** The inner loop of `decode`: skip noise up to the next character of the alphabet. */
  method NextValue(stream: InputStream) returns (v: int)
    requires stream.Valid() && !stream.eof
    modifies stream
    ensures stream.Valid()
    ensures var s := Sextets(old(stream.Rest()));
            if s == [] then stream.eof && v == 0
            else !stream.eof && v - 1 == s[0] && Sextets(stream.Rest()) == s[1..]
  {
    ghost var s := Sextets(stream.Rest());
    v := 0;
    while !stream.eof && v == 0
      invariant stream.Valid() && 0 <= v <= 64
      invariant stream.eof ==> s == [] && v == 0
      invariant !stream.eof ==> s == (if v == 0 then [] else [v - 1]) + Sextets(stream.Rest())
      decreases !stream.eof && v == 0, |stream.Rest()|
    {
      var c := stream.Getc();
      v := Value(c);
    }
  }

  /** One round of the outer loop: up to four characters of the alphabet. */
  method FillBlock(stream: InputStream, quad: array<sextet>) returns (len: nat)
    requires stream.Valid() && !stream.eof && quad.Length == 4
    modifies stream, quad
    ensures stream.Valid()
    ensures var s := Sextets(old(stream.Rest()));
            && len == (if |s| < 4 then |s| else 4)
            && (stream.eof <==> len < 4)
            && quad[..len] == s[..len]
            && Sextets(stream.Rest()) == s[len..]
  {
    hide Sextets;
    ghost var s := Sextets(stream.Rest());
    len := 0;
    var i := 0;
    while i < 4 && !stream.eof
      invariant 0 <= len <= i <= 4 && len <= |s|
      invariant stream.Valid()
      invariant stream.eof <==> len < i
      invariant len < i ==> len == |s| && Sextets(stream.Rest()) == []
      invariant quad[..len] == s[..len]
      invariant Sextets(stream.Rest()) == s[len..]
    {
      var v := NextValue(stream);
      if !stream.eof {
        len := len + 1;
        if v != 0 {
          quad[i] := v - 1;
        }
      } else {
        quad[i] := 0;
        EmptySextets(stream.Rest());
      }
      i := i + 1;
    }
  }

  lemma EmptySextets(text: seq<byte>)
    ensures text == [] ==> Sextets(text) == []
  {
  }

  /**
    Only the first len - 1 bytes of a decoded block are written. They do not depend on the part of
    the block that is left over from earlier rounds.
  */
  lemma StaleIsUnused(quad: seq<sextet>, len: nat)
    requires |quad| == 4 && 1 <= len <= 4
    ensures Bytes(quad)[..len - 1] == Decoded(quad[..len])
  {
    var s := quad[..len];
    if len == 4 {
      assert s[..4] == s && Decoded(s[4..]) == [];
    }
  }

  /** The output of `decode` depends on nothing but the sequence of characters of the alphabet. */
  method Decode(infile: InputStream) returns (outfile: seq<byte>)
    requires infile.Valid() && !infile.eof
    modifies infile
    ensures outfile == Decoded(Sextets(old(infile.Rest())))
  {
    hide Sextets, Bytes;
    var quad := new sextet[4];
    outfile := [];
    ghost var s := Sextets(infile.Rest());
    while !infile.eof
      invariant infile.Valid()
      invariant if infile.eof then outfile == Decoded(s)
                else outfile + Decoded(Sextets(infile.Rest())) == Decoded(s)
      decreases !infile.eof, |Sextets(infile.Rest())|
    {
      ghost var left := Sextets(infile.Rest());
      var len := FillBlock(infile, quad);
      if len > 0 {
        var out := DecodeBlock(quad);
        StaleIsUnused(quad[..], len);
        assert quad[..][..len] == left[..len];
        ghost var before := outfile;
        var i := 0;
        while i < len - 1
          invariant 0 <= i <= len - 1
          invariant outfile == before + out[..i]
        {
          outfile := outfile + [out[i]];
          i := i + 1;
        }
        DecodedSplit(left, len);
      }
      if infile.eof {
        assert left[..len] == left;
      }
    }
  }

  lemma DecodedSplit(s: seq<sextet>, len: nat)
    requires len == if |s| < 4 then |s| else 4
    ensures Decoded(s) == Decoded(s[..len]) + Decoded(s[len..])
  {
    hide Bytes;
    if |s| < 4 {
      assert s[..len] == s && s[len..] == [];
      assert Decoded([]) == [];
      hide Decoded;
    } else {
      var b := s[..4];
      assert b[4..] == [] && b[..4] == b;
      assert Decoded(b) == Bytes(b) + Decoded([]) == Bytes(b);
    }
  }

  // ---------- Round trip ----------

  lemma {:induction false} SextetsConcat(a: seq<byte>, b: seq<byte>)
    ensures Sextets(a + b) == Sextets(a) + Sextets(b)
  {
    if a == [] {
      assert a + b == b;
    } else {
      assert (a + b)[1..] == a[1..] + b;
      SextetsConcat(a[1..], b);
    }
  }

  lemma SextetsOfBlock(b: seq<byte>)
    requires 1 <= |b| <= 3
    ensures |Sextets(Block(b))| == |b| + 1 && Bytes(Sextets(Block(b))) == b
  {
    if |b| == 1 {
      OneByte(b[0]);
      assert b == [b[0]];
    } else if |b| == 2 {
      TwoBytes(b[0], b[1]);
      assert b == [b[0], b[1]];
    } else {
      ThreeBytes(b[0], b[1], b[2]);
      assert b == [b[0], b[1], b[2]];
    }
    hide Sextets, Block, Bytes;
  }

  lemma OneByte(b0: byte)
    ensures Sextets(Block([b0])) == [b0 / 4, b0 % 4 * 16]
    ensures Bytes([b0 / 4, b0 % 4 * 16]) == [b0]
  {
    SextetsOfFour(Block([b0]));
    PaddingIsNoise();
    hide Sextets, Value, Character;
  }

  lemma TwoBytes(b0: byte, b1: byte)
    ensures var s := [b0 / 4, b0 % 4 * 16 + b1 / 16, b1 % 16 * 4];
            Sextets(Block([b0, b1])) == s && Bytes(s) == [b0, b1]
  {
    SextetsOfFour(Block([b0, b1]));
    PaddingIsNoise();
    FirstTwo(b0, b1);
    SecondTwo(b0, b1, 0);
    hide Sextets, Value, Character;
  }

  lemma ThreeBytes(b0: byte, b1: byte, b2: byte)
    ensures var s := [b0 / 4, b0 % 4 * 16 + b1 / 16, b1 % 16 * 4 + b2 / 64, b2 % 64];
            Sextets(Block([b0, b1, b2])) == s && Bytes(s) == [b0, b1, b2]
  {
    SextetsOfFour(Block([b0, b1, b2]));
    FirstTwo(b0, b1);
    SecondTwo(b0, b1, b2);
    LastTwo(b1, b2);
    hide Sextets, Value, Character;
  }

  lemma FirstTwo(b0: byte, b1: byte)
    ensures b0 / 4 * 4 + (b0 % 4 * 16 + b1 / 16) / 16 == b0
  {
    assert (b0 % 4 * 16 + b1 / 16) / 16 == b0 % 4;
  }

  lemma SecondTwo(b0: byte, b1: byte, b2: byte)
    ensures (b0 % 4 * 16 + b1 / 16) * 16 % 256 + (b1 % 16 * 4 + b2 / 64) / 4 == b1
  {
    assert (b0 % 4 * 16 + b1 / 16) * 16 == b0 % 4 * 256 + b1 / 16 * 16;
    assert (b1 % 16 * 4 + b2 / 64) / 4 == b1 % 16;
  }

  lemma LastTwo(b1: byte, b2: byte)
    ensures (b1 % 16 * 4 + b2 / 64) * 64 % 256 + b2 % 64 == b2
  {
    assert (b1 % 16 * 4 + b2 / 64) * 64 == b1 % 16 * 256 + b2 / 64 * 64;
  }

  lemma PaddingIsNoise()
    ensures Value(PADDING) == 0
  {
  }

  lemma SextetsOfFour(q: seq<byte>)
    requires |q| == 4 && Value(q[0]) > 0 && Value(q[1]) > 0
    ensures Sextets(q) == [Value(q[0]) - 1, Value(q[1]) - 1]
                          + (if Value(q[2]) > 0 then [Value(q[2]) - 1] else [])
                          + (if Value(q[3]) > 0 then [Value(q[3]) - 1] else [])
  {
    hide Value;
    assert q[1..][1..] == q[2..] && q[2..][1..] == q[3..] && q[3..][1..] == [];
    assert Sextets(q[3..]) == if Value(q[3]) > 0 then [Value(q[3]) - 1] else [];
    assert Sextets(q[2..]) == (if Value(q[2]) > 0 then [Value(q[2]) - 1] else []) + Sextets(q[3..]);
    assert Sextets(q[1..]) == [Value(q[1]) - 1] + Sextets(q[2..]);
    assert Sextets(q) == [Value(q[0]) - 1] + Sextets(q[1..]);
  }

  lemma NewlineIsNoise(text: seq<byte>)
    ensures Sextets([NEWLINE] + text) == Sextets(text)
    ensures Sextets([NEWLINE]) == []
  {
  }

  lemma {:induction false} DecodeEncoded(x: seq<byte>, blocks: nat, lineSize: int)
    ensures Decoded(Sextets(Encoded(x, blocks, lineSize))) == x
    decreases |x|
  {
    hide Block, Sextets, Bytes, BlocksPerLine;
    if x == [] {
      NewlineIsNoise([]);
      EmptySextets([]);
    } else if |x| < 3 {
      SextetsConcat(Block(x), [NEWLINE]);
      NewlineIsNoise([]);
      SextetsOfBlock(x);
      assert Sextets(Block(x)) + [] == Sextets(Block(x));
      assert Decoded(Sextets(Block(x))) == Bytes(Sextets(Block(x)));
    } else {
      var b, rest := x[..3], x[3..];
      var more := if blocks + 1 >= BlocksPerLine(lineSize) then 0 else blocks + 1;
      var tail := Encoded(rest, more, lineSize);
      SextetsOfBlock(b);
      SextetsConcat(Block(b), tail);
      NewlineIsNoise(tail);
      SextetsConcat(Block(b), [NEWLINE] + tail);
      assert Block(b) + [NEWLINE] + tail == Block(b) + ([NEWLINE] + tail);
      var s := Sextets(Block(b));
      assert (s + Sextets(tail))[..4] == s && (s + Sextets(tail))[4..] == Sextets(tail);
      DecodeEncoded(rest, more, lineSize);
    }
  }

  /** Encoding and decoding, with any line size. */
  method RoundTrip(x: seq<byte>, lineSize: int) returns (y: seq<byte>)
    ensures y == x
  {
    var infile := new InputStream(x);
    var text := Encode(infile, lineSize);
    var textFile := new InputStream(text);
    y := Decode(textFile);
    DecodeEncoded(x, 0, lineSize);
  }

  // ---------- Lines ----------

  /** No line is longer than the limit, given the characters already on the current one. */
  predicate LinesFit(text: seq<byte>, column: nat, limit: int) {
    text != [] ==>
      if text[0] == NEWLINE then LinesFit(text[1..], 0, limit)
      else column + 1 <= limit && LinesFit(text[1..], column + 1, limit)
  }

  lemma {:induction false} BlockFits(q: seq<byte>, text: seq<byte>, column: nat, limit: int)
    requires column + |q| <= limit && forall i :: 0 <= i < |q| ==> q[i] != NEWLINE
    requires LinesFit(text, column + |q|, limit)
    ensures LinesFit(q + text, column, limit)
    decreases |q|
  {
    if q == [] {
      assert q + text == text;
    } else {
      assert (q + text)[1..] == q[1..] + text;
      BlockFits(q[1..], text, column + 1, limit);
    }
  }

  lemma NoNewlineInBlock(b: seq<byte>)
    requires 1 <= |b| <= 3
    ensures forall i :: 0 <= i < 4 ==> Block(b)[i] != NEWLINE
  {
  }

  /** With a line size of at least four no line is longer. */
  lemma {:induction false} EncodedLinesFit(x: seq<byte>, blocks: nat, lineSize: int)
    requires lineSize >= 4 && blocks < lineSize / 4
    ensures LinesFit(Encoded(x, blocks, lineSize), 4 * blocks, lineSize)
    decreases |x|
  {
    hide Block;
    if x == [] {
    } else if |x| < 3 {
      NoNewlineInBlock(x);
      BlockFits(Block(x), [NEWLINE], 4 * blocks, lineSize);
    } else {
      var more := if blocks + 1 >= lineSize / 4 then 0 else blocks + 1;
      var tail := Encoded(x[3..], more, lineSize);
      EncodedLinesFit(x[3..], more, lineSize);
      NoNewlineInBlock(x[..3]);
      var q := Block(x[..3]);
      if blocks + 1 >= lineSize / 4 {
        assert q + [NEWLINE] + tail == q + ([NEWLINE] + tail);
        assert ([NEWLINE] + tail)[1..] == tail;
        BlockFits(q, [NEWLINE] + tail, 4 * blocks, lineSize);
      } else {
        BlockFits(q, tail, 4 * blocks, lineSize);
      }
    }
  }
}
