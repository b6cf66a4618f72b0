/** What a Base64 file looks like: its lines, its alphabet, and blocks as numbers. */
module Base64Laws {
  import opened Common
  import opened Base64

  // ---------- Lines ----------

  /** The blocks of x without line ends. */
  function Plain(x: seq<byte>): seq<byte> {
    if x == [] then [] else if |x| < 3 then Block(x) else Block(x[..3]) + Plain(x[3..])
  }

  /** How many blocks go on a line; at least one, however small the line size. */
  function Width(lineSize: int): (k: nat)
    ensures k > 0
  {
    if lineSize < 8 then 1 else lineSize / 4
  }

  lemma WidthIs(lineSize: int, blocks: nat)
    requires blocks < Width(lineSize)
    ensures blocks + 1 >= BlocksPerLine(lineSize) <==> blocks + 1 == Width(lineSize)
  {
  }

  lemma EncodedStep(x: seq<byte>, blocks: nat, lineSize: int)
    requires blocks < Width(lineSize) && |x| >= 3
    ensures Encoded(x, blocks, lineSize)
            == if blocks + 1 == Width(lineSize) then Block(x[..3]) + [NEWLINE] + Encoded(x[3..], 0, lineSize)
               else Block(x[..3]) + Encoded(x[3..], blocks + 1, lineSize)
  {
    WidthIs(lineSize, blocks);
    hide Block, Width, BlocksPerLine;
  }

  lemma PlainStep(x: seq<byte>)
    requires |x| >= 3
    ensures Plain(x) == Block(x[..3]) + Plain(x[3..])
  {
    hide Block;
  }

  lemma {:induction false} FullLine(a: seq<byte>, b: seq<byte>, blocks: nat, lineSize: int)
    requires blocks < Width(lineSize) && |a| == 3 * (Width(lineSize) - blocks)
    ensures |Plain(a)| == 4 * (Width(lineSize) - blocks)
    ensures Encoded(a + b, blocks, lineSize) == Plain(a) + [NEWLINE] + Encoded(b, 0, lineSize)
    decreases |a|
  {
    hide Block, Width, Encoded, Plain;
    EncodedStep(a + b, blocks, lineSize);
    PlainStep(a);
    assert (a + b)[..3] == a[..3] && (a + b)[3..] == a[3..] + b;
    if blocks + 1 == Width(lineSize) {
      PlainEmpty();
      assert a[3..] == [] && a[3..] + b == b;
    } else {
      FullLine(a[3..], b, blocks + 1, lineSize);
    }
  }

  lemma {:induction false} LastLine(x: seq<byte>, blocks: nat, lineSize: int)
    requires blocks < Width(lineSize) && |x| < 3 * (Width(lineSize) - blocks)
    ensures Encoded(x, blocks, lineSize) == Plain(x) + if x == [] && blocks == 0 then [] else [NEWLINE]
    decreases |x|
  {
    WidthIs(lineSize, blocks);
    hide Block, Width, BlocksPerLine;
    if |x| >= 3 {
      LastLine(x[3..], blocks + 1, lineSize);
    }
  }

  lemma {:induction false} PlainHasNoNewline(x: seq<byte>)
    ensures NEWLINE !in Plain(x)
  {
    if x == [] {
    } else if |x| < 3 {
      NoNewlineInBlock(x);
    } else {
      hide Block;
      NoNewlineInBlock(x[..3]);
      PlainHasNoNewline(x[3..]);
    }
  }

  /**
    The lines of an encoded file: as many blocks as fit on each, that is 4 * (lineSize / 4) characters or one
    block, and what is left on the last one. The empty file has no line.
  */
  lemma EncodedLines(x: seq<byte>, lineSize: int)
    ensures x == [] ==> Encoded(x, 0, lineSize) == []
    ensures 0 < |x| < 3 * Width(lineSize) ==> Encoded(x, 0, lineSize) == Plain(x) + [NEWLINE]
    ensures |x| >= 3 * Width(lineSize) ==>
              var n := 3 * Width(lineSize);
              && |Plain(x[..n])| == 4 * Width(lineSize)
              && Encoded(x, 0, lineSize) == Plain(x[..n]) + [NEWLINE] + Encoded(x[n..], 0, lineSize)
    ensures NEWLINE !in Plain(x)
  {
    hide Encoded, Width, Plain;
    PlainHasNoNewline(x);
    if |x| < 3 * Width(lineSize) {
      LastLine(x, 0, lineSize);
      PlainEmpty();
    } else {
      var n := 3 * Width(lineSize);
      assert x[..n] + x[n..] == x;
      FullLine(x[..n], x[n..], 0, lineSize);
    }
  }

  lemma PlainEmpty()
    ensures Plain([]) == []
  {
  }

  // ---------- The alphabet ----------

  const UPPER: string := "ABCDEFGHIJKLMNOPQRSTUVWXYZ"
  const LOWER: string := "abcdefghijklmnopqrstuvwxyz"
  const OTHER: string := "0123456789+/"
  const ALPHABET: string := UPPER + LOWER + OTHER

  /** Both tables follow the alphabet; every other character, the padding among them, is noise. */
  lemma TablesFollowAlphabet(v: sextet, c: byte)
    ensures Character(v) as int == ALPHABET[v] as int
    ensures Value(c) == 0 <==> c as char !in ALPHABET
    ensures Value(c) > 0 ==> ALPHABET[Value(c) - 1] == c as char
  {
    hide Character, Value, ALPHABET;
    CharacterIs(v);
    ValueInAlphabet(c);
    if c as char in ALPHABET {
      var k :| 0 <= k < |ALPHABET| && ALPHABET[k] == c as char;
      SixtyFour();
      CharacterIs(k);
      assert Value(Character(k)) == k + 1;
      assert c == Character(k);
    }
  }

  lemma SixtyFour()
    ensures |UPPER| == |LOWER| == 26 && |OTHER| == 12 && |ALPHABET| == 64
  {
  }

  lemma UpperAt(v: sextet)
    requires v < 26
    ensures |UPPER| == 26 && Character(v) as int == UPPER[v] as int
  {
  }

  lemma LowerAt(v: sextet)
    requires 26 <= v < 52
    ensures |LOWER| == 26 && Character(v) as int == LOWER[v - 26] as int
  {
  }

  lemma OtherAt(v: sextet)
    requires 52 <= v
    ensures |OTHER| == 12 && Character(v) as int == OTHER[v - 52] as int
  {
  }

  lemma CharacterIs(v: sextet)
    ensures |ALPHABET| == 64 && Character(v) as int == ALPHABET[v] as int
  {
    SixtyFour();
    hide Character, UPPER, LOWER, OTHER;
    if v < 26 {
      UpperAt(v);
    } else if v < 52 {
      LowerAt(v);
    } else {
      OtherAt(v);
    }
  }

  lemma ValueInAlphabet(c: byte)
    ensures |ALPHABET| == 64 && (Value(c) > 0 ==> ALPHABET[Value(c) - 1] == c as char)
  {
    SixtyFour();
    if Value(c) > 0 {
      CharacterIs(Value(c) - 1);
      CharacterOf(c);
    }
    hide Value, Character, ALPHABET;
  }

  lemma CharacterOf(c: byte)
    requires Value(c) > 0
    ensures Character(Value(c) - 1) == c
  {
  }

  function Digit(c: byte): int {
    Value(c) - 1
  }

  /** The characters of a block are the number that its bytes form, written with base 64. */
  lemma BlockIsNumber(b: seq<byte>)
    requires 1 <= |b| <= 3
    ensures var q := Block(b);
            && (|b| == 3 ==> 65536 * b[0] as int + 256 * b[1] as int + b[2] as int
                             == 262144 * Digit(q[0]) + 4096 * Digit(q[1]) + 64 * Digit(q[2]) + Digit(q[3]))
            && (|b| == 2 ==> q[3] == PADDING
                             && 4 * (256 * b[0] as int + b[1] as int)
                                == 4096 * Digit(q[0]) + 64 * Digit(q[1]) + Digit(q[2]))
            && (|b| == 1 ==> q[2] == q[3] == PADDING && 16 * b[0] as int == 64 * Digit(q[0]) + Digit(q[1]))
  {
    hide Value, Character;
  }

  lemma FourCharacters(s: seq<sextet>)
    requires |s| == 4
    ensures var b := Bytes(s);
            65536 * b[0] as int + 256 * b[1] as int + b[2] as int
            == 262144 * s[0] as int + 4096 * s[1] as int + 64 * s[2] as int + s[3] as int
  {
    SplitBy16(s[1]);
    SplitBy4(s[2]);
    hide *;
    BytesOfFour(s);
  }

  lemma BytesOfFour(s: seq<sextet>)
    requires |s| == 4
    ensures Bytes(s) == [s[0] as int * 4 + s[1] / 16, s[1] as int * 16 % 256 + s[2] / 4, s[2] as int * 64 % 256 + s[3]]
  {
  }

  // A sextet in two parts; the lower one is what is left of it in a byte behind the upper one.

  lemma SplitBy16(v: sextet)
    ensures v == 16 * (v / 16) + v % 16 && v as int * 16 % 256 == v % 16 * 16
  {
    var q, r := v / 16, v % 16;
    assert v as int * 16 == 256 * q + 16 * r && 0 <= 16 * r < 256;
  }

  lemma SplitBy4(v: sextet)
    ensures v == 4 * (v / 4) + v % 4 && v as int * 64 % 256 == v % 4 * 64
  {
    var q, r := v / 4, v % 4;
    assert v as int * 64 == 256 * q + 64 * r && 0 <= 64 * r < 256;
  }

  lemma ThreeCharacters(s: seq<sextet>)
    requires |s| == 3
    ensures 256 * Bytes(s)[0] as int + Bytes(s)[1] as int
            == (4096 * s[0] as int + 64 * s[1] as int + s[2] as int) / 4
  {
  }

  lemma TwoCharacters(s: seq<sextet>)
    requires |s| == 2
    ensures Bytes(s)[0] as int == (64 * s[0] as int + s[1] as int) / 16
  {
  }

  /** Four, three or two characters are read as the number that they write with base 64, less the unused bits. */
  lemma BytesAreNumber(s: seq<sextet>)
    requires 2 <= |s| <= 4
    ensures var b := Bytes(s);
            && (|s| == 4 ==> 65536 * b[0] as int + 256 * b[1] as int + b[2] as int
                             == 262144 * s[0] as int + 4096 * s[1] as int + 64 * s[2] as int + s[3] as int)
            && (|s| == 3 ==> 256 * b[0] as int + b[1] as int
                             == (4096 * s[0] as int + 64 * s[1] as int + s[2] as int) / 4)
            && (|s| == 2 ==> b[0] as int == (64 * s[0] as int + s[1] as int) / 16)
  {
    hide Bytes;
    if |s| == 4 {
      FourCharacters(s);
    } else if |s| == 3 {
      ThreeCharacters(s);
    } else {
      TwoCharacters(s);
    }
  }

  /** Every whole byte of the characters is written, and no more. */
  lemma {:induction false} DecodedLength(s: seq<sextet>)
    ensures |Decoded(s)| == |s| * 6 / 8
  {
    hide Bytes;
    if |s| >= 4 {
      DecodedLength(s[4..]);
    }
  }
}
