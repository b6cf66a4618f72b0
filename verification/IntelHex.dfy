/**
  The Intel HEX writer and reader of `intel_hex/intel_hex.c`. The text of a file is a string, the
  binary file a sequence of bytes.
*/
module IntelHex {
  import opened Common

  const EMPTY_BYTE: byte := 0xFF
  const SEGMENT: nat := 0x1_0000
  const ADDRESS_SPACE: nat := 0x1_0000_0000
  const BUFFER_SIZE: nat := 300
  const LINE_LIMIT: nat := 1022

  // ---------- Hex digits and checksums ----------

  function Hex2Dec(ch: char): (v: byte)
    ensures v < 16
  {
    if '0' <= ch <= '9' then ch as int - '0' as int
    else if 'a' <= ch <= 'f' then ch as int - 'a' as int + 10
    else if 'A' <= ch <= 'F' then ch as int - 'A' as int + 10
    else 0
  }

  function HexDigit(v: byte): (ch: char)
    requires v < 16
    ensures Hex2Dec(ch) == v && ch != '\0' && ch != '\n' && ch != '\r'
  {
    if v < 10 then (v + '0' as int) as char else (v - 10 + 'A' as int) as char
  }

  /** `%02X` of every byte. */
  function Hex(bytes: seq<byte>): (text: string)
    ensures |text| == 2 * |bytes|
    ensures forall i :: 0 <= i < |text| ==> text[i] != '\0' && text[i] != '\n' && text[i] != '\r'
  {
    if bytes == [] then [] else [HexDigit(bytes[0] / 16), HexDigit(bytes[0] % 16)] + Hex(bytes[1..])
  }

  /** The bytes that pairs of digits stand for. */
  function Bytes(text: string): (bytes: seq<byte>)
    requires |text| % 2 == 0
    ensures |bytes| == |text| / 2
  {
    if text == [] then [] else [16 * Hex2Dec(text[0]) + Hex2Dec(text[1])] + Bytes(text[2..])
  }

  lemma {:induction false} BytesOfHex(bytes: seq<byte>)
    ensures Bytes(Hex(bytes)) == bytes
  {
    if bytes == [] {
    } else {
      BytesOfHex(bytes[1..]);
      assert Hex(bytes)[2..] == Hex(bytes[1..]);
    }
  }

  function Sum(bytes: seq<byte>): nat {
    if bytes == [] then 0 else Sum(bytes[..|bytes| - 1]) + bytes[|bytes| - 1]
  }

  lemma SumAppend(bytes: seq<byte>, b: byte)
    ensures Sum(bytes + [b]) == Sum(bytes) + b
  {
    assert (bytes + [b])[..|bytes|] == bytes;
  }

  function Checksum(bytes: seq<byte>): byte {
    (256 - Sum(bytes) % 256) % 256
  }

  lemma NoBytes(text: string)
    requires text == []
    ensures Bytes(text) == [] && Sum([]) == 0
  {
  }

  /** The loop of `_checksum`, in 8-bit arithmetic. */
  method ComputeChecksum(bytes: seq<byte>) returns (csum: byte)
    ensures csum == Checksum(bytes)
    ensures Sum(bytes + [csum]) % 256 == 0
  {
    NoBytes([]);
    hide Sum;
    csum := 0;
    var i := 0;
    while i < |bytes|
      invariant 0 <= i <= |bytes|
      invariant csum == Sum(bytes[..i]) % 256
    {
      SumAppend(bytes[..i], bytes[i]);
      assert bytes[..i + 1] == bytes[..i] + [bytes[i]];
      AddModulo(Sum(bytes[..i]), bytes[i]);
      csum := (csum + bytes[i]) % 256;
      i := i + 1;
    }
    assert bytes[..i] == bytes;
    Complement(Sum(bytes));
    csum := (255 - csum + 1) % 256;
    SumAppend(bytes, csum);
  }

  lemma AddModulo(sum: nat, b: byte)
    ensures (sum % 256 + b) % 256 == (sum + b) % 256
  {
    assert sum == sum / 256 * 256 + sum % 256;
  }

  lemma Complement(sum: nat)
    ensures (sum + (256 - sum % 256) % 256) % 256 == 0
  {
    assert sum == sum / 256 * 256 + sum % 256;
  }

  // ---------- _parseLine ----------

  /** What `_parseLine` leaves at the start of its buffer. */
  function Decoded(text: string): seq<byte> {
    if |text| % 2 != 0 || |text| > 2 * BUFFER_SIZE then [] else Bytes(text)
  }

  /** The number of bytes that `_parseLine` returns: none if the checksum is wrong. */
  function ParsedLength(text: string): nat {
    if Sum(Decoded(text)) % 256 != 0 then 0 else |Decoded(text)|
  }

  lemma {:induction false} BytesPrefix(text: string, i: nat)
    requires |text| % 2 == 0 && i % 2 == 0 && i + 2 <= |text|
    ensures Bytes(text[..i + 2]) == Bytes(text[..i]) + [16 * Hex2Dec(text[i]) + Hex2Dec(text[i + 1])]
  {
    if i > 0 {
      BytesPrefix(text[2..], i - 2);
      assert text[..i + 2][2..] == text[2..][..i] && text[..i][2..] == text[2..][..i - 2];
    } else {
      assert text[..2][2..] == [];
    }
  }

  method ParseLine(text: string, data: array<byte>) returns (length: nat)
    requires data.Length == BUFFER_SIZE
    modifies data
    ensures length == ParsedLength(text) <= BUFFER_SIZE
    ensures data[..] == Decoded(text) + old(data[..])[|Decoded(text)|..]
  {
    hide Hex2Dec, Sum, Bytes;
    ghost var was := data[..];
    if |text| % 2 != 0 {
      return 0;
    }
    if |text| > 2 * data.Length {
      return 0;
    }
    var csum: byte := 0;
    var i, j := 0, 0;
    ghost var done: seq<byte> := [];
    NoBytes(text[..0]);
    while i < |text|
      invariant 0 <= i == 2 * j <= |text|
      invariant csum == Sum(done) % 256
      invariant done == Bytes(text[..i]) && |done| == j
      invariant data[..j] == done && data[j..] == was[j..]
    {
      var nibbleH := Hex2Dec(text[i]);
      var nibbleL := Hex2Dec(text[i + 1]);
      var value: byte := 16 * nibbleH + nibbleL;
      BytesPrefix(text, i);
      SumAppend(done, value);
      AddModulo(Sum(done), value);
      done := done + [value];
      csum := (csum + value) % 256;
      data[j] := value;
      j := j + 1;
      i := i + 2;
    }
    assert text[..i] == text;
    assert data[..] == data[..j] + data[j..];
    if csum != 0 {
      return 0;
    }
    return j;
  }

  // ---------- Lines and records ----------

  /** The number of characters that `fgets` takes. */
  function LineEnd(file: string, limit: nat): (n: nat)
    ensures n <= |file| && n <= limit
    ensures file != [] && limit > 0 ==> n > 0
  {
    if file == [] || limit == 0 then 0 else if file[0] == '\n' then 1 else 1 + LineEnd(file[1..], limit - 1)
  }

  /** The C string at the start of a buffer. */
  function BeforeNul(text: string): (s: string)
    ensures |s| <= |text|
  {
    if text == [] || text[0] == '\0' then [] else [text[0]] + BeforeNul(text[1..])
  }

  function StripEnd(text: string, ch: char): (s: string)
    ensures |s| <= |text|
  {
    if text != [] && text[|text| - 1] == ch then text[..|text| - 1] else text
  }

  /** The line that `_readLine` returns. */
  function Line(file: string): (line: string)
    ensures |line| <= LineEnd(file, LINE_LIMIT)
  {
    StripEnd(StripEnd(BeforeNul(file[..LineEnd(file, LINE_LIMIT)]), '\n'), '\r')
  }

  function AfterLine(file: string): string {
    file[LineEnd(file, LINE_LIMIT)..]
  }

  /** Type 02 is a paragraph address, type 04 a segment address; types 03 and 05 give a start address. */
  datatype Record =
    | Data(address: word16, bytes: seq<byte>)
    | Segment(upper: word16)
    | Paragraph(value: word16)
    | StartAddress
    | EndOfFile
    | Unknown
    | Invalid

  /** The record in the first `length` bytes of the buffer. */
  function RecordIn(buf: seq<byte>, length: nat): Record
    requires length <= |buf| == BUFFER_SIZE
  {
    if length < 5 || length - 5 < buf[0] then Invalid
    else if buf[3] == 0 then Data(buf[1] as int * 256 + buf[2], buf[4..4 + buf[0]])
    else if buf[3] == 4 then Segment(buf[4] as int * 256 + buf[5])
    else if buf[3] == 1 then EndOfFile
    else if buf[3] == 2 then Paragraph(buf[4] as int * 256 + buf[5])
    else if buf[3] == 3 || buf[3] == 5 then StartAddress
    else Unknown
  }

  function Refilled(buf: seq<byte>, line: string): (b: seq<byte>)
    requires |buf| == BUFFER_SIZE
    ensures |b| == BUFFER_SIZE && ParsedLength(line) <= BUFFER_SIZE
  {
    Decoded(line) + buf[|Decoded(line)|..]
  }

  /**
    The records of a file, up to the first empty line, the first invalid record or the end-of-file
    record. Bytes of earlier lines stay in the buffer.
  */
  function Scan(file: string, buf: seq<byte>): (records: seq<Record>)
    requires |buf| == BUFFER_SIZE
    decreases |file|
  {
    var line := Line(file);
    if line == [] then []
    else if line[0] != ':' then Scan(AfterLine(file), buf)
    else
      var buf' := Refilled(buf, line[1..]);
      var r := RecordIn(buf', ParsedLength(line[1..]));
      if r.EndOfFile? || r.Invalid? then [r] else [r] + Scan(AfterLine(file), buf')
  }

  // ---------- The reader ----------

  /** The variables of `mcs2bin`: what was written, `_binBuff` and the addresses. */
  datatype Reader = Reader(out: seq<byte>, bin: seq<byte>, binLen: nat, addrInit: nat, addrNext: nat)

  function Blank(): seq<byte> {
    seq(SEGMENT, i => EMPTY_BYTE)
  }

  const START := Reader([], Blank(), 0, 0, 0)

  function Pad(n: int): seq<byte> {
    if n <= 0 then [] else seq(n, i => EMPTY_BYTE)
  }

  predicate Fits(r: Record) {
    r.Data? ==> r.address + |r.bytes| <= SEGMENT
  }

  predicate AllFit(records: seq<Record>) {
    forall i :: 0 <= i < |records| ==> Fits(records[i])
  }

  function Step(w: Reader, r: Record): (w': Reader)
    requires |w.bin| == SEGMENT && w.binLen <= SEGMENT && Fits(r)
    ensures |w'.bin| == SEGMENT && w'.binLen <= SEGMENT
  {
    match r
    case Data(address, bytes) =>
      var end := address + |bytes|;
      Reader(w.out, w.bin[..address] + bytes + w.bin[end..], end, w.addrInit, (w.addrInit + end) % ADDRESS_SPACE)
    case Segment(upper) =>
      var addrInit := upper * SEGMENT;
      Reader(w.out + w.bin[..w.binLen] + Pad(addrInit - w.addrNext), Blank(), 0, addrInit, w.addrNext)
    case _ => w
  }

  /** What is in the output file in the end. */
  function Converted(w: Reader, records: seq<Record>): seq<byte>
    requires |w.bin| == SEGMENT && w.binLen <= SEGMENT && AllFit(records)
    decreases |records|
  {
    if records == [] || records[0].Invalid? then w.out
    else if records[0].EndOfFile? then w.out + w.bin[..w.binLen]
    else Converted(Step(w, records[0]), records[1..])
  }

  lemma ConvertedStep(w: Reader, records: seq<Record>, r: Record, rest: seq<Record>)
    requires |w.bin| == SEGMENT && w.binLen <= SEGMENT && AllFit(records)
    requires records == [r] + rest && !r.Invalid? && !r.EndOfFile?
    ensures AllFit(rest) && Fits(r)
    ensures Converted(w, records) == Converted(Step(w, r), rest)
  {
    assert records[0] == r && records[1..] == rest;
    forall i | 0 <= i < |rest|
      ensures Fits(rest[i])
    {
      assert rest[i] == records[i + 1];
    }
  }

  method FillEmpty(target: array<byte>)
    requires target.Length == SEGMENT
    modifies target
    ensures target[..] == Blank()
  {
    forall i | 0 <= i < SEGMENT {
      target[i] := EMPTY_BYTE;
    }
  }

  lemma ScanUnfolds(file: string, buf: seq<byte>)
    requires |buf| == BUFFER_SIZE
    ensures Line(file) == [] ==> Scan(file, buf) == []
    ensures Line(file) != [] ==> |AfterLine(file)| < |file|
    ensures Line(file) != [] && Line(file)[0] != ':' ==> Scan(file, buf) == Scan(AfterLine(file), buf)
    ensures Line(file) != [] && Line(file)[0] == ':' ==>
              var buf' := Refilled(buf, Line(file)[1..]);
              var r := RecordIn(buf', ParsedLength(Line(file)[1..]));
              Scan(file, buf) == [r] + if r.EndOfFile? || r.Invalid? then [] else Scan(AfterLine(file), buf')
  {
    hide Line, RecordIn, Refilled, ParsedLength;
    assert file == [] ==> Line(file) == [];
  }

  lemma ConvertedEnd(w: Reader, r: Record)
    requires |w.bin| == SEGMENT && w.binLen <= SEGMENT
    ensures AllFit([])
    ensures Converted(w, []) == w.out
    ensures r.Invalid? && AllFit([r]) ==> Converted(w, [r]) == w.out
    ensures r.EndOfFile? && AllFit([r]) ==> Converted(w, [r]) == w.out + w.bin[..w.binLen]
  {
  }

  /** The loop that fills a gap. */
  method WritePad(out: seq<byte>, n: int) returns (out': seq<byte>)
    ensures out' == out + Pad(n)
  {
    out' := out;
    var i := 0;
    while i < n
      invariant 0 <= i && (i == 0 || i <= n)
      invariant out' == out + Pad(i)
    {
      assert Pad(i + 1) == Pad(i) + [EMPTY_BYTE];
      out' := out' + [EMPTY_BYTE];
      i := i + 1;
    }
    assert Pad(i) == Pad(n);
  }

  /** The `switch` of `mcs2bin`: one record that is neither invalid nor the end of the file. */
  method TakeRecord(buf: array<byte>, length: nat, bin: array<byte>, out: seq<byte>, binLen: nat,
                    addrInit: nat, addrNext: nat)
    returns (out': seq<byte>, binLen': nat, addrInit': nat, addrNext': nat)
    requires buf != bin && length <= buf.Length == BUFFER_SIZE && bin.Length == SEGMENT && binLen <= SEGMENT
    requires Fits(RecordIn(buf[..], length))
    requires var r := RecordIn(buf[..], length); !r.Invalid? && !r.EndOfFile?
    modifies bin
    ensures Reader(out', bin[..], binLen', addrInit', addrNext')
         == Step(Reader(out, old(bin[..]), binLen, addrInit, addrNext), RecordIn(old(buf[..]), length))
  {
    out', binLen', addrInit', addrNext' := out, binLen, addrInit, addrNext;
    if buf[3] == 0 {
      var val16 := buf[1] as int * 256 + buf[2];
      CopyInto(bin, val16, buf[4..4 + buf[0]]);
      binLen' := val16 + buf[0];
      addrNext' := (addrInit + binLen') % ADDRESS_SPACE;
    } else if buf[3] == 4 {
      var val16 := buf[4] as int * 256 + buf[5];
      addrInit' := val16 * SEGMENT;
      out' := WritePad(out + bin[..binLen], addrInit' - addrNext);
      FillEmpty(bin);
      binLen' := 0;
    }
  }

  /**
    `mcs2bin` on the text of the input file; `stale` is what the line buffer holds before the first
    line. A record that reaches over the end of its segment is outside of the static buffer.
  */
  method Mcs2Bin(text: string, stale: seq<byte>) returns (out: seq<byte>)
    requires |stale| == BUFFER_SIZE && AllFit(Scan(text, stale))
    ensures out == Converted(START, Scan(text, stale))
  {
    hide Converted, Step, RecordIn, Fits, AllFit, Scan, Line, AfterLine, Decoded, ParsedLength, Blank, Pad;
    var bin := new byte[SEGMENT];
    FillEmpty(bin);
    var buf := new byte[BUFFER_SIZE];
    CopyInto(buf, 0, stale);
    assert buf[..] == stale;
    out := [];
    var file := text;
    var binLen: nat, addrInit: nat, addrNext: nat := 0, 0, 0;
    ghost var w := START;
    while true
      invariant fresh(bin) && fresh(buf) && buf != bin
      invariant buf.Length == BUFFER_SIZE && bin.Length == SEGMENT && binLen <= SEGMENT
      invariant w == Reader(out, bin[..], binLen, addrInit, addrNext)
      invariant AllFit(Scan(file, buf[..]))
      invariant Converted(w, Scan(file, buf[..])) == Converted(START, Scan(text, stale))
      decreases |file|
    {
      ScanUnfolds(file, buf[..]);
      ConvertedEnd(w, Invalid);
      var line := Line(file);
      if line == [] {
        return;
      }
      ghost var records := Scan(file, buf[..]);
      assert Converted(w, records) == Converted(START, Scan(text, stale));
      file := AfterLine(file);
      if line[0] == ':' {
        var length := ParseLine(line[1..], buf);
        ghost var r := RecordIn(buf[..], length);
        ConvertedEnd(w, r);
        if length < 5 || length - 5 < buf[0] {
          RecordKind(buf[..], length);
          assert records == [r] && r == Invalid;
          assert Converted(w, [r]) == w.out;
          return;
        }
        if buf[3] == 1 {
          RecordKind(buf[..], length);
          assert records == [r] && r == EndOfFile;
          assert Converted(w, [r]) == w.out + w.bin[..w.binLen];
          out := out + bin[..binLen];
          return;
        }
        RecordKind(buf[..], length);
        ConvertedStep(w, records, r, Scan(file, buf[..]));
        out, binLen, addrInit, addrNext := TakeRecord(buf, length, bin, out, binLen, addrInit, addrNext);
        w := Step(w, r);
      }
    }
  }

  lemma RecordKind(buf: seq<byte>, length: nat)
    requires length <= |buf| == BUFFER_SIZE
    ensures RecordIn(buf, length).Invalid? <==> length < 5 || length - 5 < buf[0]
    ensures RecordIn(buf, length).EndOfFile? <==> length >= 5 && length - 5 >= buf[0] && buf[3] == 1
  {
  }
}
