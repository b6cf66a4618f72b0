/** The writer `bin2mcs`, and that `mcs2bin` gives back every binary file that was written. */
module HexRoundTrip {
  import opened Common
  import opened IntelHex

  const BLOCK: nat := 16

  // ---------- What the writer emits ----------

  function RecordLine(payload: seq<byte>): string {
    ":" + Hex(payload + [Checksum(payload)]) + "\r\n"
  }

  function ExtLinearAddr(upper: word16): string {
    RecordLine([2, 0, 0, 4, upper / 256, upper % 256])
  }

  const END_OF_FILE := ":00000001FF\r\n"

  function BlockEnd(x: seq<byte>, i: nat): nat {
    if i + BLOCK < |x| then i + BLOCK else |x|
  }

  function DataPayload(x: seq<byte>, i: nat): seq<byte>
    requires i < |x|
  {
    [BlockEnd(x, i) - i, i % SEGMENT / 256, i % 256, 0] + x[i..BlockEnd(x, i)]
  }

  /** The text for x from position i on: data lines, with an address line at each segment but the first. */
  function TextFrom(x: seq<byte>, i: nat): string
    decreases |x| - i
  {
    if i >= |x| then END_OF_FILE
    else (if i > 0 && i % SEGMENT == 0 && i / SEGMENT < SEGMENT then ExtLinearAddr(i / SEGMENT) else [])
         + (RecordLine(DataPayload(x, i)) + TextFrom(x, i + BLOCK))
  }

  /** The text that was emitted for x up to i. */
  predicate Emitted(text: string, x: seq<byte>, i: nat) {
    text + TextFrom(x, i) == ExtLinearAddr(0) + TextFrom(x, 0)
  }

  lemma EmittedBlock(text: string, x: seq<byte>, i: nat, q: word16)
    requires Emitted(text, x, i)
    requires i < |x| && 0x1_0000 * q <= i < 0x1_0000 * (q + 1)
    ensures Emitted(text + (if i == 0x1_0000 * q && q > 0 then ExtLinearAddr(q) else [])
                    + RecordLine(DataPayload(x, i)), x, i + BLOCK)
  {
    SegmentOf(i, q);
    hide ExtLinearAddr, RecordLine, DataPayload;
    var address := if i == 0x1_0000 * q && q > 0 then ExtLinearAddr(q) else [];
    Associate(text, address, RecordLine(DataPayload(x, i)), TextFrom(x, i + BLOCK));
  }

  lemma Associate(a: string, b: string, c: string, d: string)
    ensures a + (b + (c + d)) == a + b + c + d
  {
  }

  lemma SegmentOf(i: nat, q: nat)
    requires 0x1_0000 * q <= i < 0x1_0000 * (q + 1)
    ensures i / SEGMENT == q && i % SEGMENT == i - 0x1_0000 * q
  {
  }

  /** `fileSize`, and the loop index with it, must stay within `int`. */
  const FILE_LIMIT: nat := 0x7FFF_FFF0

  method TakeBlock(x: seq<byte>, i: nat, remainSize: nat) returns (blockSize: nat, rest: nat)
    requires i < |x| && remainSize == |x| - i
    ensures i + blockSize == BlockEnd(x, i)
    ensures i + 16 < |x| ==> rest == |x| - (i + 16)
  {
    if remainSize < BLOCK {
      blockSize, rest := remainSize, remainSize;
    } else {
      blockSize, rest := BLOCK, remainSize - BLOCK;
    }
  }

  /** The body of the loop of `bin2mcs`: an address line if the segment is full, then a data line. */
  method EmitBlock(x: seq<byte>, i: nat, text: string, addrExt: word16, j: nat, remainSize: nat)
    returns (text': string, addrExt': word16, j': nat, rest: nat)
    requires i < |x| <= FILE_LIMIT && remainSize == |x| - i
    requires Positioned(i, addrExt, j) && Emitted(text, x, i)
    ensures Positioned(i + 16, addrExt', j' + 16) && Emitted(text', x, i + 16)
    ensures i + 16 < |x| ==> rest == |x| - (i + 16)
  {
    hide Emitted, ExtLinearAddr, RecordLine, TextFrom, DataPayload, BlockEnd;
    var line;
    line, addrExt', j' := AddressLine(i, addrExt, j);
    var blockSize;
    blockSize, rest := TakeBlock(x, i, remainSize);
    var data := DataLine(x, i, addrExt' - 1, j', blockSize);
    EmittedBlock(text, x, i, addrExt' - 1);
    text' := text + line + data;
  }

  method Bin2Mcs(x: seq<byte>) returns (output: Option<string>)
    requires |x| <= FILE_LIMIT
    ensures output == if x == [] then None else Some(ExtLinearAddr(0) + TextFrom(x, 0))
  {
    if |x| <= 0 {
      return None;
    }
    var text := ExtLinearAddr(0);
    var addrExt: word16 := 1;
    var remainSize := |x|;
    var i: nat, j: nat := 0, 0;
    assert Emitted(text, x, 0);
    assert Positioned(i, addrExt, j);
    hide Emitted, ExtLinearAddr, RecordLine, TextFrom, DataPayload, BlockEnd, Positioned;
    while i < |x|
      invariant 0 <= i < |x| + 16
      invariant Positioned(i, addrExt, j)
      invariant i < |x| ==> remainSize == |x| - i
      invariant Emitted(text, x, i)
    {
      text, addrExt, j, remainSize := EmitBlock(x, i, text, addrExt, j, remainSize);
      i := i + BLOCK;
      j := j + BLOCK;
    }
    text := text + END_OF_FILE;
    output := Some(text);
  }

  /** The counter `j` runs through the current segment, `addrExt` is the next one. */
  predicate Positioned(i: int, addrExt: int, j: int) {
    && 0 < addrExt
    && i == 0x1_0000 * (addrExt - 1) + j
    && 0 <= j <= 0x1_0000 && j % 16 == 0
    && (i == 0 || j > 0)
  }

  method AddressLine(i: nat, addrExt: word16, j: nat) returns (line: string, addrExt': word16, j': nat)
    requires Positioned(i, addrExt, j) && i <= FILE_LIMIT
    ensures 0 < addrExt' && i == 0x1_0000 * (addrExt' - 1) + j' && j' < 0x1_0000 && j' % 16 == 0
    ensures line == if j' == 0 && addrExt' > 1 then ExtLinearAddr(addrExt' - 1) else []
  {
    if j > 0xFFFF {
      return ExtLinearAddr(addrExt), addrExt + 1, 0;
    }
    return [], addrExt, j;
  }

  /** One data record, assembled in the line buffer. */
  method DataLine(x: seq<byte>, i: nat, ghost q: nat, j: nat, blockSize: nat) returns (line: string)
    requires i < |x| && i == 0x1_0000 * q + j && j < 0x1_0000 && i + blockSize == BlockEnd(x, i)
    ensures line == RecordLine(DataPayload(x, i))
  {
    PayloadIs(x, i, q, j, blockSize);
    hide Hex, Checksum, Sum, DataPayload, BlockEnd;
    var buf: seq<byte> := [blockSize, j / 256 % 256, j % 256, 0] + x[i..i + blockSize];
    var csum := ComputeChecksum(buf);
    line := ":";
    var k := 0;
    while k < blockSize + 4
      invariant 0 <= k <= |buf| == blockSize + 4
      invariant line == ":" + Hex(buf[..k])
    {
      HexAppend(buf[..k], [buf[k]]);
      assert buf[..k + 1] == buf[..k] + [buf[k]];
      line := line + Hex([buf[k]]);
      k := k + 1;
    }
    assert buf[..k] == buf;
    HexAppend(buf, [csum]);
    line := line + Hex([csum]) + "\r\n";
  }

  lemma PayloadIs(x: seq<byte>, i: nat, q: nat, j: nat, blockSize: nat)
    requires i < |x| && i == 0x1_0000 * q + j && j < 0x1_0000 && i + blockSize == BlockEnd(x, i)
    ensures blockSize <= 16
    ensures DataPayload(x, i) == [blockSize, j / 256 % 256, j % 256, 0] + x[i..i + blockSize]
  {
    ByteOfAddress(i);
    SegmentOf(i, q);
  }

  lemma ByteOfAddress(i: nat)
    ensures i % SEGMENT % 256 == i % 256 && i % SEGMENT / 256 < 256
  {
  }

  lemma HexCons(bytes: seq<byte>)
    requires bytes != []
    ensures Hex(bytes) == [HexDigit(bytes[0] / 16), HexDigit(bytes[0] % 16)] + Hex(bytes[1..])
  {
  }

  lemma {:induction false} HexAppend(a: seq<byte>, b: seq<byte>)
    ensures Hex(a + b) == Hex(a) + Hex(b)
  {
    hide Hex;
    if a == [] {
      assert a + b == b;
    } else {
      HexAppend(a[1..], b);
      assert (a + b)[1..] == a[1..] + b;
      HexCons(a + b);
      HexCons(a);
    }
  }

  // ---------- The reader on one line ----------

  lemma {:induction false} LineEndAt(a: string, rest: string, limit: nat)
    requires forall i :: 0 <= i < |a| ==> a[i] != '\n'
    requires |a| < limit
    ensures LineEnd(a + ['\n'] + rest, limit) == |a| + 1
  {
    if a == [] {
    } else {
      LineEndAt(a[1..], rest, limit - 1);
      assert (a + ['\n'] + rest)[1..] == a[1..] + ['\n'] + rest;
    }
  }

  lemma {:induction false} NoNul(text: string)
    requires forall i :: 0 <= i < |text| ==> text[i] != '\0'
    ensures BeforeNul(text) == text
  {
    if text == [] {
    } else {
      NoNul(text[1..]);
    }
  }

  predicate Printable(text: string) {
    forall i :: 0 <= i < |text| ==> text[i] != '\0' && text[i] != '\n' && text[i] != '\r'
  }

  lemma LineOf(body: string, rest: string)
    requires body != [] && Printable(body) && |body| + 2 < LINE_LIMIT
    ensures Line(body + "\r\n" + rest) == body
    ensures AfterLine(body + "\r\n" + rest) == rest
  {
    hide LineEnd, BeforeNul;
    var file := body + "\r\n" + rest;
    var chunk := body + "\r\n";
    assert file == (body + ['\r']) + ['\n'] + rest;
    LineEndAt(body + ['\r'], rest, LINE_LIMIT);
    assert file[..|chunk|] == chunk && file[|chunk|..] == rest;
    NoNul(chunk);
    assert StripEnd(chunk, '\n') == body + ['\r'];
    assert StripEnd(body + ['\r'], '\r') == body;
  }

  /** What `_parseLine` makes of a written record. */
  lemma ParsedRecord(payload: seq<byte>)
    requires |payload| <= 20
    ensures var bytes := payload + [Checksum(payload)];
            Decoded(Hex(bytes)) == bytes && ParsedLength(Hex(bytes)) == |bytes|
  {
    hide Hex, Sum;
    var bytes := payload + [Checksum(payload)];
    BytesOfHex(bytes);
    SumAppend(payload, Checksum(payload));
  }

  lemma RecordLineIs(payload: seq<byte>, rest: string)
    requires |payload| <= 20
    ensures var body := ":" + Hex(payload + [Checksum(payload)]);
            && RecordLine(payload) + rest == body + "\r\n" + rest
            && body != [] && Printable(body) && |body| + 2 < LINE_LIMIT && body[0] == ':'
            && body[1..] == Hex(payload + [Checksum(payload)])
  {
    hide Checksum;
  }

  lemma RecordInStarts(payload: seq<byte>, buf: seq<byte>)
    requires 4 <= |payload| <= 20 && payload[0] == |payload| - 4
    requires |buf| == BUFFER_SIZE && buf[..|payload|] == payload
    ensures !RecordIn(buf, |payload| + 1).Invalid?
  {
    assert buf[0] == payload[0];
  }

  /** A written record passes the checks of the reader and becomes one record. */
  lemma ScanRecord(payload: seq<byte>, rest: string, buf: seq<byte>) returns (buf': seq<byte>)
    requires 4 <= |payload| <= 20 && payload[0] == |payload| - 4
    requires |buf| == BUFFER_SIZE
    ensures |buf'| == BUFFER_SIZE && buf'[..|payload|] == payload
    ensures var r := RecordIn(buf', |payload| + 1);
            && !r.Invalid?
            && Scan(RecordLine(payload) + rest, buf) == [r] + if r.EndOfFile? then [] else Scan(rest, buf')
  {
    hide RecordLine, Line, AfterLine, Hex, Checksum, Sum, Scan, RecordIn, Decoded, ParsedLength, Printable;
    var bytes := payload + [Checksum(payload)];
    var body := ":" + Hex(bytes);
    RecordLineIs(payload, rest);
    LineOf(body, rest);
    ParsedRecord(payload);
    ScanUnfolds(RecordLine(payload) + rest, buf);
    buf' := Refilled(buf, Hex(bytes));
    assert buf' == bytes + buf[|bytes|..];
    assert buf'[..|payload|] == payload;
    RecordInStarts(payload, buf');
  }

  // ---------- The reader on the whole file ----------

  /** The reader has read x up to n, in the segment at base. */
  predicate Read(w: Reader, x: seq<byte>, base: nat, n: nat) {
    && |w.bin| == SEGMENT
    && base <= n <= |x| && n <= base + SEGMENT && n < ADDRESS_SPACE
    && w.addrInit == base && w.addrNext == n && w.binLen == n - base
    && w.out == x[..base]
    && w.bin[..n - base] == x[base..n]
  }

  lemma ReadData(w: Reader, x: seq<byte>, base: nat, n: nat, more: nat)
    requires Read(w, x, base, n)
    requires n <= more <= |x| && more <= base + SEGMENT && more < ADDRESS_SPACE && n < base + SEGMENT
    ensures Fits(Data(n - base, x[n..more]))
    ensures Read(Step(w, Data(n - base, x[n..more])), x, base, more)
  {
    var w' := Step(w, Data(n - base, x[n..more]));
    assert w'.bin[..more - base] == w.bin[..n - base] + x[n..more];
    assert x[base..more] == x[base..n] + x[n..more];
  }

  lemma ReadSegment(w: Reader, x: seq<byte>, base: nat, upper: word16)
    requires Read(w, x, base, base + SEGMENT) && upper * SEGMENT == base + SEGMENT
    ensures Read(Step(w, Segment(upper)), x, base + SEGMENT, base + SEGMENT)
  {
    assert x[..base + SEGMENT] == x[..base] + x[base..base + SEGMENT];
  }

  lemma DataRecord(x: seq<byte>, i: nat, buf: seq<byte>)
    requires i < |x| && |buf| == BUFFER_SIZE
    requires |DataPayload(x, i)| < BUFFER_SIZE && buf[..|DataPayload(x, i)|] == DataPayload(x, i)
    ensures RecordIn(buf, |DataPayload(x, i)| + 1) == Data(i % SEGMENT, x[i..BlockEnd(x, i)])
  {
    var p := DataPayload(x, i);
    assert buf[0] == p[0] && buf[1] == p[1] && buf[2] == p[2] && buf[3] == p[3];
    assert buf[4..|p|] == p[4..];
    assert i % SEGMENT == i % SEGMENT / 256 * 256 + i % SEGMENT % 256;
    ByteOfAddress(i);
  }

  lemma SegmentRecord(upper: word16, buf: seq<byte>)
    requires |buf| == BUFFER_SIZE
    requires buf[..6] == [2, 0, 0, 4, upper / 256, upper % 256]
    ensures RecordIn(buf, 7) == Segment(upper)
  {
    var p := [2, 0, 0, 4, upper / 256, upper % 256];
    assert forall k :: 0 <= k < 6 ==> buf[k] == p[k];
  }

  lemma EndChecksum()
    ensures Checksum([0, 0, 0, 1]) == 0xFF
  {
    var payload: seq<byte> := [0, 0, 0, 1];
    SumAppend([], 0);
    SumAppend([0], 0);
    SumAppend([0, 0], 0);
    SumAppend([0, 0, 0], 1);
    assert [] + [0] == [0] && [0] + [0] == [0, 0] && [0, 0] + [0] == [0, 0, 0] && [0, 0, 0] + [1] == payload;
  }

  lemma EndOfFileIs()
    ensures RecordLine([0, 0, 0, 1]) == END_OF_FILE
  {
    var payload: seq<byte> := [0, 0, 0, 1];
    EndChecksum();
    hide Sum, Checksum, Hex;
    HexAppend(payload, [0xFF]);
    HexOfTwo(0, 0);
    HexOfTwo(0, 1);
    HexAppend([0, 0], [0, 1]);
    assert [0, 0] + [0, 1] == payload;
  }

  lemma HexOfTwo(a: byte, b: byte)
    ensures Hex([a, b]) == [HexDigit(a / 16), HexDigit(a % 16), HexDigit(b / 16), HexDigit(b % 16)]
  {
    assert [a, b][1..] == [b];
  }

  lemma ScanEnd(buf: seq<byte>)
    requires |buf| == BUFFER_SIZE
    ensures Scan(END_OF_FILE, buf) == [EndOfFile]
  {
    hide Scan, RecordLine;
    EndOfFileIs();
    assert RecordLine([0, 0, 0, 1]) + [] == END_OF_FILE;
    var buf' := ScanRecord([0, 0, 0, 1], [], buf);
    assert forall k :: 0 <= k < 4 ==> buf'[k] == buf'[..4][k];
  }

  lemma AllFitCons(r: Record, rest: seq<Record>)
    requires Fits(r) && AllFit(rest)
    ensures AllFit([r] + rest)
  {
  }

  lemma ReadsEnd(w: Reader, x: seq<byte>, base: nat, buf: seq<byte>)
    requires Read(w, x, base, |x|) && |buf| == BUFFER_SIZE
    ensures AllFit(Scan(END_OF_FILE, buf))
    ensures Converted(w, Scan(END_OF_FILE, buf)) == x
  {
    hide Scan, Converted;
    ScanEnd(buf);
    ConvertedEnd(w, EndOfFile);
    assert x == x[..base] + x[base..];
  }

  /** One data line takes the reader from i to the end of the block. */
  lemma ReadsDataLine(w: Reader, x: seq<byte>, base: nat, i: nat, rest: string, buf: seq<byte>)
    returns (buf': seq<byte>, w': Reader)
    requires Read(w, x, base, i) && i < |x| <= FILE_LIMIT && |buf| == BUFFER_SIZE
    requires base % SEGMENT == 0 && i % BLOCK == 0 && i < base + SEGMENT
    ensures |buf'| == BUFFER_SIZE && Read(w', x, base, BlockEnd(x, i))
    ensures AllFit(Scan(rest, buf')) ==>
              && AllFit(Scan(RecordLine(DataPayload(x, i)) + rest, buf))
              && Converted(w, Scan(RecordLine(DataPayload(x, i)) + rest, buf)) == Converted(w', Scan(rest, buf'))
  {
    var payload := DataPayload(x, i);
    var more := BlockEnd(x, i);
    BlockInSegment(x, base, i);
    var r := Data(i - base, x[i..more]);
    hide Scan, RecordLine, Step, AllFit, Fits, Read, Converted;
    buf' := ScanRecord(payload, rest, buf);
    DataRecord(x, i, buf');
    ReadData(w, x, base, i, more);
    w' := Step(w, r);
    if AllFit(Scan(rest, buf')) {
      AllFitCons(r, Scan(rest, buf'));
      ConvertedStep(w, Scan(RecordLine(payload) + rest, buf), r, Scan(rest, buf'));
    }
  }

  lemma BlockInSegment(x: seq<byte>, base: nat, i: nat)
    requires base % SEGMENT == 0 && i % BLOCK == 0 && base <= i < base + SEGMENT && i < |x|
    ensures i < BlockEnd(x, i) <= base + SEGMENT && i % SEGMENT == i - base
  {
  }

  /** The address line at a segment boundary moves the reader on to the next segment. */
  lemma ReadsAddressLine(w: Reader, x: seq<byte>, base: nat, upper: word16, rest: string, buf: seq<byte>)
    returns (buf': seq<byte>, w': Reader)
    requires Read(w, x, base, base + SEGMENT) && |buf| == BUFFER_SIZE
    requires upper * SEGMENT == base + SEGMENT
    ensures |buf'| == BUFFER_SIZE && Read(w', x, base + SEGMENT, base + SEGMENT)
    ensures AllFit(Scan(rest, buf')) ==>
              && AllFit(Scan(ExtLinearAddr(upper) + rest, buf))
              && Converted(w, Scan(ExtLinearAddr(upper) + rest, buf)) == Converted(w', Scan(rest, buf'))
  {
    var payload: seq<byte> := [2, 0, 0, 4, upper / 256, upper % 256];
    var r := Segment(upper);
    hide Scan, RecordLine, Step, AllFit, Read, Converted;
    buf' := ScanRecord(payload, rest, buf);
    SegmentRecord(upper, buf');
    ReadSegment(w, x, base, upper);
    w' := Step(w, r);
    if AllFit(Scan(rest, buf')) {
      AllFitCons(r, Scan(rest, buf'));
      ConvertedStep(w, Scan(ExtLinearAddr(upper) + rest, buf), r, Scan(rest, buf'));
    }
  }

  /** The text for x from a data line on. */
  function BlockText(x: seq<byte>, i: nat): string
    requires i < |x|
  {
    RecordLine(DataPayload(x, i)) + TextFrom(x, i + BLOCK)
  }

  lemma TextFromIs(x: seq<byte>, i: nat, q: word16, m: nat)
    requires i < |x| && i == 0x1_0000 * q + 16 * m && m < 0x1000
    ensures TextFrom(x, i) == if m == 0 && q > 0 then ExtLinearAddr(q) + BlockText(x, i) else BlockText(x, i)
  {
    SegmentOf(i, q);
    hide ExtLinearAddr, RecordLine, DataPayload;
  }

  ghost predicate Gives(w: Reader, text: string, buf: seq<byte>, x: seq<byte>) {
    && |w.bin| == SEGMENT && w.binLen <= SEGMENT && |buf| == BUFFER_SIZE
    && AllFit(Scan(text, buf))
    && Converted(w, Scan(text, buf)) == x
  }

  /** From block m of segment q on, the reader gets the rest of x. */
  lemma {:induction false} ReadsBack(w: Reader, x: seq<byte>, i: nat, q: word16, m: nat, buf: seq<byte>)
    requires i == 0x1_0000 * q + 16 * m && m <= 0x1000 && (m == 0 ==> q == 0)
    requires Read(w, x, 0x1_0000 * q, if i < |x| then i else |x|)
    requires |x| <= FILE_LIMIT && |buf| == BUFFER_SIZE
    ensures Gives(w, TextFrom(x, i), buf, x)
    decreases |x| - i, 1
  {
    hide Scan, RecordLine, ExtLinearAddr, AllFit, Converted, Read, DataPayload, TextFrom, BlockText;
    ReadIs(w, x, 0x1_0000 * q, if i < |x| then i else |x|);
    if i >= |x| {
      EndOfText(x, i);
      ReadsEnd(w, x, 0x1_0000 * q, buf);
    } else if m == 0x1000 {
      TextFromIs(x, i, q + 1, 0);
      var buf1, w1 := ReadsAddressLine(w, x, 0x1_0000 * q, q + 1, BlockText(x, i), buf);
      ReadsBlock(w1, x, i, q + 1, 0, buf1);
    } else {
      TextFromIs(x, i, q, m);
      ReadsBlock(w, x, i, q, m, buf);
    }
  }

  lemma {:induction false} ReadsBlock(w: Reader, x: seq<byte>, i: nat, q: word16, m: nat, buf: seq<byte>)
    requires i == 0x1_0000 * q + 16 * m && m < 0x1000
    requires Read(w, x, 0x1_0000 * q, i) && i < |x|
    requires |x| <= FILE_LIMIT && |buf| == BUFFER_SIZE
    ensures Gives(w, BlockText(x, i), buf, x)
    decreases |x| - i, 0
  {
    hide Scan, RecordLine, AllFit, Converted, Read, DataPayload, TextFrom, BlockEnd;
    ReadIs(w, x, 0x1_0000 * q, i);
    var buf', w' := ReadsDataLine(w, x, 0x1_0000 * q, i, TextFrom(x, i + 16), buf) by {
    }
    BlockEndIs(x, i);
    ReadsBack(w', x, i + 16, q, m + 1, buf');
  }

  lemma ReadIs(w: Reader, x: seq<byte>, base: nat, n: nat)
    requires Read(w, x, base, n)
    ensures |w.bin| == SEGMENT && w.binLen <= SEGMENT && n <= |x|
  {
  }

  lemma EndOfText(x: seq<byte>, i: nat)
    requires i >= |x|
    ensures TextFrom(x, i) == END_OF_FILE
  {
  }

  lemma BlockEndIs(x: seq<byte>, i: nat)
    ensures BlockEnd(x, i) == if i + 16 < |x| then i + 16 else |x|
  {
  }

  /** `mcs2bin` gives back every file that `bin2mcs` wrote, whatever was in its line buffer before. */
  lemma RoundTrip(x: seq<byte>, stale: seq<byte>)
    requires 0 < |x| <= FILE_LIMIT && |stale| == BUFFER_SIZE
    ensures var text := ExtLinearAddr(0) + TextFrom(x, 0);
            AllFit(Scan(text, stale)) && Converted(START, Scan(text, stale)) == x
  {
    hide Scan, RecordLine, AllFit, Converted, TextFrom;
    var payload: seq<byte> := [2, 0, 0, 4, 0, 0];
    var rest := TextFrom(x, 0);
    var buf' := ScanRecord(payload, rest, stale);
    SegmentRecord(0, buf');
    var r := Segment(0);
    assert Read(Step(START, r), x, 0, 0);
    ReadsBack(Step(START, r), x, 0, 0, 0, buf');
    AllFitCons(r, Scan(rest, buf'));
    ConvertedStep(START, Scan(ExtLinearAddr(0) + rest, stale), r, Scan(rest, buf'));
  }

  /** Writing and reading, end to end. */
  method WriteThenRead(x: seq<byte>, stale: seq<byte>) returns (y: seq<byte>)
    requires 0 < |x| <= FILE_LIMIT && |stale| == BUFFER_SIZE
    ensures y == x
  {
    hide Scan, AllFit, Converted, TextFrom, ExtLinearAddr;
    var text := Bin2Mcs(x);
    RoundTrip(x, stale);
    y := Mcs2Bin(text.value, stale);
  }
}
