/**
  What an Intel HEX file means, independently of how `mcs2bin` reads it: the data records write to a
  memory, later ones over earlier ones, at addresses that count from the last address record. The binary
  file should be the memory up to the last byte, with `EMPTY_BYTE` wherever no record wrote. Here is
  proved when the reader writes it.
*/
module HexImage {
  import opened Common
  import opened IntelHex
  import opened HexRoundTrip

  type Memory = map<nat, byte>

  datatype Image = Image(mem: Memory, end: nat)

  function At(mem: Memory, a: nat): byte {
    if a in mem then mem[a] else EMPTY_BYTE
  }

  function ByteAt(bytes: seq<byte>, address: nat, a: nat): byte
    requires address <= a < address + |bytes|
  {
    bytes[a - address]
  }

  function Store(mem: Memory, address: nat, bytes: seq<byte>): Memory {
    mem + map a: nat | address <= a < address + |bytes| :: ByteAt(bytes, address, a)
  }

  /** Writes bytes; `end` is the address after the highest byte so far. */
  function Wrote(image: Image, start: nat, bytes: seq<byte>): Image {
    var e := start + |bytes|;
    Image(Store(image.mem, start, bytes), if bytes == [] || e <= image.end then image.end else e)
  }

  const PARAGRAPH: nat := 16

  /**
    The memory after all records, and the address after its last byte. The base of the data addresses
    is set by a segment address in units of 2^16, and by a paragraph address in units of 16.
  */
  function Load(base: nat, image: Image, records: seq<Record>): Image
    decreases |records|
  {
    if records == [] then image
    else match records[0]
      case Data(address, bytes) => Load(base, Wrote(image, base + address, bytes), records[1..])
      case Segment(upper) => Load(upper * SEGMENT, image, records[1..])
      case Paragraph(value) => Load(value * PARAGRAPH, image, records[1..])
      case StartAddress => Load(base, image, records[1..])
      case Unknown => Load(base, image, records[1..])
      case EndOfFile => image
      case Invalid => image
  }

  const NOTHING := Image(map[], 0)

  function Contents(image: Image): seq<byte> {
    seq(image.end, a requires 0 <= a < image.end => At(image.mem, a))
  }

  /**
    Known records up to an end-of-file record; no segment starts before the place that earlier data
    reached. Here and below `base` is the last segment address, where the reader puts the data.
  */
  predicate Ascending(base: nat, reach: nat, records: seq<Record>)
    decreases |records|
  {
    && records != []
    && match records[0]
       case Data(address, bytes) =>
         var e := base + address + |bytes|;
         Ascending(base, if reach < e then e else reach, records[1..])
       case Segment(upper) => reach <= upper * SEGMENT && Ascending(upper * SEGMENT, reach, records[1..])
       case Paragraph(_) => Ascending(base, reach, records[1..])
       case StartAddress => Ascending(base, reach, records[1..])
       case EndOfFile => true
       case Unknown => false
       case Invalid => false
  }

  // ---------- What can go wrong ----------

  /** No data is read where a paragraph address has moved it: its base `at` is the one that the reader uses. */
  predicate InPlace(base: nat, at: nat, records: seq<Record>)
    decreases |records|
  {
    records != [] ==>
      match records[0]
      case Data(_, bytes) => (bytes == [] || at == base) && InPlace(base, at, records[1..])
      case Segment(upper) => InPlace(upper * SEGMENT, upper * SEGMENT, records[1..])
      case Paragraph(value) => InPlace(base, value * PARAGRAPH, records[1..])
      case StartAddress => InPlace(base, at, records[1..])
      case Unknown => InPlace(base, at, records[1..])
      case EndOfFile => true
      case Invalid => true
  }

  /**
    The bytes that are written too many: a segment address, or the end, after a segment without data
    (`hasData`) that starts behind a gap. `last` is the end of the last data record.
  */
  function Surplus(base: nat, last: nat, hasData: bool, records: seq<Record>): int
    decreases |records|
  {
    var here := if hasData then 0 else base - last;
    if records == [] then 0
    else match records[0]
      case Data(address, bytes) => Surplus(base, base + address + |bytes|, true, records[1..])
      case Segment(upper) => here + Surplus(upper * SEGMENT, last, false, records[1..])
      case Paragraph(_) => Surplus(base, last, hasData, records[1..])
      case StartAddress => Surplus(base, last, hasData, records[1..])
      case Unknown => Surplus(base, last, hasData, records[1..])
      case EndOfFile => here
      case Invalid => 0
  }

  /** The end of the last data record of the file, which need not be the highest one. */
  function LastEnd(base: nat, last: nat, records: seq<Record>): nat
    decreases |records|
  {
    if records == [] then last
    else match records[0]
      case Data(address, bytes) => LastEnd(base, base + address + |bytes|, records[1..])
      case Segment(upper) => LastEnd(upper * SEGMENT, last, records[1..])
      case Paragraph(_) => LastEnd(base, last, records[1..])
      case StartAddress => LastEnd(base, last, records[1..])
      case Unknown => LastEnd(base, last, records[1..])
      case EndOfFile => last
      case Invalid => last
  }

  predicate Empty(mem: Memory, from: nat, to: nat) {
    forall a: nat :: from <= a < to ==> At(mem, a) == EMPTY_BYTE
  }

  /**
    Whenever a segment is closed, everything above its last data record reads as empty, and the last
    data record of the file ends at the last byte.
  */
  predicate NothingAbove(base: nat, image: Image, last: nat, records: seq<Record>)
    decreases |records|
  {
    records != [] ==>
      match records[0]
      case Data(address, bytes) =>
        NothingAbove(base, Wrote(image, base + address, bytes), base + address + |bytes|, records[1..])
      case Segment(upper) =>
        Empty(image.mem, last, image.end) && NothingAbove(upper * SEGMENT, image, last, records[1..])
      case Paragraph(_) => NothingAbove(base, image, last, records[1..])
      case StartAddress => NothingAbove(base, image, last, records[1..])
      case Unknown => NothingAbove(base, image, last, records[1..])
      case EndOfFile => last == image.end
      case Invalid => true
  }

  // ---------- The length of the output ----------

  /** How the addresses and lengths hang together; `excess` bytes too many were written so far. */
  predicate Sized(w: Reader, base: nat, reach: nat, last: nat, hasData: bool, excess: nat) {
    && w.addrInit == base <= ADDRESS_SPACE - SEGMENT
    && last <= reach <= base + SEGMENT
    && w.addrNext == last % ADDRESS_SPACE
    && |w.bin| == SEGMENT
    && (if hasData then base <= last && w.binLen == last - base else reach <= base && w.binLen == 0)
    && |w.out| == base + excess
  }

  lemma DataSized(w: Reader, base: nat, reach: nat, last: nat, hasData: bool, excess: nat, r: Record)
    requires Sized(w, base, reach, last, hasData, excess) && r.Data? && Fits(r)
    ensures var e := base + r.address + |r.bytes|;
            Sized(Step(w, r), base, if reach < e then e else reach, e, true, excess)
  {
  }

  lemma SegmentSized(w: Reader, base: nat, reach: nat, last: nat, hasData: bool, excess: nat, upper: word16)
    requires Sized(w, base, reach, last, hasData, excess) && reach <= upper * SEGMENT
    ensures Sized(Step(w, Segment(upper)), upper * SEGMENT, reach, last, false,
                  excess + if hasData then 0 else base - last)
  {
    var next := upper * SEGMENT;
    assert next <= ADDRESS_SPACE - SEGMENT;
    assert w.addrNext == last;
    assert |Pad(next - last)| == next - last;
  }

  /** Records that the reader passes over. */
  predicate Passed(r: Record) {
    r.Paragraph? || r.StartAddress?
  }

  lemma PassedStep(w: Reader, r: Record)
    requires |w.bin| == SEGMENT && w.binLen <= SEGMENT && Passed(r)
    ensures Step(w, r) == w
  {
  }

  lemma {:induction false} OutputLength(w: Reader, base: nat, reach: nat, last: nat, hasData: bool, excess: nat,
                                        records: seq<Record>)
    requires Sized(w, base, reach, last, hasData, excess) && AllFit(records) && Ascending(base, reach, records)
    ensures |Converted(w, records)| == excess + Surplus(base, last, hasData, records) + LastEnd(base, last, records)
    decreases |records|
  {
    hide Step, AllFit, Fits;
    var r, rest := records[0], records[1..];
    assert records == [r] + rest;
    match r
    case EndOfFile =>
    case Data(address, bytes) =>
      ConvertedStep(w, records, r, rest);
      DataSized(w, base, reach, last, hasData, excess, r);
      var e := base + address + |bytes|;
      OutputLength(Step(w, r), base, if reach < e then e else reach, e, true, excess, rest);
    case Segment(upper) =>
      ConvertedStep(w, records, r, rest);
      SegmentSized(w, base, reach, last, hasData, excess, upper);
      OutputLength(Step(w, r), upper * SEGMENT, reach, last, false, excess + if hasData then 0 else base - last, rest);
    case Paragraph(_) =>
      ConvertedStep(w, records, r, rest);
      PassedStep(w, r);
      OutputLength(w, base, reach, last, hasData, excess, rest);
    case StartAddress =>
      ConvertedStep(w, records, r, rest);
      PassedStep(w, r);
      OutputLength(w, base, reach, last, hasData, excess, rest);
  }

  /** The output cannot be right because it is too long or too short, whatever the bytes are. */
  predicate WrongLength(records: seq<Record>) {
    Load(0, NOTHING, records).end != Surplus(0, 0, false, records) + LastEnd(0, 0, records)
  }

  // ---------- The contents of the output ----------

  predicate Shows(bytes: seq<byte>, mem: Memory, base: nat) {
    forall i :: 0 <= i < |bytes| ==> bytes[i] == At(mem, base + i)
  }

  predicate Under(mem: Memory, end: nat) {
    forall a :: a in mem ==> a < end
  }

  /** The buffer shows the memory; the output shows it as long as nothing was written too many or lost. */
  predicate Agrees(w: Reader, image: Image, base: nat, excess: nat, lost: bool) {
    && Under(image.mem, image.end)
    && Shows(w.bin, image.mem, base)
    && (excess == 0 ==> (Shows(w.out, image.mem, 0) <==> !lost))
  }

  lemma DataAgrees(w: Reader, image: Image, base: nat, reach: nat, last: nat, hasData: bool, excess: nat, lost: bool,
                   r: Record)
    requires Sized(w, base, reach, last, hasData, excess) && Agrees(w, image, base, excess, lost)
    requires r.Data? && Fits(r)
    ensures Agrees(Step(w, r), Wrote(image, base + r.address, r.bytes), base, excess, lost)
  {
    var image' := Wrote(image, base + r.address, r.bytes);
    var w' := Step(w, r);
    assert w'.out == w.out;
    if excess == 0 {
      assert forall i :: 0 <= i < |w.out| ==> At(image'.mem, i) == At(image.mem, i);
      SameShown(w.out, image.mem, image'.mem);
    }
    forall i | 0 <= i < SEGMENT
      ensures w'.bin[i] == At(image'.mem, base + i)
    {
      assert w.bin[i] == At(image.mem, base + i);
    }
  }

  lemma SameShown(bytes: seq<byte>, mem: Memory, mem': Memory)
    requires forall i :: 0 <= i < |bytes| ==> At(mem', i) == At(mem, i)
    ensures Shows(bytes, mem, 0) <==> Shows(bytes, mem', 0)
  {
    hide At;
  }

  lemma SegmentAgrees(w: Reader, image: Image, base: nat, reach: nat, last: nat, hasData: bool, excess: nat, lost: bool,
                      upper: word16)
    requires Sized(w, base, reach, last, hasData, excess) && Agrees(w, image, base, excess, lost)
    requires image.end <= reach <= upper * SEGMENT
    ensures Agrees(Step(w, Segment(upper)), image, upper * SEGMENT, excess + (if hasData then 0 else base - last),
                   lost || !Empty(image.mem, last, image.end))
  {
    var w' := Step(w, Segment(upper));
    var base' := upper * SEGMENT;
    assert base' <= ADDRESS_SPACE - SEGMENT;
    assert w.addrNext == last;
    if excess == 0 && (hasData || base == last) {
      ClosedSegment(w, image, base, last, base');
    }
    forall i | 0 <= i < SEGMENT
      ensures w'.bin[i] == At(image.mem, base' + i)
    {
      assert base' + i !in image.mem;
    }
  }

  /** The output after a segment was closed and the gap up to the next one was filled. */
  lemma ClosedSegment(w: Reader, image: Image, base: nat, last: nat, next: nat)
    requires |w.out| == base <= last <= next && image.end <= next
    requires |w.bin| == SEGMENT && w.binLen == last - base <= SEGMENT
    requires Under(image.mem, image.end) && Shows(w.bin, image.mem, base)
    ensures Shows(w.out + w.bin[..w.binLen] + Pad(next - last), image.mem, 0)
       <==> Shows(w.out, image.mem, 0) && Empty(image.mem, last, image.end)
  {
    var out := w.out + w.bin[..w.binLen] + Pad(next - last);
    assert |out| == next;
    assert forall i :: 0 <= i < base ==> out[i] == w.out[i];
    assert forall i :: last <= i < next ==> out[i] == EMPTY_BYTE;
    forall i | base <= i < last
      ensures out[i] == At(image.mem, 0 + i)
    {
      assert w.bin[i - base] == At(image.mem, base + (i - base));
    }
    assert forall i :: image.end <= i < next ==> i !in image.mem;
    if Shows(out, image.mem, 0) {
      forall i | 0 <= i < base
        ensures w.out[i] == At(image.mem, 0 + i)
      {
        assert out[i] == At(image.mem, 0 + i);
      }
      forall a: nat | last <= a < image.end
        ensures At(image.mem, a) == EMPTY_BYTE
      {
        assert out[a] == At(image.mem, 0 + a);
      }
    }
    if Shows(w.out, image.mem, 0) && Empty(image.mem, last, image.end) {
      forall i | 0 <= i < next
        ensures out[i] == At(image.mem, 0 + i)
      {
        if i < base {
          assert w.out[i] == At(image.mem, 0 + i);
        } else if last <= i < image.end {
          assert At(image.mem, i) == EMPTY_BYTE;
        }
      }
    }
  }

  lemma EndStep(w: Reader, image: Image, base: nat, reach: nat, last: nat, hasData: bool, lost: bool)
    requires Sized(w, base, reach, last, hasData, 0) && Agrees(w, image, base, 0, lost)
    requires hasData || base == last
    ensures w.out + w.bin[..w.binLen] == Contents(image) <==> !lost && last == image.end
  {
    var out := w.out + w.bin[..w.binLen];
    assert |out| == last && |Contents(image)| == image.end;
    if last == image.end {
      ClosedSegment(w, image, base, last, last);
      assert out + Pad(0) == out;
      SameContents(out, image);
    }
  }

  lemma SameContents(out: seq<byte>, image: Image)
    requires |out| == image.end
    ensures out == Contents(image) <==> Shows(out, image.mem, 0)
  {
    var c := Contents(image);
    assert forall i :: 0 <= i < image.end ==> c[i] == At(image.mem, 0 + i);
  }

  lemma WroteEnd(image: Image, start: nat, bytes: seq<byte>)
    ensures Wrote(image, start, bytes).end <= if image.end < start + |bytes| then start + |bytes| else image.end
  {
  }

  lemma WroteNothing(image: Image, start: nat)
    ensures Wrote(image, start, []) == image
  {
    assert Store(image.mem, start, []) == image.mem;
  }

  /** Data in place and no surplus: the reader follows the image, and only what lies above the last records is lost. */
  lemma {:induction false} ReaderFollowsImage(w: Reader, image: Image, base: nat, at: nat, reach: nat, last: nat,
                                              hasData: bool, excess: nat, lost: bool, records: seq<Record>)
    requires Sized(w, base, reach, last, hasData, excess) && Agrees(w, image, base, excess, lost)
    requires image.end <= reach && AllFit(records) && Ascending(base, reach, records) && InPlace(base, at, records)
    requires excess + Surplus(base, last, hasData, records) == 0
    ensures Converted(w, records) == Contents(Load(at, image, records))
       <==> !lost && NothingAbove(base, image, last, records)
    decreases |records|
  {
    hide Contents, Step, Wrote, Agrees, AllFit, Fits, Empty;
    var r, rest := records[0], records[1..];
    assert records == [r] + rest;
    match r
    case EndOfFile =>
      EndStep(w, image, base, reach, last, hasData, lost);
    case Data(address, bytes) =>
      ConvertedStep(w, records, r, rest);
      DataSized(w, base, reach, last, hasData, excess, r);
      DataAgrees(w, image, base, reach, last, hasData, excess, lost, r);
      var e := base + address + |bytes|;
      WroteEnd(image, base + address, bytes);
      WroteNothing(image, base + address);
      WroteNothing(image, at + address);
      ReaderFollowsImage(Step(w, r), Wrote(image, base + address, bytes), base, at, if reach < e then e else reach, e,
                         true, excess, lost, rest);
    case Segment(upper) =>
      ConvertedStep(w, records, r, rest);
      SegmentSized(w, base, reach, last, hasData, excess, upper);
      SegmentAgrees(w, image, base, reach, last, hasData, excess, lost, upper);
      var base' := upper * SEGMENT;
      ReaderFollowsImage(Step(w, r), image, base', base', reach, last, false,
                         excess + if hasData then 0 else base - last, lost || !Empty(image.mem, last, image.end), rest);
    case Paragraph(value) =>
      ConvertedStep(w, records, r, rest);
      PassedStep(w, r);
      ReaderFollowsImage(w, image, base, value * PARAGRAPH, reach, last, hasData, excess, lost, rest);
    case StartAddress =>
      ConvertedStep(w, records, r, rest);
      PassedStep(w, r);
      ReaderFollowsImage(w, image, base, at, reach, last, hasData, excess, lost, rest);
  }

  /**
    The output of the reader is the memory image of the records exactly when no data was moved by a
    paragraph address, no segment without data starts behind a gap, and no data lies above the last data
    record of a segment. Left open are only files with one of the first two errors in which the output
    nevertheless has the length of the image: there it depends on the bytes.
  */
  lemma ReaderYieldsImage(records: seq<Record>)
    requires AllFit(records) && Ascending(0, 0, records)
    requires WrongLength(records) || (InPlace(0, 0, records) && Surplus(0, 0, false, records) == 0)
    ensures Converted(START, records) == Contents(Load(0, NOTHING, records))
       <==> InPlace(0, 0, records) && Surplus(0, 0, false, records) == 0 && NothingAbove(0, NOTHING, 0, records)
  {
    OutputLength(START, 0, 0, 0, false, 0, records);
    assert Agrees(START, NOTHING, 0, 0, false);
    hide Converted, Contents, Ascending, InPlace, Surplus, NothingAbove, LastEnd, Load, AllFit, Agrees;
    if InPlace(0, 0, records) && Surplus(0, 0, false, records) == 0 {
      ReaderFollowsImage(START, NOTHING, 0, 0, 0, 0, false, 0, false, records);
    }
  }

  /** The reader on the text of a file. */
  method ReadImage(text: string, stale: seq<byte>) returns (out: seq<byte>)
    requires |stale| == BUFFER_SIZE && AllFit(Scan(text, stale)) && Ascending(0, 0, Scan(text, stale))
    requires var records := Scan(text, stale);
             WrongLength(records) || (InPlace(0, 0, records) && Surplus(0, 0, false, records) == 0)
    ensures var records := Scan(text, stale);
            (out == Contents(Load(0, NOTHING, records))
             <==> InPlace(0, 0, records) && Surplus(0, 0, false, records) == 0 && NothingAbove(0, NOTHING, 0, records))
  {
    hide Scan, Converted, Contents, Load, Ascending, InPlace, Surplus, NothingAbove, AllFit, WrongLength;
    ReaderYieldsImage(Scan(text, stale));
    out := Mcs2Bin(text, stale);
  }

  // ---------- The files that are left open ----------

  predicate AllEmpty(bytes: seq<byte>) {
    forall i :: 0 <= i < |bytes| ==> bytes[i] == EMPTY_BYTE
  }

  predicate NothingButEmpty(records: seq<Record>) {
    forall i :: 0 <= i < |records| && records[i].Data? ==> AllEmpty(records[i].bytes)
  }

  lemma {:induction false} EmptyOutput(w: Reader, records: seq<Record>)
    requires |w.bin| == SEGMENT && w.binLen <= SEGMENT && AllFit(records) && NothingButEmpty(records)
    requires AllEmpty(w.out) && AllEmpty(w.bin)
    ensures AllEmpty(Converted(w, records))
    decreases |records|
  {
    if records == [] || records[0].Invalid? || records[0].EndOfFile? {
    } else {
      var r, rest := records[0], records[1..];
      assert records == [r] + rest;
      ConvertedStep(w, records, r, rest);
      assert forall i :: 0 <= i < |rest| ==> rest[i] == records[i + 1];
      assert AllEmpty(Step(w, r).out) && AllEmpty(Step(w, r).bin);
      hide AllEmpty, AllFit, Step, Converted;
      EmptyOutput(Step(w, r), rest);
    }
  }

  lemma {:induction false} EmptyImage(base: nat, image: Image, records: seq<Record>)
    requires NothingButEmpty(records) && forall a: nat :: At(image.mem, a) == EMPTY_BYTE
    ensures forall a: nat :: At(Load(base, image, records).mem, a) == EMPTY_BYTE
    decreases |records|
  {
    if records == [] {
    } else {
      var rest := records[1..];
      assert forall i :: 0 <= i < |rest| ==> rest[i] == records[i + 1];
      match records[0]
      case Data(address, bytes) =>
        var more := Wrote(image, base + address, bytes);
        assert AllEmpty(bytes);
        forall a: nat
          ensures At(more.mem, a) == EMPTY_BYTE
        {
          assert At(image.mem, a) == EMPTY_BYTE;
        }
        EmptyImage(base, more, rest);
      case Segment(upper) => EmptyImage(upper * SEGMENT, image, rest);
      case Paragraph(value) => EmptyImage(value * PARAGRAPH, image, rest);
      case StartAddress => EmptyImage(base, image, rest);
      case Unknown => EmptyImage(base, image, rest);
      case EndOfFile =>
      case Invalid =>
    }
  }

  /** If the length is right there are bytes for which the output is right, whatever the addresses are. */
  lemma BytesDecide(records: seq<Record>)
    requires AllFit(records) && Ascending(0, 0, records) && !WrongLength(records) && NothingButEmpty(records)
    ensures Converted(START, records) == Contents(Load(0, NOTHING, records))
  {
    OutputLength(START, 0, 0, 0, false, 0, records);
    EmptyOutput(START, records);
    EmptyImage(0, NOTHING, records);
    hide Converted, Load, Ascending, NothingButEmpty, AllFit;
    var out, image := Converted(START, records), Load(0, NOTHING, records);
    assert |out| == image.end;
    assert forall i :: 0 <= i < image.end ==> out[i] == Contents(image)[i];
  }

  // ---------- Files that the reader gets wrong ----------

  /** The line of a data record. */
  function DataText(address: word16, bytes: seq<byte>): string
    requires |bytes| <= 16
  {
    RecordLine([|bytes|, address / 256, address % 256, 0] + bytes)
  }

  /** The line of a paragraph address. */
  function ParagraphText(value: word16): string {
    RecordLine([2, 0, 0, 2, value / 256, value % 256])
  }

  lemma ScanData(address: word16, bytes: seq<byte>, rest: string, buf: seq<byte>) returns (buf': seq<byte>)
    requires |bytes| <= 16 && |buf| == BUFFER_SIZE
    ensures |buf'| == BUFFER_SIZE
    ensures Scan(DataText(address, bytes) + rest, buf) == [Data(address, bytes)] + Scan(rest, buf')
  {
    hide Scan, RecordLine;
    var p: seq<byte> := [|bytes|, address / 256, address % 256, 0] + bytes;
    buf' := ScanRecord(p, rest, buf);
    assert buf'[0] == p[0] && buf'[1] == p[1] && buf'[2] == p[2] && buf'[3] == p[3];
    assert buf'[4..|p|] == p[4..] == bytes;
    assert address == address / 256 * 256 + address % 256;
  }

  lemma ScanAddress(upper: word16, rest: string, buf: seq<byte>) returns (buf': seq<byte>)
    requires |buf| == BUFFER_SIZE
    ensures |buf'| == BUFFER_SIZE
    ensures Scan(ExtLinearAddr(upper) + rest, buf) == [Segment(upper)] + Scan(rest, buf')
  {
    hide Scan, RecordLine;
    buf' := ScanRecord([2, 0, 0, 4, upper / 256, upper % 256], rest, buf);
    SegmentRecord(upper, buf');
  }

  lemma ScanParagraph(value: word16, rest: string, buf: seq<byte>) returns (buf': seq<byte>)
    requires |buf| == BUFFER_SIZE
    ensures |buf'| == BUFFER_SIZE
    ensures Scan(ParagraphText(value) + rest, buf) == [Paragraph(value)] + Scan(rest, buf')
  {
    hide Scan, RecordLine;
    var p: seq<byte> := [2, 0, 0, 2, value / 256, value % 256];
    buf' := ScanRecord(p, rest, buf);
    assert forall k :: 0 <= k < 6 ==> buf'[k] == p[k];
  }

  /** A paragraph address is passed over: data that counts from it is written too low. */
  lemma ParagraphIgnored(value: word16, stale: seq<byte>)
    requires |stale| == BUFFER_SIZE
    ensures var records := Scan(ParagraphText(value) + (DataText(0, [7]) + END_OF_FILE), stale);
            && AllFit(records) && Ascending(0, 0, records)
            && Converted(START, records) == [7]
            && Load(0, NOTHING, records).end == 16 * value + 1
            && (InPlace(0, 0, records) <==> value == 0)
            && (WrongLength(records) <==> value != 0)
  {
    hide Scan, DataText, ParagraphText;
    var b1 := ScanParagraph(value, DataText(0, [7]) + END_OF_FILE, stale);
    var b2 := ScanData(0, [7], END_OF_FILE, b1);
    ScanEnd(b2);
    var records := [Paragraph(value), Data(0, [7]), EndOfFile];
    assert [Paragraph(value)] + ([Data(0, [7])] + [EndOfFile]) == records;
    ParagraphRecords(value, records);
    hide *;
  }

  lemma ParagraphRecords(value: word16, records: seq<Record>)
    requires records == [Paragraph(value), Data(0, [7]), EndOfFile]
    ensures AllFit(records) && Ascending(0, 0, records) && Converted(START, records) == [7]
    ensures Load(0, NOTHING, records).end == 16 * value + 1
    ensures InPlace(0, 0, records) <==> value == 0
    ensures WrongLength(records) <==> value != 0
  {
    var r1, r2 := [Data(0, [7]), EndOfFile], [EndOfFile];
    assert records[0] == Paragraph(value) && records[1..] == r1 && r1[1..] == r2;
    SingleByte(records, r1);
    ParagraphSums(value, r1, r2);
    hide Converted, AllFit;
  }

  lemma ParagraphSums(value: word16, r1: seq<Record>, r2: seq<Record>)
    requires r1 == [Data(0, [7]), EndOfFile] && r2 == [EndOfFile] && r1[1..] == r2
    ensures Ascending(0, 0, r1) && (InPlace(0, 16 * value, r1) <==> value == 0)
    ensures Surplus(0, 0, false, r1) == 0 && LastEnd(0, 0, r1) == 1
    ensures Load(16 * value, NOTHING, r1).end == 16 * value + 1
  {
    assert Ascending(0, 1, r2) && InPlace(0, 16 * value, r2);
    assert Surplus(0, 1, true, r2) == 0 && LastEnd(0, 1, r2) == 1;
    var image := Wrote(NOTHING, 16 * value, [7]);
    assert Load(16 * value, image, r2) == image;
  }

  lemma SingleByte(records: seq<Record>, rest: seq<Record>)
    requires rest == [Data(0, [7]), EndOfFile] && |records| == 3 && records[0].Paragraph? && records[1..] == rest
    ensures AllFit(records) && Converted(START, records) == [7]
  {
    var w := Step(START, Data(0, [7]));
    assert records == [records[0]] + rest;
    ConvertedStep(START, records, records[0], rest);
    ConvertedStep(START, rest, Data(0, [7]), [EndOfFile]);
    ConvertedEnd(w, EndOfFile);
    hide Converted;
    assert w.binLen == 1 && w.bin[0] == 7;
    assert w.out + w.bin[..1] == [7];
  }

  /** Two data records in descending order: the byte of the higher one is lost. */
  lemma DescendingRecordsLose(stale: seq<byte>)
    requires |stale| == BUFFER_SIZE
    ensures var records := Scan(DataText(2, [1]) + (DataText(0, [9]) + END_OF_FILE), stale);
            && AllFit(records) && Ascending(0, 0, records) && WrongLength(records)
            && Converted(START, records) == [9]
            && Contents(Load(0, NOTHING, records)) == [9, 0xFF, 1]
  {
    hide Scan, DataText;
    var b1 := ScanData(2, [1], DataText(0, [9]) + END_OF_FILE, stale);
    var b2 := ScanData(0, [9], END_OF_FILE, b1);
    ScanEnd(b2);
    DescendingRecords([Data(2, [1]), Data(0, [9]), EndOfFile]);
    assert [Data(2, [1])] + ([Data(0, [9])] + [EndOfFile]) == [Data(2, [1]), Data(0, [9]), EndOfFile];
    hide *;
  }

  lemma DescendingRecords(records: seq<Record>)
    requires records == [Data(2, [1]), Data(0, [9]), EndOfFile]
    ensures AllFit(records) && Ascending(0, 0, records) && WrongLength(records)
    ensures Converted(START, records) == [9]
    ensures Contents(Load(0, NOTHING, records)) == [9, 0xFF, 1]
  {
    var r1, r2 := [Data(0, [9]), EndOfFile], [EndOfFile];
    assert records[1..] == r1 && r1[1..] == r2;
    DescendingOutput(records, r1);
    hide Converted;
    assert Ascending(0, 3, r2) && Ascending(0, 3, r1);
    assert Surplus(0, 1, true, r2) == Surplus(0, 3, true, r1) == 0;
    assert LastEnd(0, 1, r2) == LastEnd(0, 3, r1) == 1;
    var i1 := Wrote(NOTHING, 2, [1]);
    var i2 := Wrote(i1, 0, [9]);
    assert Load(0, i2, r2) == i2 && Load(0, i1, r1) == i2;
    hide Load;
    assert At(i2.mem, 0) == 9 && At(i2.mem, 1) == 0xFF && At(i2.mem, 2) == 1;
  }

  lemma DescendingOutput(records: seq<Record>, rest: seq<Record>)
    requires records == [Data(2, [1])] + rest && rest == [Data(0, [9]), EndOfFile]
    ensures AllFit(records) && Converted(START, records) == [9]
  {
    var w1 := Step(START, Data(2, [1]));
    var w2 := Step(w1, Data(0, [9]));
    ConvertedStep(START, records, Data(2, [1]), rest);
    ConvertedStep(w1, rest, Data(0, [9]), [EndOfFile]);
    ConvertedEnd(w2, EndOfFile);
    hide Converted;
    assert w2.binLen == 1 && w2.bin[0] == 9;
    assert w2.out + w2.bin[..1] == [9];
  }

  /** Two extended address records in a row: the byte ends up in the wrong place. */
  lemma EmptySegmentMisplaces(stale: seq<byte>)
    requires |stale| == BUFFER_SIZE
    ensures var records := Scan(ExtLinearAddr(1) + (ExtLinearAddr(2) + (DataText(0, [7]) + END_OF_FILE)), stale);
            && AllFit(records) && Ascending(0, 0, records) && WrongLength(records)
            && Surplus(0, 0, false, records) == 0x1_0000
            && Converted(START, records) != Contents(Load(0, NOTHING, records))
  {
    hide Scan, DataText, ExtLinearAddr;
    var b1 := ScanAddress(1, ExtLinearAddr(2) + (DataText(0, [7]) + END_OF_FILE), stale);
    var b2 := ScanAddress(2, DataText(0, [7]) + END_OF_FILE, b1);
    var b3 := ScanData(0, [7], END_OF_FILE, b2);
    ScanEnd(b3);
    var records := [Segment(1), Segment(2), Data(0, [7]), EndOfFile];
    assert [Segment(1)] + ([Segment(2)] + ([Data(0, [7])] + [EndOfFile])) == records;
    EmptySegment(records);
    hide *;
  }

  lemma EmptySegment(records: seq<Record>)
    requires records == [Segment(1), Segment(2), Data(0, [7]), EndOfFile]
    ensures AllFit(records) && Ascending(0, 0, records) && WrongLength(records)
    ensures Surplus(0, 0, false, records) == 0x1_0000
    ensures Converted(START, records) != Contents(Load(0, NOTHING, records))
  {
    var r1, r2, r3 := [Segment(2), Data(0, [7]), EndOfFile], [Data(0, [7]), EndOfFile], [EndOfFile];
    assert records[1..] == r1 && r1[1..] == r2 && r2[1..] == r3;
    var image := Wrote(NOTHING, 0x2_0000, [7]);
    assert Ascending(0x2_0000, 0x2_0001, r3) && Ascending(0x2_0000, 0, r2) && Ascending(0x1_0000, 0, r1);
    assert Surplus(0x2_0000, 0x2_0001, true, r3) == Surplus(0x2_0000, 0, false, r2) == 0;
    assert Surplus(0x1_0000, 0, false, r1) == 0x1_0000;
    assert LastEnd(0x2_0000, 0x2_0001, r3) == LastEnd(0x2_0000, 0, r2) == LastEnd(0x1_0000, 0, r1) == 0x2_0001;
    assert Load(0x2_0000, image, r3) == Load(0x2_0000, NOTHING, r2) == Load(0x1_0000, NOTHING, r1) == image;
    assert WrongLength(records);
    ReaderYieldsImage(records);
  }

  /**
    The surplus of an empty segment makes up for the byte that is lost at the end: the length is right,
    and whether the output is the image depends on the value of the byte.
  */
  lemma CancellingErrors(v: byte, stale: seq<byte>)
    requires |stale| == BUFFER_SIZE
    ensures var records := Scan(CancellingText(v), stale);
            && AllFit(records) && Ascending(0, 0, records) && !WrongLength(records)
            && InPlace(0, 0, records) && Surplus(0, 0, false, records) == 0x1_0000
            && (Converted(START, records) == Contents(Load(0, NOTHING, records)) <==> v == 0xFF)
  {
    hide Scan, DataText, ExtLinearAddr;
    var b1 := ScanAddress(1, ExtLinearAddr(2) + (DataText(0xFFFF, [v]) + (DataText(0, []) + END_OF_FILE)), stale);
    var b2 := ScanAddress(2, DataText(0xFFFF, [v]) + (DataText(0, []) + END_OF_FILE), b1);
    var b3 := ScanData(0xFFFF, [v], DataText(0, []) + END_OF_FILE, b2);
    var b4 := ScanData(0, [], END_OF_FILE, b3);
    ScanEnd(b4);
    var records := [Segment(1), Segment(2), Data(0xFFFF, [v]), Data(0, []), EndOfFile];
    assert [Segment(1)] + ([Segment(2)] + ([Data(0xFFFF, [v])] + ([Data(0, [])] + [EndOfFile]))) == records;
    CancellingRecords(v, records);
    hide *;
  }

  function CancellingText(v: byte): string {
    ExtLinearAddr(1) + (ExtLinearAddr(2) + (DataText(0xFFFF, [v]) + (DataText(0, []) + END_OF_FILE)))
  }

  lemma CancellingRecords(v: byte, records: seq<Record>)
    requires records == [Segment(1), Segment(2), Data(0xFFFF, [v]), Data(0, []), EndOfFile]
    ensures AllFit(records) && Ascending(0, 0, records) && !WrongLength(records)
    ensures InPlace(0, 0, records) && Surplus(0, 0, false, records) == 0x1_0000
    ensures Converted(START, records) == Contents(Load(0, NOTHING, records)) <==> v == 0xFF
  {
    CancellingSums(v, records);
    CancellingOutput(v, records);
    var image := Wrote(NOTHING, 0x2_FFFF, [v]);
    hide Converted, Load, Ascending, WrongLength;
    var out := Pad(0x1_0000) + Pad(0x2_0000);
    assert |out| == 0x3_0000 && forall i :: 0 <= i < 0x3_0000 ==> out[i] == 0xFF;
    assert Contents(image)[0x2_FFFF] == At(image.mem, 0x2_FFFF) == v;
    assert forall i :: 0 <= i < 0x2_FFFF ==> Contents(image)[i] == At(image.mem, i) == 0xFF;
  }

  lemma CancellingSums(v: byte, records: seq<Record>)
    requires records == [Segment(1), Segment(2), Data(0xFFFF, [v]), Data(0, []), EndOfFile]
    ensures Ascending(0, 0, records) && !WrongLength(records)
    ensures InPlace(0, 0, records) && Surplus(0, 0, false, records) == 0x1_0000
    ensures Load(0, NOTHING, records) == Wrote(NOTHING, 0x2_FFFF, [v])
  {
    var r1 := [Segment(2), Data(0xFFFF, [v]), Data(0, []), EndOfFile];
    var r2 := [Data(0xFFFF, [v]), Data(0, []), EndOfFile];
    var r3, r4 := [Data(0, []), EndOfFile], [EndOfFile];
    assert records[1..] == r1 && r1[1..] == r2 && r2[1..] == r3 && r3[1..] == r4;
    var image := Wrote(NOTHING, 0x2_FFFF, [v]);
    WroteNothing(image, 0x2_0000);
    assert Ascending(0x2_0000, 0x3_0000, r4) && Ascending(0x2_0000, 0x3_0000, r3);
    assert Ascending(0x2_0000, 0, r2) && Ascending(0x1_0000, 0, r1);
    assert InPlace(0x2_0000, 0x2_0000, r4) && InPlace(0x2_0000, 0x2_0000, r3);
    assert InPlace(0x2_0000, 0x2_0000, r2) && InPlace(0x1_0000, 0x1_0000, r1);
    assert Surplus(0x2_0000, 0x2_0000, true, r4) == Surplus(0x2_0000, 0x3_0000, true, r3) == 0;
    assert Surplus(0x2_0000, 0, false, r2) == 0 && Surplus(0x1_0000, 0, false, r1) == 0x1_0000;
    assert LastEnd(0x2_0000, 0x2_0000, r4) == LastEnd(0x2_0000, 0x3_0000, r3) == 0x2_0000;
    assert LastEnd(0x2_0000, 0, r2) == LastEnd(0x1_0000, 0, r1) == 0x2_0000;
    assert Load(0x2_0000, image, r4) == Load(0x2_0000, image, r3) == image;
    assert Load(0x2_0000, NOTHING, r2) == Load(0x1_0000, NOTHING, r1) == image;
  }

  lemma CancellingOutput(v: byte, records: seq<Record>)
    requires records == [Segment(1), Segment(2), Data(0xFFFF, [v]), Data(0, []), EndOfFile]
    ensures AllFit(records) && Converted(START, records) == Pad(0x1_0000) + Pad(0x2_0000)
  {
    var r1 := records[1..];
    var r2 := r1[1..];
    var r3 := r2[1..];
    assert r1 == [Segment(2), Data(0xFFFF, [v]), Data(0, []), EndOfFile];
    assert r2 == [Data(0xFFFF, [v]), Data(0, []), EndOfFile] && r3 == [Data(0, []), EndOfFile];
    assert r3[1..] == [EndOfFile];
    var w1, w2, w3, w4 := CancellingSteps(v);
    hide Step, Pad, Converted;
    ConvertedStep(START, records, Segment(1), r1);
    ConvertedStep(w1, r1, Segment(2), r2);
    ConvertedStep(w2, r2, Data(0xFFFF, [v]), r3);
    ConvertedStep(w3, r3, Data(0, []), [EndOfFile]);
    ConvertedEnd(w4, EndOfFile);
    assert w4.out + w4.bin[..0] == w4.out;
  }

  lemma CancellingSteps(v: byte) returns (w1: Reader, w2: Reader, w3: Reader, w4: Reader)
    ensures w1 == Step(START, Segment(1)) && w2 == Step(w1, Segment(2))
    ensures w3 == Step(w2, Data(0xFFFF, [v])) && w4 == Step(w3, Data(0, []))
    ensures w4.binLen == 0 && w4.out == Pad(0x1_0000) + Pad(0x2_0000)
  {
    w1 := Step(START, Segment(1));
    assert w1.binLen == 0 && w1.addrNext == 0 && w1.out == Pad(0x1_0000);
    w2 := Step(w1, Segment(2));
    assert w2.out == Pad(0x1_0000) + Pad(0x2_0000);
    hide Pad;
    w3 := Step(w2, Data(0xFFFF, [v]));
    w4 := Step(w3, Data(0, []));
  }

  /**
    A byte that is moved and a later one in the right place: the length is right, and whether the output
    is the image depends on the value of the moved byte.
  */
  lemma MovedByteDecides(v: byte, stale: seq<byte>)
    requires |stale| == BUFFER_SIZE
    ensures var records := Scan(MovedText(v), stale);
            && AllFit(records) && Ascending(0, 0, records) && !WrongLength(records)
            && !InPlace(0, 0, records) && Surplus(0, 0, false, records) == 0
            && (Converted(START, records) == Contents(Load(0, NOTHING, records)) <==> v == 0xFF)
  {
    hide Scan, DataText, ParagraphText;
    var b1 := ScanParagraph(1, DataText(0, [v]) + (ParagraphText(0) + (DataText(16, [7]) + END_OF_FILE)), stale);
    var b2 := ScanData(0, [v], ParagraphText(0) + (DataText(16, [7]) + END_OF_FILE), b1);
    var b3 := ScanParagraph(0, DataText(16, [7]) + END_OF_FILE, b2);
    var b4 := ScanData(16, [7], END_OF_FILE, b3);
    ScanEnd(b4);
    var records := [Paragraph(1), Data(0, [v]), Paragraph(0), Data(16, [7]), EndOfFile];
    assert [Paragraph(1)] + ([Data(0, [v])] + ([Paragraph(0)] + ([Data(16, [7])] + [EndOfFile]))) == records;
    MovedRecords(v, records);
    hide *;
  }

  function MovedText(v: byte): string {
    ParagraphText(1) + (DataText(0, [v]) + (ParagraphText(0) + (DataText(16, [7]) + END_OF_FILE)))
  }

  lemma MovedRecords(v: byte, records: seq<Record>)
    requires records == [Paragraph(1), Data(0, [v]), Paragraph(0), Data(16, [7]), EndOfFile]
    ensures AllFit(records) && Ascending(0, 0, records) && !WrongLength(records)
    ensures !InPlace(0, 0, records) && Surplus(0, 0, false, records) == 0
    ensures Converted(START, records) == Contents(Load(0, NOTHING, records)) <==> v == 0xFF
  {
    MovedSums(v, records);
    var out := MovedOutput(v, records);
    hide Converted, Load, Ascending, WrongLength, InPlace, Surplus;
    var image := Wrote(Wrote(NOTHING, 16, [v]), 16, [7]);
    assert image.end == 17 && At(image.mem, 16) == 7;
    assert forall i :: 0 <= i < 16 ==> Contents(image)[i] == At(image.mem, i) == 0xFF;
    assert Contents(image)[16] == At(image.mem, 16);
  }

  lemma MovedSums(v: byte, records: seq<Record>)
    requires records == [Paragraph(1), Data(0, [v]), Paragraph(0), Data(16, [7]), EndOfFile]
    ensures Ascending(0, 0, records) && !WrongLength(records)
    ensures !InPlace(0, 0, records) && Surplus(0, 0, false, records) == 0
    ensures Load(0, NOTHING, records) == Wrote(Wrote(NOTHING, 16, [v]), 16, [7])
  {
    var r1 := [Data(0, [v]), Paragraph(0), Data(16, [7]), EndOfFile];
    var r2 := [Paragraph(0), Data(16, [7]), EndOfFile];
    var r3, r4 := [Data(16, [7]), EndOfFile], [EndOfFile];
    assert records[1..] == r1 && r1[1..] == r2 && r2[1..] == r3 && r3[1..] == r4;
    var first := Wrote(NOTHING, 16, [v]);
    var image := Wrote(first, 16, [7]);
    assert Ascending(0, 17, r4) && Ascending(0, 1, r3) && Ascending(0, 1, r2) && Ascending(0, 0, r1);
    assert !InPlace(0, 16, r1);
    assert Surplus(0, 17, true, r4) == Surplus(0, 1, true, r3) == Surplus(0, 1, true, r2) == 0;
    assert Surplus(0, 0, false, r1) == 0;
    assert LastEnd(0, 17, r4) == LastEnd(0, 1, r3) == LastEnd(0, 1, r2) == LastEnd(0, 0, r1) == 17;
    assert Load(0, image, r4) == Load(0, first, r3) == Load(16, first, r2) == Load(16, NOTHING, r1) == image;
  }

  lemma MovedOutput(v: byte, records: seq<Record>) returns (out: seq<byte>)
    requires records == [Paragraph(1), Data(0, [v]), Paragraph(0), Data(16, [7]), EndOfFile]
    ensures AllFit(records) && out == Converted(START, records)
    ensures |out| == 17 && out[0] == v && out[16] == 7 && forall i :: 1 <= i < 16 ==> out[i] == 0xFF
  {
    var r1, r2 := records[1..], records[2..];
    var r3, r4 := records[3..], records[4..];
    assert r4 == [EndOfFile];
    var w1 := Step(START, Data(0, [v]));
    var w2 := Step(w1, Data(16, [7]));
    PassedStep(START, Paragraph(1));
    PassedStep(w1, Paragraph(0));
    out := w2.out + w2.bin[..w2.binLen];
    assert w2.binLen == 17 && w2.bin[0] == v && w2.bin[16] == 7;
    assert forall i :: 1 <= i < 16 ==> w2.bin[i] == 0xFF;
    hide Step, Converted;
    assert records == [Paragraph(1)] + r1 && r1 == [Data(0, [v])] + r2;
    assert r2 == [Paragraph(0)] + r3 && r3 == [Data(16, [7])] + r4;
    ConvertedStep(START, records, Paragraph(1), r1);
    ConvertedStep(START, r1, Data(0, [v]), r2);
    ConvertedStep(w1, r2, Paragraph(0), r3);
    ConvertedStep(w1, r3, Data(16, [7]), r4);
    ConvertedEnd(w2, EndOfFile);
  }

  // ---------- Files without an end ----------

  /** Without an end-of-file record the data of the last segment is never written. */
  lemma {:induction false} LastSegmentLost(w: Reader, records: seq<Record>)
    requires |w.bin| == SEGMENT && w.binLen <= SEGMENT && AllFit(records)
    requires forall i :: 0 <= i < |records| ==> !records[i].Segment? && !records[i].EndOfFile?
    ensures Converted(w, records) == w.out
    decreases |records|
  {
    if records == [] || records[0].Invalid? {
    } else {
      assert records == [records[0]] + records[1..];
      ConvertedStep(w, records, records[0], records[1..]);
      assert Step(w, records[0]).out == w.out;
      LastSegmentLost(Step(w, records[0]), records[1..]);
    }
  }

  /** The reader takes an empty line for the end of the input: nothing is left of the data before and behind it. */
  lemma EmptyLineStops(bytes: seq<byte>, rest: string, stale: seq<byte>)
    requires |stale| == BUFFER_SIZE && |bytes| <= 16
    ensures var records := Scan(DataText(0, bytes) + ("\n" + rest), stale);
            records == [Data(0, bytes)] && AllFit(records) && Converted(START, records) == []
  {
    hide Scan, DataText;
    var b1 := ScanData(0, bytes, "\n" + rest, stale);
    EmptyLine(rest);
    ScanUnfolds("\n" + rest, b1);
    LastSegmentLost(START, [Data(0, bytes)]);
    assert [Data(0, bytes)] + [] == [Data(0, bytes)];
  }

  lemma EmptyLine(rest: string)
    ensures Line("\n" + rest) == []
  {
    var file := "\n" + rest;
    assert file[..LineEnd(file, LINE_LIMIT)] == "\n";
    assert BeforeNul("\n") == "\n" by {
      assert "\n"[1..] == [];
    }
  }
}
