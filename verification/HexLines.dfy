/** How `intel_hex.c` splits its input into lines, and what makes a line a record. */
module HexLines {
  import opened Common
  import opened IntelHex
  import opened HexRoundTrip

  // ---------- One line ----------

  const LF := "\n"
  const CRLF := "\r\n"

  function Ending(cr: bool): string {
    if cr then CRLF else LF
  }

  /** A line ends at "\n" or "\r\n"; neither belongs to it. */
  lemma LineEnds(body: string, cr: bool, rest: string)
    requires Printable(body) && |body| + 2 < LINE_LIMIT
    ensures Line(body + Ending(cr) + rest) == body
    ensures AfterLine(body + Ending(cr) + rest) == rest
  {
    hide LineEnd, BeforeNul;
    var front := if cr then body + ['\r'] else body;
    var file, chunk := body + Ending(cr) + rest, front + ['\n'];
    assert file == front + ['\n'] + rest;
    LineEndAt(front, rest, LINE_LIMIT);
    assert file[..|chunk|] == chunk && file[|chunk|..] == rest;
    NoNul(chunk);
    assert StripEnd(chunk, '\n') == front;
    assert StripEnd(front, '\r') == body;
  }

  lemma {:induction false} NoLineEnd(text: string, limit: nat)
    requires Printable(text)
    ensures LineEnd(text, limit) == if |text| < limit then |text| else limit
  {
    if text == [] || limit == 0 {
    } else {
      NoLineEnd(text[1..], limit - 1);
    }
  }

  lemma {:induction false} LineEndCut(text: string, rest: string, limit: nat)
    requires Printable(text) && limit <= |text|
    ensures LineEnd(text + rest, limit) == limit
  {
    if limit == 0 {
    } else {
      LineEndCut(text[1..], rest, limit - 1);
      assert (text + rest)[1..] == text[1..] + rest;
    }
  }

  /** The last line needs no end; a line of 1022 characters or more is cut there. */
  lemma LineWithoutEnd(body: string, rest: string)
    requires Printable(body)
    ensures |body| <= 1022 ==> Line(body) == body && AfterLine(body) == []
    ensures |body| == 1022 ==> Line(body + rest) == body && AfterLine(body + rest) == rest
  {
    hide LineEnd, BeforeNul;
    NoNul(body);
    NoLineEnd(body, LINE_LIMIT);
    if |body| == 1022 {
      LineEndCut(body, rest, LINE_LIMIT);
      assert (body + rest)[..1022] == body && (body + rest)[1022..] == rest;
    }
    assert body[..|body|] == body;
    assert body == [] || (body[|body| - 1] != '\n' && body[|body| - 1] != '\r');
  }

  lemma {:induction false} NulCuts(a: string, b: string)
    requires Printable(a)
    ensures BeforeNul(a + ['\0'] + b) == a
  {
    if a == [] {
    } else {
      NulCuts(a[1..], b);
      assert (a + ['\0'] + b)[1..] == a[1..] + ['\0'] + b;
    }
  }

  /** What stands behind a NUL in a line is lost. */
  lemma NulHidesRest(a: string, b: string, rest: string)
    requires Printable(a) && Printable(b) && |a| + |b| + 2 < LINE_LIMIT
    ensures Line(a + ['\0'] + b + LF + rest) == a
    ensures AfterLine(a + ['\0'] + b + LF + rest) == rest
  {
    hide LineEnd, BeforeNul;
    var front := a + ['\0'] + b;
    LineEndAt(front, rest, LINE_LIMIT);
    var file, chunk := front + LF + rest, front + LF;
    assert file[..|chunk|] == chunk && file[|chunk|..] == rest;
    assert chunk == a + ['\0'] + (b + LF);
    NulCuts(a, b + LF);
    assert a == [] || (a[|a| - 1] != '\n' && a[|a| - 1] != '\r');
  }

  /** A line that is odd, too long or wrong in its sum, or holds less than it says, ends the reading. */
  lemma BadLineStops(text: string, cr: bool, rest: string, buf: seq<byte>)
    requires Printable(text) && |text| + 3 < LINE_LIMIT && |buf| == BUFFER_SIZE
    requires |text| % 2 != 0 || |text| > 600 || Sum(Bytes(text)) % 256 != 0 || |text| < 10
             || |text| / 2 - 5 < Bytes(text)[0]
    ensures Scan(":" + text + Ending(cr) + rest, buf) == [Invalid]
  {
    LineEnds(":" + text, cr, rest);
    ScanUnfolds(":" + text + Ending(cr) + rest, buf);
    hide Scan, Line, AfterLine, Sum, Bytes;
    assert (":" + text)[1..] == text;
    if |text| % 2 == 0 && 10 <= |text| <= 600 {
      assert Refilled(buf, text)[0] == Bytes(text)[0];
    }
  }

  /** A line that does not start with a colon is passed over. */
  lemma OtherLineIgnored(body: string, cr: bool, rest: string, buf: seq<byte>)
    requires Printable(body) && |body| + 2 < LINE_LIMIT && |buf| == BUFFER_SIZE
    requires body != [] && body[0] != ':'
    ensures Scan(body + Ending(cr) + rest, buf) == Scan(rest, buf)
  {
    LineEnds(body, cr, rest);
    ScanUnfolds(body + Ending(cr) + rest, buf);
    hide Scan, Line, AfterLine;
  }

  // ---------- All lines ----------

  predicate GoodLines(lines: seq<string>) {
    forall k :: 0 <= k < |lines| ==> Printable(lines[k]) && |lines[k]| + 2 < LINE_LIMIT
  }

  /** A text of the given lines, some of which end in "\r\n", the others in "\n". */
  function Joined(lines: seq<string>, crs: seq<bool>): string
    requires |lines| == |crs|
  {
    if lines == [] then [] else lines[0] + Ending(crs[0]) + Joined(lines[1..], crs[1..])
  }

  /** The records of a text do not depend on how its lines end. */
  lemma {:induction false} EndingsIgnored(lines: seq<string>, a: seq<bool>, b: seq<bool>, buf: seq<byte>)
    requires |lines| == |a| == |b| && GoodLines(lines) && |buf| == BUFFER_SIZE
    ensures Scan(Joined(lines, a), buf) == Scan(Joined(lines, b), buf)
    decreases |lines|
  {
    if lines == [] {
    } else {
      LineEnds(lines[0], a[0], Joined(lines[1..], a[1..]));
      LineEnds(lines[0], b[0], Joined(lines[1..], b[1..]));
      ScanUnfolds(Joined(lines, a), buf);
      ScanUnfolds(Joined(lines, b), buf);
      hide Scan, Line, AfterLine, Printable, Ending, Decoded, ParsedLength, RecordIn;
      var buf' := if lines[0] == [] || lines[0][0] != ':' then buf else Refilled(buf, lines[0][1..]);
      EndingsIgnored(lines[1..], a[1..], b[1..], buf');
    }
  }

  lemma {:induction false} JoinedConcat(p: seq<string>, q: seq<string>, a: seq<bool>, b: seq<bool>)
    requires |p| == |a| && |q| == |b|
    ensures Joined(p + q, a + b) == Joined(p, a) + Joined(q, b)
    decreases |p|
  {
    hide Ending;
    if p == [] {
      assert p + q == q && a + b == b;
    } else {
      JoinedConcat(p[1..], q, a[1..], b);
      assert (p + q)[1..] == p[1..] + q && (a + b)[1..] == a[1..] + b;
    }
  }

  // ---------- What the writer writes ----------

  /** The line for a record, without its end. */
  function Body(payload: seq<byte>): string {
    ":" + Hex(payload + [Checksum(payload)])
  }

  function AddressBody(upper: word16): string {
    Body([2, 0, 0, 4, upper / 256, upper % 256])
  }

  /** The lines for x from position i on. */
  function WrittenLines(x: seq<byte>, i: nat): (lines: seq<string>)
    decreases |x| - i
  {
    if i >= |x| then [":00000001FF"]
    else (if i > 0 && i % SEGMENT == 0 && i / SEGMENT < SEGMENT then [AddressBody(i / SEGMENT)] else [])
         + ([Body(DataPayload(x, i))] + WrittenLines(x, i + BLOCK))
  }

  function AllCr(n: nat): (crs: seq<bool>)
    ensures |crs| == n
  {
    seq(n, _ => true)
  }

  lemma AllCrConcat(m: nat, n: nat)
    ensures AllCr(m) + AllCr(n) == AllCr(m + n)
  {
  }

  lemma OneLine(line: string)
    ensures Joined([line], AllCr(1)) == line + "\r\n"
  {
    assert [line][1..] == [];
    assert Joined([], AllCr(1)[1..]) == [];
  }

  lemma BodyGood(payload: seq<byte>)
    requires |payload| <= 20
    ensures RecordLine(payload) == Body(payload) + "\r\n" && GoodLines([Body(payload)])
  {
    hide Hex, Checksum;
  }

  lemma GoodConcat(p: seq<string>, q: seq<string>)
    requires GoodLines(p) && GoodLines(q)
    ensures GoodLines(p + q)
  {
    hide Printable;
  }

  lemma {:induction false} LinesWritten(x: seq<byte>, i: nat)
    ensures GoodLines(WrittenLines(x, i))
    ensures Joined(WrittenLines(x, i), AllCr(|WrittenLines(x, i)|)) == TextFrom(x, i)
    decreases |x| - i
  {
    hide Joined, GoodLines, Body, RecordLine, DataPayload, AllCr;
    if i >= |x| {
      OneLine(":00000001FF");
      EndGood();
    } else {
      LinesWritten(x, i + BLOCK);
      PayloadShort(x, i);
      BodyGood(DataPayload(x, i));
      var rest, data := WrittenLines(x, i + BLOCK), [Body(DataPayload(x, i))];
      LinesBefore(data, Body(DataPayload(x, i)), rest);
      if i > 0 && i % SEGMENT == 0 && i / SEGMENT < SEGMENT {
        BodyGood([2, 0, 0, 4, i / SEGMENT / 256, i / SEGMENT % 256]);
        LinesBefore([AddressBody(i / SEGMENT)], AddressBody(i / SEGMENT), data + rest);
      } else {
        assert [] + (data + rest) == data + rest;
      }
    }
  }

  lemma LinesBefore(one: seq<string>, line: string, rest: seq<string>)
    requires one == [line] && GoodLines(one) && GoodLines(rest)
    ensures GoodLines(one + rest)
    ensures Joined(one + rest, AllCr(|one + rest|)) == line + "\r\n" + Joined(rest, AllCr(|rest|))
  {
    hide Joined, GoodLines;
    GoodConcat(one, rest);
    AllCrConcat(1, |rest|);
    JoinedConcat(one, rest, AllCr(1), AllCr(|rest|));
    OneLine(line);
  }

  lemma EndGood()
    ensures GoodLines([":00000001FF"])
  {
  }

  lemma PayloadShort(x: seq<byte>, i: nat)
    requires i < |x|
    ensures |DataPayload(x, i)| <= 20
  {
  }

  /** The file comes back whichever way its lines end. */
  lemma RoundTripAnyEnding(x: seq<byte>, crs: seq<bool>, stale: seq<byte>)
    requires 0 < |x| <= FILE_LIMIT && |stale| == BUFFER_SIZE
    requires |crs| == 1 + |WrittenLines(x, 0)|
    ensures var text := Joined([AddressBody(0)] + WrittenLines(x, 0), crs);
            AllFit(Scan(text, stale)) && Converted(START, Scan(text, stale)) == x
  {
    hide Scan, AllFit, Converted, GoodLines, Body, RecordLine, Joined, TextFrom, WrittenLines, AllCr;
    var lines := [AddressBody(0)] + WrittenLines(x, 0);
    BodyGood([2, 0, 0, 4, 0, 0]);
    LinesWritten(x, 0);
    LinesBefore([AddressBody(0)], AddressBody(0), WrittenLines(x, 0));
    RoundTrip(x, stale);
    EndingsIgnored(lines, crs, AllCr(|lines|), stale);
  }

  /** The digits of the writer, and what the reader takes for a digit. */
  lemma Digits(v: byte, ch: char)
    requires v < 16
    ensures HexDigit(v) == "0123456789ABCDEF"[v]
    ensures Hex2Dec("0123456789ABCDEF"[v]) == v && Hex2Dec("0123456789abcdef"[v]) == v
    ensures ch !in "0123456789ABCDEFabcdef" ==> Hex2Dec(ch) == 0
  {
  }

  /** A data line holds sixteen bytes, the last one what is left, and the offset in its segment. */
  lemma DataLineIs(x: seq<byte>, i: nat)
    requires i < |x|
    ensures var p := DataPayload(x, i);
            && |p| == 4 + p[0] && p[0] == (if i + 16 <= |x| then 16 else |x| - i)
            && p[1] as int * 256 + p[2] as int == i % 65536 && p[3] == 0 && p[4..] == x[i..i + p[0]]
  {
  }

  lemma HexOfByte(b: byte, bytes: seq<byte>)
    ensures Hex([b] + bytes) == [HexDigit(b / 16), HexDigit(b % 16)] + Hex(bytes)
  {
    HexCons([b] + bytes);
    hide Hex;
    assert ([b] + bytes)[1..] == bytes;
  }

  lemma AddressHex(p: byte, q: byte, c: byte)
    ensures Hex([2, 0, 0, 4, p, q, c])
            == "02000004" + [HexDigit(p / 16), HexDigit(p % 16), HexDigit(q / 16), HexDigit(q % 16),
                             HexDigit(c / 16), HexDigit(c % 16)]
  {
    hide Hex, HexDigit;
    HexAppend([2, 0, 0, 4], [p, q, c]);
    assert [2, 0, 0, 4] + [p, q, c] == [2, 0, 0, 4, p, q, c];
    HexOfByte(p, [q, c]);
    HexOfByte(q, [c]);
    HexOfByte(c, []);
    assert [p] + [q, c] == [p, q, c] && [q] + [c] == [q, c] && [c] + [] == [c];
    AddressStart();
  }

  lemma AddressStart()
    ensures Hex([2, 0, 0, 4]) == "02000004" && Hex([]) == []
  {
    HexOfTwo(2, 0);
    HexOfTwo(0, 4);
    HexAppend([2, 0], [0, 4]);
    assert [2, 0] + [0, 4] == [2, 0, 0, 4];
  }

  lemma AddressSum(p: byte, q: byte)
    ensures Sum([2, 0, 0, 4, p, q]) == 6 + p as int + q as int
  {
    hide Sum;
    NoBytes([]);
    SumAppend([], 2);
    SumAppend([2], 0);
    SumAppend([2, 0], 0);
    SumAppend([2, 0, 0], 4);
    SumAppend([2, 0, 0, 4], p);
    SumAppend([2, 0, 0, 4, p], q);
    assert [] + [2] == [2] && [2] + [0] == [2, 0] && [2, 0] + [0] == [2, 0, 0] && [2, 0, 0] + [4] == [2, 0, 0, 4];
    assert [2, 0, 0, 4] + [p] == [2, 0, 0, 4, p] && [2, 0, 0, 4, p] + [q] == [2, 0, 0, 4, p, q];
  }

  lemma OneChecksum(sum: nat, c: byte)
    requires (sum + c as int) % 256 == 0
    ensures (256 - sum % 256) % 256 == c
  {
    var k, m, r := sum / 256, (sum + c as int) / 256, sum % 256;
    assert sum == 256 * k + r && sum + c as int == 256 * m;
    assert r + c as int == 256 * (m - k);
    assert r == 0 || c == 256 - r;
  }

  /** An address line: two bytes, address 0, type 4, the upper address in four digits and the checksum. */
  lemma AddressLineIs(upper: word16, p: byte, q: byte, c: byte)
    requires upper == 256 * p as int + q as int && (6 + p as int + q as int + c as int) % 256 == 0
    ensures ExtLinearAddr(upper)
            == ":02000004" + [HexDigit(p / 16), HexDigit(p % 16), HexDigit(q / 16), HexDigit(q % 16),
                              HexDigit(c / 16), HexDigit(c % 16)] + "\r\n"
  {
    AddressSum(p, q);
    AddressHex(p, q, c);
    hide Hex, Sum, HexDigit;
    var payload: seq<byte> := [2, 0, 0, 4, p, q];
    assert upper / 256 == p && upper % 256 == q;
    OneChecksum(6 + p as int + q as int, c);
    assert payload + [c] == [2, 0, 0, 4, p, q, c];
  }
}
