/** What texts `_parseIpv6Str` takes for an address: the digits, their case, and that every address has a text. */
module Ipv6Texts {
  import opened Common
  import opened Ipv6

  // ---------- Digits ----------

  const LOWER: string := "0123456789abcdef"
  const UPPER: string := "0123456789ABCDEF"

  /** A digit counts by its place among the hex digits, in lower or upper case; nothing else is a digit. */
  lemma Digits(v: nat, ch: char)
    requires v < 16
    ensures Digit(LOWER[v]) == v && Digit(UPPER[v]) == v
    ensures Digit(ch) >= 0 ==> ch == LOWER[Digit(ch)] || ch == UPPER[Digit(ch)]
  {
  }

  function Lowered(ch: char): char {
    if 'A' <= ch <= 'F' then (ch as int + 32) as char else ch
  }

  function LoweredText(text: string): (s: string)
    ensures |s| == |text|
  {
    seq(|text|, i requires 0 <= i < |text| => Lowered(text[i]))
  }

  function LoweredGroups(groups: seq<string>): (gs: seq<string>)
    ensures |gs| == |groups|
  {
    seq(|groups|, i requires 0 <= i < |groups| => LoweredText(groups[i]))
  }

  function LoweredAddress(a: Address): Address {
    Address(LoweredGroups(a.pre), a.gap, LoweredGroups(a.suf))
  }

  function LoweredState(st: State): State {
    State(LoweredAddress(st.a), LoweredText(st.digits))
  }

  function LoweredResult(st: Option<State>): Option<State> {
    match st
    case None => None
    case Some(s) => Some(LoweredState(s))
  }

  lemma LoweredDigit(ch: char)
    ensures Digit(Lowered(ch)) == Digit(ch) && (Lowered(ch) == ':' <==> ch == ':')
  {
  }

  lemma LoweredAdd(a: Address, group: string)
    ensures LoweredAddress(AddGroup(a, group)) == AddGroup(LoweredAddress(a), LoweredText(group))
  {
    hide LoweredText;
    assert LoweredGroups(a.suf + [group]) == LoweredGroups(a.suf) + [LoweredText(group)];
    assert LoweredGroups(a.pre + [group]) == LoweredGroups(a.pre) + [LoweredText(group)];
  }

  lemma NextLowered(st: State, ch: char, rest: string)
    ensures Next(LoweredState(st), Lowered(ch), LoweredText(rest)) == LoweredResult(Next(st, ch, rest))
  {
    LoweredDigit(ch);
    LoweredAdd(st.a, st.digits);
    hide Digit, Lowered;
    assert LoweredText(st.digits + [ch]) == LoweredText(st.digits) + [Lowered(ch)];
    assert LoweredText("") == "";
  }

  lemma {:induction false} RunLowered(st: State, text: string)
    ensures Run(LoweredState(st), LoweredText(text)) == LoweredResult(Run(st, text))
    decreases |text|
  {
    hide Next, LoweredState;
    if text == "" {
    } else {
      NextLowered(st, text[0], text[1..]);
      assert LoweredText(text)[1..] == LoweredText(text[1..]);
      if Next(st, text[0], text[1..]).Some? {
        RunLowered(Next(st, text[0], text[1..]).value, text[1..]);
      }
    }
  }

  lemma FinishLowered(st: State)
    ensures Finish(LoweredState(st)) == match Finish(st)
                                        case None => None
                                        case Some(a) => Some(LoweredAddress(a))
  {
    LoweredAdd(st.a, st.digits);
    hide LoweredText;
    assert |LoweredText(st.digits)| == |st.digits|;
  }

  lemma ParsedLowered(src: string)
    ensures Parsed(LoweredText(src)) == match Parsed(src)
                                        case None => None
                                        case Some(a) => Some(LoweredAddress(a))
  {
    hide Run, Finish, Digit;
    forall i | 0 <= i < |src|
      ensures LoweredText(src)[i] == ':' <==> src[i] == ':'
    {
      LoweredDigit(src[i]);
    }
    var text := if src != "" && src[0] == ':' then src[1..] else src;
    assert LoweredState(START) == START;
    assert src != "" ==> LoweredText(src[1..]) == LoweredText(src)[1..];
    RunLowered(START, text);
    if Run(START, text).Some? {
      FinishLowered(Run(START, text).value);
    }
  }

  lemma {:induction false} ValueLowered(digits: string)
    requires IsHex(digits)
    ensures IsHex(LoweredText(digits)) && Value(LoweredText(digits)) == Value(digits)
  {
    hide Digit, Lowered;
    forall i | 0 <= i < |digits|
      ensures Digit(LoweredText(digits)[i]) == Digit(digits[i])
    {
      LoweredDigit(digits[i]);
    }
    if digits == "" {
    } else {
      var n := |digits| - 1;
      ValueLowered(digits[..n]);
      assert LoweredText(digits)[..n] == LoweredText(digits[..n]);
    }
  }

  lemma {:induction false} BytesLowered(groups: seq<string>)
    requires AreGroups(groups)
    ensures AreGroups(LoweredGroups(groups)) && Bytes(LoweredGroups(groups)) == Bytes(groups)
  {
    hide IsHex, Value, LoweredText;
    forall i | 0 <= i < |groups|
      ensures IsGroup(LoweredText(groups[i]))
    {
      ValueLowered(groups[i]);
    }
    if groups == [] {
    } else {
      var n := |groups| - 1;
      BytesLowered(groups[..n]);
      ValueLowered(groups[n]);
      assert LoweredGroups(groups)[..n] == LoweredGroups(groups[..n]);
    }
  }

  /** The case of the digits does not matter. */
  lemma CaseIgnored(src: string, dst: seq<byte>)
    ensures Denotes(src, dst) <==> Denotes(LoweredText(src), dst)
  {
    hide Parsed, LoweredText, Bytes, Denotes;
    AcceptedIffLegal(src);
    AcceptedIffLegal(LoweredText(src));
    ParsedLowered(src);
    if Parsed(src).Some? {
      BytesLowered(Parsed(src).value.pre);
      BytesLowered(Parsed(src).value.suf);
    }
  }

  // ---------- Every address can be written ----------

  function HexChar(v: byte): (ch: char)
    requires v < 16
  {
    LOWER[v]
  }

  /** `%02x%02x` of two bytes. */
  function GroupText(p: byte, q: byte): string {
    [HexChar(p / 16), HexChar(p % 16), HexChar(q / 16), HexChar(q % 16)]
  }

  lemma GroupValue(p: byte, q: byte)
    ensures IsGroup(GroupText(p, q)) && GroupBytes(GroupText(p, q)) == [p, q]
  {
    var g := GroupText(p, q);
    HexCharDigit(p / 16);
    HexCharDigit(p % 16);
    HexCharDigit(q / 16);
    HexCharDigit(q % 16);
    hide HexChar, Digit;
    assert IsHex(g);
    assert g[..3][..2] == g[..2] && g[..2][..1] == g[..1] && g[..1][..0] == "";
    assert Value(g[..1]) == p / 16;
    assert Value(g[..2]) == p;
    assert Value(g[..3]) == 16 * p as int + q as int / 16;
    assert Value(g) == 256 * p as int + q as int;
  }

  lemma HexCharDigit(v: byte)
    requires v < 16
    ensures Digit(HexChar(v)) == v
  {
  }

  function GroupTexts(bytes: seq<byte>): (groups: seq<string>)
    requires |bytes| % 2 == 0
    ensures |groups| == |bytes| / 2
  {
    if bytes == [] then []
    else GroupTexts(bytes[..|bytes| - 2]) + [GroupText(bytes[|bytes| - 2], bytes[|bytes| - 1])]
  }

  lemma {:induction false} GroupTextsBytes(bytes: seq<byte>)
    requires |bytes| % 2 == 0
    ensures AreGroups(GroupTexts(bytes)) && Bytes(GroupTexts(bytes)) == bytes
  {
    if bytes == [] {
    } else {
      var front, p, q := bytes[..|bytes| - 2], bytes[|bytes| - 2], bytes[|bytes| - 1];
      assert bytes == front + [p, q];
      GroupTextsBytes(front);
      var groups, group := GroupTexts(front), GroupText(p, q);
      assert GroupTexts(bytes) == groups + [group];
      hide Bytes, GroupTexts, IsGroup, GroupText, GroupBytes, AreGroups;
      GroupValue(p, q);
      BytesAppend(groups, group);
    }
  }

  /** The eight groups of an address in full are read as its sixteen bytes. */
  lemma WrittenIsRead(dst: seq<byte>)
    requires |dst| == 16
    ensures Denotes(Join(GroupTexts(dst)), dst)
  {
    GroupTextsBytes(dst);
    hide Join, GroupTexts, IsGroup, Bytes;
    var a := Address(GroupTexts(dst), false, []);
    NoBytes();
    assert Legal(a) && Text(a) == Join(GroupTexts(dst)) && Octets(a) == dst;
  }

  /** A gap alone is the address of zeros; a group behind it is the end of the address. */
  lemma GapAlone(p: byte, q: byte)
    ensures Denotes("::", Zeros(16))
    ensures Denotes("::" + GroupText(p, q), Zeros(14) + [p, q])
  {
    GroupValue(p, q);
    NoBytes();
    JoinEmpty();
    BytesAppend([], GroupText(p, q));
    hide GroupBytes, IsGroup, GroupText, Bytes;
    var a, b := Address([], true, []), Address([], true, [GroupText(p, q)]);
    assert [] + [GroupText(p, q)] == [GroupText(p, q)];
    assert Legal(a) && Text(a) == "::" && Octets(a) == Zeros(16);
    assert Legal(b) && Text(b) == "::" + GroupText(p, q) && Octets(b) == Zeros(14) + [p, q];
  }
}
