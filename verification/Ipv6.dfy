/** `_parseIpv6Str` of `checksum/parser.c`: the text forms of RFC 4291, section 2.2, without dotted quads. */
module Ipv6 {
  import opened Common

  // ---------- The text forms ----------

  /** The value of a hex digit, or -1. */
  function Digit(ch: char): (v: int)
    ensures -1 <= v < 16
  {
    if '0' <= ch <= '9' then ch as int - '0' as int
    else if 'a' <= ch <= 'f' then ch as int - 'a' as int + 10
    else if 'A' <= ch <= 'F' then ch as int - 'A' as int + 10
    else -1
  }

  predicate IsHex(text: string) {
    forall i :: 0 <= i < |text| ==> Digit(text[i]) >= 0
  }

  predicate IsGroup(text: string) {
    1 <= |text| <= 4 && IsHex(text)
  }

  predicate AreGroups(groups: seq<string>) {
    forall i :: 0 <= i < |groups| ==> IsGroup(groups[i])
  }

  /** An address: all eight groups, or the groups before and after a gap. */
  datatype Address = Address(pre: seq<string>, gap: bool, suf: seq<string>)

  predicate Legal(a: Address) {
    && AreGroups(a.pre) && AreGroups(a.suf)
    && if a.gap then |a.pre| + |a.suf| <= 7 else |a.pre| == 8 && a.suf == []
  }

  function Join(groups: seq<string>): string {
    if groups == [] then ""
    else if |groups| == 1 then groups[0]
    else groups[0] + ":" + Join(groups[1..])
  }

  function Text(a: Address): string {
    if a.gap then Join(a.pre) + "::" + Join(a.suf) else Join(a.pre)
  }

  function Value(digits: string): (v: nat)
    requires IsHex(digits)
  {
    if digits == "" then 0 else 16 * Value(digits[..|digits| - 1]) + Digit(digits[|digits| - 1])
  }

  lemma {:induction false} ValueBound(digits: string)
    requires IsHex(digits) && |digits| <= 4
    ensures Value(digits) < (if |digits| == 4 then 0x1_0000 else if |digits| == 3 then 0x1000
                             else if |digits| == 2 then 0x100 else if |digits| == 1 then 0x10 else 1)
  {
    if digits == "" {
    } else {
      ValueBound(digits[..|digits| - 1]);
    }
  }

  function GroupBytes(group: string): (b: seq<byte>)
    requires IsGroup(group)
    ensures |b| == 2
  {
    ValueBound(group);
    [Value(group) / 256, Value(group) % 256]
  }

  function Bytes(groups: seq<string>): (b: seq<byte>)
    requires AreGroups(groups)
    ensures |b| == 2 * |groups|
  {
    if groups == [] then [] else Bytes(groups[..|groups| - 1]) + GroupBytes(groups[|groups| - 1])
  }

  /** The sixteen bytes of an address: zeros fill the gap. */
  function Octets(a: Address): (b: seq<byte>)
    requires Legal(a)
    ensures |b| == 16
  {
    Bytes(a.pre) + Zeros(16 - 2 * |a.pre| - 2 * |a.suf|) + Bytes(a.suf)
  }

  ghost predicate Denotes(src: string, dst: seq<byte>) {
    exists a :: Legal(a) && Text(a) == src && Octets(a) == dst
  }

  // ---------- The scanner on values ----------

  /** The address so far and the digits since the last colon. */
  datatype State = State(a: Address, digits: string)

  const START := State(Address([], false, []), "")

  predicate Sound(st: State) {
    && AreGroups(st.a.pre) && AreGroups(st.a.suf) && |st.a.pre| + |st.a.suf| <= 8
    && IsHex(st.digits) && |st.digits| <= 4
    && (!st.a.gap ==> st.a.suf == [])
  }

  function AddGroup(a: Address, group: string): Address {
    if a.gap then a.(suf := a.suf + [group]) else a.(pre := a.pre + [group])
  }

  function Groups(a: Address): nat {
    |a.pre| + |a.suf|
  }

  /** The effect of one character, with what is left after it; None is an error. */
  function Next(st: State, ch: char, rest: string): Option<State> {
    if Digit(ch) >= 0 then
      if |st.digits| + 1 > 4 then None else Some(State(st.a, st.digits + [ch]))
    else if ch == ':' then
      if st.digits == "" then
        if st.a.gap then None else Some(State(st.a.(gap := true), ""))
      else if rest == "" then None
      else if Groups(st.a) == 8 then None
      else Some(State(AddGroup(st.a, st.digits), ""))
    else None
  }

  function Run(st: State, text: string): Option<State>
    decreases |text|
  {
    if text == "" then Some(st)
    else match Next(st, text[0], text[1..])
         case None => None
         case Some(next) => Run(next, text[1..])
  }

  /** The end of the text: the last group, and the number of groups that the gap asks for. */
  function Finish(st: State): Option<Address> {
    if st.digits != "" && Groups(st.a) == 8 then None
    else
      var a := if st.digits != "" then AddGroup(st.a, st.digits) else st.a;
      if a.gap then (if Groups(a) == 8 then None else Some(a))
      else if Groups(a) == 8 then Some(a) else None
  }

  function Parsed(src: string): Option<Address> {
    if src != "" && src[0] == ':' && (|src| == 1 || src[1] != ':') then None
    else
      var st := Run(START, if src != "" && src[0] == ':' then src[1..] else src);
      if st.None? then None else Finish(st.value)
  }

  // ---------- Every legal text is accepted ----------

  /** Groups with a colon after each. */
  function Flushed(groups: seq<string>): string {
    if groups == [] then "" else groups[0] + ":" + Flushed(groups[1..])
  }

  lemma {:induction false} RunGroup(a: Address, done: string, group: string, rest: string)
    requires IsHex(group) && |done| + |group| <= 4
    ensures Run(State(a, done), group + rest) == Run(State(a, done + group), rest)
    decreases |group|
  {
    if group == "" {
      assert group + rest == rest && done + group == done;
    } else {
      assert (group + rest)[1..] == group[1..] + rest;
      assert done + [group[0]] + group[1..] == done + group;
      RunGroup(a, done + [group[0]], group[1..], rest);
    }
  }

  lemma RunColon(a: Address, group: string, rest: string)
    requires group != "" && rest != "" && Groups(a) < 8
    ensures Run(State(a, group), ":" + rest) == Run(State(AddGroup(a, group), ""), rest)
  {
    assert (":" + rest)[1..] == rest;
  }

  function AddGroups(a: Address, groups: seq<string>): Address {
    if a.gap then a.(suf := a.suf + groups) else a.(pre := a.pre + groups)
  }

  lemma AddGroupsCons(a: Address, groups: seq<string>)
    requires groups != []
    ensures AddGroups(AddGroup(a, groups[0]), groups[1..]) == AddGroups(a, groups)
  {
    assert [groups[0]] + groups[1..] == groups;
    assert a.suf + [groups[0]] + groups[1..] == a.suf + groups;
    assert a.pre + [groups[0]] + groups[1..] == a.pre + groups;
  }

  lemma AddGroupsLast(a: Address, groups: seq<string>)
    requires groups != []
    ensures AddGroup(AddGroups(a, groups[..|groups| - 1]), groups[|groups| - 1]) == AddGroups(a, groups)
  {
    var n := |groups| - 1;
    assert groups[..n] + [groups[n]] == groups;
    assert a.suf + groups[..n] + [groups[n]] == a.suf + groups;
    assert a.pre + groups[..n] + [groups[n]] == a.pre + groups;
  }

  lemma {:induction false} RunFlushed(a: Address, groups: seq<string>, rest: string)
    requires AreGroups(groups) && Groups(a) + |groups| <= 8 && rest != ""
    ensures Run(State(a, ""), Flushed(groups) + rest) == Run(State(AddGroups(a, groups), ""), rest)
    decreases |groups|
  {
    if groups == [] {
      assert Flushed(groups) + rest == rest;
      assert AddGroups(a, groups) == a;
    } else {
      var more := Flushed(groups[1..]) + rest;
      assert Flushed(groups) + rest == groups[0] + (":" + more);
      RunGroup(a, "", groups[0], ":" + more);
      assert "" + groups[0] == groups[0];
      RunColon(a, groups[0], more);
      hide Run;
      RunFlushed(AddGroup(a, groups[0]), groups[1..], rest);
      AddGroupsCons(a, groups);
    }
  }

  lemma {:induction false} JoinIsFlushed(groups: seq<string>)
    requires groups != []
    ensures Join(groups) == Flushed(groups[..|groups| - 1]) + groups[|groups| - 1]
  {
    if |groups| <= 1 {
    } else {
      JoinIsFlushed(groups[1..]);
      assert groups[..|groups| - 1][1..] == groups[1..][..|groups| - 2];
    }
  }

  lemma {:induction false} JoinColon(groups: seq<string>)
    requires groups != []
    ensures Join(groups) + ":" == Flushed(groups)
  {
    if |groups| > 1 {
      JoinColon(groups[1..]);
    } else {
      assert Flushed(groups[1..]) == "";
    }
  }

  /** The groups at the end of the text. */
  lemma RunJoin(a: Address, groups: seq<string>)
    requires AreGroups(groups) && Groups(a) + |groups| <= 8
    ensures var st := Run(State(a, ""), Join(groups));
            st.Some? && Finish(st.value) == Finish(State(AddGroups(a, groups), ""))
  {
    if groups == [] {
      assert AddGroups(a, groups) == a;
    } else {
      var n := |groups| - 1;
      JoinIsFlushed(groups);
      RunFlushed(a, groups[..n], groups[n]);
      RunGroup(AddGroups(a, groups[..n]), "", groups[n], "");
      assert groups[n] + "" == groups[n] && "" + groups[n] == groups[n];
      AddGroupsLast(a, groups);
    }
  }

  lemma LegalIsParsed(a: Address)
    requires Legal(a)
    ensures Parsed(Text(a)) == Some(a)
  {
    hide Run, Flushed, Join, Value;
    var src := Text(a);
    if !a.gap {
      JoinStart(a.pre);
      RunJoin(START.a, a.pre);
      assert [] + a.pre == a.pre;
    } else {
      var b := Address(a.pre, true, []);
      assert [] + a.suf == a.suf && [] + a.pre == a.pre;
      RunJoin(b, a.suf);
      var rest := ":" + Join(a.suf);
      RunGap(a.pre, Join(a.suf));
      if a.pre == [] {
        JoinEmpty();
        assert src == "::" + Join(a.suf);
        assert src[1..] == rest;
        FlushedEmpty();
        assert "" + rest == rest;
      } else {
        JoinStart(a.pre);
        JoinColon(a.pre);
        assert src == (Join(a.pre) + ":") + rest;
      }
    }
  }

  lemma RunGap(pre: seq<string>, tail: string)
    requires AreGroups(pre) && |pre| <= 8
    ensures Run(START, Flushed(pre) + (":" + tail)) == Run(State(Address(pre, true, []), ""), tail)
  {
    RunFlushed(START.a, pre, ":" + tail);
    assert [] + pre == pre;
    assert (":" + tail)[1..] == tail;
    assert Run(State(Address(pre, false, []), ""), ":" + tail) == Run(State(Address(pre, true, []), ""), tail);
  }

  lemma JoinEmpty()
    ensures Join([]) == ""
  {
  }

  lemma FlushedEmpty()
    ensures Flushed([]) == ""
  {
  }

  lemma JoinStart(groups: seq<string>)
    requires AreGroups(groups) && groups != []
    ensures Join(groups) != "" && Digit(Join(groups)[0]) >= 0
  {
  }

  // ---------- Whatever is accepted is legal ----------

  /** What the scanner has read when it is in this state. */
  function Shown(st: State): string {
    Flushed(st.a.pre) + (if st.a.gap then ":" + Flushed(st.a.suf) else "") + st.digits
  }

  lemma {:induction false} FlushedAppend(groups: seq<string>, group: string)
    ensures Flushed(groups + [group]) == Flushed(groups) + group + ":"
  {
    if groups == [] {
      assert Flushed([group][1..]) == "";
    } else {
      FlushedAppend(groups[1..], group);
      assert (groups + [group])[1..] == groups[1..] + [group];
    }
  }

  lemma NextShown(st: State, ch: char, rest: string)
    requires Sound(st) && Next(st, ch, rest).Some?
    ensures Sound(Next(st, ch, rest).value)
    ensures Shown(Next(st, ch, rest).value) == Shown(st) + [ch]
  {
    hide Flushed, Digit;
    FlushedEmptyHidden();
    var next := Next(st, ch, rest).value;
    if ch == ':' && Digit(ch) < 0 && st.digits != "" {
      FlushedAppend(if st.a.gap then st.a.suf else st.a.pre, st.digits);
    }
  }

  lemma FlushedEmptyHidden()
    ensures Flushed([]) == ""
  {
  }

  lemma {:induction false} RunShown(st: State, text: string)
    requires Sound(st) && Run(st, text).Some?
    ensures Sound(Run(st, text).value)
    ensures Shown(Run(st, text).value) == Shown(st) + text
    decreases |text|
  {
    hide Shown, Next;
    if text == "" {
      assert Shown(st) + text == Shown(st);
    } else {
      NextShown(st, text[0], text[1..]);
      RunShown(Next(st, text[0], text[1..]).value, text[1..]);
      assert Shown(st) + [text[0]] + text[1..] == Shown(st) + text;
    }
  }

  /** The scanner never stops behind a single colon. */
  lemma {:induction false} RunClosed(st: State, text: string)
    requires Sound(st) && Run(st, text).Some? && text != ""
    ensures var end := Run(st, text).value; end.digits != "" || (end.a.gap && end.a.suf == [])
    decreases |text|
  {
    hide Shown;
    NextShown(st, text[0], text[1..]);
    if text[1..] == "" {
    } else {
      RunClosed(Next(st, text[0], text[1..]).value, text[1..]);
    }
  }

  /** The text of a finished address, in terms of what the scanner has read. */
  lemma FinishedText(st: State)
    requires Sound(st) && Finish(st).Some?
    requires st.digits != "" || (st.a.gap && st.a.suf == [])
    ensures var a := Finish(st).value;
            && Legal(a)
            && Shown(st) == if a.gap then Flushed(a.pre) + ":" + Join(a.suf) else Join(a.pre)
  {
    hide Flushed, Join;
    FlushedEmptyHidden();
    JoinEmpty();
    var a := Finish(st).value;
    if st.digits != "" {
      var groups := if a.gap then a.suf else a.pre;
      JoinIsFlushed(groups);
      assert groups[..|groups| - 1] == if a.gap then st.a.suf else st.a.pre;
    }
  }

  lemma ParsedIsLegal(src: string)
    requires Parsed(src).Some?
    ensures Legal(Parsed(src).value) && Text(Parsed(src).value) == src
  {
    hide Run, Flushed, Join, Finish, Shown;
    var leading := src != "" && src[0] == ':';
    var text := if leading then src[1..] else src;
    if text == "" {
      EmptyIsRejected();
    } else {
      var st := Run(START, text).value;
      ShownStart();
      RunShown(START, text);
      RunClosed(START, text);
      FinishedText(st);
      assert Shown(st) == text;
      var a := Parsed(src).value;
      if a.pre != [] {
        JoinStart(a.pre);
        JoinColon(a.pre);
        assert text[0] == Join(a.pre)[0];
        assert !leading;
        assert a.gap ==> Join(a.pre) + ":" + ":" + Join(a.suf) == Join(a.pre) + "::" + Join(a.suf);
      } else {
        JoinEmpty();
        FlushedEmpty();
        assert "" + ":" + Join(a.suf) == ":" + Join(a.suf);
        assert leading;
        assert src == ":" + text;
      }
    }
  }

  lemma EmptyIsRejected()
    ensures Parsed("").None?
  {
  }

  lemma ShownStart()
    ensures Shown(START) == "" && Sound(START)
  {
  }

  lemma AddressUnique(a: Address, b: Address)
    requires Legal(a) && Legal(b) && Text(a) == Text(b)
    ensures a == b
  {
    LegalIsParsed(a);
    LegalIsParsed(b);
  }

  /** The accepted texts are exactly the legal ones, and what they denote is unique. */
  lemma AcceptedIffLegal(src: string)
    ensures match Parsed(src)
            case None => forall dst :: !Denotes(src, dst)
            case Some(a) => Legal(a) && forall dst :: Denotes(src, dst) <==> dst == Octets(a)
  {
    hide Parsed, Text, Octets;
    forall a | Legal(a) && Text(a) == src
      ensures Parsed(src) == Some(a)
    {
      LegalIsParsed(a);
    }
    if Parsed(src).Some? {
      ParsedIsLegal(src);
    }
  }

  // ---------- The parser ----------

  /** The buffer before the shift: the groups so far, then zeros. */
  predicate Holds(tmp: seq<byte>, a: Address) {
    && AreGroups(a.pre) && AreGroups(a.suf) && Groups(a) <= 8
    && (!a.gap ==> a.suf == [])
    && tmp == Bytes(a.pre) + Bytes(a.suf) + Zeros(16 - 2 * Groups(a))
  }

  lemma HoldsGroup(tmp: seq<byte>, a: Address, group: string)
    requires Holds(tmp, a) && IsGroup(group) && Groups(a) < 8
    ensures Groups(AddGroup(a, group)) == Groups(a) + 1
    ensures |tmp| == 16
    ensures var n := 2 * Groups(a);
            Holds(tmp[n := GroupBytes(group)[0]][n + 1 := GroupBytes(group)[1]], AddGroup(a, group))
  {
    hide GroupBytes, Bytes;
    var b := GroupBytes(group);
    BytesAppend(a.pre, group);
    BytesAppend(a.suf, group);
    StoredPair(Bytes(a.pre) + Bytes(a.suf), tmp, b);
    if !a.gap {
      NoBytes();
      assert Bytes(a.pre) + Bytes(a.suf) + b == Bytes(a.pre + [group]) + Bytes(a.suf);
    } else {
      assert Bytes(a.pre) + Bytes(a.suf) + b == Bytes(a.pre) + Bytes(a.suf + [group]);
    }
    hide IsGroup, Zeros;
  }

  lemma NoBytes()
    ensures Bytes([]) == []
  {
  }

  lemma StoredPair(front: seq<byte>, tmp: seq<byte>, b: seq<byte>)
    requires |front| <= 14 && tmp == front + Zeros(16 - |front|) && |b| == 2
    ensures tmp[|front| := b[0]][|front| + 1 := b[1]] == front + b + Zeros(14 - |front|)
  {
  }

  lemma BytesAppend(groups: seq<string>, group: string)
    requires AreGroups(groups) && IsGroup(group)
    ensures AreGroups(groups + [group]) && Bytes(groups + [group]) == Bytes(groups) + GroupBytes(group)
  {
    assert (groups + [group])[..|groups|] == groups;
  }

  lemma GroupBytesAre(group: string)
    requires IsGroup(group)
    ensures GroupBytes(group) == [Value(group) / 256 % 256, Value(group) % 256]
    ensures forall a :: Groups(AddGroup(a, group)) == Groups(a) + 1
  {
    ValueBound(group);
  }

  /** The two statements that store a group. */
  method StoreGroup(tmp: array<byte>, tp: nat, value: nat, ghost a: Address, ghost group: string)
    requires tmp.Length == 16 && Holds(tmp[..], a) && tp == 2 * Groups(a) < 16
    requires IsGroup(group) && value == Value(group)
    modifies tmp
    ensures Holds(tmp[..], AddGroup(a, group)) && tp + 2 == 2 * Groups(AddGroup(a, group))
  {
    HoldsGroup(tmp[..], a, group);
    GroupBytesAre(group);
    hide Holds, GroupBytes, Value, IsGroup;
    ghost var was: seq<byte> := tmp[..];
    tmp[tp] := value / 256 % 256;
    tmp[tp + 1] := value % 256;
    assert tmp[..] == was[tp := GroupBytes(group)[0]][tp + 1 := GroupBytes(group)[1]];
  }

  /** The shift by hand: every byte after the gap moves to the end, its old place becomes zero. */
  method ShiftToEnd(tmp: array<byte>, colonp: nat, tp: nat)
    requires tmp.Length == 16 && colonp <= tp < 16
    requires forall k :: tp <= k < 16 ==> tmp[k] == 0
    modifies tmp
    ensures tmp[..] == old(tmp[..colonp]) + Zeros(16 - tp) + old(tmp[colonp..tp])
  {
    var n := tp - colonp;
    var i := 1;
    while i <= n
      invariant 1 <= i <= n + 1
      invariant forall k :: 0 <= k <= tp - i ==> tmp[k] == old(tmp[k])
      invariant forall k :: tp - i < k <= 16 - i ==> tmp[k] == 0
      invariant forall k :: 16 - i < k < 16 ==> tmp[k] == old(tmp[k - (16 - tp)])
    {
      tmp[16 - i] := tmp[colonp + n - i];
      tmp[colonp + n - i] := 0;
      i := i + 1;
    }
  }

  lemma ShiftedOctets(tmp: seq<byte>, a: Address)
    requires Holds(tmp, a) && Legal(a) && a.gap
    ensures |tmp| == 16
    ensures forall k :: 2 * Groups(a) <= k < 16 ==> tmp[k] == 0
    ensures var colonp, tp := 2 * |a.pre|, 2 * Groups(a);
            tmp[..colonp] + Zeros(16 - tp) + tmp[colonp..tp] == Octets(a)
  {
    assert tmp[..2 * |a.pre|] == Bytes(a.pre);
    assert tmp[2 * |a.pre|..2 * Groups(a)] == Bytes(a.suf);
  }

  /**
    `_parseIpv6Str`: succeeds exactly for the legal texts, with the sixteen bytes that the text
    denotes. The text is a C string: it contains no NUL.
  */
  method ParseIpv6Str(src: string) returns (ok: bool, dst: seq<byte>)
    requires forall i :: 0 <= i < |src| ==> src[i] != '\0'
    ensures ok <==> exists d :: Denotes(src, d)
    ensures ok ==> forall d :: Denotes(src, d) <==> d == dst
  {
    AcceptedIffLegal(src);
    var parsed: Option<seq<byte>> := Scan(src);
    match parsed
    case None => return false, [];
    case Some(d) => 
      assert Denotes(src, d);
      return true, d;
  }

  lemma HoldsStart(tmp: seq<byte>)
    requires |tmp| == 16 && forall i :: 0 <= i < 16 ==> tmp[i] == 0
    ensures Holds(tmp, START.a) && Value("") == 0
  {
  }

  lemma RunStep(st: State, ch: char, rest: string)
    ensures Run(st, [ch] + rest) == match Next(st, ch, rest)
                                    case None => None
                                    case Some(next) => Run(next, rest)
  {
    assert ([ch] + rest)[1..] == rest;
  }

  lemma RunEnd(st: State)
    ensures Run(st, "") == Some(st)
  {
  }

  lemma ValueAppend(digits: string, ch: char)
    requires IsHex(digits) && Digit(ch) >= 0
    ensures IsHex(digits + [ch]) && Value(digits + [ch]) == 16 * Value(digits) + Digit(ch)
  {
    assert (digits + [ch])[..|digits|] == digits;
  }

  lemma HoldsGap(tmp: seq<byte>, a: Address)
    requires Holds(tmp, a) && !a.gap
    ensures Holds(tmp, a.(gap := true))
  {
  }

  lemma FullOctets(tmp: seq<byte>, a: Address)
    requires Holds(tmp, a) && !a.gap && Groups(a) == 8
    ensures Legal(a) && Octets(a) == tmp
  {
  }

  /** The loop over the characters: collects groups in `tmp`. */
  method Accumulate(src: string, start: nat, tmp: array<byte>)
    returns (ok: bool, tp: nat, colonp: int, seen: nat, val: nat, ghost st: State)
    requires start <= |src| && tmp.Length == 16 && Holds(tmp[..], START.a)
    modifies tmp
    ensures Run(START, src[start..]) == if ok then Some(st) else None
    ensures ok ==> Sound(st) && Holds(tmp[..], st.a) && tp == 2 * Groups(st.a)
    ensures ok ==> colonp == if st.a.gap then 2 * |st.a.pre| else -1
    ensures ok ==> seen == |st.digits| && val == Value(st.digits)
  {
    hide Run, Value, Holds, Digit;
    NoDigits();
    tp, colonp, seen, val := 0, -1, 0, 0;
    st := START;
    var p := start;
    while p < |src|
      invariant start <= p <= |src| && Sound(st)
      invariant Run(START, src[start..]) == Run(st, src[p..])
      invariant Holds(tmp[..], st.a) && tp == 2 * Groups(st.a)
      invariant colonp == if st.a.gap then 2 * |st.a.pre| else -1
      invariant seen == |st.digits| && val == Value(st.digits)
    {
      var ch := src[p];
      p := p + 1;
      ghost var rest := src[p..];
      assert src[p - 1..] == [ch] + rest;
      RunStep(st, ch, rest);
      if Digit(ch) >= 0 {
        val := 16 * val + Digit(ch);
        seen := seen + 1;
        if seen > 4 {
          return false, tp, colonp, seen, val, st;
        }
        ValueAppend(st.digits, ch);
        st := State(st.a, st.digits + [ch]);
      } else if ch == ':' {
        if seen == 0 {
          if colonp >= 0 {
            return false, tp, colonp, seen, val, st;
          }
          colonp := tp;
          HoldsGap(tmp[..], st.a);
          st := State(st.a.(gap := true), "");
        } else {
          if p == |src| || tp + 2 > 16 {
            return false, tp, colonp, seen, val, st;
          }
          StoreGroup(tmp, tp, val, st.a, st.digits);
          st := State(AddGroup(st.a, st.digits), "");
          tp, seen, val := tp + 2, 0, 0;
        }
      } else {
        return false, tp, colonp, seen, val, st;
      }
    }
    assert src[p..] == "";
    RunEnd(st);
    ok := true;
  }

  lemma NoDigits()
    ensures Value("") == 0
  {
  }

  method Scan(src: string) returns (result: Option<seq<byte>>)
    ensures result.None? <==> Parsed(src).None?
    ensures result.Some? ==> Legal(Parsed(src).value) && result.value == Octets(Parsed(src).value)
  {
    hide Run, Value, Holds, Octets;
    var tmp := new byte[16](i => 0);
    HoldsStart(tmp[..]);
    var start := 0;
    if src != "" && src[0] == ':' {
      start := 1;
      if |src| == 1 || src[1] != ':' {
        return None;
      }
    }
    assert src[0..] == src;
    var ok, tp, colonp, seen, val, st := Accumulate(src, start, tmp);
    if !ok {
      return None;
    }
    ghost var a := st.a;
    if seen > 0 {
      if tp + 2 > 16 {
        return None;
      }
      StoreGroup(tmp, tp, val, a, st.digits);
      a := AddGroup(a, st.digits);
      tp := tp + 2;
    }
    if colonp >= 0 {
      if tp == 16 {
        return None;
      }
      ShiftedOctets(tmp[..], a);
      ShiftToEnd(tmp, colonp, tp);
      tp := 16;
    } else if tp == 16 {
      FullOctets(tmp[..], a);
    }
    if tp != 16 {
      return None;
    }
    return Some(tmp[..]);
  }
}
