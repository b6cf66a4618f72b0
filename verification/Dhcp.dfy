/** The option area of a DHCP packet (RFC 2132, section 2), as `dhcp_probe/dhcp_options.c` reads and extends it. */
module Dhcp {
  import opened Common

  const OPTIONS_SIZE: nat := 308
  const DHCP_PADDING: byte := 0x00
  const DHCP_OPTION_OVER: byte := 0x34
  const DHCP_END: byte := 0xFF

  // ---------- What an area means ----------

  datatype Item = Pad | Opt(code: byte, data: seq<byte>)

  /** The items before the end option, and its position. */
  datatype Area = Area(items: seq<Item>, end: nat)

  function Prepend(item: Item, area: Option<Area>): Option<Area> {
    match area
    case None => None
    case Some(a) => Some(Area([item] + a.items, a.end))
  }

  /** The meaning of the area from position i on; None if it runs over the end without an end option. */
  function Walk(s: seq<byte>, i: nat): (area: Option<Area>)
    ensures area.Some? ==> i <= area.value.end < |s| && s[area.value.end] == DHCP_END
    decreases |s| - i
  {
    if i >= |s| then None
    else if s[i] == DHCP_END then Some(Area([], i))
    else if s[i] == DHCP_PADDING then Prepend(Pad, Walk(s, i + 1))
    else if i + 1 >= |s| || i + 2 + s[i + 1] > |s| then None
    else Prepend(Opt(s[i], s[i + 2..i + 2 + s[i + 1]]), Walk(s, i + 2 + s[i + 1]))
  }

  predicate WellFormed(s: seq<byte>) {
    |s| == OPTIONS_SIZE && Walk(s, 0).Some?
  }

  function Items(s: seq<byte>): seq<Item>
    requires WellFormed(s)
  {
    Walk(s, 0).value.items
  }

  function End(s: seq<byte>): nat
    requires WellFormed(s)
  {
    Walk(s, 0).value.end
  }

  /** The data of the first option with this code. */
  function Lookup(items: seq<Item>, code: byte): Option<seq<byte>> {
    if items == [] then None
    else if items[0].Opt? && items[0].code == code then Some(items[0].data)
    else Lookup(items[1..], code)
  }

  // ---------- The walk when the area changes ----------

  function After(items: seq<Item>, area: Option<Area>): Option<Area> {
    match area
    case None => None
    case Some(a) => Some(Area(items + a.items, a.end))
  }

  lemma AfterPrepend(item: Item, items: seq<Item>, area: Option<Area>)
    ensures Prepend(item, After(items, area)) == After([item] + items, area)
  {
    if area.Some? {
      assert [item] + (items + area.value.items) == [item] + items + area.value.items;
    }
  }

  /** An area that agrees up to the old end has the old items and whatever follows there. */
  lemma {:induction false} WalkPrefix(s: seq<byte>, t: seq<byte>, i: nat)
    requires |s| == |t| && Walk(s, i).Some?
    requires s[..Walk(s, i).value.end] == t[..Walk(s, i).value.end]
    ensures Walk(t, i) == After(Walk(s, i).value.items, Walk(t, Walk(s, i).value.end))
    decreases |s| - i
  {
    var end := Walk(s, i).value.end;
    hide Walk, After;
    if i == end {
      assert Walk(s, i).value.items == [] by { NoItems(s, i); }
      AfterNothing(Walk(t, end));
    } else {
      if s[i] == DHCP_PADDING {
        WalkPrefix(s, t, i + 1);
        AfterPrepend(Pad, Walk(s, i + 1).value.items, Walk(t, end));
      } else {
        var next := i + 2 + s[i + 1];
        WalkPrefix(s, t, next);
        assert s[..end][i + 2..next] == t[..end][i + 2..next];
        assert s[i + 2..next] == t[i + 2..next];
        AfterPrepend(Opt(s[i], s[i + 2..next]), Walk(s, next).value.items, Walk(t, end));
      }
    }
  }

  lemma AfterNothing(area: Option<Area>)
    ensures After([], area) == area
  {
    if area.Some? {
      assert [] + area.value.items == area.value.items;
    }
  }

  lemma NoItems(s: seq<byte>, i: nat)
    requires Walk(s, i).Some? && Walk(s, i).value.end == i
    ensures Walk(s, i).value.items == []
  {
  }

  // ---------- end_option and add_option_string ----------

  method EndOption(options: array<byte>) returns (i: nat)
    requires WellFormed(options[..])
    ensures i == End(options[..])
  {
    i := 0;
    while options[i] != DHCP_END
      invariant Walk(options[..], i).Some? && Walk(options[..], i).value.end == End(options[..])
      invariant i < options.Length
      decreases options.Length - i
    {
      if options[i] == DHCP_PADDING {
        i := i + 1;
      } else {
        i := i + options[i + 1] + 2;
      }
    }
  }

  /** The area with an option string written over its end. */
  function Extended(s: seq<byte>, code: byte, data: seq<byte>): seq<byte>
    requires WellFormed(s) && |data| < 256 && End(s) + |data| + 3 <= OPTIONS_SIZE
  {
    s[..End(s)] + ([code, |data|] + data) + [DHCP_END] + s[End(s) + |data| + 3..]
  }

  lemma Terminated(s: seq<byte>, text: seq<byte>, end: nat)
    requires end + |text| < |s|
    ensures (s[..end] + text + s[end + |text|..])[end + |text| := DHCP_END]
         == s[..end] + text + [DHCP_END] + s[end + |text| + 1..]
  {
  }

  method AddOptionString(options: array<byte>, code: byte, data: seq<byte>) returns (added: nat)
    requires WellFormed(options[..]) && |data| < 256
    modifies options
    ensures added == if old(End(options[..])) + |data| + 3 >= OPTIONS_SIZE then 0 else |data| + 2
    ensures options[..] == if added == 0 then old(options[..]) else Extended(old(options[..]), code, data)
  {
    ghost var was: seq<byte> := options[..];
    var end := EndOption(options);
    hide Walk;
    if end + |data| + 2 + 1 >= OPTIONS_SIZE {
      return 0;
    }
    ghost var text: seq<byte> := [code, |data|] + data;
    CopyInto(options, end, [code, |data|] + data);
    ghost var copied: seq<byte> := options[..];
    assert copied == was[..end] + text + was[end + |text|..];
    options[end + |data| + 2] := DHCP_END;
    assert options[..] == copied[end + |text| := DHCP_END];
    Terminated(was, text, end);
    return |data| + 2;
  }

  lemma AppendedOption(s: seq<byte>, code: byte, data: seq<byte>)
    requires WellFormed(s) && |data| < 256 && End(s) + |data| + 3 <= OPTIONS_SIZE
    requires code != DHCP_PADDING && code != DHCP_END
    ensures Walk(Extended(s, code, data), End(s)) == Some(Area([Opt(code, data)], End(s) + |data| + 2))
  {
    var t := Extended(s, code, data);
    var end, next := End(s), End(s) + 2 + |data|;
    assert t[end] == code && t[end + 1] == |data| && t[end + 2..next] == data && t[next] == DHCP_END;
    hide Extended;
    hide Walk;
    assert [Opt(code, data)] + [] == [Opt(code, data)];
  }

  /**
    The written area means the old items followed by the new option exactly when the code is neither
    the padding nor the end code.
  */
  lemma ExtendedMeaning(s: seq<byte>, code: byte, data: seq<byte>)
    requires WellFormed(s) && |data| < 256 && End(s) + |data| + 3 <= OPTIONS_SIZE
    ensures Walk(Extended(s, code, data), 0) == Some(Area(Items(s) + [Opt(code, data)], End(s) + |data| + 2))
       <==> code != DHCP_PADDING && code != DHCP_END
  {
    var t := Extended(s, code, data);
    var end := End(s);
    WalkPrefix(s, t, 0);
    if code != DHCP_PADDING && code != DHCP_END {
      AppendedOption(s, code, data);
    } else if Walk(t, end).Some? {
      OtherTail(Items(s), Walk(t, end).value.items, Opt(code, data));
    }
  }

  /** With the end code the area means what it meant before: the option is not there. */
  lemma EndCodeVanishes(s: seq<byte>, data: seq<byte>)
    requires WellFormed(s) && |data| < 256 && End(s) + |data| + 3 <= OPTIONS_SIZE
    ensures Walk(Extended(s, DHCP_END, data), 0) == Some(Area(Items(s), End(s)))
  {
    var t := Extended(s, DHCP_END, data);
    WalkPrefix(s, t, 0);
    assert t[End(s)] == DHCP_END;
    assert Items(s) + [] == Items(s);
  }

  /** With the padding code the length byte is read as the code of another option. */
  lemma PaddingCodeShifts(s: seq<byte>, data: seq<byte>)
    requires WellFormed(s) && |data| < 256 && End(s) + |data| + 3 <= OPTIONS_SIZE
    ensures var t := Extended(s, DHCP_PADDING, data);
            && Walk(t, 0) == After(Items(s) + [Pad], Walk(t, End(s) + 1))
            && t[End(s) + 1] == |data|
  {
    var t := Extended(s, DHCP_PADDING, data);
    WalkPrefix(s, t, 0);
    assert t[End(s)] == DHCP_PADDING && t[End(s) + 1] == |data|;
    hide Walk;
    var rest := Walk(t, End(s) + 1);
    if rest.Some? {
      assert Items(s) + ([Pad] + rest.value.items) == Items(s) + [Pad] + rest.value.items;
    }
  }

  /** Code 0 with the single data byte 0, added to an area without options: option 1 appears. */
  lemma PaddingCodeExample(s: seq<byte>)
    requires |s| == OPTIONS_SIZE && s[0] == DHCP_END
    ensures WellFormed(s) && End(s) == 0
    ensures Walk(Extended(s, DHCP_PADDING, [0]), 0) == Some(Area([Pad, Opt(1, [])], 3))
  {
    var t := Extended(s, DHCP_PADDING, [0]);
    assert t[0] == 0 && t[1] == 1 && t[2] == 0 && t[3] == DHCP_END;
    assert Walk(t, 3) == Some(Area([], 3));
    assert t[3..3] == [];
    assert Walk(t, 1) == Prepend(Opt(1, []), Walk(t, 3));
    assert [Opt(1, [])] + [] == [Opt(1, [])] && [Pad] + [Opt(1, [])] == [Pad, Opt(1, [])];
    assert Walk(t, 0) == Prepend(Pad, Walk(t, 1));
  }

  lemma OtherTail(items: seq<Item>, tail: seq<Item>, item: Item)
    requires tail != [] ==> tail[0] != item
    ensures items + tail != items + [item]
  {
    assert (items + tail)[|items|..] == tail;
    assert (items + [item])[|items|..] == [item];
  }

  // ---------- get_option ----------

  lemma {:induction false} LookupAppend(items: seq<Item>, item: Item, code: byte)
    ensures Lookup(items + [item], code)
         == if Lookup(items, code).Some? then Lookup(items, code)
            else if item.Opt? && item.code == code then Some(item.data) else None
  {
    if items == [] {
      assert [] + [item] == [item];
    } else {
      assert (items + [item])[1..] == items[1..] + [item];
      LookupAppend(items[1..], item, code);
    }
  }

  /** Position of the data of an option: its length is in the byte before. */
  predicate DataAt(s: seq<byte>, i: nat, data: seq<byte>) {
    1 <= i <= i + |data| <= |s| && s[i - 1] == |data| && s[i..i + |data|] == data
  }

  /** The position of the data of the first option with this code, item by item from position i on. */
  function Place(s: seq<byte>, i: nat, code: byte): (p: Option<nat>)
    requires Walk(s, i).Some?
    decreases |s| - i
  {
    if s[i] == DHCP_END then None
    else if s[i] == DHCP_PADDING then Place(s, i + 1, code)
    else if s[i] == code then Some(i + 2)
    else Place(s, i + 2 + s[i + 1], code)
  }

  /** At that position is the data that the items give for the code. */
  lemma {:induction false} PlaceIsLookup(s: seq<byte>, i: nat, code: byte)
    requires Walk(s, i).Some? && |s| == OPTIONS_SIZE && code != DHCP_PADDING && code != DHCP_END
    ensures match Lookup(Walk(s, i).value.items, code)
            case None => Place(s, i, code) == None
            case Some(d) => Place(s, i, code).Some? && DataAt(s, Place(s, i, code).value, d)
    decreases |s| - i
  {
    LookupStep(s, i, code);
    hide Walk, Lookup, DataAt;
    if s[i] == DHCP_END || s[i] == code {
    } else if s[i] == DHCP_PADDING {
      PlaceIsLookup(s, i + 1, code);
    } else {
      PlaceIsLookup(s, i + 2 + s[i + 1], code);
    }
  }

  // ---------- Option overload (RFC 2132, section 9.3) ----------

  datatype Field = Options | File | Sname

  /** The three fields of a packet that can hold options. */
  datatype Packet = Packet(options: seq<byte>, file: seq<byte>, sname: seq<byte>)

  /** The place of the data of an option, no option, or a read behind the end of a field. */
  datatype Found = Here(field: Field, at: nat) | Missing | Outside

  function Bytes(p: Packet, field: Field): seq<byte> {
    match field
    case Options => p.options
    case File => p.file
    case Sname => p.sname
  }

  function FieldsLeft(field: Field): nat {
    match field
    case Options => 2
    case File => 1
    case Sname => 0
  }

  /** `over & FILE_FIELD` and `over & SNAME_FIELD`. */
  predicate FileBit(over: byte) {
    over % 2 == 1
  }

  predicate SnameBit(over: byte) {
    over / 2 % 2 == 1
  }

  /** The rounds of `get_option` from position i of a field on. */
  function ScanFrom(p: Packet, field: Field, i: nat, over: byte, code: byte): Found
    decreases FieldsLeft(field), |Bytes(p, field)| - i
  {
    var s := Bytes(p, field);
    if i >= |s| then Missing
    else if s[i] == code then
      if i + 1 >= |s| then Outside
      else if i + 1 + s[i + 1] >= |s| then Missing
      else Here(field, i + 2)
    else if s[i] == DHCP_PADDING then ScanFrom(p, field, i + 1, over, code)
    else if s[i] == DHCP_OPTION_OVER then
      if i + 1 >= |s| then Outside
      else if i + 1 + s[i + 1] >= |s| then Missing
      else if i + 3 >= |s| then Outside
      else ScanFrom(p, field, i + s[1] + 2, s[i + 3], code)
    else if s[i] == DHCP_END then ScanNext(p, field, over, code)
    else if i + 1 >= |s| then Outside
    else ScanFrom(p, field, i + s[i + 1] + 2, over, code)
  }

  /** The field after this one, if there is one to read. */
  function ScanNext(p: Packet, field: Field, over: byte, code: byte): Found
    decreases FieldsLeft(field), -1
  {
    if field == Options && FileBit(over) then ScanFrom(p, File, 0, over, code)
    else if field == File && SnameBit(over) then ScanFrom(p, Sname, 0, over, code)
    else Missing
  }

  /** `get_option`, for packets on which it stays inside the fields. */
  method GetOption(p: Packet, code: byte) returns (found: Found)
    requires ScanFrom(p, Options, 0, 0, code) != Outside
    ensures found == ScanFrom(p, Options, 0, 0, code)
  {
    var over: byte := 0;
    var done, field := false, Options;
    var i: nat := 0;
    while !done
      invariant !done ==> ScanFrom(p, field, i, over, code) == ScanFrom(p, Options, 0, 0, code)
      invariant done ==> ScanFrom(p, Options, 0, 0, code) == Missing
      decreases !done, FieldsLeft(field), |Bytes(p, field)| - i
    {
      var s := Bytes(p, field);
      if i >= |s| {
        return Missing;
      }
      if s[i] == code {
        if i + 1 + s[i + 1] >= |s| {
          return Missing;
        }
        return Here(field, i + 2);
      }
      if s[i] == DHCP_PADDING {
        i := i + 1;
      } else if s[i] == DHCP_OPTION_OVER {
        if i + 1 + s[i + 1] >= |s| {
          return Missing;
        }
        over := s[i + 3];
        i := i + s[1] + 2;
      } else if s[i] == DHCP_END {
        if field == Options && FileBit(over) {
          field, i := File, 0;
        } else if field == File && SnameBit(over) {
          field, i := Sname, 0;
        } else {
          done := true;
        }
      } else {
        i := i + s[i + 1] + 2;
      }
    }
    return Missing;
  }

  /** The byte at an offset from the last overload option: its value is at offset 2. */
  function FlagsAt(s: seq<byte>, i: nat, flags: byte, offset: nat): byte
    requires Walk(s, i).Some?
    decreases |s| - i
  {
    if s[i] == DHCP_END then flags
    else if s[i] == DHCP_PADDING then FlagsAt(s, i + 1, flags, offset)
    else
      FlagsAt(s, i + 2 + s[i + 1],
              if s[i] == DHCP_OPTION_OVER && i + offset < |s| then s[i + offset] else flags, offset)
  }

  /** The option area first, then the file field and the sname field if they are to be searched. */
  function Search(p: Packet, code: byte, inFile: bool, inSname: bool): Found
    requires Walk(p.options, 0).Some? && Walk(p.file, 0).Some? && Walk(p.sname, 0).Some?
  {
    var here, file, sname := Place(p.options, 0, code), Place(p.file, 0, code), Place(p.sname, 0, code);
    if here.Some? then Here(Options, here.value)
    else if inFile && file.Some? then Here(File, file.value)
    else if inSname && sname.Some? then Here(Sname, sname.value)
    else Missing
  }

  /** What the packet means: the fields that the value of the overload option names are searched. */
  function Meant(p: Packet, code: byte): Found
    requires Walk(p.options, 0).Some? && Walk(p.file, 0).Some? && Walk(p.sname, 0).Some?
  {
    var flags := FlagsAt(p.options, 0, 0, 2);
    Search(p, code, FileBit(flags), SnameBit(flags))
  }

  /** Overload options have a value, and are as long as the first option of the area. */
  predicate Skippable(items: seq<Item>, length: byte) {
    forall k :: 0 <= k < |items| && items[k].Opt? && items[k].code == DHCP_OPTION_OVER ==>
      1 <= |items[k].data| == length
  }

  lemma SkippableTail(item: Item, items: seq<Item>, length: byte)
    requires Skippable([item] + items, length)
    ensures Skippable(items, length)
    ensures item.Opt? && item.code == DHCP_OPTION_OVER ==> 1 <= |item.data| == length
  {
    var all := [item] + items;
    assert all[0] == item;
    assert forall k :: 0 <= k < |items| ==> all[k + 1] == items[k];
  }

  lemma SkippableStep(s: seq<byte>, i: nat, length: byte)
    requires Walk(s, i).Some? && Skippable(Walk(s, i).value.items, length)
    ensures s[i] == DHCP_PADDING ==> Walk(s, i + 1).Some? && Skippable(Walk(s, i + 1).value.items, length)
    ensures s[i] != DHCP_PADDING && s[i] != DHCP_END ==>
              var next := i + 2 + s[i + 1];
              && next < |s| && Walk(s, next).Some? && Skippable(Walk(s, next).value.items, length)
              && (s[i] == DHCP_OPTION_OVER ==> 1 <= s[i + 1] == length)
  {
    WalkItems(s, i);
    hide Walk, Skippable;
    if s[i] == DHCP_PADDING {
      SkippableTail(Pad, Walk(s, i + 1).value.items, length);
    } else if s[i] != DHCP_END {
      var next := i + 2 + s[i + 1];
      SkippableTail(Opt(s[i], s[i + 2..next]), Walk(s, next).value.items, length);
    }
  }

  /** The result in a field, or else that of the next one. */
  function AfterField(p: Packet, field: Field, place: Option<nat>, over: byte, code: byte): Found {
    match place
    case Some(at) => Here(field, at)
    case None => ScanNext(p, field, over, code)
  }

  /** One round, on an item of the walk that is not too short. */
  lemma ScanRound(p: Packet, field: Field, i: nat, over: byte, code: byte)
    requires var s := Bytes(p, field);
             i < |s| && (s[i] != DHCP_PADDING && s[i] != DHCP_END ==> i + 1 < |s| && i + 2 + s[i + 1] < |s|)
    requires code != DHCP_PADDING && code != DHCP_END
    ensures var s := Bytes(p, field);
            ScanFrom(p, field, i, over, code) ==
            if s[i] == DHCP_END then ScanNext(p, field, over, code)
            else if s[i] == DHCP_PADDING then ScanFrom(p, field, i + 1, over, code)
            else if s[i] == code then Here(field, i + 2)
            else if s[i] != DHCP_OPTION_OVER then ScanFrom(p, field, i + s[i + 1] + 2, over, code)
            else if i + 3 >= |s| then Outside
            else ScanFrom(p, field, i + s[1] + 2, s[i + 3], code)
  {
  }

  lemma PlaceRound(s: seq<byte>, i: nat, over: byte, code: byte)
    requires Walk(s, i).Some? && code != DHCP_PADDING && code != DHCP_END
    ensures s[i] == DHCP_END ==> Place(s, i, code) == None && FlagsAt(s, i, over, 3) == over
    ensures s[i] == DHCP_PADDING ==>
              && Walk(s, i + 1).Some? && Place(s, i, code) == Place(s, i + 1, code)
              && FlagsAt(s, i, over, 3) == FlagsAt(s, i + 1, over, 3)
    ensures s[i] != DHCP_PADDING && s[i] != DHCP_END ==>
              var next := i + 2 + s[i + 1];
              var flags := if s[i] == DHCP_OPTION_OVER && i + 3 < |s| then s[i + 3] else over;
              && Walk(s, next).Some?
              && Place(s, i, code) == (if s[i] == code then Some(i + 2) else Place(s, next, code))
              && FlagsAt(s, i, over, 3) == FlagsAt(s, next, flags, 3)
  {
    WalkItems(s, i);
    hide Walk;
  }

  /** One round on a walk whose overload options can be skipped: it ends the field or goes on as the walk does. */
  lemma RoundIsStep(p: Packet, field: Field, i: nat, over: byte, code: byte)
    returns (stop: bool, next: nat, over': byte)
    requires code != DHCP_PADDING && code != DHCP_END
    requires var s := Bytes(p, field);
             1 < |s| && Walk(s, i).Some? && Skippable(Walk(s, i).value.items, s[1])
    ensures var s := Bytes(p, field);
            if stop then
              ScanFrom(p, field, i, over, code) == AfterField(p, field, Place(s, i, code), FlagsAt(s, i, over, 3), code)
            else
              && i < next < |s| && Walk(s, next).Some? && Skippable(Walk(s, next).value.items, s[1])
              && ScanFrom(p, field, i, over, code) == ScanFrom(p, field, next, over', code)
              && Place(s, i, code) == Place(s, next, code)
              && FlagsAt(s, i, over, 3) == FlagsAt(s, next, over', 3)
  {
    var s := Bytes(p, field);
    SkippableStep(s, i, s[1]);
    ScanRound(p, field, i, over, code);
    PlaceRound(s, i, over, code);
    hide Walk, ScanNext, Skippable, ScanFrom, Place, FlagsAt, Bytes, FieldsLeft;
    stop, next, over' := s[i] == DHCP_END || s[i] == code, i + 1, over;
    if !stop && s[i] != DHCP_PADDING {
      next := i + 2 + s[i + 1];
      if s[i] == DHCP_OPTION_OVER {
        over' := s[i + 3];
      }
    }
  }

  /** Where overload options can be skipped, the search of a field finds the first option or goes on behind it. */
  lemma {:induction false} ScanIsPlace(p: Packet, field: Field, i: nat, over: byte, code: byte)
    requires code != DHCP_PADDING && code != DHCP_END
    requires var s := Bytes(p, field);
             1 < |s| && Walk(s, i).Some? && Skippable(Walk(s, i).value.items, s[1])
    ensures var s := Bytes(p, field);
            ScanFrom(p, field, i, over, code) == AfterField(p, field, Place(s, i, code), FlagsAt(s, i, over, 3), code)
    decreases |Bytes(p, field)| - i
  {
    hide *;
    var stop, next, over' := RoundIsStep(p, field, i, over, code);
    if stop {
    } else {
      ScanIsPlace(p, field, next, over', code);
    }
  }

  /** What one step of the walk means for the first option with a real code. */
  lemma LookupStep(s: seq<byte>, i: nat, code: byte)
    requires Walk(s, i).Some? && |s| == OPTIONS_SIZE && code != DHCP_PADDING && code != DHCP_END
    ensures var found := Lookup(Walk(s, i).value.items, code);
            if s[i] == code then
              i + 1 < |s| && i + 1 + s[i + 1] < |s| && found.Some? && DataAt(s, i + 2, found.value)
            else if s[i] == DHCP_PADDING then
              Walk(s, i + 1).Some? && found == Lookup(Walk(s, i + 1).value.items, code)
            else if s[i] == DHCP_END then found == None
            else
              && i + 1 < |s| && Walk(s, i + 2 + s[i + 1]).Some?
              && found == Lookup(Walk(s, i + 2 + s[i + 1]).value.items, code)
  {
    WalkItems(s, i);
    hide Walk;
  }

  lemma WalkItems(s: seq<byte>, i: nat)
    requires Walk(s, i).Some?
    ensures var items := Walk(s, i).value.items;
            if s[i] == DHCP_END then items == []
            else if s[i] == DHCP_PADDING then
              Walk(s, i + 1).Some? && items == [Pad] + Walk(s, i + 1).value.items
            else
              && i + 1 < |s| && i + 2 + s[i + 1] < |s|
              && Walk(s, i + 2 + s[i + 1]).Some?
              && items == [Opt(s[i], s[i + 2..i + 2 + s[i + 1]])] + Walk(s, i + 2 + s[i + 1]).value.items
  {
  }

  /** A field that is a complete area without an overload option. */
  predicate Simple(s: seq<byte>, size: nat) {
    |s| == size && Walk(s, 0).Some? && Place(s, 0, DHCP_OPTION_OVER) == None
  }

  lemma {:induction false} NoFlags(s: seq<byte>, i: nat, flags: byte, offset: nat, length: byte)
    requires Walk(s, i).Some? && Place(s, i, DHCP_OPTION_OVER) == None
    ensures FlagsAt(s, i, flags, offset) == flags && Skippable(Walk(s, i).value.items, length)
    decreases |s| - i
  {
    WalkItems(s, i);
    hide Walk;
    if s[i] == DHCP_END {
    } else if s[i] == DHCP_PADDING {
      NoFlags(s, i + 1, flags, offset, length);
    } else {
      NoFlags(s, i + 2 + s[i + 1], flags, offset, length);
    }
  }

  lemma SimpleScan(p: Packet, field: Field, size: nat, over: byte, code: byte)
    requires 1 < size && Simple(Bytes(p, field), size) && code != DHCP_PADDING && code != DHCP_END
    ensures ScanFrom(p, field, 0, over, code) ==
            AfterField(p, field, Place(Bytes(p, field), 0, code), over, code)
  {
    var s := Bytes(p, field);
    NoFlags(s, 0, over, 3, s[1]);
    hide Walk, Place, ScanFrom, FlagsAt, Skippable;
    ScanIsPlace(p, field, 0, over, code);
  }

  const FILE_SIZE: nat := 128
  const SNAME_SIZE: nat := 64

  /** The option area may have overload options, if they are as long as the first option; the others not. */
  predicate Readable(p: Packet) {
    && WellFormed(p.options) && Skippable(Items(p.options), p.options[1])
    && Simple(p.file, FILE_SIZE) && Simple(p.sname, SNAME_SIZE)
  }

  /**
    What `get_option` does with a readable packet: it takes the byte behind the value of the overload
    option for the value, and searches the sname field only after the file field.
  */
  lemma ScanIsSearch(p: Packet, code: byte)
    requires Readable(p) && code != DHCP_PADDING && code != DHCP_END
    ensures var read := FlagsAt(p.options, 0, 0, 3);
            ScanFrom(p, Options, 0, 0, code) == Search(p, code, FileBit(read), FileBit(read) && SnameBit(read))
  {
    hide Walk, Place, ScanFrom, FlagsAt, Skippable, FileBit, SnameBit;
    var read := FlagsAt(p.options, 0, 0, 3);
    ScanIsPlace(p, Options, 0, 0, code);
    SimpleScan(p, File, FILE_SIZE, read, code);
    SimpleScan(p, Sname, SNAME_SIZE, read, code);
  }

  /** The result is right whatever the two other fields hold. */
  ghost predicate AlwaysMeant(options: seq<byte>, code: byte)
    requires WellFormed(options)
  {
    forall file, sname :: Simple(file, FILE_SIZE) && Simple(sname, SNAME_SIZE) ==>
      var p := Packet(options, file, sname); ScanFrom(p, Options, 0, 0, code) == Meant(p, code)
  }

  /** The byte behind the value asks for the fields that the value asks for. */
  predicate SameFields(options: seq<byte>)
    requires WellFormed(options)
  {
    var read, value := FlagsAt(options, 0, 0, 3), FlagsAt(options, 0, 0, 2);
    FileBit(read) == FileBit(value) && (FileBit(read) && SnameBit(read)) == SnameBit(value)
  }

  /** Options of the option area are always found; others exactly if the misread value is as good as the true one. */
  lemma GetOptionRightIff(options: seq<byte>, code: byte)
    requires WellFormed(options) && Skippable(Items(options), options[1])
    requires code != DHCP_PADDING && code != DHCP_END
    ensures AlwaysMeant(options, code) <==> Place(options, 0, code).Some? || SameFields(options)
  {
    hide Walk, ScanFrom, FlagsAt, Skippable, Place;
    if Place(options, 0, code).Some? || SameFields(options) {
      forall file, sname | Simple(file, FILE_SIZE) && Simple(sname, SNAME_SIZE)
        ensures Walk(file, 0).Some? && Walk(sname, 0).Some?
        ensures var p := Packet(options, file, sname); ScanFrom(p, Options, 0, 0, code) == Meant(p, code)
      {
        ScanRight(Packet(options, file, sname), code);
      }
    } else if code == DHCP_OPTION_OVER {
      NoFlags(options, 0, 0, 2, 0);
      NoFlags(options, 0, 0, 3, 0);
      assert false;
    } else {
      ScanWrong(options, code);
    }
  }

  lemma ScanRight(p: Packet, code: byte)
    requires Readable(p) && code != DHCP_PADDING && code != DHCP_END
    requires Place(p.options, 0, code).Some? || SameFields(p.options)
    ensures ScanFrom(p, Options, 0, 0, code) == Meant(p, code)
  {
    hide Walk, ScanFrom, FlagsAt, Skippable, FileBit, SnameBit, Place;
    ScanIsSearch(p, code);
  }

  /** An area that begins with an end option. */
  function Vacant(size: nat): seq<byte> {
    seq(size, i => if i == 0 then DHCP_END else DHCP_PADDING)
  }

  /** An area with one option without data. */
  function Single(code: byte, size: nat): seq<byte> {
    seq(size, i => if i == 0 then code else if i == 2 then DHCP_END else DHCP_PADDING)
  }

  lemma VacantIsSimple(code: byte, size: nat)
    requires 2 < size
    ensures Simple(Vacant(size), size) && Place(Vacant(size), 0, code) == None
  {
  }

  lemma SingleIsSimple(code: byte, size: nat)
    requires 2 < size && code != DHCP_PADDING && code != DHCP_END && code != DHCP_OPTION_OVER
    ensures Simple(Single(code, size), size) && Place(Single(code, size), 0, code) == Some(2)
  {
    var s := Single(code, size);
    assert s[0] == code && s[1] == 0 && s[2] == DHCP_END;
    assert Walk(s, 2) == Some(Area([], 2));
    assert Walk(s, 0) == Prepend(Opt(code, s[2..2]), Walk(s, 2));
    assert Place(s, 2, DHCP_OPTION_OVER) == None;
  }

  /** If the fields differ, an option in one of them is missed, or found although it is not one. */
  lemma ScanWrong(options: seq<byte>, code: byte)
    requires WellFormed(options) && Skippable(Items(options), options[1])
    requires code != DHCP_PADDING && code != DHCP_END && code != DHCP_OPTION_OVER
    requires Place(options, 0, code) == None && !SameFields(options)
    ensures !AlwaysMeant(options, code)
  {
    hide Walk, ScanFrom, FlagsAt, Skippable, FileBit, SnameBit, Place, Vacant, Single;
    VacantIsSimple(code, FILE_SIZE);
    VacantIsSimple(code, SNAME_SIZE);
    SingleIsSimple(code, FILE_SIZE);
    SingleIsSimple(code, SNAME_SIZE);
    var p := Packet(options, Single(code, FILE_SIZE), Vacant(SNAME_SIZE));
    var q := Packet(options, Vacant(FILE_SIZE), Single(code, SNAME_SIZE));
    ScanIsSearch(p, code);
    ScanIsSearch(q, code);
  }

  /** An overload option that is not as long as the first option: here option 53 behind it is skipped as well. */
  lemma OverloadSkips(rest: seq<byte>)
    requires |rest| == 295
    ensures var options: seq<byte> := [1, 4, 255, 255, 255, 0, 52, 1, 1, 53, 1, 5, 255] + rest;
            var p := Packet(options, Vacant(FILE_SIZE), Vacant(SNAME_SIZE));
            && WellFormed(options) && Place(options, 0, 53) == Some(11)
            && ScanFrom(p, Options, 0, 0, 53) == Missing
  {
    var s: seq<byte> := [1, 4, 255, 255, 255, 0, DHCP_OPTION_OVER, 1, 1, 53, 1, 5, DHCP_END] + rest;
    var p := Packet(s, Vacant(FILE_SIZE), Vacant(SNAME_SIZE));
    assert s[0] == 1 && s[1] == 4 && s[6] == DHCP_OPTION_OVER && s[7] == 1 && s[9] == 53 && s[10] == 1;
    assert s[12] == DHCP_END;
    assert Walk(s, 12).Some? && Walk(s, 9).Some? && Walk(s, 6).Some? && Walk(s, 0).Some?;
    assert Place(s, 9, 53) == Some(11) && Place(s, 6, 53) == Some(11);
    VacantScan(p, 53);
    assert ScanFrom(p, Options, 12, 53, 53) == ScanNext(p, Options, 53, 53);
    assert ScanFrom(p, Options, 6, 0, 53) == ScanFrom(p, Options, 12, 53, 53);
  }

  lemma VacantScan(p: Packet, code: byte)
    requires p.file == Vacant(FILE_SIZE) && code != DHCP_END
    ensures ScanFrom(p, File, 0, 53, code) == Missing
  {
    assert p.file[0] == DHCP_END;
  }

  /** With another option in front the overload options are still as long as the first option. */
  lemma ExtendedSkippable(s: seq<byte>, code: byte, data: seq<byte>)
    requires WellFormed(s) && |data| < 256 && End(s) + |data| + 3 <= OPTIONS_SIZE && Skippable(Items(s), s[1])
    requires code != DHCP_PADDING && code != DHCP_END && code != DHCP_OPTION_OVER
    ensures WellFormed(Extended(s, code, data))
    ensures Skippable(Items(Extended(s, code, data)), Extended(s, code, data)[1])
  {
    var t := Extended(s, code, data);
    ExtendedMeaning(s, code, data);
    if End(s) >= 2 {
      assert t[1] == s[1];
    } else {
      ShortArea(s, t[1]);
    }
    hide Walk, Extended;
    var all := Items(s) + [Opt(code, data)];
    assert forall k :: 0 <= k < |Items(s)| ==> all[k] == Items(s)[k];
  }

  lemma ShortArea(s: seq<byte>, length: byte)
    requires WellFormed(s) && End(s) < 2
    ensures Skippable(Items(s), length)
  {
    WalkItems(s, 0);
    if s[0] == DHCP_PADDING {
      WalkItems(s, 1);
    }
  }

  /**
    Adding an option and asking for any option: a code that was there before keeps its data, the new
    code has the new data, and no other code appears in the option area.
  */
  method AddThenGet(options: array<byte>, file: seq<byte>, sname: seq<byte>, code: byte, data: seq<byte>, wanted: byte)
    returns (added: nat, found: Found)
    requires Readable(Packet(options[..], file, sname)) && |data| < 256
    requires code != DHCP_PADDING && code != DHCP_END && code != DHCP_OPTION_OVER
    requires wanted != DHCP_PADDING && wanted != DHCP_END
    modifies options
    ensures Readable(Packet(options[..], file, sname))
    ensures Items(options[..]) == old(Items(options[..])) + if added > 0 then [Opt(code, data)] else []
    ensures var before := Lookup(old(Items(options[..])), wanted);
            if before.Some? then FoundIn(options[..], found, before.value)
            else if added > 0 && wanted == code then FoundIn(options[..], found, data)
            else found != Outside && !(found.Here? && found.field == Options)
  {
    hide Walk, Extended, Lookup, Place, Skippable, Simple, ScanFrom, FlagsAt, FileBit, SnameBit;
    ghost var was: seq<byte> := options[..];
    ghost var items := Items(was);
    LookupAppend(items, Opt(code, data), wanted);
    added := AddOptionString(options, code, data);
    if added > 0 {
      ExtendedMeaning(was, code, data);
      ExtendedSkippable(was, code, data);
      assert Items(options[..]) == items + [Opt(code, data)];
    } else {
      assert options[..] == was;
    }
    ghost var p := Packet(options[..], file, sname);
    ScanIsSearch(p, wanted);
    PlaceIsLookup(options[..], 0, wanted);
    found := GetOption(Packet(options[..], file, sname), wanted);
  }

  /** A place in the option area with this data. */
  predicate FoundIn(s: seq<byte>, found: Found, data: seq<byte>) {
    found.Here? && found.field == Options && DataAt(s, found.at, data)
  }
}
