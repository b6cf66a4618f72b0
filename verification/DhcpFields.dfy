/** Which fields of a packet the value of the overload option makes `get_option` search. */
module DhcpFields {
  import opened Common
  import opened Dhcp

  lemma FieldsAsked(over: byte)
    requires over <= 3
    ensures FileBit(over) <==> over == 1 || over == 3
    ensures SnameBit(over) <==> over == 2 || over == 3
  {
  }

  /**
    What `get_option` returns by the byte that it takes for the value of the option: 1 stands for the file
    field, 2 for the sname field, 3 for both. The sname field alone is never searched.
  */
  lemma ScanByValue(p: Packet, code: byte)
    requires Readable(p) && code != DHCP_PADDING && code != DHCP_END && FlagsAt(p.options, 0, 0, 3) <= 3
    ensures var read := FlagsAt(p.options, 0, 0, 3);
            ScanFrom(p, Options, 0, 0, code) ==
            if Place(p.options, 0, code).Some? then Here(Options, Place(p.options, 0, code).value)
            else if (read == 1 || read == 3) && Place(p.file, 0, code).Some?
            then Here(File, Place(p.file, 0, code).value)
            else if read == 3 && Place(p.sname, 0, code).Some?
            then Here(Sname, Place(p.sname, 0, code).value)
            else Missing
  {
    ScanIsSearch(p, code);
    FieldsAsked(FlagsAt(p.options, 0, 0, 3));
    hide Walk, Place, ScanFrom, FlagsAt, Skippable, FileBit, SnameBit;
  }

  /** What is meant: RFC 2132, section 9.3. */
  lemma MeantByValue(p: Packet, code: byte)
    requires Readable(p) && FlagsAt(p.options, 0, 0, 2) <= 3
    ensures var value := FlagsAt(p.options, 0, 0, 2);
            Meant(p, code) ==
            if Place(p.options, 0, code).Some? then Here(Options, Place(p.options, 0, code).value)
            else if (value == 1 || value == 3) && Place(p.file, 0, code).Some?
            then Here(File, Place(p.file, 0, code).value)
            else if (value == 2 || value == 3) && Place(p.sname, 0, code).Some?
            then Here(Sname, Place(p.sname, 0, code).value)
            else Missing
  {
    FieldsAsked(FlagsAt(p.options, 0, 0, 2));
    hide Walk, Place, FlagsAt, Skippable, FileBit, SnameBit;
  }
}
