/** The table-driven CRC-32 and the bit-at-a-time definition it implements. */
module Crc32 {

  /** A 32-bit register. The bits are wrapped so that proofs about runs see no bit-vectors. */
  datatype Register = Register(bits: bv32)

  /** The reflected polynomial. */
  const POLYNOMIAL: bv32 := 0xEDB88320

  const ALL_ONES := Register(0xFFFF_FFFF)

  // ---------- The definition, bit by bit ----------

  function FeedBits(c: bv32, b: bv8): bv32 {
    (c >> 1) ^ ((0 - ((c ^ (b as bv32)) & 1)) & POLYNOMIAL)
  }

  /** One message bit, the lowest of b, against the reflected register. */
  function BitStep(c: Register, b: bv8): Register {
    Register(FeedBits(c.bits, b))
  }

  /** The lowest k bits of b, lowest first. */
  function BitSteps(c: Register, b: bv8, k: nat): Register
    decreases k
  {
    if k == 0 then c else BitSteps(BitStep(c, b), b >> 1, k - 1)
  }

  function ByteStep(c: Register, b: bv8): Register {
    BitSteps(c, b, 8)
  }

  function Run(c: Register, message: seq<bv8>): Register {
    if message == [] then c else ByteStep(Run(c, message[..|message| - 1]), message[|message| - 1])
  }

  function XorBits(a: bv32, b: bv32): bv32 {
    a ^ b
  }

  function Xor(a: Register, b: Register): Register {
    Register(XorBits(a.bits, b.bits))
  }

  /** CRC-32 of a message that continues an earlier CRC value. */
  function Crc(crc: Register, message: seq<bv8>): Register {
    Xor(Run(Xor(crc, ALL_ONES), message), ALL_ONES)
  }

  // ---------- The table ----------

  function Row0(i: bv8): bv32 {
    if i == 0x00 then 0x00000000 else if i == 0x01 then 0x77073096 else
    if i == 0x02 then 0xEE0E612C else if i == 0x03 then 0x990951BA else
    if i == 0x04 then 0x076DC419 else if i == 0x05 then 0x706AF48F else
    if i == 0x06 then 0xE963A535 else if i == 0x07 then 0x9E6495A3 else
    if i == 0x08 then 0x0EDB8832 else if i == 0x09 then 0x79DCB8A4 else
    if i == 0x0A then 0xE0D5E91E else if i == 0x0B then 0x97D2D988 else
    if i == 0x0C then 0x09B64C2B else if i == 0x0D then 0x7EB17CBD else
    if i == 0x0E then 0xE7B82D07 else 0x90BF1D91
  }

  function Row1(i: bv8): bv32 {
    if i == 0x10 then 0x1DB71064 else if i == 0x11 then 0x6AB020F2 else
    if i == 0x12 then 0xF3B97148 else if i == 0x13 then 0x84BE41DE else
    if i == 0x14 then 0x1ADAD47D else if i == 0x15 then 0x6DDDE4EB else
    if i == 0x16 then 0xF4D4B551 else if i == 0x17 then 0x83D385C7 else
    if i == 0x18 then 0x136C9856 else if i == 0x19 then 0x646BA8C0 else
    if i == 0x1A then 0xFD62F97A else if i == 0x1B then 0x8A65C9EC else
    if i == 0x1C then 0x14015C4F else if i == 0x1D then 0x63066CD9 else
    if i == 0x1E then 0xFA0F3D63 else 0x8D080DF5
  }

  function Row2(i: bv8): bv32 {
    if i == 0x20 then 0x3B6E20C8 else if i == 0x21 then 0x4C69105E else
    if i == 0x22 then 0xD56041E4 else if i == 0x23 then 0xA2677172 else
    if i == 0x24 then 0x3C03E4D1 else if i == 0x25 then 0x4B04D447 else
    if i == 0x26 then 0xD20D85FD else if i == 0x27 then 0xA50AB56B else
    if i == 0x28 then 0x35B5A8FA else if i == 0x29 then 0x42B2986C else
    if i == 0x2A then 0xDBBBC9D6 else if i == 0x2B then 0xACBCF940 else
    if i == 0x2C then 0x32D86CE3 else if i == 0x2D then 0x45DF5C75 else
    if i == 0x2E then 0xDCD60DCF else 0xABD13D59
  }

  function Row3(i: bv8): bv32 {
    if i == 0x30 then 0x26D930AC else if i == 0x31 then 0x51DE003A else
    if i == 0x32 then 0xC8D75180 else if i == 0x33 then 0xBFD06116 else
    if i == 0x34 then 0x21B4F4B5 else if i == 0x35 then 0x56B3C423 else
    if i == 0x36 then 0xCFBA9599 else if i == 0x37 then 0xB8BDA50F else
    if i == 0x38 then 0x2802B89E else if i == 0x39 then 0x5F058808 else
    if i == 0x3A then 0xC60CD9B2 else if i == 0x3B then 0xB10BE924 else
    if i == 0x3C then 0x2F6F7C87 else if i == 0x3D then 0x58684C11 else
    if i == 0x3E then 0xC1611DAB else 0xB6662D3D
  }

  function Row4(i: bv8): bv32 {
    if i == 0x40 then 0x76DC4190 else if i == 0x41 then 0x01DB7106 else
    if i == 0x42 then 0x98D220BC else if i == 0x43 then 0xEFD5102A else
    if i == 0x44 then 0x71B18589 else if i == 0x45 then 0x06B6B51F else
    if i == 0x46 then 0x9FBFE4A5 else if i == 0x47 then 0xE8B8D433 else
    if i == 0x48 then 0x7807C9A2 else if i == 0x49 then 0x0F00F934 else
    if i == 0x4A then 0x9609A88E else if i == 0x4B then 0xE10E9818 else
    if i == 0x4C then 0x7F6A0DBB else if i == 0x4D then 0x086D3D2D else
    if i == 0x4E then 0x91646C97 else 0xE6635C01
  }

  function Row5(i: bv8): bv32 {
    if i == 0x50 then 0x6B6B51F4 else if i == 0x51 then 0x1C6C6162 else
    if i == 0x52 then 0x856530D8 else if i == 0x53 then 0xF262004E else
    if i == 0x54 then 0x6C0695ED else if i == 0x55 then 0x1B01A57B else
    if i == 0x56 then 0x8208F4C1 else if i == 0x57 then 0xF50FC457 else
    if i == 0x58 then 0x65B0D9C6 else if i == 0x59 then 0x12B7E950 else
    if i == 0x5A then 0x8BBEB8EA else if i == 0x5B then 0xFCB9887C else
    if i == 0x5C then 0x62DD1DDF else if i == 0x5D then 0x15DA2D49 else
    if i == 0x5E then 0x8CD37CF3 else 0xFBD44C65
  }

  function Row6(i: bv8): bv32 {
    if i == 0x60 then 0x4DB26158 else if i == 0x61 then 0x3AB551CE else
    if i == 0x62 then 0xA3BC0074 else if i == 0x63 then 0xD4BB30E2 else
    if i == 0x64 then 0x4ADFA541 else if i == 0x65 then 0x3DD895D7 else
    if i == 0x66 then 0xA4D1C46D else if i == 0x67 then 0xD3D6F4FB else
    if i == 0x68 then 0x4369E96A else if i == 0x69 then 0x346ED9FC else
    if i == 0x6A then 0xAD678846 else if i == 0x6B then 0xDA60B8D0 else
    if i == 0x6C then 0x44042D73 else if i == 0x6D then 0x33031DE5 else
    if i == 0x6E then 0xAA0A4C5F else 0xDD0D7CC9
  }

  function Row7(i: bv8): bv32 {
    if i == 0x70 then 0x5005713C else if i == 0x71 then 0x270241AA else
    if i == 0x72 then 0xBE0B1010 else if i == 0x73 then 0xC90C2086 else
    if i == 0x74 then 0x5768B525 else if i == 0x75 then 0x206F85B3 else
    if i == 0x76 then 0xB966D409 else if i == 0x77 then 0xCE61E49F else
    if i == 0x78 then 0x5EDEF90E else if i == 0x79 then 0x29D9C998 else
    if i == 0x7A then 0xB0D09822 else if i == 0x7B then 0xC7D7A8B4 else
    if i == 0x7C then 0x59B33D17 else if i == 0x7D then 0x2EB40D81 else
    if i == 0x7E then 0xB7BD5C3B else 0xC0BA6CAD
  }

  function Row8(i: bv8): bv32 {
    if i == 0x80 then 0xEDB88320 else if i == 0x81 then 0x9ABFB3B6 else
    if i == 0x82 then 0x03B6E20C else if i == 0x83 then 0x74B1D29A else
    if i == 0x84 then 0xEAD54739 else if i == 0x85 then 0x9DD277AF else
    if i == 0x86 then 0x04DB2615 else if i == 0x87 then 0x73DC1683 else
    if i == 0x88 then 0xE3630B12 else if i == 0x89 then 0x94643B84 else
    if i == 0x8A then 0x0D6D6A3E else if i == 0x8B then 0x7A6A5AA8 else
    if i == 0x8C then 0xE40ECF0B else if i == 0x8D then 0x9309FF9D else
    if i == 0x8E then 0x0A00AE27 else 0x7D079EB1
  }

  function Row9(i: bv8): bv32 {
    if i == 0x90 then 0xF00F9344 else if i == 0x91 then 0x8708A3D2 else
    if i == 0x92 then 0x1E01F268 else if i == 0x93 then 0x6906C2FE else
    if i == 0x94 then 0xF762575D else if i == 0x95 then 0x806567CB else
    if i == 0x96 then 0x196C3671 else if i == 0x97 then 0x6E6B06E7 else
    if i == 0x98 then 0xFED41B76 else if i == 0x99 then 0x89D32BE0 else
    if i == 0x9A then 0x10DA7A5A else if i == 0x9B then 0x67DD4ACC else
    if i == 0x9C then 0xF9B9DF6F else if i == 0x9D then 0x8EBEEFF9 else
    if i == 0x9E then 0x17B7BE43 else 0x60B08ED5
  }

  function RowA(i: bv8): bv32 {
    if i == 0xA0 then 0xD6D6A3E8 else if i == 0xA1 then 0xA1D1937E else
    if i == 0xA2 then 0x38D8C2C4 else if i == 0xA3 then 0x4FDFF252 else
    if i == 0xA4 then 0xD1BB67F1 else if i == 0xA5 then 0xA6BC5767 else
    if i == 0xA6 then 0x3FB506DD else if i == 0xA7 then 0x48B2364B else
    if i == 0xA8 then 0xD80D2BDA else if i == 0xA9 then 0xAF0A1B4C else
    if i == 0xAA then 0x36034AF6 else if i == 0xAB then 0x41047A60 else
    if i == 0xAC then 0xDF60EFC3 else if i == 0xAD then 0xA867DF55 else
    if i == 0xAE then 0x316E8EEF else 0x4669BE79
  }

  function RowB(i: bv8): bv32 {
    if i == 0xB0 then 0xCB61B38C else if i == 0xB1 then 0xBC66831A else
    if i == 0xB2 then 0x256FD2A0 else if i == 0xB3 then 0x5268E236 else
    if i == 0xB4 then 0xCC0C7795 else if i == 0xB5 then 0xBB0B4703 else
    if i == 0xB6 then 0x220216B9 else if i == 0xB7 then 0x5505262F else
    if i == 0xB8 then 0xC5BA3BBE else if i == 0xB9 then 0xB2BD0B28 else
    if i == 0xBA then 0x2BB45A92 else if i == 0xBB then 0x5CB36A04 else
    if i == 0xBC then 0xC2D7FFA7 else if i == 0xBD then 0xB5D0CF31 else
    if i == 0xBE then 0x2CD99E8B else 0x5BDEAE1D
  }

  function RowC(i: bv8): bv32 {
    if i == 0xC0 then 0x9B64C2B0 else if i == 0xC1 then 0xEC63F226 else
    if i == 0xC2 then 0x756AA39C else if i == 0xC3 then 0x026D930A else
    if i == 0xC4 then 0x9C0906A9 else if i == 0xC5 then 0xEB0E363F else
    if i == 0xC6 then 0x72076785 else if i == 0xC7 then 0x05005713 else
    if i == 0xC8 then 0x95BF4A82 else if i == 0xC9 then 0xE2B87A14 else
    if i == 0xCA then 0x7BB12BAE else if i == 0xCB then 0x0CB61B38 else
    if i == 0xCC then 0x92D28E9B else if i == 0xCD then 0xE5D5BE0D else
    if i == 0xCE then 0x7CDCEFB7 else 0x0BDBDF21
  }

  function RowD(i: bv8): bv32 {
    if i == 0xD0 then 0x86D3D2D4 else if i == 0xD1 then 0xF1D4E242 else
    if i == 0xD2 then 0x68DDB3F8 else if i == 0xD3 then 0x1FDA836E else
    if i == 0xD4 then 0x81BE16CD else if i == 0xD5 then 0xF6B9265B else
    if i == 0xD6 then 0x6FB077E1 else if i == 0xD7 then 0x18B74777 else
    if i == 0xD8 then 0x88085AE6 else if i == 0xD9 then 0xFF0F6A70 else
    if i == 0xDA then 0x66063BCA else if i == 0xDB then 0x11010B5C else
    if i == 0xDC then 0x8F659EFF else if i == 0xDD then 0xF862AE69 else
    if i == 0xDE then 0x616BFFD3 else 0x166CCF45
  }

  function RowE(i: bv8): bv32 {
    if i == 0xE0 then 0xA00AE278 else if i == 0xE1 then 0xD70DD2EE else
    if i == 0xE2 then 0x4E048354 else if i == 0xE3 then 0x3903B3C2 else
    if i == 0xE4 then 0xA7672661 else if i == 0xE5 then 0xD06016F7 else
    if i == 0xE6 then 0x4969474D else if i == 0xE7 then 0x3E6E77DB else
    if i == 0xE8 then 0xAED16A4A else if i == 0xE9 then 0xD9D65ADC else
    if i == 0xEA then 0x40DF0B66 else if i == 0xEB then 0x37D83BF0 else
    if i == 0xEC then 0xA9BCAE53 else if i == 0xED then 0xDEBB9EC5 else
    if i == 0xEE then 0x47B2CF7F else 0x30B5FFE9
  }

  function RowF(i: bv8): bv32 {
    if i == 0xF0 then 0xBDBDF21C else if i == 0xF1 then 0xCABAC28A else
    if i == 0xF2 then 0x53B39330 else if i == 0xF3 then 0x24B4A3A6 else
    if i == 0xF4 then 0xBAD03605 else if i == 0xF5 then 0xCDD70693 else
    if i == 0xF6 then 0x54DE5729 else if i == 0xF7 then 0x23D967BF else
    if i == 0xF8 then 0xB3667A2E else if i == 0xF9 then 0xC4614AB8 else
    if i == 0xFA then 0x5D681B02 else if i == 0xFB then 0x2A6F2B94 else
    if i == 0xFC then 0xB40BBE37 else if i == 0xFD then 0xC30C8EA1 else
    if i == 0xFE then 0x5A05DF1B else 0x2D02EF8D
  }

  /** `crc32_tab`, in rows of 16 entries. */
  function Table(i: bv8): bv32 {
    if i < 0x10 then Row0(i) else if i < 0x20 then Row1(i) else if i < 0x30 then Row2(i) else if i < 0x40 then Row3(i)
    else if i < 0x50 then Row4(i) else if i < 0x60 then Row5(i) else if i < 0x70 then Row6(i)
    else if i < 0x80 then Row7(i) else if i < 0x90 then Row8(i) else if i < 0xA0 then Row9(i)
    else if i < 0xB0 then RowA(i) else if i < 0xC0 then RowB(i)
    else if i < 0xD0 then RowC(i) else if i < 0xE0 then RowD(i) else if i < 0xF0 then RowE(i) else RowF(i)
  }

  function ShiftBits(c: bv32): bv32 {
    (c >> 1) ^ ((0 - (c & 1)) & POLYNOMIAL)
  }

  /** A step without a message bit. */
  function Shift(c: Register): Register {
    Register(ShiftBits(c.bits))
  }

  function Shifts(c: Register, k: nat): Register
    decreases k
  {
    if k == 0 then c else Shifts(Shift(c), k - 1)
  }

  function Shift8(c: Register): Register {
    Shift(Shift(Shift(Shift(Shift(Shift(Shift(Shift(c))))))))
  }

  lemma RowEntries0(i: bv8)
    requires 0x00 <= i <= 0x0F
    ensures Register(Row0(i)) == Shift8(Register(i as bv32))
  {
  }

  lemma RowEntries1(i: bv8)
    requires 0x10 <= i <= 0x1F
    ensures Register(Row1(i)) == Shift8(Register(i as bv32))
  {
  }

  lemma RowEntries2(i: bv8)
    requires 0x20 <= i <= 0x2F
    ensures Register(Row2(i)) == Shift8(Register(i as bv32))
  {
  }

  lemma RowEntries3(i: bv8)
    requires 0x30 <= i <= 0x3F
    ensures Register(Row3(i)) == Shift8(Register(i as bv32))
  {
  }

  lemma RowEntries4(i: bv8)
    requires 0x40 <= i <= 0x4F
    ensures Register(Row4(i)) == Shift8(Register(i as bv32))
  {
  }

  lemma RowEntries5(i: bv8)
    requires 0x50 <= i <= 0x5F
    ensures Register(Row5(i)) == Shift8(Register(i as bv32))
  {
  }

  lemma RowEntries6(i: bv8)
    requires 0x60 <= i <= 0x6F
    ensures Register(Row6(i)) == Shift8(Register(i as bv32))
  {
  }

  lemma RowEntries7(i: bv8)
    requires 0x70 <= i <= 0x7F
    ensures Register(Row7(i)) == Shift8(Register(i as bv32))
  {
  }

  lemma RowEntries8(i: bv8)
    requires 0x80 <= i <= 0x8F
    ensures Register(Row8(i)) == Shift8(Register(i as bv32))
  {
  }

  lemma RowEntries9(i: bv8)
    requires 0x90 <= i <= 0x9F
    ensures Register(Row9(i)) == Shift8(Register(i as bv32))
  {
  }

  lemma RowEntriesA(i: bv8)
    requires 0xA0 <= i <= 0xAF
    ensures Register(RowA(i)) == Shift8(Register(i as bv32))
  {
  }

  lemma RowEntriesB(i: bv8)
    requires 0xB0 <= i <= 0xBF
    ensures Register(RowB(i)) == Shift8(Register(i as bv32))
  {
  }

  lemma RowEntriesC(i: bv8)
    requires 0xC0 <= i <= 0xCF
    ensures Register(RowC(i)) == Shift8(Register(i as bv32))
  {
  }

  lemma RowEntriesD(i: bv8)
    requires 0xD0 <= i <= 0xDF
    ensures Register(RowD(i)) == Shift8(Register(i as bv32))
  {
  }

  lemma RowEntriesE(i: bv8)
    requires 0xE0 <= i <= 0xEF
    ensures Register(RowE(i)) == Shift8(Register(i as bv32))
  {
  }

  lemma RowEntriesF(i: bv8)
    requires 0xF0 <= i <= 0xFF
    ensures Register(RowF(i)) == Shift8(Register(i as bv32))
  {
  }

  /** Every table entry is its index shifted through the register. */
  lemma TableEntry(i: bv8)
    ensures Register(Table(i)) == Shift8(Register(i as bv32))
  {
    hide Shift8;
    hide Row0, Row1, Row2, Row3, Row4, Row5, Row6, Row7;
    hide Row8, Row9, RowA, RowB, RowC, RowD, RowE, RowF;
    if i < 0x10 { RowEntries0(i); } else if i < 0x20 { RowEntries1(i); } else if i < 0x30 { RowEntries2(i); }
    else if i < 0x40 { RowEntries3(i); } else if i < 0x50 { RowEntries4(i); } else if i < 0x60 { RowEntries5(i); }
    else if i < 0x70 { RowEntries6(i); } else if i < 0x80 { RowEntries7(i); } else if i < 0x90 { RowEntries8(i); }
    else if i < 0xA0 { RowEntries9(i); } else if i < 0xB0 { RowEntriesA(i); } else if i < 0xC0 { RowEntriesB(i); }
    else if i < 0xD0 { RowEntriesC(i); } else if i < 0xE0 { RowEntriesD(i); } else if i < 0xF0 { RowEntriesE(i); }
    else { RowEntriesF(i); }
  }

  // ---------- The table step is eight bit steps ----------

  lemma ShiftLinearBits(x: bv32, y: bv32)
    ensures ShiftBits(XorBits(x, y)) == XorBits(ShiftBits(x), ShiftBits(y))
  {
    assert (x ^ y) & 1 == (x & 1) ^ (y & 1);
    assert (x & 1 == 0 || x & 1 == 1) && (y & 1 == 0 || y & 1 == 1);
  }

  lemma ShiftLinear(a: Register, b: Register)
    ensures Shift(Xor(a, b)) == Xor(Shift(a), Shift(b))
  {
    hide XorBits, ShiftBits;
    ShiftLinearBits(a.bits, b.bits);
  }

  lemma Shift8Linear(a: Register, b: Register)
    ensures Shift8(Xor(a, b)) == Xor(Shift8(a), Shift8(b))
  {
    hide Shift, Xor;
    ShiftLinear(a, b);
    var a1, b1 := Shift(a), Shift(b);
    ShiftLinear(a1, b1);
    var a2, b2 := Shift(a1), Shift(b1);
    ShiftLinear(a2, b2);
    var a3, b3 := Shift(a2), Shift(b2);
    ShiftLinear(a3, b3);
    var a4, b4 := Shift(a3), Shift(b3);
    ShiftLinear(a4, b4);
    var a5, b5 := Shift(a4), Shift(b4);
    ShiftLinear(a5, b5);
    var a6, b6 := Shift(a5), Shift(b5);
    ShiftLinear(a6, b6);
    ShiftLinear(Shift(a6), Shift(b6));
  }

  function WidenBits(b: bv8): bv32 {
    b as bv32
  }

  function Widen(b: bv8): Register {
    Register(WidenBits(b))
  }

  /** A bit that is fed in could as well have been in the register before. */
  lemma FeedEarlier(c: Register, b: bv8)
    ensures Xor(BitStep(c, b), Widen(b >> 1)) == Shift(Xor(c, Widen(b)))
  {
    var x := c.bits;
    assert XorBits(FeedBits(x, b), WidenBits(b >> 1)) == ShiftBits(XorBits(x, WidenBits(b))) by {
      assert (x ^ (b as bv32)) & 1 == 0 || (x ^ (b as bv32)) & 1 == 1;
      assert (x ^ (b as bv32)) >> 1 == (x >> 1) ^ ((b >> 1) as bv32);
    }
    hide XorBits, FeedBits, WidenBits, ShiftBits;
  }

  lemma {:induction false} FeedAllEarlier(c: Register, b: bv8, k: nat)
    requires k <= 8
    ensures Xor(BitSteps(c, b, k), Widen(Dropped(b, k))) == Shifts(Xor(c, Widen(b)), k)
    decreases k
  {
    hide Shift, Xor, BitStep, Widen;
    if k == 0 {
    } else {
      FeedEarlier(c, b);
      FeedAllEarlier(BitStep(c, b), b >> 1, k - 1);
    }
  }

  function Dropped(b: bv8, k: nat): bv8
    decreases k
  {
    if k == 0 then b else Dropped(b >> 1, k - 1)
  }

  lemma ByteStepUnrolled(c: Register, b: bv8)
    ensures ByteStep(c, b) == BitStep(BitStep(BitStep(BitStep(BitStep(BitStep(BitStep(BitStep(
                                c, b), b >> 1), b >> 2), b >> 3), b >> 4), b >> 5), b >> 6), b >> 7)
  {
    hide BitStep;
    var c1 := BitStep(c, b);
    var c2 := BitStep(c1, b >> 1);
    var c3 := BitStep(c2, b >> 2);
    var c4 := BitStep(c3, b >> 3);
    var c5 := BitStep(c4, b >> 4);
    var c6 := BitStep(c5, b >> 5);
    var c7 := BitStep(c6, b >> 6);
    assert BitSteps(c, b, 8) == BitSteps(c1, b >> 1, 7);
    assert BitSteps(c1, b >> 1, 7) == BitSteps(c2, b >> 2, 6);
    assert BitSteps(c2, b >> 2, 6) == BitSteps(c3, b >> 3, 5);
    assert BitSteps(c3, b >> 3, 5) == BitSteps(c4, b >> 4, 4);
    assert BitSteps(c4, b >> 4, 4) == BitSteps(c5, b >> 5, 3);
    assert BitSteps(c5, b >> 5, 3) == BitSteps(c6, b >> 6, 2);
    assert BitSteps(c6, b >> 6, 2) == BitSteps(c7, b >> 7, 1);
    assert BitSteps(c7, b >> 7, 1) == BitStep(c7, b >> 7);
  }

  lemma ByteStepIsShift8(c: Register, b: bv8)
    ensures ByteStep(c, b) == Shift8(Xor(c, Widen(b)))
  {
    FeedAllEarlier(c, b, 8);
    XorZero(ByteStep(c, b));
    hide Shift8, BitSteps, Xor, Shifts, Dropped;
  }

  lemma XorZero(c: Register)
    ensures Xor(c, Widen(0)) == c
  {
  }

  /** The table index for the next byte. */
  function LowIndex(c: bv32, b: bv8): bv8 {
    ((c ^ (b as bv32)) & 0xFF) as bv8
  }

  function HighBits(c: bv32): bv32 {
    c & 0xFFFF_FF00
  }

  function DropByte(c: bv32): bv32 {
    c >> 8
  }

  /** `crc32_tab[(crc ^ byte) & 0xFF] ^ (crc >> 8)`. */
  function TableStep(c: Register, b: bv8): Register {
    Register(XorBits(Table(LowIndex(c.bits, b)), DropByte(c.bits)))
  }

  lemma SplitBits(c: bv32, b: bv8)
    ensures XorBits(c, WidenBits(b)) == XorBits(WidenBits(LowIndex(c, b)), HighBits(c))
  {
    assert c ^ (b as bv32) == ((((c ^ (b as bv32)) & 0xFF) as bv8) as bv32) ^ (c & 0xFFFF_FF00);
  }

  lemma HighBytesShift(c: bv32)
    ensures Shift8(Register(HighBits(c))) == Register(DropByte(c))
  {
  }

  lemma TableStepIsByteStep(c: Register, b: bv8)
    ensures TableStep(c, b) == ByteStep(c, b)
  {
    hide Shift8, ByteStep, Table, LowIndex, HighBits, DropByte, WidenBits, XorBits;
    var i := LowIndex(c.bits, b);
    SplitBits(c.bits, b);
    ByteStepIsShift8(c, b);
    Shift8Linear(Widen(i), Register(HighBits(c.bits)));
    TableEntry(i);
    HighBytesShift(c.bits);
    WidenIs(i);
  }

  lemma WidenIs(b: bv8)
    ensures WidenBits(b) == b as bv32
  {
  }

  /** The loop of `crc32`. */
  method Crc32(crc: Register, message: seq<bv8>) returns (result: Register)
    ensures result == Crc(crc, message)
  {
    hide TableStep, ByteStep, Xor;
    var c := Xor(crc, ALL_ONES);
    var i := 0;
    while i < |message|
      invariant 0 <= i <= |message|
      invariant c == Run(Xor(crc, ALL_ONES), message[..i])
    {
      TableStepIsByteStep(c, message[i]);
      assert message[..i + 1][..i] == message[..i];
      c := TableStep(c, message[i]);
      i := i + 1;
    }
    assert message[..i] == message;
    result := Xor(c, ALL_ONES);
  }

  // ---------- What the CRC is for ----------

  lemma {:induction false} RunConcat(c: Register, a: seq<bv8>, b: seq<bv8>)
    ensures Run(c, a + b) == Run(Run(c, a), b)
  {
    hide ByteStep;
    if b == [] {
      assert a + b == a;
    } else {
      RunConcat(c, a, b[..|b| - 1]);
      assert (a + b)[..|a + b| - 1] == a + b[..|b| - 1];
    }
  }

  /** A CRC can be continued with the next part of the message. */
  lemma CrcChains(crc: Register, a: seq<bv8>, b: seq<bv8>)
    ensures Crc(Crc(crc, a), b) == Crc(crc, a + b)
  {
    RunConcat(Xor(crc, ALL_ONES), a, b);
    hide Run;
  }

  /** The CRC in the order in which it is transmitted. */
  function LittleEndian(c: Register): seq<bv8> {
    [(c.bits & 0xFF) as bv8, ((c.bits >> 8) & 0xFF) as bv8, ((c.bits >> 16) & 0xFF) as bv8, (c.bits >> 24) as bv8]
  }

  /** Feeding a register its own complement leaves the same value whatever the register was. */
  lemma ResidueStep(c: Register)
    ensures var s := LittleEndian(Xor(c, ALL_ONES));
            ByteStep(ByteStep(ByteStep(ByteStep(c, s[0]), s[1]), s[2]), s[3]) == Register(0xDEBB_20E3)
  {
    var s := LittleEndian(Xor(c, ALL_ONES));
    ByteStepUnrolled(c, s[0]);
    var c1 := ByteStep(c, s[0]);
    ByteStepUnrolled(c1, s[1]);
    var c2 := ByteStep(c1, s[1]);
    ByteStepUnrolled(c2, s[2]);
    var c3 := ByteStep(c2, s[2]);
    ByteStepUnrolled(c3, s[3]);
    hide ByteStep;
  }

  /** A message followed by its CRC has one CRC that does not depend on the message. */
  lemma CrcResidue(message: seq<bv8>)
    ensures Crc(Register(0), message + LittleEndian(Crc(Register(0), message))) == Register(0x2144_DF1C)
  {
    var start := Xor(Register(0), ALL_ONES);
    var r := Run(start, message);
    var s := LittleEndian(Xor(r, ALL_ONES));
    RunConcat(start, message, s);
    ResidueStep(r);
    hide ByteStep;
    assert s[..3][..2][..1][..0] == [];
    assert s[..3][..2] == s[..2] && s[..2][..1] == s[..1];
    assert Run(r, s[..1]) == ByteStep(r, s[0]);
    assert Run(r, s[..2]) == ByteStep(Run(r, s[..1]), s[1]);
    assert Run(r, s[..3]) == ByteStep(Run(r, s[..2]), s[2]);
    assert Run(r, s) == ByteStep(Run(r, s[..3]), s[3]);
  }

  // ---------- Errors within 32 consecutive bits are detected ----------

  lemma ShiftInjectiveBits(a: bv32, b: bv32)
    requires ShiftBits(a) == ShiftBits(b)
    ensures a == b
  {
  }

  lemma ShiftInjective(a: Register, b: Register)
    requires Shift(a) == Shift(b)
    ensures a == b
  {
    hide ShiftBits;
    ShiftInjectiveBits(a.bits, b.bits);
  }

  lemma XorCommutes(a: Register, b: Register)
    ensures Xor(a, b) == Xor(b, a)
  {
  }

  lemma XorUndone(a: Register, w: Register)
    ensures Xor(Xor(a, w), w) == a
  {
    assert (a.bits ^ w.bits) ^ w.bits == a.bits;
  }

  lemma XorCancels(a: Register, b: Register, w: Register)
    requires Xor(a, w) == Xor(b, w)
    ensures a == b
  {
    XorUndone(a, w);
    XorUndone(b, w);
    hide Xor;
  }

  function Feed(c: Register, bit: bool): Register {
    BitStep(c, if bit then 1 else 0)
  }

  function RunBits(c: Register, bits: seq<bool>): Register
    decreases |bits|
  {
    if bits == [] then c else RunBits(Feed(c, bits[0]), bits[1..])
  }

  /** The k lowest bits of a byte, lowest first. */
  function LowBits(b: bv8, k: nat): (bits: seq<bool>)
    ensures |bits| == k
    decreases k
  {
    if k == 0 then [] else [b & 1 == 1] + LowBits(b >> 1, k - 1)
  }

  /** The bits of a message in the order in which they enter the register. */
  function Bits(message: seq<bv8>): seq<bool> {
    if message == [] then [] else Bits(message[..|message| - 1]) + LowBits(message[|message| - 1], 8)
  }

  lemma LowestBit(c: bv32, b: bv8)
    ensures FeedBits(c, b) == FeedBits(c, if b & 1 == 1 then 1 else 0)
  {
    assert b & 1 == 0 || b & 1 == 1;
    assert (c ^ (b as bv32)) & 1 == (c & 1) ^ ((b & 1) as bv32);
    assert (c ^ 1) & 1 == (c & 1) ^ 1;
  }

  lemma {:induction false} StepsAreBits(c: Register, b: bv8, k: nat)
    ensures BitSteps(c, b, k) == RunBits(c, LowBits(b, k))
    decreases k
  {
    hide FeedBits;
    if k == 0 {
    } else {
      LowestBit(c.bits, b);
      StepsAreBits(BitStep(c, b), b >> 1, k - 1);
    }
  }

  lemma {:induction false} BitsConcat(c: Register, a: seq<bool>, b: seq<bool>)
    ensures RunBits(c, a + b) == RunBits(RunBits(c, a), b)
    decreases |a|
  {
    hide Feed;
    if a == [] {
      assert a + b == b;
    } else {
      assert (a + b)[1..] == a[1..] + b;
      BitsConcat(Feed(c, a[0]), a[1..], b);
    }
  }

  lemma {:induction false} RunIsBits(c: Register, message: seq<bv8>)
    ensures Run(c, message) == RunBits(c, Bits(message))
  {
    hide BitSteps, LowBits, RunBits;
    if message == [] {
      assert RunBits(c, []) == c by { NoBits(c); }
    } else {
      var n := |message| - 1;
      RunIsBits(c, message[..n]);
      BitsConcat(c, Bits(message[..n]), LowBits(message[n], 8));
      StepsAreBits(Run(c, message[..n]), message[n], 8);
    }
  }

  lemma NoBits(c: Register)
    ensures RunBits(c, []) == c
  {
  }

  function AttachBits(bit: bool, w: bv32): bv32 {
    (w << 1) ^ (if bit then 1 else 0)
  }

  /** Up to 32 bits as a register, the first bit lowest. */
  function Word(x: seq<bool>): Register {
    if x == [] then Register(0) else Register(AttachBits(x[0], Word(x[1..]).bits))
  }

  predicate Within(w: bv32, mask: bv32) {
    w & !mask == 0
  }

  /** The k lowest bits. */
  function Mask(k: nat): bv32 {
    if k == 0 then 0 else (Mask(k - 1) << 1) | 1
  }

  lemma AttachWithin(bit: bool, w: bv32, mask: bv32)
    requires Within(w, mask)
    ensures Within(AttachBits(bit, w), (mask << 1) | 1)
  {
  }

  lemma {:induction false} WordWithin(x: seq<bool>)
    ensures Within(Word(x).bits, Mask(|x|))
    decreases |x|
  {
    hide Within, AttachBits;
    if x == [] {
      NothingWithin();
    } else {
      WordWithin(x[1..]);
      AttachWithin(x[0], Word(x[1..]).bits, Mask(|x| - 1));
    }
  }

  lemma NothingWithin()
    ensures Within(0, 0)
  {
  }

  lemma ShiftWithin(m: bv32, n: bv32)
    requires Within(m, n)
    ensures Within((m << 1) | 1, (n << 1) | 1)
  {
  }

  lemma {:induction false} MaskGrows(k: nat)
    ensures Within(Mask(k), Mask(k + 1))
  {
    hide Within;
    if k == 0 {
      ZeroWithin(Mask(1));
    } else {
      MaskGrows(k - 1);
      ShiftWithin(Mask(k - 1), Mask(k));
    }
  }

  lemma ZeroWithin(m: bv32)
    ensures Within(0, m)
  {
  }

  lemma MaskLadder()
    ensures Mask(31) == 0x7FFF_FFFF
  {
    assert Mask(1) == 0x1 && Mask(2) == 0x3;
    assert Mask(3) == 0x7 && Mask(4) == 0xF;
    assert Mask(5) == 0x1F && Mask(6) == 0x3F;
    assert Mask(7) == 0x7F && Mask(8) == 0xFF;
    assert Mask(9) == 0x1FF && Mask(10) == 0x3FF;
    assert Mask(11) == 0x7FF && Mask(12) == 0xFFF;
    assert Mask(13) == 0x1FFF && Mask(14) == 0x3FFF;
    assert Mask(15) == 0x7FFF && Mask(16) == 0xFFFF;
    assert Mask(17) == 0x1FFFF && Mask(18) == 0x3FFFF;
    assert Mask(19) == 0x7FFFF && Mask(20) == 0xFFFFF;
    assert Mask(21) == 0x1FFFFF && Mask(22) == 0x3FFFFF;
    assert Mask(23) == 0x7FFFFF && Mask(24) == 0xFFFFFF;
    assert Mask(25) == 0x1FFFFFF && Mask(26) == 0x3FFFFFF;
    assert Mask(27) == 0x7FFFFFF && Mask(28) == 0xFFFFFFF;
    assert Mask(29) == 0x1FFFFFFF && Mask(30) == 0x3FFFFFFF;
    assert Mask(31) == 0x7FFFFFFF;
  }

  lemma TopClearWithin(m: bv32, n: bv32)
    requires Within(m, n) && n & 0x8000_0000 == 0
    ensures m & 0x8000_0000 == 0
  {
  }

  lemma {:induction false} MaskTopClear(k: nat)
    requires k <= 31
    ensures Mask(k) & 0x8000_0000 == 0
    decreases 31 - k
  {
    hide Mask, Within;
    if k == 31 {
      MaskLadder();
    } else {
      MaskTopClear(k + 1);
      MaskGrows(k);
      TopClearWithin(Mask(k), Mask(k + 1));
    }
  }

  /** Fewer than 32 bits leave the top bit of the word clear. */
  lemma WordTopClear(x: seq<bool>)
    requires |x| <= 31
    ensures Word(x).bits & 0x8000_0000 == 0
  {
    hide Word, Mask, Within;
    WordWithin(x);
    MaskTopClear(|x|);
    TopClearWithin(Word(x).bits, Mask(|x|));
  }

  lemma FeedIsShift(c: Register, bit: bool)
    ensures Feed(c, bit) == Shift(Xor(c, Register(AttachBits(bit, 0))))
  {
    FeedEarlier(c, if bit then 1 else 0);
    XorZero(Feed(c, bit));
    hide FeedBits, ShiftBits;
  }

  lemma ShiftPastBits(u: bv32, w: bv32)
    requires w & 0x8000_0000 == 0
    ensures XorBits(ShiftBits(u), w) == ShiftBits(XorBits(u, w << 1))
  {
    ShiftLinearBits(u, w << 1);
    hide ShiftBits, XorBits;
  }

  /** Bits that are fed after a first one could as well have been in the register, one place higher. */
  lemma FirstBit(c: Register, bit: bool, w: Register)
    requires w.bits & 0x8000_0000 == 0
    ensures Xor(Feed(c, bit), w) == Shift(Xor(c, Register(AttachBits(bit, w.bits))))
  {
    var b := Register(AttachBits(bit, 0));
    FeedIsShift(c, bit);
    ShiftPastBits(Xor(c, b).bits, w.bits);
    hide Feed, ShiftBits, XorBits, AttachBits;
  }

  /** Up to 32 bits act as if they had been in the register before. */
  lemma {:induction false} RunIsShifts(c: Register, x: seq<bool>)
    requires |x| <= 32
    ensures RunBits(c, x) == Shifts(Xor(c, Word(x)), |x|)
    decreases |x|
  {
    hide Feed, Shift, Xor, AttachBits;
    if x == [] {
      XorZero(c);
      WidenIs(0);
    } else {
      WordTopClear(x[1..]);
      FirstBit(c, x[0], Word(x[1..]));
      RunIsShifts(Feed(c, x[0]), x[1..]);
    }
  }

  lemma {:induction false} ShiftsInjective(a: Register, b: Register, k: nat)
    requires Shifts(a, k) == Shifts(b, k)
    ensures a == b
    decreases k
  {
    hide Shift;
    if k == 0 {
    } else {
      ShiftsInjective(Shift(a), Shift(b), k - 1);
      ShiftInjective(a, b);
    }
  }

  lemma AttachInjective(p: bool, q: bool, v: bv32, w: bv32)
    requires v & 0x8000_0000 == 0 && w & 0x8000_0000 == 0
    requires AttachBits(p, v) == AttachBits(q, w)
    ensures p == q && v == w
  {
  }

  lemma {:induction false} WordInjective(x: seq<bool>, y: seq<bool>)
    requires |x| == |y| <= 32 && Word(x) == Word(y)
    ensures x == y
    decreases |x|
  {
    hide AttachBits;
    if x == [] {
    } else {
      WordTopClear(x[1..]);
      WordTopClear(y[1..]);
      AttachInjective(x[0], y[0], Word(x[1..]).bits, Word(y[1..]).bits);
      WordInjective(x[1..], y[1..]);
      assert x == [x[0]] + x[1..] && y == [y[0]] + y[1..];
    }
  }

  lemma {:induction false} SameBitsInjective(c: Register, d: Register, bits: seq<bool>)
    requires RunBits(c, bits) == RunBits(d, bits)
    ensures c == d
    decreases |bits|
  {
    hide Feed, Shift, Xor, AttachBits;
    if bits == [] {
    } else {
      SameBitsInjective(Feed(c, bits[0]), Feed(d, bits[0]), bits[1..]);
      var b := Register(AttachBits(bits[0], 0));
      FeedIsShift(c, bits[0]);
      FeedIsShift(d, bits[0]);
      ShiftInjective(Xor(c, b), Xor(d, b));
      XorCancels(c, d, b);
    }
  }

  /** Bit sequences that differ only within 32 consecutive bits end in different registers. */
  lemma BurstChangesRegister(c: Register, a: seq<bool>, x: seq<bool>, y: seq<bool>, b: seq<bool>)
    requires |x| == |y| <= 32 && x != y
    ensures RunBits(c, a + x + b) != RunBits(c, a + y + b)
  {
    hide RunBits, Xor, Shifts, Word;
    var d := RunBits(c, a);
    BitsConcat(c, a, x);
    BitsConcat(c, a, y);
    BitsConcat(c, a + x, b);
    BitsConcat(c, a + y, b);
    if RunBits(c, a + x + b) == RunBits(c, a + y + b) {
      SameBitsInjective(RunBits(d, x), RunBits(d, y), b);
      RunIsShifts(d, x);
      RunIsShifts(d, y);
      ShiftsInjective(Xor(d, Word(x)), Xor(d, Word(y)), |x|);
      XorCommutes(d, Word(x));
      XorCommutes(d, Word(y));
      XorCancels(Word(x), Word(y), d);
      WordInjective(x, y);
    }
  }

  /** Two messages that differ only within 32 consecutive bits have different CRCs. */
  lemma BurstDetected(crc: Register, m: seq<bv8>, n: seq<bv8>, a: seq<bool>, x: seq<bool>, y: seq<bool>, b: seq<bool>)
    requires Bits(m) == a + x + b && Bits(n) == a + y + b
    requires |x| == |y| <= 32 && x != y
    ensures Crc(crc, m) != Crc(crc, n)
  {
    hide Run, RunBits, Xor;
    var c := Xor(crc, ALL_ONES);
    RunIsBits(c, m);
    RunIsBits(c, n);
    BurstChangesRegister(c, a, x, y, b);
    if Crc(crc, m) == Crc(crc, n) {
      XorCancels(Run(c, m), Run(c, n), ALL_ONES);
    }
  }
}
