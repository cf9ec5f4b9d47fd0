/** The 512 table bytes of usbdrvasm18-crc.inc, eight to a row as in the source, and
    what their generator makes of them. */
module CrcTables {
  import opened Bits
  import opened Crc16

  /** The entry for x in its row. */
  function Pick(x: byte, e0: byte, e1: byte, e2: byte, e3: byte, e4: byte, e5: byte, e6: byte, e7: byte): byte {
    if x & 4 == 0 then
      if x & 2 == 0 then (if x & 1 == 0 then e0 else e1) else if x & 1 == 0 then e2 else e3
    else
      if x & 2 == 0 then (if x & 1 == 0 then e4 else e5) else if x & 1 == 0 then e6 else e7
  }

  /** usbCrcTableLow. */
  function TableLow(x: byte): byte {
    match x >> 3
    case 0 => Pick(x, 0x00, 0xc1, 0x81, 0x40, 0x01, 0xc0, 0x80, 0x41)
    case 1 => Pick(x, 0x01, 0xc0, 0x80, 0x41, 0x00, 0xc1, 0x81, 0x40)
    case 2 => Pick(x, 0x01, 0xc0, 0x80, 0x41, 0x00, 0xc1, 0x81, 0x40)
    case 3 => Pick(x, 0x00, 0xc1, 0x81, 0x40, 0x01, 0xc0, 0x80, 0x41)
    case 4 => Pick(x, 0x01, 0xc0, 0x80, 0x41, 0x00, 0xc1, 0x81, 0x40)
    case 5 => Pick(x, 0x00, 0xc1, 0x81, 0x40, 0x01, 0xc0, 0x80, 0x41)
    case 6 => Pick(x, 0x00, 0xc1, 0x81, 0x40, 0x01, 0xc0, 0x80, 0x41)
    case 7 => Pick(x, 0x01, 0xc0, 0x80, 0x41, 0x00, 0xc1, 0x81, 0x40)
    case 8 => Pick(x, 0x01, 0xc0, 0x80, 0x41, 0x00, 0xc1, 0x81, 0x40)
    case 9 => Pick(x, 0x00, 0xc1, 0x81, 0x40, 0x01, 0xc0, 0x80, 0x41)
    case 10 => Pick(x, 0x00, 0xc1, 0x81, 0x40, 0x01, 0xc0, 0x80, 0x41)
    case 11 => Pick(x, 0x01, 0xc0, 0x80, 0x41, 0x00, 0xc1, 0x81, 0x40)
    case 12 => Pick(x, 0x00, 0xc1, 0x81, 0x40, 0x01, 0xc0, 0x80, 0x41)
    case 13 => Pick(x, 0x01, 0xc0, 0x80, 0x41, 0x00, 0xc1, 0x81, 0x40)
    case 14 => Pick(x, 0x01, 0xc0, 0x80, 0x41, 0x00, 0xc1, 0x81, 0x40)
    case 15 => Pick(x, 0x00, 0xc1, 0x81, 0x40, 0x01, 0xc0, 0x80, 0x41)
    case 16 => Pick(x, 0x01, 0xc0, 0x80, 0x41, 0x00, 0xc1, 0x81, 0x40)
    case 17 => Pick(x, 0x00, 0xc1, 0x81, 0x40, 0x01, 0xc0, 0x80, 0x41)
    case 18 => Pick(x, 0x00, 0xc1, 0x81, 0x40, 0x01, 0xc0, 0x80, 0x41)
    case 19 => Pick(x, 0x01, 0xc0, 0x80, 0x41, 0x00, 0xc1, 0x81, 0x40)
    case 20 => Pick(x, 0x00, 0xc1, 0x81, 0x40, 0x01, 0xc0, 0x80, 0x41)
    case 21 => Pick(x, 0x01, 0xc0, 0x80, 0x41, 0x00, 0xc1, 0x81, 0x40)
    case 22 => Pick(x, 0x01, 0xc0, 0x80, 0x41, 0x00, 0xc1, 0x81, 0x40)
    case 23 => Pick(x, 0x00, 0xc1, 0x81, 0x40, 0x01, 0xc0, 0x80, 0x41)
    case 24 => Pick(x, 0x00, 0xc1, 0x81, 0x40, 0x01, 0xc0, 0x80, 0x41)
    case 25 => Pick(x, 0x01, 0xc0, 0x80, 0x41, 0x00, 0xc1, 0x81, 0x40)
    case 26 => Pick(x, 0x01, 0xc0, 0x80, 0x41, 0x00, 0xc1, 0x81, 0x40)
    case 27 => Pick(x, 0x00, 0xc1, 0x81, 0x40, 0x01, 0xc0, 0x80, 0x41)
    case 28 => Pick(x, 0x01, 0xc0, 0x80, 0x41, 0x00, 0xc1, 0x81, 0x40)
    case 29 => Pick(x, 0x00, 0xc1, 0x81, 0x40, 0x01, 0xc0, 0x80, 0x41)
    case 30 => Pick(x, 0x00, 0xc1, 0x81, 0x40, 0x01, 0xc0, 0x80, 0x41)
    case _ => Pick(x, 0x01, 0xc0, 0x80, 0x41, 0x00, 0xc1, 0x81, 0x40)
  }

  /** usbCrcTableHigh. */
  function TableHigh(x: byte): byte {
    match x >> 3
    case 0 => Pick(x, 0x00, 0xc0, 0xc1, 0x01, 0xc3, 0x03, 0x02, 0xc2)
    case 1 => Pick(x, 0xc6, 0x06, 0x07, 0xc7, 0x05, 0xc5, 0xc4, 0x04)
    case 2 => Pick(x, 0xcc, 0x0c, 0x0d, 0xcd, 0x0f, 0xcf, 0xce, 0x0e)
    case 3 => Pick(x, 0x0a, 0xca, 0xcb, 0x0b, 0xc9, 0x09, 0x08, 0xc8)
    case 4 => Pick(x, 0xd8, 0x18, 0x19, 0xd9, 0x1b, 0xdb, 0xda, 0x1a)
    case 5 => Pick(x, 0x1e, 0xde, 0xdf, 0x1f, 0xdd, 0x1d, 0x1c, 0xdc)
    case 6 => Pick(x, 0x14, 0xd4, 0xd5, 0x15, 0xd7, 0x17, 0x16, 0xd6)
    case 7 => Pick(x, 0xd2, 0x12, 0x13, 0xd3, 0x11, 0xd1, 0xd0, 0x10)
    case 8 => Pick(x, 0xf0, 0x30, 0x31, 0xf1, 0x33, 0xf3, 0xf2, 0x32)
    case 9 => Pick(x, 0x36, 0xf6, 0xf7, 0x37, 0xf5, 0x35, 0x34, 0xf4)
    case 10 => Pick(x, 0x3c, 0xfc, 0xfd, 0x3d, 0xff, 0x3f, 0x3e, 0xfe)
    case 11 => Pick(x, 0xfa, 0x3a, 0x3b, 0xfb, 0x39, 0xf9, 0xf8, 0x38)
    case 12 => Pick(x, 0x28, 0xe8, 0xe9, 0x29, 0xeb, 0x2b, 0x2a, 0xea)
    case 13 => Pick(x, 0xee, 0x2e, 0x2f, 0xef, 0x2d, 0xed, 0xec, 0x2c)
    case 14 => Pick(x, 0xe4, 0x24, 0x25, 0xe5, 0x27, 0xe7, 0xe6, 0x26)
    case 15 => Pick(x, 0x22, 0xe2, 0xe3, 0x23, 0xe1, 0x21, 0x20, 0xe0)
    case 16 => Pick(x, 0xa0, 0x60, 0x61, 0xa1, 0x63, 0xa3, 0xa2, 0x62)
    case 17 => Pick(x, 0x66, 0xa6, 0xa7, 0x67, 0xa5, 0x65, 0x64, 0xa4)
    case 18 => Pick(x, 0x6c, 0xac, 0xad, 0x6d, 0xaf, 0x6f, 0x6e, 0xae)
    case 19 => Pick(x, 0xaa, 0x6a, 0x6b, 0xab, 0x69, 0xa9, 0xa8, 0x68)
    case 20 => Pick(x, 0x78, 0xb8, 0xb9, 0x79, 0xbb, 0x7b, 0x7a, 0xba)
    case 21 => Pick(x, 0xbe, 0x7e, 0x7f, 0xbf, 0x7d, 0xbd, 0xbc, 0x7c)
    case 22 => Pick(x, 0xb4, 0x74, 0x75, 0xb5, 0x77, 0xb7, 0xb6, 0x76)
    case 23 => Pick(x, 0x72, 0xb2, 0xb3, 0x73, 0xb1, 0x71, 0x70, 0xb0)
    case 24 => Pick(x, 0x50, 0x90, 0x91, 0x51, 0x93, 0x53, 0x52, 0x92)
    case 25 => Pick(x, 0x96, 0x56, 0x57, 0x97, 0x55, 0x95, 0x94, 0x54)
    case 26 => Pick(x, 0x9c, 0x5c, 0x5d, 0x9d, 0x5f, 0x9f, 0x9e, 0x5e)
    case 27 => Pick(x, 0x5a, 0x9a, 0x9b, 0x5b, 0x99, 0x59, 0x58, 0x98)
    case 28 => Pick(x, 0x88, 0x48, 0x49, 0x89, 0x4b, 0x8b, 0x8a, 0x4a)
    case 29 => Pick(x, 0x4e, 0x8e, 0x8f, 0x4f, 0x8d, 0x4d, 0x4c, 0x8c)
    case 30 => Pick(x, 0x44, 0x84, 0x85, 0x45, 0x87, 0x47, 0x46, 0x86)
    case _ => Pick(x, 0x82, 0x42, 0x43, 0x83, 0x41, 0x81, 0x80, 0x40)
  }

  lemma LowEntry0(x: byte)
    requires x < 0x80
    ensures TableLow(x) == Lo(Shift8(x as word))
  {
  }

  lemma LowEntry1(x: byte)
    requires x >= 0x80
    ensures TableLow(x) == Lo(Shift8(x as word))
  {
  }

  lemma HighEntry0(x: byte)
    requires x < 0x80
    ensures TableHigh(x) == Hi(Shift8(x as word))
  {
  }

  lemma HighEntry1(x: byte)
    requires 0x80 <= x < 0xc0
    ensures TableHigh(x) == Hi(Shift8(x as word))
  {
  }

  lemma HighEntry2(x: byte)
    requires x >= 0xc0
    ensures TableHigh(x) == Hi(Shift8(x as word))
  {
  }

  /** Every entry of both tables is what the generator computes. */
  lemma Entry(x: byte)
    ensures TableLow(x) == Lo(Shift8(x as word)) && TableHigh(x) == Hi(Shift8(x as word))
  {
    hide TableLow, TableHigh, Shift8, Lo, Hi;
    if x < 0x80 {
      LowEntry0(x);
      HighEntry0(x);
    } else if x < 0xc0 {
      LowEntry1(x);
      HighEntry1(x);
    } else {
      LowEntry1(x);
      HighEntry2(x);
    }
  }
}
