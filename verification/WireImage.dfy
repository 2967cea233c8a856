// Packets byte by byte, as they lie on the wire.
module WireImage {
  import opened Checksum
  import opened CrcTables
  import opened Crc
  import opened Stream
  import opened Frame

  // Header of an acknowledgement of 723 bytes: each field lies where the protocol puts it.
  lemma HeaderOnTheWire()
    ensures Body(Header(723, 5, true, DEVICE, 9, 0x1234)) ==
      [0xAA, 0xD3, 0x02, 0x25, 0x00, 0x09, 0x00, 0x00, 0x34, 0x12]
  {
    hide ByteOf;
    SameByte(ByteOf(723 % 256), 0xD3);
    SameByte(ByteOf(723 / 256 % 4), 0x02);
    SameByte(ByteOf(5), 0x05);
  }

  lemma First16()
    ensures Update16(0x3AA3, 0xAA) == 0x06FA
  {}

  lemma First32()
    ensures Update32(0x3AA3, 0xAA) == 0x79DCB89E
  {}

  lemma FedOnce<T>(r: Register<T>, c: T, b: Byte)
    ensures Feed(r, c, [b]) == r.shift(r.mix(c, r.place(b, 0)))
  {
    assert [b][..0] == [];
    assert Feed(r, c, [b][..0]) == c;
  }

  // Both checksums after the start mark: the initial value, the polynomial and the order of bits.
  lemma StartMarkSummed()
    ensures Crc16([SOF]) == 0x06FA && Crc32([SOF]) == 0x79DCB89E
  {
    hide Update16, Update32, Byte16, Byte32, Xor16, Xor32, Feed;
    First16();
    First32();
    FedOnce(Reg16(), CRC_INIT, SOF);
    FedOnce(Reg32(), CRC_INIT as bv32, SOF);
    Update16IsBitwise(0x3AA3, 0xAA);
    Update32IsBitwise(0x3AA3, 0xAA);
  }

  lemma ChecksumsOnTheWire()
    ensures Le16(0x1234) == [0x34, 0x12] && Le32(0x12345678) == [0x78, 0x56, 0x34, 0x12]
  {}

  /** A command: its header, then the command id before the command set, then the data. */
  lemma CommandOnTheWire(h: Header, cmdSet: Byte, cmdId: Byte, data: seq<Byte>)
    ensures var s := PackCommand(h, cmdSet, cmdId, data);
      |s| == 18 + |data| && s[..10] == Body(h) && s[12] == cmdId && s[13] == cmdSet && s[14..14 + |data|] == data
  {
    hide Body, Crc16, Crc32, Le16, Le32;
  }
}
