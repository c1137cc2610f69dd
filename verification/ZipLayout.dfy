/** The three records written out field by field, in the order and widths of PKWARE APPNOTE.TXT. */
module ZipLayout {
  import opened Prelude
  import opened Endian
  import opened Zip

  lemma TwoBytes(v: nat)
    requires v < 256
    ensures Le2(v) == [v, 0]
  {
    assert LittleEndian(v, 2) == [v % 256] + LittleEndian(v / 256, 1);
    assert LittleEndian(0, 1) == [0] + LittleEndian(0, 0);
  }

  lemma FourBytes(v: nat, a: Byte, b: Byte, c: Byte, d: Byte)
    requires v == a + 256 * b + 65536 * c + 16777216 * d
    ensures Le4(v) == [a, b, c, d]
  {
    var v1, v2, v3 := b + 256 * c + 65536 * d, c + 256 * d, d as nat;
    DivUnique(v, 256, v1, a);
    DivUnique(v1, 256, v2, b);
    DivUnique(v2, 256, v3, c);
    DivUnique(v3, 256, 0, d);
    assert LittleEndian(v, 4) == [a] + LittleEndian(v1, 3);
    assert LittleEndian(v1, 3) == [b] + LittleEndian(v2, 2);
    assert LittleEndian(v2, 2) == [c] + LittleEndian(v3, 1);
    assert LittleEndian(v3, 1) == [d] + LittleEndian(0, 0);
  }

  /** 4.3.7: "PK\3\4", version 2.0, no flags, stored, no time, checksum, both sizes, lengths, name. */
  lemma LocalHeaderLayout(name: Bytes, size: nat, crc: nat)
    ensures LocalHeader(name, size, crc) ==
              [0x50, 0x4b, 3, 4] + [20, 0] + [0, 0] + [0, 0] + [0, 0, 0, 0]
              + Le4(crc) + Le4(size) + Le4(size) + Le2(|name|) + [0, 0] + name
  {
    hide Le4, Le2;
    FourBytes(0x04034b50, 0x50, 0x4b, 3, 4);
    TwoBytes(20);
    TwoBytes(0);
    assert Zeros(4) == [0, 0, 0, 0] && Zeros(2) == [0, 0] && Zeros(0) == [];
  }

  /** The fixed part before the checksum. */
  lemma CentralFront()
    ensures Put(Put(Put(Put(Put([], 0, Le4(CENTRAL_SIGNATURE)), 4, Le2(20)), 6, Le2(20)), 8, Le2(0)), 10, Le2(0))
            == [0x50, 0x4b, 1, 2] + [20, 0] + [20, 0] + [0, 0] + [0, 0]
  {
    hide Le4, Le2;
    FourBytes(0x02014b50, 0x50, 0x4b, 1, 2);
    TwoBytes(20);
    TwoBytes(0);
    assert Zeros(0) == [];
  }

  /** 4.3.12: "PK\1\2", versions 2.0, no flags, stored, no time, checksum, both sizes, lengths, no attributes, offset, name. */
  lemma CentralHeaderLayout(name: Bytes, size: nat, crc: nat, offset: nat)
    ensures CentralHeader(name, size, crc, offset) ==
              [0x50, 0x4b, 1, 2] + [20, 0] + [20, 0] + [0, 0] + [0, 0] + [0, 0, 0, 0]
              + Le4(crc) + Le4(size) + Le4(size) + Le2(|name|) + Zeros(12) + Le4(offset) + name
  {
    hide Le4, Le2;
    CentralFront();
    var front := [0x50, 0x4b, 1, 2] + [20, 0] + [20, 0] + [0, 0] + [0, 0];
    CentralBack(front, name, size, crc, offset);
  }

  lemma CentralBack(front: Bytes, name: Bytes, size: nat, crc: nat, offset: nat)
    requires |front| == 12
    ensures Put(Put(Put(Put(Put(Put(front, 16, Le4(crc)), 20, Le4(size)), 24, Le4(size)), 28, Le2(|name|)), 42, Le4(offset)), 46, name)
            == front + [0, 0, 0, 0] + Le4(crc) + Le4(size) + Le4(size) + Le2(|name|) + Zeros(12) + Le4(offset) + name
  {
    hide Le4, Le2;
    assert Zeros(4) == [0, 0, 0, 0] && Zeros(0) == [];
  }

  /** 4.3.16: "PK\5\6", one disk, the count twice, size and offset of the directory, no comment. */
  lemma EndRecordLayout(count: nat, cdSize: nat, cdOffset: nat)
    ensures EndRecord(count, cdSize, cdOffset) ==
              [0x50, 0x4b, 5, 6] + [0, 0, 0, 0] + Le2(count) + Le2(count) + Le4(cdSize) + Le4(cdOffset) + [0, 0]
  {
    hide Le4, Le2;
    FourBytes(0x06054b50, 0x50, 0x4b, 5, 6);
    assert Zeros(4) == [0, 0, 0, 0] && Zeros(2) == [0, 0] && Zeros(0) == [];
  }
}
