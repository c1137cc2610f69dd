/** Published values the checksum has to have: they fix the polynomial, the start value and the complement. */
module CrcValues {
  import opened Prelude
  import opened Crc

  /** Eight bits fed one after the other, written out. */
  lemma FeedsEight(reg: bv32, b: bv32)
    ensures var r1, b1 := FeedBit(reg, Low(b)), Half(b);
            var r2, b2 := FeedBit(r1, Low(b1)), Half(b1);
            var r3, b3 := FeedBit(r2, Low(b2)), Half(b2);
            var r4, b4 := FeedBit(r3, Low(b3)), Half(b3);
            var r5, b5 := FeedBit(r4, Low(b4)), Half(b4);
            var r6, b6 := FeedBit(r5, Low(b5)), Half(b5);
            var r7, b7 := FeedBit(r6, Low(b6)), Half(b6);
            FeedBits(reg, b, 8) == FeedBit(r7, Low(b7))
  {
    hide FeedBit, Low, Half;
    FeedsTwo(reg, b, 6);
    var r2, b2 := FeedBit(FeedBit(reg, Low(b)), Low(Half(b))), Half(Half(b));
    FeedsTwo(r2, b2, 4);
    var r4, b4 := FeedBit(FeedBit(r2, Low(b2)), Low(Half(b2))), Half(Half(b2));
    FeedsTwo(r4, b4, 2);
    var r6, b6 := FeedBit(FeedBit(r4, Low(b4)), Low(Half(b4))), Half(Half(b4));
    FeedsTwo(r6, b6, 0);
  }

  lemma FeedsTwo(reg: bv32, b: bv32, n: nat)
    ensures FeedBits(reg, b, n + 2) == FeedBits(FeedBit(FeedBit(reg, Low(b)), Low(Half(b))), Half(Half(b)), n)
  {
    hide FeedBit, Low, Half;
  }

  lemma FeedByteSnoc(reg: bv32, data: Bytes, b: Byte)
    ensures FeedBytes(reg, data + [b]) == FeedBits(FeedBytes(reg, data), Widen(b), 8)
  {
    assert (data + [b])[..|data|] == data;
  }

  // "123456789"
  const DIGITS: Bytes := [0x31, 0x32, 0x33, 0x34, 0x35, 0x36, 0x37, 0x38, 0x39]

  lemma Digit1()
    ensures FeedBits(0xFFFFFFFF, 0x31, 8) == 0x7C231048
  {
    FeedsEight(0xFFFFFFFF, 0x31);
  }

  lemma Digit2()
    ensures FeedBits(0x7C231048, 0x32, 8) == 0xB0ACBB32
  {
    FeedsEight(0x7C231048, 0x32);
  }

  lemma Digit3()
    ensures FeedBits(0xB0ACBB32, 0x33, 8) == 0x77B79C2D
  {
    FeedsEight(0xB0ACBB32, 0x33);
  }

  lemma Digit4()
    ensures FeedBits(0x77B79C2D, 0x34, 8) == 0x641C1F5C
  {
    FeedsEight(0x77B79C2D, 0x34);
  }

  lemma Digit5()
    ensures FeedBits(0x641C1F5C, 0x35, 8) == 0x340AC5E3
  {
    FeedsEight(0x641C1F5C, 0x35);
  }

  lemma Digit6()
    ensures FeedBits(0x340AC5E3, 0x36, 8) == 0xF68D2C9E
  {
    FeedsEight(0x340AC5E3, 0x36);
  }

  lemma Digit7()
    ensures FeedBits(0xF68D2C9E, 0x37, 8) == 0xAFFC9660
  {
    FeedsEight(0xF68D2C9E, 0x37);
  }

  lemma Digit8()
    ensures FeedBits(0xAFFC9660, 0x38, 8) == 0x651F2550
  {
    FeedsEight(0xAFFC9660, 0x38);
  }

  lemma Digit9()
    ensures FeedBits(0x651F2550, 0x39, 8) == 0x340BC6D9
  {
    FeedsEight(0x651F2550, 0x39);
  }

  lemma OneMore(data: Bytes, k: nat, reg: bv32, next: bv32)
    requires k < |data| && FeedBytes(0xFFFFFFFF, data[..k]) == reg && FeedBits(reg, Widen(data[k]), 8) == next
    ensures FeedBytes(0xFFFFFFFF, data[..k + 1]) == next
  {
    hide FeedBits;
    FeedByteSnoc(0xFFFFFFFF, data[..k], data[k]);
    assert data[..k + 1] == data[..k] + [data[k]];
  }

  lemma WidenDigit(b: Byte, w: bv32)
    requires 0x31 <= b <= 0x39 && w == (b as bv8) as bv32
    ensures Widen(b) == w
  {
  }

  lemma FirstFive(data: Bytes)
    requires |data| == 9 && data[0] == 0x31 && data[1] == 0x32 && data[2] == 0x33 && data[3] == 0x34 && data[4] == 0x35
    ensures FeedBytes(0xFFFFFFFF, data[..5]) == 0x340AC5E3
  {
    hide FeedBits, Widen, FeedBytes;
    assert FeedBytes(0xFFFFFFFF, data[..0]) == 0xFFFFFFFF by { FedNothing(0xFFFFFFFF); }
    WidenDigit(0x31, 0x31);
    Digit1();
    OneMore(data, 0, 0xFFFFFFFF, 0x7C231048);
    WidenDigit(0x32, 0x32);
    Digit2();
    OneMore(data, 1, 0x7C231048, 0xB0ACBB32);
    WidenDigit(0x33, 0x33);
    Digit3();
    OneMore(data, 2, 0xB0ACBB32, 0x77B79C2D);
    WidenDigit(0x34, 0x34);
    Digit4();
    OneMore(data, 3, 0x77B79C2D, 0x641C1F5C);
    WidenDigit(0x35, 0x35);
    Digit5();
    OneMore(data, 4, 0x641C1F5C, 0x340AC5E3);
  }

  lemma LastFour(data: Bytes)
    requires |data| == 9 && data[5] == 0x36 && data[6] == 0x37 && data[7] == 0x38 && data[8] == 0x39
    requires FeedBytes(0xFFFFFFFF, data[..5]) == 0x340AC5E3
    ensures FeedBytes(0xFFFFFFFF, data[..9]) == 0x340BC6D9
  {
    hide FeedBits, Widen, FeedBytes;
    WidenDigit(0x36, 0x36);
    Digit6();
    OneMore(data, 5, 0x340AC5E3, 0xF68D2C9E);
    WidenDigit(0x37, 0x37);
    Digit7();
    OneMore(data, 6, 0xF68D2C9E, 0xAFFC9660);
    WidenDigit(0x38, 0x38);
    Digit8();
    OneMore(data, 7, 0xAFFC9660, 0x651F2550);
    WidenDigit(0x39, 0x39);
    Digit9();
    OneMore(data, 8, 0x651F2550, 0x340BC6D9);
  }

  /** The check value of CRC-32: the digits 1 to 9 give CBF43926. */
  lemma CheckValue()
    ensures Crc32(DIGITS) == 0xCBF43926
  {
    hide FeedBytes;
    FirstFive(DIGITS);
    LastFour(DIGITS);
    assert DIGITS[..9] == DIGITS;
  }

  lemma FedNothing(reg: bv32)
    ensures FeedBytes(reg, []) == reg
  {
  }

  // ---------------------------------------------------------------- residue

  /** Feeding m bits, then n more, is feeding m + n. */
  lemma {:induction false} BitsInTwoParts(reg: bv32, b: bv32, m: nat, n: nat)
    ensures FeedBits(reg, b, m + n) == FeedBits(FeedBits(reg, b, m), ShiftedBy(b, m), n)
    decreases m
  {
    hide FeedBit, Low, Half;
    if m > 0 {
      BitsInTwoParts(FeedBit(reg, Low(b)), Half(b), m - 1, n);
    }
  }

  // Named so that the proofs about whole words need not look at single bits.
  function LowByte(w: bv32): Byte { ((w & 0xFF) as bv8) as int }

  function DropByte(w: bv32): bv32 { w >> 8 }

  function Masked(w: bv32, m: bv32): bv32 { w & m }

  /** A checksum as four bytes, the lowest first. */
  function ChecksumBytes(w: bv32): Bytes {
    [LowByte(w), LowByte(DropByte(w)), LowByte(DropByte(DropByte(w))), LowByte(DropByte(DropByte(DropByte(w))))]
  }

  predicate LowOnes(m: bv32, n: nat)
    decreases n
  {
    n == 0 || (Low(m) == 1 && LowOnes(Half(m), n - 1))
  }

  lemma MaskedHalf(w: bv32, m: bv32)
    ensures Half(Masked(w, m)) == Masked(Half(w), Half(m))
    ensures Low(m) == 1 ==> Low(Masked(w, m)) == Low(w)
  {
  }

  /** Feeding n bits looks at the n low bits only. */
  lemma {:induction false} FeedsLowBits(reg: bv32, w: bv32, m: bv32, n: nat)
    requires LowOnes(m, n)
    ensures FeedBits(reg, Masked(w, m), n) == FeedBits(reg, w, n)
    decreases n
  {
    hide FeedBit, Low, Half, Masked;
    if n > 0 {
      MaskedHalf(w, m);
      FeedsLowBits(FeedBit(reg, Low(w)), Half(w), Half(m), n - 1);
    }
  }

  lemma EightOnes()
    ensures LowOnes(0xFF, 8)
  {
    assert Half(0xFF) == 0x7F && Half(0x7F) == 0x3F && Half(0x3F) == 0x1F && Half(0x1F) == 0xF;
    assert LowOnes(0xF, 4);
    assert LowOnes(0x1F, 5) && LowOnes(0x3F, 6) && LowOnes(0x7F, 7);
  }

  lemma SameByte(y: bv8)
    ensures (y as int) as bv8 == y
  {
  }

  lemma NarrowLow(w: bv32)
    ensures ((w & 0xFF) as bv8) as bv32 == w & 0xFF
  {
  }

  lemma ByteOfWord(w: bv32)
    ensures Widen(LowByte(w)) == Masked(w, 0xFF)
  {
    SameByte((w & 0xFF) as bv8);
    NarrowLow(w);
  }

  lemma OneByteFed(reg: bv32, w: bv32)
    ensures FeedBits(reg, Widen(LowByte(w)), 8) == FeedBits(reg, w, 8)
  {
    hide FeedBits, Widen, LowByte, Masked, LowOnes;
    ByteOfWord(w);
    EightOnes();
    FeedsLowBits(reg, w, 0xFF, 8);
  }

  lemma ShiftsFour(w: bv32)
    ensures ShiftedBy(w, 4) == w >> 4
  {
    assert ShiftedBy(w, 4) == ShiftedBy(w >> 1, 3) == ShiftedBy((w >> 1) >> 1, 2)
      == ShiftedBy(((w >> 1) >> 1) >> 1, 1) == (((w >> 1) >> 1) >> 1) >> 1;
  }

  lemma {:induction false} ShiftsInTwoParts(w: bv32, m: nat, n: nat)
    ensures ShiftedBy(w, m + n) == ShiftedBy(ShiftedBy(w, m), n)
    decreases m
  {
    hide Half;
    if m > 0 {
      ShiftsInTwoParts(Half(w), m - 1, n);
    }
  }

  lemma ShiftsEight(w: bv32)
    ensures ShiftedBy(w, 8) == DropByte(w)
  {
    hide ShiftedBy;
    ShiftsFour(w);
    ShiftsFour(w >> 4);
    ShiftsInTwoParts(w, 4, 4);
    assert (w >> 4) >> 4 == w >> 8;
  }

  lemma FourBytesDropped(w: bv32)
    ensures DropByte(DropByte(DropByte(DropByte(w)))) == 0
  {
  }

  lemma FeedsFour(reg: bv32, data: Bytes, z: Bytes)
    requires |z| == 4
    ensures FeedBytes(reg, data + z) ==
              FeedBits(FeedBits(FeedBits(FeedBits(FeedBytes(reg, data), Widen(z[0]), 8), Widen(z[1]), 8), Widen(z[2]), 8), Widen(z[3]), 8)
  {
    hide FeedBits, Widen, FeedBytes;
    var d1, d2, d3 := data + [z[0]], data + [z[0]] + [z[1]], data + [z[0]] + [z[1]] + [z[2]];
    assert data + z == d3 + [z[3]];
    FeedByteSnoc(reg, data, z[0]);
    FeedByteSnoc(reg, d1, z[1]);
    FeedByteSnoc(reg, d2, z[2]);
    FeedByteSnoc(reg, d3, z[3]);
  }

  /** Feeding the four bytes of a word, lowest first, is feeding its 32 bits. */
  lemma FeedsWord(reg: bv32, data: Bytes, w: bv32)
    ensures FeedBytes(reg, data + ChecksumBytes(w)) == FeedBits(FeedBytes(reg, data), w, 32)
  {
    hide FeedBits, Widen, FeedBytes, ShiftedBy, LowByte, DropByte;
    FeedsFour(reg, data, ChecksumBytes(w));
    var w1 := DropByte(w);
    var w2 := DropByte(w1);
    var r0 := FeedBytes(reg, data);
    var r1 := FeedBits(r0, w, 8);
    var r2 := FeedBits(r1, w1, 8);
    OneByteFed(r0, w);
    OneByteFed(r1, w1);
    OneByteFed(r2, w2);
    OneByteFed(FeedBits(r2, w2, 8), DropByte(w2));
    BitsInTwoParts(r0, w, 8, 24);
    BitsInTwoParts(r1, w1, 8, 16);
    BitsInTwoParts(r2, w2, 8, 8);
    ShiftsEight(w);
    ShiftsEight(w1);
    ShiftsEight(w2);
  }

  lemma EightRounds1()
    ensures Rounds(0xFFFFFFFF, 8) == 0x2DFD1072
  {
    RoundsInTwoParts(0xFFFFFFFF, 4, 4);
    assert Rounds(0xFFFFFFFF, 4) == 0xB2420DE3;
    assert Rounds(0xB2420DE3, 4) == 0x2DFD1072;
  }

  lemma EightRounds2()
    ensures Rounds(0x2DFD1072, 8) == 0xBE26ED00
  {
    RoundsInTwoParts(0x2DFD1072, 4, 4);
    assert Rounds(0x2DFD1072, 4) == 0x39B1F1CF;
    assert Rounds(0x39B1F1CF, 4) == 0xBE26ED00;
  }

  lemma EightRounds3()
    ensures Rounds(0xBE26ED00, 8) == 0x00BE26ED
  {
    RoundsInTwoParts(0xBE26ED00, 4, 4);
    assert Rounds(0xBE26ED00, 4) == 0x0BE26ED0;
    assert Rounds(0x0BE26ED0, 4) == 0x00BE26ED;
  }

  lemma EightRounds4()
    ensures Rounds(0x00BE26ED, 8) == 0xDEBB20E3
  {
    RoundsInTwoParts(0x00BE26ED, 4, 4);
    assert Rounds(0x00BE26ED, 4) == 0x86D830BA;
    assert Rounds(0x86D830BA, 4) == 0xDEBB20E3;
  }

  lemma {:induction false} RoundsInTwoParts(crc: bv32, m: nat, n: nat)
    ensures Rounds(crc, m + n) == Rounds(Rounds(crc, m), n)
    decreases m
  {
    hide Round;
    if m > 0 {
      RoundsInTwoParts(Round(crc), m - 1, n);
    }
  }

  lemma AllRounds()
    ensures Rounds(0xFFFFFFFF, 32) == 0xDEBB20E3
  {
    hide Rounds;
    EightRounds1();
    EightRounds2();
    EightRounds3();
    EightRounds4();
    RoundsInTwoParts(0xFFFFFFFF, 8, 24);
    RoundsInTwoParts(0x2DFD1072, 8, 16);
    RoundsInTwoParts(0xBE26ED00, 8, 8);
  }

  lemma NothingLeftOf(w: bv32)
    ensures ShiftedBy(w, 32) == 0
  {
    hide ShiftedBy, DropByte;
    var w1 := DropByte(w);
    var w2 := DropByte(w1);
    var w3 := DropByte(w2);
    ShiftsInTwoParts(w, 8, 24);
    ShiftsInTwoParts(w1, 8, 16);
    ShiftsInTwoParts(w2, 8, 8);
    ShiftsEight(w);
    ShiftsEight(w1);
    ShiftsEight(w2);
    ShiftsEight(w3);
    FourBytesDropped(w);
  }

  /** Data followed by its own checksum, lowest byte first, always has the same checksum. */
  lemma Residue(data: Bytes)
    ensures Crc32(data + ChecksumBytes(Crc32(data))) == 0x2144DF1C
  {
    hide FeedBits, FeedBytes, Rounds, ShiftedBy, ChecksumBytes, Xor, Crc32;
    var reg, w := FeedBytes(0xFFFFFFFF, data), Crc32(data);
    Complemented(data);
    Complemented(data + ChecksumBytes(w));
    FeedsWord(0xFFFFFFFF, data, w);
    RoundsFeedBits(reg, w, 32);
    NothingLeftOf(w);
    AllRounds();
    XorFacts(reg, FeedBits(reg, w, 32));
  }

  lemma Complemented(data: Bytes)
    ensures Crc32(data) == Xor(FeedBytes(0xFFFFFFFF, data), 0xFFFFFFFF)
  {
    hide FeedBytes;
  }

  lemma XorFacts(reg: bv32, x: bv32)
    ensures Xor(reg, Xor(reg, 0xFFFFFFFF)) == 0xFFFFFFFF && Xor(x, 0) == x
    ensures Xor(0xDEBB20E3, 0xFFFFFFFF) == 0x2144DF1C
  {
  }
}
