/** CRC-32: the byte-at-a-time loop of crc32Compute against feeding the message one bit at a time. */
module Crc {
  import opened Prelude

  const POLYNOMIAL: bv32 := 0xEDB88320

  // Named so that the proofs about whole bytes need not look at single bits.
  function Xor(a: bv32, b: bv32): bv32 { a ^ b }

  function Half(b: bv32): bv32 { b >> 1 }

  function Low(b: bv32): bv32 { b & 1 }

  /** One message bit enters the reflected shift register. */
  function FeedBit(reg: bv32, bit: bv32): bv32 {
    Xor(Half(reg), if Low(Xor(reg, bit)) == 1 then POLYNOMIAL else 0)
  }

  /** The n low bits of b, least significant first. */
  function FeedBits(reg: bv32, b: bv32, n: nat): bv32
    decreases n
  {
    if n == 0 then reg else FeedBits(FeedBit(reg, Low(b)), Half(b), n - 1)
  }

  function Widen(b: Byte): bv32 {
    (b as bv8) as bv32
  }

  function FeedBytes(reg: bv32, data: Bytes): bv32 {
    if data == [] then reg else FeedBits(FeedBytes(reg, data[..|data| - 1]), Widen(data[|data| - 1]), 8)
  }

  /** CRC-32 as a bit-serial process: all ones in, complemented out. */
  function Crc32(data: Bytes): bv32 {
    FeedBytes(0xFFFFFFFF, data) ^ 0xFFFFFFFF
  }

  /** One round of the inner loop. */
  function Round(crc: bv32): bv32 {
    if Low(crc) != 0 then Xor(Half(crc), POLYNOMIAL) else Half(crc)
  }

  function Rounds(crc: bv32, n: nat): bv32
    decreases n
  {
    if n == 0 then crc else Rounds(Round(crc), n - 1)
  }

  function ShiftedBy(b: bv32, n: nat): bv32
    decreases n
  {
    if n == 0 then b else ShiftedBy(Half(b), n - 1)
  }

  lemma HalfOfXor(a: bv32, b: bv32)
    ensures Half(Xor(a, b)) == Xor(Half(a), Half(b))
  {
  }

  lemma LowOfXor(a: bv32, b: bv32)
    ensures Low(Xor(a, Low(b))) == Low(Xor(a, b))
    ensures Low(a) == 0 || Low(a) == 1
  {
  }

  lemma XorLaws(p: bv32, q: bv32, r: bv32)
    ensures Xor(Xor(p, q), r) == Xor(Xor(p, r), q)
    ensures Xor(p, 0) == p
  {
  }

  /** A round consumes the low bit of what was xored in and shifts the rest along. */
  lemma RoundFeedsBit(reg: bv32, b: bv32)
    ensures Round(Xor(reg, b)) == Xor(FeedBit(reg, Low(b)), Half(b))
  {
    hide Xor, Half, Low;
    HalfOfXor(reg, b);
    LowOfXor(reg, b);
    LowOfXor(Xor(reg, b), b);
    XorLaws(Half(reg), Half(b), POLYNOMIAL);
  }

  lemma {:induction false} RoundsFeedBits(reg: bv32, b: bv32, n: nat)
    ensures Rounds(Xor(reg, b), n) == Xor(FeedBits(reg, b, n), ShiftedBy(b, n))
    decreases n
  {
    hide Round, FeedBit, Xor, Half, Low;
    if n > 0 {
      RoundFeedsBit(reg, b);
      RoundsFeedBits(FeedBit(reg, Low(b)), Half(b), n - 1);
    }
  }

  lemma EightShiftsEmptyAByte(y: bv8)
    ensures ShiftedBy(y as bv32, 8) == 0
  {
    var b := y as bv32;
    var b4 := (((b >> 1) >> 1) >> 1) >> 1;
    assert ShiftedBy(b, 8) == ShiftedBy(b >> 1, 7) == ShiftedBy((b >> 1) >> 1, 6)
      == ShiftedBy(((b >> 1) >> 1) >> 1, 5) == ShiftedBy(b4, 4);
    assert ShiftedBy(b4, 4) == ShiftedBy(b4 >> 1, 3) == ShiftedBy((b4 >> 1) >> 1, 2)
      == ShiftedBy(((b4 >> 1) >> 1) >> 1, 1) == (((b4 >> 1) >> 1) >> 1) >> 1;
  }

  lemma ByteRoundsFeedByte(reg: bv32, b: Byte)
    ensures Rounds(Xor(reg, Widen(b)), 8) == FeedBits(reg, Widen(b), 8)
  {
    RoundsFeedBits(reg, Widen(b), 8);
    EightShiftsEmptyAByte(b as bv8);
    var x := FeedBits(reg, Widen(b), 8);
    assert x ^ 0 == x;
  }

  lemma {:induction false} RoundsSnoc(crc: bv32, n: nat)
    ensures Rounds(crc, n + 1) == Round(Rounds(crc, n))
    decreases n
  {
    if n > 0 {
      RoundsSnoc(Round(crc), n - 1);
    }
  }

  /** The inner loop: xor the byte in, then eight rounds. */
  method FoldByte(crc: bv32, b: Byte) returns (r: bv32)
    ensures r == FeedBits(crc, Widen(b), 8)
  {
    hide Round, FeedBits, Widen;
    r := Xor(crc, Widen(b));
    ghost var mixed := r;
    for k := 0 to 8
      invariant r == Rounds(mixed, k)
    {
      RoundsSnoc(mixed, k);
      r := OneRound(r);
    }
    ByteRoundsFeedByte(crc, b);
  }

  method OneRound(crc: bv32) returns (r: bv32)
    ensures r == Round(crc)
  {
    if crc & 1 != 0 {
      r := (crc >> 1) ^ 0xEDB88320;
    } else {
      r := crc >> 1;
    }
  }

  /** The two nested loops compute the bit-serial CRC-32. */
  method Crc32Compute(data: Bytes) returns (r: bv32)
    ensures r == Crc32(data)
  {
    hide FeedBits, Widen;
    var crc: bv32 := 0xFFFFFFFF;
    for i := 0 to |data|
      invariant crc == FeedBytes(0xFFFFFFFF, data[..i])
    {
      assert data[..i + 1][..i] == data[..i];
      crc := FoldByte(crc, data[i]);
    }
    assert data[..|data|] == data;
    return crc ^ 0xFFFFFFFF;
  }
}
