/** The flags register F seen as four booleans: zero (Z) in bit 7, subtract (N)
    in bit 6, half-carry (H) in bit 5 and carry (C) in bit 4; bits 3-0 are
    always written as 0. */
module FlagsCodec {
  import opened Bits

  datatype FlagsRegister = FlagsRegister(zero: bool, subtract: bool, halfCarry: bool, carry: bool)

  const ZeroPosition: nat := 7
  const SubtractPosition: nat := 6
  const HalfCarryPosition: nat := 5
  const CarryPosition: nat := 4

  /** Pack the flags into a byte. */
  function ToByte(flags: FlagsRegister): (b: Byte)
    ensures b % 16 == 0
  {
    (if flags.zero then 0x80 else 0) + (if flags.subtract then 0x40 else 0)
      + (if flags.halfCarry then 0x20 else 0) + (if flags.carry then 0x10 else 0)
  }

  /** Each flag lands in its own bit of the packed byte. */
  lemma ToByteBits(flags: FlagsRegister)
    ensures TestBit(ToByte(flags), ZeroPosition) == flags.zero
    ensures TestBit(ToByte(flags), SubtractPosition) == flags.subtract
    ensures TestBit(ToByte(flags), HalfCarryPosition) == flags.halfCarry
    ensures TestBit(ToByte(flags), CarryPosition) == flags.carry
  {
    FlagBits(ToByte(flags));
  }

  /** Bits 7..4 of a byte, as divisions. */
  lemma FlagBits(b: nat)
    ensures TestBit(b, 7) == (b / 0x80 % 2 == 1) && TestBit(b, 6) == (b / 0x40 % 2 == 1)
    ensures TestBit(b, 5) == (b / 0x20 % 2 == 1) && TestBit(b, 4) == (b / 0x10 % 2 == 1)
  {
    assert Pow2(4) == 0x10 && Pow2(5) == 0x20 && Pow2(6) == 0x40 && Pow2(7) == 0x80;
    TestBitClosedForm(b, 7);
    TestBitClosedForm(b, 6);
    TestBitClosedForm(b, 5);
    TestBitClosedForm(b, 4);
  }

  /** Read the flags out of a byte; its low nibble is ignored. */
  function FromByte(b: Byte): FlagsRegister
  {
    FlagsRegister(
      TestBit(b, ZeroPosition), TestBit(b, SubtractPosition),
      TestBit(b, HalfCarryPosition), TestBit(b, CarryPosition))
  }

  /** Decoding a packed byte recovers the four flags. */
  lemma FromToByte(flags: FlagsRegister)
    ensures FromByte(ToByte(flags)) == flags
  {
    ToByteBits(flags);
  }

  /** Packing the flags read from a byte gives the byte back with its low nibble cleared. */
  lemma ToFromByte(b: Byte)
    ensures ToByte(FromByte(b)) == b - b % 16
  {
    FlagBits(b);
    var n := b / 16;
    HighNibble(b);
    NibbleSum(n);
    var flags := FromByte(b);
    assert flags.zero == (n / 8 % 2 == 1);
    assert flags.subtract == (n / 4 % 2 == 1);
    assert flags.halfCarry == (n / 2 % 2 == 1);
    assert flags.carry == (n % 2 == 1);
  }

  lemma HighNibble(b: Byte)
    ensures b - b % 16 == 16 * (b / 16)
    ensures b / 0x80 == b / 16 / 8 && b / 0x40 == b / 16 / 4 && b / 0x20 == b / 16 / 2
  {
  }

  lemma NibbleSum(n: nat)
    requires n < 16
    ensures n == 8 * (n / 8 % 2) + 4 * (n / 4 % 2) + 2 * (n / 2 % 2) + n % 2
  {
  }
}
