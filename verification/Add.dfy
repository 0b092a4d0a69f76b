/** 8-bit addition reporting carry out of bit 7 and half-carry out of bit 3
    (Add.kt), and the 16-bit overload that CPU.kt calls for ADD HL, whose
    half-carry is out of bit 11 and carry out of bit 15. */
module Addition {
  import opened Bits

  datatype OverflowAddResult = OverflowAddResult(sum: Byte, carry: bool, halfCarry: bool)

  datatype OverflowAddResult16 = OverflowAddResult16(sum: Word, carry: bool, halfCarry: bool)

  /** The sum is computed without overflow, then truncated to a byte. */
  function OverflowAdd(first: Byte, second: Byte): (r: OverflowAddResult)
    ensures r.sum + (if r.carry then 0x100 else 0) == first + second
    ensures r.carry <==> first + second > 0xFF
    ensures r.halfCarry <==> first % 16 + second % 16 > 0xF
  {
    var sum := first + second;
    var carry := sum > 0xFF;
    ByteSumWraps(sum);
    AndLowNibble(first);
    AndLowNibble(second);
    var halfCarry := And(first, 0xF) + And(second, 0xF) > 0xF;
    OverflowAddResult(ToUByte(sum), carry, halfCarry)
  }

  /** The 16-bit overload, shaped like the 8-bit one with the thresholds 0xFFF and 0xFFFF. */
  function OverflowAdd16(first: Word, second: Word): (r: OverflowAddResult16)
    ensures r.sum + (if r.carry then 0x1_0000 else 0) == first + second
    ensures r.carry <==> first + second > 0xFFFF
    ensures r.halfCarry <==> first % 0x1000 + second % 0x1000 > 0xFFF
  {
    var sum := first + second;
    var carry := sum > 0xFFFF;
    AndLowTwelveBits(first);
    AndLowTwelveBits(second);
    var halfCarry := And(first, 0xFFF) + And(second, 0xFFF) > 0xFFF;
    OverflowAddResult16(ToUShort(sum), carry, halfCarry)
  }

  /** The 16-bit overload with a second operand of at most 0x100 (a byte,
      or a byte plus a carry): its half-carry looks only at the first
      operand's low 12 bits. */
  lemma OverflowAdd16OfByte(first: Word, second: nat)
    requires second <= 0x100
    ensures OverflowAdd16(first, second)
      == OverflowAddResult16((first + second) % 0x1_0000, first + second > 0xFFFF, first % 0x1000 + second > 0xFFF)
  {
    ModUnique(second, 0x1000, 0, second);
    if first + second > 0xFFFF {
      ModUnique(first + second, 0x1_0000, 1, first + second - 0x1_0000);
    } else {
      ModUnique(first + second, 0x1_0000, 0, first + second);
    }
  }

  /** Addition does not depend on the order of its operands, flags included. */
  lemma OverflowAddCommutes(first: Byte, second: Byte)
    ensures OverflowAdd(first, second) == OverflowAdd(second, first)
  {
  }

  /** Adding zero returns the other operand and raises no flag. */
  lemma OverflowAddZero(x: Byte)
    ensures OverflowAdd(x, 0) == OverflowAddResult(x, false, false)
    ensures OverflowAdd(0, x) == OverflowAddResult(x, false, false)
  {
  }
}
