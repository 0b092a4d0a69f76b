/** The executor (CPU.kt): a CPU holding the register file, whose operations
    update the registers in place. Each operation follows the Kotlin steps
    (overflowAdd, sub, flag packing, shifts and masks) and is proved to have
    the effect the Execution module describes. */
module Cpu {
  import opened Bits
  import opened Addition
  import opened Subtraction
  import opened FlagsCodec
  import opened RegisterFile
  import opened Execution
  import Instructions

  class CPU {
    var registers: Registers

    constructor(registers: Registers)
      ensures this.registers == registers
    {
      this.registers := registers;
    }

    /** Carry out one instruction, told apart by its kind as `execute` does;
        any other instruction leaves the registers as they are. */
    method Execute(instruction: Instructions.Instruction)
      modifies this
      ensures registers == Step(old(registers), instruction)
    {
      if instruction.Add? && instruction.target.Reg8? {
        Add(instruction.target.r8);
      } else if instruction.AddC? && instruction.target.Reg8? {
        AddC(instruction.target.r8);
      } else if instruction.Sub? && instruction.target.Reg8? {
        Sub(instruction.target.r8);
      } else if instruction.Sbc? && instruction.target.Reg8? {
        Sbc(instruction.target.r8);
      } else if instruction.And? && instruction.target.Reg8? {
        And(instruction.target.r8);
      } else if instruction.Or? && instruction.target.Reg8? {
        Or(instruction.target.r8);
      } else if instruction.Xor? && instruction.target.Reg8? {
        Xor(instruction.target.r8);
      } else if instruction.Cp? && instruction.target.Reg8? {
        Cp(instruction.target.r8);
      } else if instruction.Inc? && instruction.register.Reg8? {
        Inc(instruction.register.r8);
      } else if instruction.Dec? && instruction.register.Reg8? {
        Dec(instruction.register.r8);
      } else if instruction.Ccf? {
        Ccf();
      } else if instruction.Scf? {
        Scf();
      } else if instruction.Rra? {
        Rra();
      } else if instruction.Rla? {
        Rla();
      } else if instruction.Cpl? {
        Cpl();
      }
    }

    method Add(target: ArithmeticTarget)
      modifies this
      ensures registers == AddA(old(registers), Read(old(registers), target))
    {
      var targetValue := Read(registers, target);
      var result := OverflowAdd(registers.a, targetValue);
      registers := registers.(a := result.sum);
      var flags := FlagsRegister(result.sum == 0, false, result.halfCarry, result.carry);
      registers := registers.(f := ToByte(flags));
    }

    /** ADD HL with an 8-bit register, through the 16-bit overflowAdd. */
    method AddHl(target: ArithmeticTarget)
      modifies this
      ensures registers == Execution.AddHl(old(registers), Read(old(registers), target))
    {
      var targetValue := Read(registers, target);
      var result := OverflowAdd16(registers.HL(), targetValue);
      AddHlResult(registers, targetValue, result);
      registers := registers.WithHl(result.sum);
      var flags := FlagsRegister(result.sum == 0, false, result.halfCarry, result.carry);
      registers := registers.(f := ToByte(flags));
    }

    /** ADC: the operand and then the carry are added with the 8-bit
        overflowAdd, and a carry or half-carry out of either addition is
        reported. */
    method AddC(target: ArithmeticTarget)
      modifies this
      ensures registers == AdcA(old(registers), Read(old(registers), target))
    {
      var targetValue := Read(registers, target);
      var carryToAdd := if FromByte(registers.f).carry then 1 else 0;
      var first := OverflowAdd(registers.a, targetValue);
      var second := OverflowAdd(first.sum, carryToAdd);
      AdcResult(registers, targetValue);
      registers := registers.(a := second.sum);
      var flags := FlagsRegister(second.sum == 0, false, first.halfCarry || second.halfCarry, first.carry || second.carry);
      registers := registers.(f := ToByte(flags));
    }

    method Sub(target: ArithmeticTarget)
      modifies this
      ensures registers == SubA(old(registers), Read(old(registers), target))
    {
      var targetValue := Read(registers, target);
      var result := SubBytes(registers.a, targetValue);
      ByteDifference(registers.a, targetValue);
      registers := registers.(a := ToUByte(result.value));
      var flags := FlagsRegister(result.value == 0, true, result.halfBorrow, result.borrow);
      registers := registers.(f := ToByte(flags));
    }

    /** SBC: the operand plus the carry, widened to 16 bits, is subtracted. */
    method Sbc(target: ArithmeticTarget)
      modifies this
      ensures registers == SbcA(old(registers), Read(old(registers), target))
    {
      var targetValue := Read(registers, target);
      var carryToAdd := if FromByte(registers.f).carry then 1 else 0;
      BorrowWithCarry(registers.a, targetValue, carryToAdd);
      var result := Subtraction.Sub(registers.a, ToUShort(targetValue as int + carryToAdd));
      registers := registers.(a := ToUByte(result.value));
      var flags := FlagsRegister(result.value == 0, true, result.halfBorrow, result.borrow);
      registers := registers.(f := ToByte(flags));
    }

    method And(target: ArithmeticTarget)
      modifies this
      ensures registers == AndA(old(registers), Read(old(registers), target))
    {
      var targetValue := Read(registers, target);
      CombineBound(AndOp, registers.a, targetValue, 8);
      registers := registers.(a := Bits.And(registers.a, targetValue));
    }

    method Or(target: ArithmeticTarget)
      modifies this
      ensures registers == OrA(old(registers), Read(old(registers), target))
    {
      var targetValue := Read(registers, target);
      CombineBound(OrOp, registers.a, targetValue, 8);
      registers := registers.(a := Bits.Or(registers.a, targetValue));
    }

    method Xor(target: ArithmeticTarget)
      modifies this
      ensures registers == XorA(old(registers), Read(old(registers), target))
    {
      var targetValue := Read(registers, target);
      CombineBound(XorOp, registers.a, targetValue, 8);
      registers := registers.(a := Bits.Xor(registers.a, targetValue));
    }

    method Cp(target: ArithmeticTarget)
      modifies this
      ensures registers == CpA(old(registers), Read(old(registers), target))
    {
      var targetValue := Read(registers, target);
      var result := SubBytes(registers.a, targetValue);
      var flags := FlagsRegister(result.value == 0, true, result.halfBorrow, result.borrow);
      registers := registers.(f := ToByte(flags));
    }

    /** INC: the flags are written first, then the target register. */
    method Inc(target: ArithmeticTarget)
      modifies this
      ensures registers == IncR(old(registers), target)
    {
      var register := Read(registers, target);
      var result := OverflowAdd(register, 1);
      var flags := FromByte(registers.f).(zero := result.sum == 0, subtract := false, halfCarry := result.halfCarry);
      registers := registers.(f := ToByte(flags));
      UpdateArithmeticTarget(target, result.sum);
    }

    /** DEC: the flags are written first, then the target register. */
    method Dec(target: ArithmeticTarget)
      modifies this
      ensures registers == DecR(old(registers), target)
    {
      var register := Read(registers, target);
      var result := SubBytes(register, 1);
      ByteDifference(register, 1);
      var flags := FromByte(registers.f).(zero := result.value == 0, subtract := true, halfCarry := result.halfBorrow);
      registers := registers.(f := ToByte(flags));
      UpdateArithmeticTarget(target, ToUByte(result.value));
    }

    method Ccf()
      modifies this
      ensures registers == Execution.Ccf(old(registers))
    {
      var flags := FromByte(registers.f);
      registers := registers.(f := ToByte(flags.(subtract := false, halfCarry := false, carry := !flags.carry)));
    }

    method Scf()
      modifies this
      ensures registers == Execution.Scf(old(registers))
    {
      var flags := FromByte(registers.f);
      registers := registers.(f := ToByte(flags.(subtract := false, halfCarry := false, carry := true)));
    }

    /** RRA with the Kotlin masks and shifts: `a and 1`, `a ushr 1`,
        `carry shl 7`, then `(rotated or carry) and 0xFF`. */
    method Rra()
      modifies this
      ensures registers == Execution.Rra(old(registers))
    {
      var leastSignificantBit := Bits.And(registers.a, 1);
      var flags := FromByte(registers.f);
      var carryBit := if flags.carry then 1 else 0;
      var rotatedA := registers.a / 2;
      var rotatedCarry := carryBit * 0x80;
      RotateRightBits(registers.a, carryBit);
      registers := registers.(a := ToUByte(Bits.And(Bits.Or(rotatedA, rotatedCarry), 0xFF)));
      registers := registers.(f := ToByte(flags.(carry := leastSignificantBit == 1)));
    }

    /** RLA with the Kotlin masks and shifts: `(a and 0x80) ushr 7`,
        `a shl 1`, then `(rotated or carry) and 0xFF`. */
    method Rla()
      modifies this
      ensures registers == Execution.Rla(old(registers))
    {
      var mostSignificantBit := Bits.And(registers.a, 0x80) / 0x80;
      var flags := FromByte(registers.f);
      var carryBit := if flags.carry then 1 else 0;
      var rotatedA := registers.a * 2;
      RotateLeftBits(registers.a, carryBit);
      registers := registers.(a := ToUByte(Bits.And(Bits.Or(rotatedA, carryBit), 0xFF)));
      registers := registers.(f := ToByte(flags.(carry := ToUByte(Bits.And(mostSignificantBit, 0xFF)) == 1)));
    }

    /** CPL: `a.inv()` on an unsigned byte. */
    method Cpl()
      modifies this
      ensures registers == Execution.Cpl(old(registers))
    {
      registers := registers.(a := 0xFF - registers.a);
    }

    /** Replace one target register with `value`. */
    method UpdateArithmeticTarget(target: ArithmeticTarget, value: Byte)
      modifies this
      ensures registers == Write(old(registers), target, value)
    {
      match target
      case A => registers := registers.(a := value);
      case B => registers := registers.(b := value);
      case C => registers := registers.(c := value);
      case D => registers := registers.(d := value);
      case E => registers := registers.(e := value);
      case H => registers := registers.(h := value);
      case L => registers := registers.(l := value);
    }
  }

  /** Adding v and then the carry, each with the 8-bit overflowAdd, and
      reporting a carry (half-carry) out of either step gives the byte sum
      of a + v + carry and its carry (half-carry). */
  lemma CarryChain(a: Byte, v: Byte, carry: nat)
    requires carry < 2
    ensures var first := OverflowAdd(a, v);
      var second := OverflowAdd(first.sum, carry);
      && second.sum == (a + v + carry) % 0x100
      && (first.carry || second.carry <==> a + v + carry > 0xFF)
      && (first.halfCarry || second.halfCarry <==> a % 16 + v % 16 + carry > 0xF)
  {
    ChainedSum(a, v, carry);
    ChainedHalfCarry(a, v, carry);
  }

  /** The byte sum and carry of the two chained additions. */
  lemma ChainedSum(a: Byte, v: Byte, carry: nat)
    requires carry < 2
    ensures var first := OverflowAdd(a, v);
      var second := OverflowAdd(first.sum, carry);
      && second.sum == (a + v + carry) % 0x100
      && (first.carry || second.carry <==> a + v + carry > 0xFF)
  {
    var first := OverflowAdd(a, v);
    var second := OverflowAdd(first.sum, carry);
    var c1 := if first.carry then 1 else 0;
    var c2 := if second.carry then 1 else 0;
    assert a + v + carry == 0x100 * (c1 + c2) + second.sum;
    ModUnique(a + v + carry, 0x100, c1 + c2, second.sum);
  }

  /** The half-carry of the two chained additions. */
  lemma ChainedHalfCarry(a: Byte, v: Byte, carry: nat)
    requires carry < 2
    ensures var first := OverflowAdd(a, v);
      var second := OverflowAdd(first.sum, carry);
      first.halfCarry || second.halfCarry <==> a % 16 + v % 16 + carry > 0xF
  {
    var first := OverflowAdd(a, v);
    var second := OverflowAdd(first.sum, carry);
    var low := a % 16 + v % 16;
    if low <= 0xF {
      assert first.sum % 16 == low by {
        LowNibbleOfSum(a, v);
        ModUnique(low, 16, 0, low);
      }
      assert !first.halfCarry;
      ModUnique(carry, 16, 0, carry);
      assert second.halfCarry <==> low + carry > 0xF;
    } else {
      assert first.halfCarry;
    }
  }

  /** The low nibble of a byte sum depends only on the low nibbles of the addends. */
  lemma LowNibbleOfSum(a: Byte, v: Byte)
    ensures OverflowAdd(a, v).sum % 16 == (a % 16 + v % 16) % 16
  {
    var s := OverflowAdd(a, v).sum;
    var c1 := if OverflowAdd(a, v).carry then 1 else 0;
    var low := a % 16 + v % 16;
    assert s == 16 * (a / 16 + v / 16 - 16 * c1 + low / 16) + low % 16;
    ModUnique(s, 16, a / 16 + v / 16 - 16 * c1 + low / 16, low % 16);
  }

  /** ADC written back from the two chained 8-bit additions is AdcA. */
  lemma AdcResult(regs: Registers, v: Byte)
    ensures var first := OverflowAdd(regs.a, v);
      var second := OverflowAdd(first.sum, Bit(Flags(regs).carry));
      regs.(a := second.sum).(f := ToByte(FlagsRegister(second.sum == 0, false, first.halfCarry || second.halfCarry, first.carry || second.carry)))
        == AdcA(regs, v)
  {
    var c := Bit(Flags(regs).carry);
    var first := OverflowAdd(regs.a, v);
    var second := OverflowAdd(first.sum, c);
    CarryChain(regs.a, v, c);
    var flags := FlagsRegister((regs.a + v + c) % 0x100 == 0, false, regs.a % 16 + v % 16 + c > 0xF, regs.a + v + c > 0xFF);
    assert FlagsRegister(second.sum == 0, false, first.halfCarry || second.halfCarry, first.carry || second.carry) == flags;
  }

  /** ADD HL, r written back from the 16-bit overflowAdd result: the sum goes to
      HL, Z reports a zero sum, and H and C come from bits 11 and 15. */
  lemma AddHlResult(regs: Registers, v: Byte, result: OverflowAddResult16)
    requires result == OverflowAdd16(regs.HL(), v)
    ensures regs.WithHl(result.sum).(f := ToByte(FlagsRegister(result.sum == 0, false, result.halfCarry, result.carry)))
      == Execution.AddHl(regs, v)
  {
    OverflowAdd16OfByte(regs.HL(), v);
    var sum := (regs.HL() + v) % 0x1_0000;
    assert result.sum == sum;
    var flags := FlagsRegister(sum == 0, false, regs.HL() % 0x1000 + v > 0xFFF, regs.HL() + v > 0xFFFF);
    assert FlagsRegister(result.sum == 0, false, result.halfCarry, result.carry) == flags;
    assert Execution.AddHl(regs, v) == regs.WithHl(sum).(f := ToByte(flags));
  }

  /** The byte overload's difference survives the truncation back to a byte. */
  lemma ByteDifference(first: Byte, second: Byte)
    ensures ToUByte(SubBytes(first, second).value) == SubBytes(first, second).value
  {
    var value := SubBytes(first, second).value;
    ModUnique(value, 0x100, 0, value);
  }

  /** SBC's subtrahend v + carry fits in 16 bits, and the difference in a byte. */
  lemma BorrowWithCarry(a: Byte, v: Byte, carry: nat)
    requires carry < 2
    ensures var result := Subtraction.Sub(a, ToUShort(v + carry));
      ToUByte(result.value) == result.value == (if a > v + carry then a - (v + carry) else 0)
      && (result.halfBorrow <==> a % 16 < (v + carry) % 16) && (result.borrow <==> v + carry >= a)
  {
    ModUnique(v + carry, 0x1_0000, 0, v + carry);
    var value := Subtraction.Sub(a, v + carry).value;
    ModUnique(value, 0x100, 0, value);
  }

  /** The masks and shifts of RRA compute `a / 2 + 128 * carry` and `a % 2`. */
  lemma RotateRightBits(a: Byte, carryBit: nat)
    requires carryBit < 2
    ensures Bits.And(a, 1) == a % 2
    ensures ToUByte(Bits.And(Bits.Or(a / 2, carryBit * 0x80), 0xFF)) == a / 2 + 0x80 * carryBit
  {
    LeastSignificantBit(a);
    ShiftOutCarry(a, carryBit);
  }

  /** `a and 1` is bit 0 of a. */
  lemma LeastSignificantBit(a: Byte)
    ensures Bits.And(a, 1) == a % 2
  {
    AndLowMask(a, 1);
  }

  /** `((a ushr 1) or (carry shl 7)) and 0xFF` is `a / 2 + 128 * carry`. */
  lemma ShiftOutCarry(a: Byte, carryBit: nat)
    requires carryBit < 2
    ensures ToUByte(Bits.And(Bits.Or(a / 2, carryBit * 0x80), 0xFF)) == a / 2 + 0x80 * carryBit
  {
    var rotated := Bits.Or(a / 2, carryBit * 0x80);
    assert rotated == a / 2 + 0x80 * carryBit by {
      assert Pow2(7) == 0x80;
      CombineCommutes(OrOp, a / 2, carryBit * 0x80);
      OrShifted(carryBit, a / 2, 7);
    }
    KeepLowByte(rotated);
    ModUnique(rotated, 0x100, 0, rotated);
  }

  /** The masks and shifts of RLA compute `(2 * a + carry) % 256` and bit 7 of a. */
  lemma RotateLeftBits(a: Byte, carryBit: nat)
    requires carryBit < 2
    ensures ToUByte(Bits.And(Bits.And(a, 0x80) / 0x80, 0xFF)) == 1 <==> a >= 0x80
    ensures ToUByte(Bits.And(Bits.Or(a * 2, carryBit), 0xFF)) == (2 * a + carryBit) % 0x100
  {
    MostSignificantBit(a);
    ShiftInCarry(a, carryBit);
  }

  /** `(a and 0x80) ushr 7`, masked to a byte, is bit 7 of a. */
  lemma MostSignificantBit(a: Byte)
    ensures ToUByte(Bits.And(Bits.And(a, 0x80) / 0x80, 0xFF)) == a / 0x80
  {
    var msb := Bits.And(a, 0x80) / 0x80;
    assert msb == a / 0x80 by {
      assert Pow2(7) == 0x80;
      AndSingleBit(a, 7);
      TestBitClosedForm(a, 7);
      assert Bits.And(a, 0x80) == if TestBit(a, 7) then 0x80 else 0;
      assert TestBit(a, 7) <==> a / 0x80 == 1;
    }
    KeepLowByte(msb);
  }

  /** `((a shl 1) or carry) and 0xFF` is `(2 * a + carry) % 256`. */
  lemma ShiftInCarry(a: Byte, carryBit: nat)
    requires carryBit < 2
    ensures ToUByte(Bits.And(Bits.Or(a * 2, carryBit), 0xFF)) == (2 * a + carryBit) % 0x100
  {
    var rotated := Bits.Or(a * 2, carryBit);
    assert rotated == 2 * a + carryBit by {
      assert Pow2(1) == 2;
      OrShifted(a, carryBit, 1);
    }
    KeepLowByte(rotated);
  }

  /** Masking with 0xFF and then truncating to a byte keeps the low byte once. */
  lemma KeepLowByte(x: nat)
    ensures ToUByte(Bits.And(x, 0xFF)) == x % 0x100
  {
    AndLowByte(x);
    ModUnique(x % 0x100, 0x100, 0, x % 0x100);
  }
}
