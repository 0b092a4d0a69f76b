/** What each instruction the executor handles does to the register file
    (CPU.kt), written as arithmetic on the register values. These functions
    are the reference the CPU class is proved against. */
module Execution {
  import opened Bits
  import opened FlagsCodec
  import opened RegisterFile
  import Addition
  import Operands
  import Instructions

  /** The seven 8-bit registers an arithmetic instruction can name. */
  type ArithmeticTarget = Operands.Register8

  /** The value of a target register. */
  function Read(regs: Registers, target: ArithmeticTarget): Byte
  {
    match target
    case A => regs.a
    case B => regs.b
    case C => regs.c
    case D => regs.d
    case E => regs.e
    case H => regs.h
    case L => regs.l
  }

  /** The register file with one target register replaced. */
  function Write(regs: Registers, target: ArithmeticTarget, value: Byte): Registers
  {
    match target
    case A => regs.(a := value)
    case B => regs.(b := value)
    case C => regs.(c := value)
    case D => regs.(d := value)
    case E => regs.(e := value)
    case H => regs.(h := value)
    case L => regs.(l := value)
  }

  /** Writing a target then reading it gives the written value; every other
      target, and F, keep their values. */
  lemma ReadAfterWrite(regs: Registers, target: ArithmeticTarget, other: ArithmeticTarget, value: Byte)
    ensures Read(Write(regs, target, value), target) == value
    ensures other != target ==> Read(Write(regs, target, value), other) == Read(regs, other)
    ensures Write(regs, target, value).f == regs.f
  {
  }

  /** The flags held in F. */
  function Flags(regs: Registers): FlagsRegister
  {
    FromByte(regs.f)
  }

  function Bit(b: bool): nat
  {
    if b then 1 else 0
  }

  /** ADD A, v. */
  function AddA(regs: Registers, v: Byte): Registers
  {
    var sum := (regs.a + v) % 0x100;
    regs.(a := sum, f := ToByte(FlagsRegister(sum == 0, false, regs.a % 16 + v % 16 > 0xF, regs.a + v > 0xFF)))
  }

  /** ADC A, v: the carry flag is added in as well. */
  function AdcA(regs: Registers, v: Byte): Registers
  {
    var c := Bit(Flags(regs).carry);
    var sum := (regs.a + v + c) % 0x100;
    regs.(a := sum, f := ToByte(FlagsRegister(sum == 0, false, regs.a % 16 + v % 16 + c > 0xF, regs.a + v + c > 0xFF)))
  }

  /** SUB A, v. The result clamps at 0, and the borrow is reported whenever
      v is at least A, equal values included. */
  function SubA(regs: Registers, v: Byte): Registers
  {
    var difference := if regs.a > v then regs.a - v else 0;
    regs.(a := difference, f := ToByte(FlagsRegister(difference == 0, true, regs.a % 16 < v % 16, v >= regs.a)))
  }

  /** SBC A, v: v plus the carry flag is subtracted, clamping as SUB does. */
  function SbcA(regs: Registers, v: Byte): Registers
  {
    var subtrahend := v + Bit(Flags(regs).carry);
    var difference := if regs.a > subtrahend then regs.a - subtrahend else 0;
    regs.(a := difference, f := ToByte(FlagsRegister(difference == 0, true, regs.a % 16 < subtrahend % 16, subtrahend >= regs.a)))
  }

  /** CP v: the flags of SUB A, v; A is left alone. */
  function CpA(regs: Registers, v: Byte): Registers
  {
    var difference := if regs.a > v then regs.a - v else 0;
    regs.(f := ToByte(FlagsRegister(difference == 0, true, regs.a % 16 < v % 16, v >= regs.a)))
  }

  /** AND, OR and XOR A, v change A only; F is not touched. */
  function AndA(regs: Registers, v: Byte): Registers
  {
    CombineBound(AndOp, regs.a, v, 8);
    regs.(a := And(regs.a, v))
  }

  function OrA(regs: Registers, v: Byte): Registers
  {
    CombineBound(OrOp, regs.a, v, 8);
    regs.(a := Or(regs.a, v))
  }

  function XorA(regs: Registers, v: Byte): Registers
  {
    CombineBound(XorOp, regs.a, v, 8);
    regs.(a := Xor(regs.a, v))
  }

  /** Each bit of the new A is the AND, OR or XOR of the same bit of A and v. */
  lemma LogicBits(regs: Registers, v: Byte, k: nat)
    ensures TestBit(AndA(regs, v).a, k) == (TestBit(regs.a, k) && TestBit(v, k))
    ensures TestBit(OrA(regs, v).a, k) == (TestBit(regs.a, k) || TestBit(v, k))
    ensures TestBit(XorA(regs, v).a, k) == (TestBit(regs.a, k) != TestBit(v, k))
  {
    CombineBit(AndOp, regs.a, v, k);
    CombineBit(OrOp, regs.a, v, k);
    CombineBit(XorOp, regs.a, v, k);
  }

  /** INC r: wraps from 0xFF to 0; the carry flag is kept. */
  function IncR(regs: Registers, target: ArithmeticTarget): Registers
  {
    var v := Read(regs, target);
    var result := (v + 1) % 0x100;
    Write(regs.(f := ToByte(Flags(regs).(zero := result == 0, subtract := false, halfCarry := v % 16 == 0xF))), target, result)
  }

  /** DEC r: clamps at 0 as SUB does; the carry flag is kept. */
  function DecR(regs: Registers, target: ArithmeticTarget): Registers
  {
    var v := Read(regs, target);
    var result := if v > 1 then v - 1 else 0;
    Write(regs.(f := ToByte(Flags(regs).(zero := result == 0, subtract := true, halfCarry := v % 16 == 0))), target, result)
  }

  /** CCF: invert carry, clear N and H, keep Z. */
  function Ccf(regs: Registers): Registers
  {
    var flags := Flags(regs);
    regs.(f := ToByte(flags.(subtract := false, halfCarry := false, carry := !flags.carry)))
  }

  /** SCF: set carry, clear N and H, keep Z. */
  function Scf(regs: Registers): Registers
  {
    regs.(f := ToByte(Flags(regs).(subtract := false, halfCarry := false, carry := true)))
  }

  /** RRA: rotate A right through carry; Z, N and H are kept. */
  function Rra(regs: Registers): Registers
  {
    var flags := Flags(regs);
    regs.(a := regs.a / 2 + 0x80 * Bit(flags.carry), f := ToByte(flags.(carry := regs.a % 2 == 1)))
  }

  /** RLA: rotate A left through carry; Z, N and H are kept. */
  function Rla(regs: Registers): Registers
  {
    var flags := Flags(regs);
    regs.(a := (2 * regs.a + Bit(flags.carry)) % 0x100, f := ToByte(flags.(carry := regs.a >= 0x80)))
  }

  /** CPL: complement A; F is not touched. */
  function Cpl(regs: Registers): Registers
  {
    regs.(a := 0xFF - regs.a)
  }

  /** ADD HL, v with an 8-bit register value v: the 16-bit sum with
      half-carry out of bit 11 and carry out of bit 15; Z is set when the new HL is 0. */
  function AddHl(regs: Registers, v: Byte): Registers
  {
    var sum := (regs.HL() + v) % 0x1_0000;
    regs.WithHl(sum).(f := ToByte(FlagsRegister(sum == 0, false, regs.HL() % 0x1000 + v > 0xFFF, regs.HL() + v > 0xFFFF)))
  }

  /** The effect of one instruction. The executor handles the arithmetic and
      logic instructions whose operand is an 8-bit register, and the
      operand-free flag and rotate instructions; any other instruction leaves
      the registers as they are. */
  function Step(regs: Registers, instruction: Instructions.Instruction): Registers
  {
    match instruction
    case Add(Reg8(t)) => AddA(regs, Read(regs, t))
    case AddC(Reg8(t)) => AdcA(regs, Read(regs, t))
    case Sub(Reg8(t)) => SubA(regs, Read(regs, t))
    case Sbc(Reg8(t)) => SbcA(regs, Read(regs, t))
    case And(Reg8(t)) => AndA(regs, Read(regs, t))
    case Or(Reg8(t)) => OrA(regs, Read(regs, t))
    case Xor(Reg8(t)) => XorA(regs, Read(regs, t))
    case Cp(Reg8(t)) => CpA(regs, Read(regs, t))
    case Inc(Reg8(t)) => IncR(regs, t)
    case Dec(Reg8(t)) => DecR(regs, t)
    case Ccf => Ccf(regs)
    case Scf => Scf(regs)
    case Rra => Rra(regs)
    case Rla => Rla(regs)
    case Cpl => Cpl(regs)
    case _ => regs
  }

  /** ADC as CPU.kt:64-82 writes it: A and v + carry are added with the
      16-bit overflowAdd, whose flags look at bits 11 and 15, so a byte sum
      never raises them, and Z tests the 16-bit sum before truncation. */
  function AdcAsWritten(regs: Registers, v: Byte): (r: Registers)
    ensures r.f % 16 == 0
    ensures r == regs.(a := r.a, f := r.f)
  {
    var c := Bit(Flags(regs).carry);
    var result := Addition.OverflowAdd16(regs.a, v + c);
    regs.(a := ToUByte(result.sum), f := ToByte(FlagsRegister(result.sum == 0, false, result.halfCarry, result.carry)))
  }

  /** As written, ADC computes the right A but never reports a carry or a
      half-carry. */
  lemma AdcAsWrittenDropsCarries(regs: Registers, v: Byte)
    ensures AdcAsWritten(regs, v).a == AdcA(regs, v).a
    ensures !Flags(AdcAsWritten(regs, v)).carry && !Flags(AdcAsWritten(regs, v)).halfCarry
  {
    AdcAsWrittenSum(regs, v);
    AdcAsWrittenFlags(regs, v);
  }

  lemma AdcAsWrittenSum(regs: Registers, v: Byte)
    ensures AdcAsWritten(regs, v).a == AdcA(regs, v).a
  {
    WideSumOfBytes(regs.a, v, Bit(Flags(regs).carry));
  }

  /** As written, ADC sets Z only when A, v and the carry are all zero, and
      clears N, H and C. */
  lemma AdcAsWrittenFlags(regs: Registers, v: Byte)
    ensures Flags(AdcAsWritten(regs, v)) == FlagsRegister(regs.a + v + Bit(Flags(regs).carry) == 0, false, false, false)
  {
    var c := Bit(Flags(regs).carry);
    var result := Addition.OverflowAdd16(regs.a, v + c);
    WideAddOfBytes(regs.a, v, c);
    var flags := FlagsRegister(regs.a + v + c == 0, false, false, false);
    assert FlagsRegister(result.sum == 0, false, result.halfCarry, result.carry) == flags;
    assert AdcAsWritten(regs, v).f == ToByte(flags);
    FlagsOfPacked(AdcAsWritten(regs, v), flags);
  }

  lemma FlagsOfPacked(regs: Registers, flags: FlagsRegister)
    requires regs.f == ToByte(flags)
    ensures Flags(regs) == flags
  {
    FromToByte(flags);
  }

  /** The 16-bit sum of two bytes and a carry bit never wraps, so its low
      byte is the 8-bit sum. */
  lemma WideSumOfBytes(a: Byte, v: Byte, c: nat)
    requires c <= 1
    ensures ToUByte(Addition.OverflowAdd16(a, v + c).sum) == (a + v + c) % 0x100
  {
    var s := Addition.OverflowAdd16(a, v + c).sum;
    assert s == a + v + c;
    LowByteOfEqual(s, a + v + c);
  }

  lemma LowByteOfEqual(s: int, t: int)
    requires s == t
    ensures ToUByte(s) == t % 0x100
  {
  }

  /** The 16-bit sum of two bytes and a carry bit neither wraps nor carries
      out of bit 11 or bit 15. */
  lemma WideAddOfBytes(a: Byte, v: Byte, c: nat)
    requires c <= 1
    ensures Addition.OverflowAdd16(a, v + c) == Addition.OverflowAddResult16(a + v + c, false, false)
  {
    Addition.OverflowAdd16OfByte(a, v + c);
    ModUnique(a + v + c, 0x1_0000, 0, a + v + c);
    ModUnique(a, 0x1000, 0, a);
  }

  /** A = 1, D = 0xFF, F = 0: ADC A, D should give A = 0 with Z, H and C
      set; as written it gives A = 0 with all four flags clear. */
  lemma AdcAsWrittenCounterexample(regs: Registers)
    requires regs.a == 1 && regs.d == 0xFF && regs.f == 0
    ensures AdcAsWritten(regs, regs.d).a == 0 && Flags(AdcAsWritten(regs, regs.d)) == FlagsRegister(false, false, false, false)
    ensures AdcA(regs, regs.d).a == 0 && Flags(AdcA(regs, regs.d)) == FlagsRegister(true, false, true, true)
  {
    assert !Flags(regs).carry by {
      FlagsOfPacked(regs, FlagsRegister(false, false, false, false));
    }
    AdcAsWrittenSum(regs, regs.d);
    AdcAsWrittenFlags(regs, regs.d);
    AdcCarriesOut(regs, regs.d);
    var flags := Flags(AdcA(regs, regs.d));
    assert flags.carry && AdcA(regs, regs.d).a == 0;
    ModUnique(regs.a, 16, 0, 1);
    ModUnique(regs.d, 16, 15, 15);
    assert flags.zero && flags.halfCarry && !flags.subtract;
  }

  /** ADD is a byte adder: the new A plus the carry out, weighted 256, is the
      exact sum; Z reports a zero result and N is clear. */
  lemma AddCarriesOut(regs: Registers, v: Byte)
    ensures AddA(regs, v).a + 0x100 * Bit(Flags(AddA(regs, v)).carry) == regs.a + v
    ensures Flags(AddA(regs, v)).zero <==> AddA(regs, v).a == 0
    ensures Flags(AddA(regs, v)).halfCarry <==> regs.a % 16 + v % 16 > 0xF
    ensures !Flags(AddA(regs, v)).subtract
  {
    var sum := (regs.a + v) % 0x100;
    FromToByte(FlagsRegister(sum == 0, false, regs.a % 16 + v % 16 > 0xF, regs.a + v > 0xFF));
  }

  /** ADC is a byte adder with carry in: the new A plus the carry out, weighted
      256, is A + v + carry in. */
  lemma AdcCarriesOut(regs: Registers, v: Byte)
    ensures AdcA(regs, v).a + 0x100 * Bit(Flags(AdcA(regs, v)).carry) == regs.a + v + Bit(Flags(regs).carry)
    ensures Flags(AdcA(regs, v)).zero <==> AdcA(regs, v).a == 0
    ensures Flags(AdcA(regs, v)).halfCarry <==> regs.a % 16 + v % 16 + Bit(Flags(regs).carry) > 0xF
    ensures !Flags(AdcA(regs, v)).subtract
  {
    var c := Bit(Flags(regs).carry);
    var sum := (regs.a + v + c) % 0x100;
    FromToByte(FlagsRegister(sum == 0, false, regs.a % 16 + v % 16 + c > 0xF, regs.a + v + c > 0xFF));
  }

  /** SUB takes back an ADD that did not carry. */
  lemma SubUndoesAdd(regs: Registers, v: Byte)
    requires regs.a + v <= 0xFF
    ensures SubA(AddA(regs, v), v).a == regs.a
  {
  }

  /** With no borrow, SUB gives the exact difference; with a borrow, 0. */
  lemma SubBorrowsOut(regs: Registers, v: Byte)
    ensures !Flags(SubA(regs, v)).carry ==> SubA(regs, v).a + v == regs.a
    ensures Flags(SubA(regs, v)).carry ==> SubA(regs, v).a == 0
    ensures Flags(SubA(regs, v)).subtract
  {
    var difference := if regs.a > v then regs.a - v else 0;
    FromToByte(FlagsRegister(difference == 0, true, regs.a % 16 < v % 16, v >= regs.a));
  }

  /** CP sets exactly the flags SUB would and keeps A. */
  lemma CpIsSubWithoutResult(regs: Registers, v: Byte)
    ensures CpA(regs, v) == SubA(regs, v).(a := regs.a)
  {
  }

  /** INC and DEC change only their target register and Z, N and H: the
      carry flag and every other register keep their values. */
  lemma IncDecKeepCarry(regs: Registers, target: ArithmeticTarget, other: ArithmeticTarget)
    ensures Flags(IncR(regs, target)).carry == Flags(regs).carry
    ensures Flags(DecR(regs, target)).carry == Flags(regs).carry
    ensures !Flags(IncR(regs, target)).subtract && Flags(DecR(regs, target)).subtract
    ensures other != target ==> Read(IncR(regs, target), other) == Read(regs, other)
    ensures other != target ==> Read(DecR(regs, target), other) == Read(regs, other)
  {
    IncKeepsCarry(regs, target, other);
    DecKeepsCarry(regs, target, other);
  }

  lemma IncKeepsCarry(regs: Registers, target: ArithmeticTarget, other: ArithmeticTarget)
    ensures Flags(IncR(regs, target)).carry == Flags(regs).carry
    ensures !Flags(IncR(regs, target)).subtract
    ensures other != target ==> Read(IncR(regs, target), other) == Read(regs, other)
  {
    var v := Read(regs, target);
    var inc := (v as int + 1) % 0x100;
    var flags := Flags(regs).(zero := inc == 0, subtract := false, halfCarry := v % 16 == 0xF);
    ReadAfterWrite(regs.(f := ToByte(flags)), target, other, inc);
    FlagsOfPacked(IncR(regs, target), flags);
  }

  lemma DecKeepsCarry(regs: Registers, target: ArithmeticTarget, other: ArithmeticTarget)
    ensures Flags(DecR(regs, target)).carry == Flags(regs).carry
    ensures Flags(DecR(regs, target)).subtract
    ensures other != target ==> Read(DecR(regs, target), other) == Read(regs, other)
  {
    var v := Read(regs, target);
    var dec := if v > 1 then v - 1 else 0;
    var flags := Flags(regs).(zero := dec == 0, subtract := true, halfCarry := v % 16 == 0);
    ReadAfterWrite(regs.(f := ToByte(flags)), target, other, dec);
    FlagsOfPacked(DecR(regs, target), flags);
  }

  /** DEC undoes INC unless INC wrapped from 0xFF to 0; there DEC, which
      clamps, leaves 0. */
  lemma IncThenDec(regs: Registers, target: ArithmeticTarget)
    ensures Read(regs, target) < 0xFF ==> Read(DecR(IncR(regs, target), target), target) == Read(regs, target)
    ensures Read(regs, target) == 0xFF ==> Read(DecR(IncR(regs, target), target), target) == 0
  {
    var v := Read(regs, target);
    var inc := (v as int + 1) % 0x100;
    var incRegs := regs.(f := ToByte(Flags(regs).(zero := inc == 0, subtract := false, halfCarry := v % 16 == 0xF)));
    ReadAfterWrite(incRegs, target, target, inc);
    var afterInc := IncR(regs, target);
    var dec := if inc > 1 then inc - 1 else 0;
    var decRegs := afterInc.(f := ToByte(Flags(afterInc).(zero := dec == 0, subtract := true, halfCarry := inc % 16 == 0)));
    ReadAfterWrite(decRegs, target, target, dec);
  }

  /** DEC of 0 stays at 0 and sets Z, as SUB clamps. */
  lemma DecClampsAtZero(regs: Registers, target: ArithmeticTarget)
    requires Read(regs, target) == 0
    ensures Read(DecR(regs, target), target) == 0
    ensures Flags(DecR(regs, target)).zero && Flags(DecR(regs, target)).halfCarry
  {
    var decRegs := regs.(f := ToByte(Flags(regs).(zero := true, subtract := true, halfCarry := true)));
    ReadAfterWrite(decRegs, target, target, 0);
    FromToByte(Flags(regs).(zero := true, subtract := true, halfCarry := true));
  }

  /** CCF twice restores the carry and keeps Z, with N and H cleared; CCF after
      SCF clears the carry. */
  lemma CcfTwice(regs: Registers)
    ensures Flags(Ccf(Ccf(regs))) == Flags(regs).(subtract := false, halfCarry := false)
    ensures Ccf(Ccf(regs)).a == regs.a
    ensures Flags(Scf(regs)).carry && Flags(Scf(regs)).zero == Flags(regs).zero
    ensures !Flags(Ccf(Scf(regs))).carry
  {
    var flags := Flags(regs);
    FromToByte(flags.(subtract := false, halfCarry := false, carry := !flags.carry));
    FromToByte(flags.(subtract := false, halfCarry := false));
    FromToByte(flags.(subtract := false, halfCarry := false, carry := true));
    FromToByte(flags.(subtract := false, halfCarry := false, carry := false));
  }

  /** RLA undoes RRA, A and flags alike. */
  lemma RlaUndoesRra(regs: Registers)
    ensures Rla(Rra(regs)).a == regs.a && Flags(Rla(Rra(regs))) == Flags(regs)
  {
    var flags := Flags(regs);
    var c := Bit(flags.carry);
    var rotated := Rra(regs);
    FromToByte(flags.(carry := regs.a % 2 == 1));
    assert Flags(rotated) == flags.(carry := regs.a % 2 == 1);
    assert rotated.a == regs.a / 2 + 0x80 * c;
    assert 2 * rotated.a + Bit(regs.a % 2 == 1) == regs.a + 0x100 * c;
    FromToByte(flags);
  }

  /** RRA undoes RLA, A and flags alike. */
  lemma RraUndoesRla(regs: Registers)
    ensures Rra(Rla(regs)).a == regs.a && Flags(Rra(Rla(regs))) == Flags(regs)
  {
    var flags := Flags(regs);
    var c := Bit(flags.carry);
    var rotated := Rla(regs);
    FromToByte(flags.(carry := regs.a >= 0x80));
    assert Flags(rotated) == flags.(carry := regs.a >= 0x80);
    assert rotated.a == 2 * regs.a + c - 0x100 * Bit(regs.a >= 0x80);
    FromToByte(flags);
  }

  /** CPL complements each bit of A, and twice gives the registers back. */
  lemma CplComplements(regs: Registers, k: nat)
    requires k < 8
    ensures TestBit(Cpl(regs).a, k) == !TestBit(regs.a, k)
    ensures Cpl(Cpl(regs)) == regs
  {
    Pow2Widths();
    ComplementBits(regs.a, 8, k);
  }

  /** The logic instructions act bit by bit: XOR A with itself clears it, AND
      and OR of A with itself leave the registers as they were. */
  lemma LogicOnSelf(regs: Registers)
    ensures XorA(regs, regs.a).a == 0
    ensures AndA(regs, regs.a) == regs
    ensures OrA(regs, regs.a) == regs
  {
    var x := regs.a;
    Pow2Widths();
    CombineBound(XorOp, x, x, 8);
    CombineBound(AndOp, x, x, 8);
    CombineBound(OrOp, x, x, 8);
    forall k | 0 <= k < 8
      ensures TestBit(Xor(x, x), k) == TestBit(0, k)
      ensures TestBit(And(x, x), k) == TestBit(x, k)
      ensures TestBit(Or(x, x), k) == TestBit(x, k)
    {
      CombineBit(XorOp, x, x, k);
      CombineBit(AndOp, x, x, k);
      CombineBit(OrOp, x, x, k);
      ZeroHasNoBits(k);
    }
    BitsDetermine(Xor(x, x), 0, 8);
    BitsDetermine(And(x, x), x, 8);
    BitsDetermine(Or(x, x), x, 8);
  }

  /** ADD HL is a 16-bit adder: the new HL plus the carry out, weighted 2^16,
      is HL + v, and only H, L and F change. */
  lemma AddHlCarriesOut(regs: Registers, v: Byte)
    ensures AddHl(regs, v).HL() + 0x1_0000 * Bit(Flags(AddHl(regs, v)).carry) == regs.HL() + v
    ensures AddHl(regs, v).(h := regs.h, l := regs.l, f := regs.f) == regs
  {
    var hl := regs.HL();
    var sum := (hl + v) % 0x1_0000;
    var flags := FlagsRegister(sum == 0, false, hl % 0x1000 + v > 0xFFF, hl + v > 0xFFFF);
    var result := AddHl(regs, v);
    var written := regs.WithHl(sum);
    assert result == written.(f := ToByte(flags));
    assert result.HL() == sum by {
      assert result.h == written.h && result.l == written.l;
    }
    FlagsOfPacked(result, flags);
    WordSumWraps(hl + v);
    assert result.HL() + 0x1_0000 * Bit(flags.carry) == hl + v;
  }

  /** The low nibble of F stays clear: every instruction either leaves F alone
      or rewrites it from the four flags. */
  lemma StepKeepsLowNibbleClear(regs: Registers, instruction: Instructions.Instruction)
    requires regs.f % 16 == 0
    ensures Step(regs, instruction).f % 16 == 0
  {
    if instruction.Inc? && instruction.register.Reg8? {
      var t := instruction.register.r8;
      var v := Read(regs, t);
      var inc := (v as int + 1) % 0x100;
      ReadAfterWrite(regs.(f := ToByte(Flags(regs).(zero := inc == 0, subtract := false, halfCarry := v % 16 == 0xF))), t, t, inc);
    } else if instruction.Dec? && instruction.register.Reg8? {
      var t := instruction.register.r8;
      var v := Read(regs, t);
      var dec := if v > 1 then v - 1 else 0;
      ReadAfterWrite(regs.(f := ToByte(Flags(regs).(zero := dec == 0, subtract := true, halfCarry := v % 16 == 0))), t, t, dec);
    }
  }
}
