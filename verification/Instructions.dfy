/** The instruction set (Instruction.kt), the condition codes of jumps, calls
    and returns, and the documented meaning of the CB-prefixed shifts and
    SWAP, which no executor in this core carries out. */
module Instructions {
  import opened Wrappers
  import opened Operands

  /** Condition under which a jump, call or return is taken. */
  datatype JumpCondition = Always | NotZero | Zero | NotCarry | Carry

  /** The register pairs PUSH and POP move: BC, DE, HL and AF. */
  type StackTarget = r: Register16 | r != SP witness BC

  /** Bit positions 0 (least significant) to 7 (most significant). */
  type BitIndex = i: int | 0 <= i <= 7

  datatype Instruction =
    | Add(target: Operand8)
    | AddHl(pair: Register16)
    | AddC(target: Operand8)
    | Sub(target: Operand8)
    | Sbc(target: Operand8)
    | And(target: Operand8)
    | Or(target: Operand8)
    | Xor(target: Operand8)
    | Cp(target: Operand8)
    | Inc(register: Register)
    | Dec(register: Register)
    | Ccf
    | Scf
    | Rra
    | Rr(target: Operand8)
    | Rrc(target: Operand8)
    | Rla
    | Rl(target: Operand8)
    | Rlc(target: Operand8)
    | Rrca
    | Rlca
    | Cpl
    | Bit(index: BitIndex, target: Operand8)
    | Res(index: BitIndex, target: Operand8)
    | Set(index: BitIndex, target: Operand8)
    | Srl(target: Operand8)
    | Sra(target: Operand8)
    | Sla(target: Operand8)
    | Swap(target: Operand8)
    | Nop
    | Jp(condition: JumpCondition)
    | JpHl
    | Ld(source: Operand, destination: Operand)
    | LdIncHLA
    | LdIncAHL
    | LdDecHLA
    | LdDecAHL
    | Pop(pair: Register16)
    | Push(pair: Register16)
    | Call(condition: JumpCondition)
    | Ret(condition: JumpCondition)
    | Jr(condition: JumpCondition)
    | Rst(address: Bits.Byte)
    | Daa
    | Halt
    | DisableInterrupts
    | EnableInterrupts
    | RetI
    | AddSp
    | LdHlSpOffset
    | LdSpHl
    | LdMemoryAtData16Sp

  /** Build BIT index, target; None where construction fails because the index is outside 0..7. */
  function MakeBit(index: int, target: Operand8): (r: Option<Instruction>)
    ensures r.Some? <==> 0 <= index <= 7
    ensures r.Some? ==> r.value.Bit? && r.value.index == index && r.value.target == target
  {
    if 0 <= index <= 7 then Some(Bit(index, target)) else None
  }

  /** Build RES index, target; None where construction fails because the index is outside 0..7. */
  function MakeRes(index: int, target: Operand8): (r: Option<Instruction>)
    ensures r.Some? <==> 0 <= index <= 7
    ensures r.Some? ==> r.value.Res? && r.value.index == index && r.value.target == target
  {
    if 0 <= index <= 7 then Some(Res(index, target)) else None
  }

  /** Build SET index, target; None where construction fails because the index is outside 0..7. */
  function MakeSet(index: int, target: Operand8): (r: Option<Instruction>)
    ensures r.Some? <==> 0 <= index <= 7
    ensures r.Some? ==> r.value.Set? && r.value.index == index && r.value.target == target
  {
    if 0 <= index <= 7 then Some(Set(index, target)) else None
  }

  /** The result of a shift: the new byte and the bit shifted out into carry. */
  datatype ShiftResult = ShiftResult(value: Bits.Byte, carry: bool)

  /** SWAP: exchange the upper and lower nibbles. */
  function SwapNibbles(x: Bits.Byte): (r: Bits.Byte)
    ensures r / 16 == x % 16 && r % 16 == x / 16
  {
    x % 16 * 16 + x / 16
  }

  /** Swapping twice gives the byte back. */
  lemma SwapTwice(x: Bits.Byte)
    ensures SwapNibbles(SwapNibbles(x)) == x
  {
  }

  /** SRA: shift right, keeping bit 7 (the sign) and moving bit 0 into carry. */
  function ShiftRightArithmetic(x: Bits.Byte): (r: ShiftResult)
    ensures r.value / 0x80 == x / 0x80
    ensures r.value % 0x80 == x / 2
    ensures r.carry <==> x % 2 == 1
  {
    ShiftResult(x / 0x80 * 0x80 + x / 2 % 0x80, x % 2 == 1)
  }

  /** SLA: shift left, moving bit 7 into carry and shifting in 0. */
  function ShiftLeftArithmetic(x: Bits.Byte): (r: ShiftResult)
    ensures r.value % 2 == 0
    ensures r.value / 2 == x % 0x80
    ensures r.carry <==> x / 0x80 == 1
  {
    ShiftResult(x * 2 % 0x100, x >= 0x80)
  }

  /** Seen as two's complement numbers, SLA doubles and SRA halves: shifting
      left then right gives the byte back whenever bits 7 and 6 agree, so
      that doubling does not overflow, and the carry out of SRA is 0. */
  lemma ShiftLeftThenRight(x: Bits.Byte)
    requires x < 0x40 || 0xC0 <= x
    ensures ShiftRightArithmetic(ShiftLeftArithmetic(x).value) == ShiftResult(x, false)
  {
    var doubled := ShiftLeftArithmetic(x).value;
    assert doubled / 0x80 == x / 0x80;
  }
}
