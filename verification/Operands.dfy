/** Instruction operands (Operand.kt): registers, immediate data and the
    memory addressing modes, each either 8 or 16 bits wide. */
module Operands {
  import opened Bits
  import opened Wrappers
  import opened RegisterFile

  datatype Register8 = A | B | C | D | E | H | L

  datatype Register16 = AF | BC | DE | HL | SP

  datatype Operand =
    | Reg8(r8: Register8)
    | Reg16(r16: Register16)
      /** An 8-bit constant in the byte following the opcode. */
    | Data8
      /** A 16-bit constant in the two bytes following the opcode. */
    | Data16
      /** The byte at the address held in HL. */
    | MemoryAtHl
      /** The byte at the address held in a register pair. */
    | MemoryAtRegister16(register: Register16)
      /** The byte at the 16-bit immediate address nn. */
    | MemoryAtData16
      /** The byte at 0xFF00 plus the immediate offset n. */
    | MemoryAtHighData8
      /** The byte at 0xFF00 plus register C. */
    | MemoryAtHighC

  predicate IsOperand8(o: Operand)
  {
    match o
    case Reg8(_) | Data8 | MemoryAtHl | MemoryAtRegister16(_) | MemoryAtData16 | MemoryAtHighData8 | MemoryAtHighC => true
    case Reg16(_) | Data16 => false
  }

  predicate IsOperand16(o: Operand)
  {
    o.Reg16? || o.Data16?
  }

  predicate IsRegister(o: Operand)
  {
    o.Reg8? || o.Reg16?
  }

  predicate IsMemory(o: Operand)
  {
    o.MemoryAtHl? || o.MemoryAtRegister16? || o.MemoryAtData16? || o.MemoryAtHighData8? || o.MemoryAtHighC?
  }

  /** An operand that is 8 bits wide. */
  type Operand8 = o: Operand | IsOperand8(o) witness Reg8(A)

  /** An operand that is 16 bits wide. */
  type Operand16 = o: Operand | IsOperand16(o) witness Reg16(AF)

  /** A register of either width. */
  type Register = o: Operand | IsRegister(o) witness Reg8(A)

  /** Every operand has exactly one width; registers and memory operands are
      the only 8-bit operands besides Data8, and every memory operand is 8 bits wide. */
  lemma OperandWidths(o: Operand)
    ensures IsOperand8(o) != IsOperand16(o)
    ensures IsMemory(o) ==> IsOperand8(o)
    ensures IsOperand8(o) <==> o.Reg8? || o.Data8? || IsMemory(o)
    ensures IsOperand16(o) <==> o.Reg16? || o.Data16?
  {
  }

  /** How many bytes of immediate data follow the opcode for this operand. */
  function ImmediateLength(o: Operand): (n: nat)
    ensures n <= 2
    ensures n == 1 <==> o == Data8 || o == MemoryAtHighData8
    ensures n == 2 <==> o == Data16 || o == MemoryAtData16
  {
    match o
    case Data8 | MemoryAtHighData8 => 1
    case Data16 | MemoryAtData16 => 2
    case _ => 0
  }

  /** The value of a register pair; SP is held outside the register file. */
  function PairValue(regs: Registers, sp: Word, pair: Register16): Word
  {
    match pair
    case AF => regs.AF()
    case BC => regs.BC()
    case DE => regs.DE()
    case HL => regs.HL()
    case SP => sp
  }

  /** The address a memory operand refers to, given the registers, the stack
      pointer and the immediate bytes after the opcode (low byte first);
      None for an operand that does not address memory. */
  function MemoryAddress(o: Operand, regs: Registers, sp: Word, immediate: seq<Byte>): (r: Option<Word>)
    requires |immediate| >= ImmediateLength(o)
    ensures r.Some? <==> IsMemory(o)
    ensures o == MemoryAtHl ==> r == Some(regs.HL())
    ensures o.MemoryAtRegister16? ==> r == Some(PairValue(regs, sp, o.register))
    ensures o == MemoryAtHighData8 ==> r.Some? && r.value == 0xFF00 + immediate[0] as int
    ensures o == MemoryAtHighC ==> r.Some? && r.value == 0xFF00 + regs.c
    ensures o == MemoryAtData16 ==> r.Some? && r.value == immediate[1] as int * 0x100 + immediate[0]
  {
    match o
    case MemoryAtHl => Some(PairValue(regs, sp, HL))
    case MemoryAtRegister16(pair) => Some(PairValue(regs, sp, pair))
    case MemoryAtData16 => Some(Virtual16(immediate[1], immediate[0]))
    case MemoryAtHighData8 => Some(Virtual16(0xFF, immediate[0]))
    case MemoryAtHighC => Some(Virtual16(0xFF, regs.c))
    case _ => None
  }

  /** The two high-page addressing modes always land in 0xFF00..0xFFFF,
      the I/O registers and high RAM. */
  lemma HighPageAddresses(o: Operand, regs: Registers, sp: Word, immediate: seq<Byte>)
    requires o == MemoryAtHighData8 || o == MemoryAtHighC
    requires |immediate| >= ImmediateLength(o)
    ensures 0xFF00 <= MemoryAddress(o, regs, sp, immediate).value <= 0xFFFF
  {
  }
}
