/** The opcode decoder (InstructionDecoder.kt): a table from an opcode byte
    to an instruction. Only the unprefixed table has entries; INC and DEC
    take their register from bits 5-3 of the opcode. */
module Decoder {
  import opened Bits
  import opened Wrappers
  import opened Operands
  import opened Instructions

  /** The outcome of decoding: an instruction, no entry in the table (null),
      or the error raised when bits 5-3 select (HL), which has no register. */
  datatype DecodeResult = Decoded(instruction: Instruction) | NotDecoded | InvalidRegister(code: nat)

  /** The 3-bit code of each 8-bit register in an opcode. */
  function RegisterCode(r: Register8): (code: nat)
    ensures code < 8 && code != 6
  {
    match r
    case B => 0
    case C => 1
    case D => 2
    case E => 3
    case H => 4
    case L => 5
    case A => 7
  }

  /** Bits 5-3 of an opcode: `(opcode shr 3) and 0b111`. */
  function RegisterField(opcode: Byte): (field: nat)
    ensures field == opcode / 8 % 8
  {
    AndLowMask(opcode / 8, 3);
    Bits.And(opcode / 8, 0x7)
  }

  /** Bits 5-3 of `base + 8 * k`, for base in bits 2-0, are k. */
  lemma RegisterFieldOf(base: nat, k: nat)
    requires base < 8 && k < 8
    ensures RegisterField(base + 8 * k) == k
  {
    ModUnique(base + 8 * k, 8, k, base);
    ModUnique(k, 8, 0, k);
  }

  /** The register selected by bits 5-3 of an opcode; None for the code 6. */
  function GetRegister(opcode: Byte): (r: Option<Register8>)
    ensures r.None? <==> RegisterField(opcode) == 6
    ensures r.Some? ==> RegisterCode(r.value) == RegisterField(opcode)
  {
    match RegisterField(opcode)
    case 7 => Some(A)
    case 0 => Some(B)
    case 1 => Some(C)
    case 2 => Some(D)
    case 3 => Some(E)
    case 4 => Some(H)
    case 5 => Some(L)
    case _ => None
  }

  /** Distinct registers have distinct codes. */
  lemma RegisterCodeInjective(r: Register8, s: Register8)
    requires RegisterCode(r) == RegisterCode(s)
    ensures r == s
  {
  }

  /** Decode an opcode; the CB-prefixed table is empty. */
  function Decode(opcode: Byte, prefixed: bool): (r: DecodeResult)
    ensures prefixed ==> r == NotDecoded
    ensures !prefixed ==> r == DecodeNotPrefixed(opcode)
  {
    if prefixed then DecodePrefixed(opcode) else DecodeNotPrefixed(opcode)
  }

  function DecodePrefixed(opcode: Byte): DecodeResult
  {
    NotDecoded
  }

  /** INC or DEC of the register in bits 5-3, or the error for code 6. */
  function IncDec(opcode: Byte, increment: bool): (r: DecodeResult)
    ensures r.Decoded? || r.InvalidRegister?
    ensures r.InvalidRegister? <==> opcode / 8 % 8 == 6
    ensures r.InvalidRegister? ==> r.code == 6
    ensures r.Decoded? ==>
      ((if increment then r.instruction.Inc? else r.instruction.Dec?)
       && r.instruction.register.Reg8? && RegisterCode(r.instruction.register.r8) == opcode / 8 % 8)
  {
    match GetRegister(opcode)
    case Some(r) => Decoded(if increment then Inc(Reg8(r)) else Dec(Reg8(r)))
    case None => InvalidRegister(opcode / 8 % 8)
  }

  /** The unprefixed table. INC and DEC name the register whose code is in
      bits 5-3; the register error arises only there, for the field 6. */
  function DecodeNotPrefixed(opcode: Byte): (r: DecodeResult)
    ensures r.InvalidRegister? ==> r.code == 6 && opcode / 8 % 8 == 6
    ensures r.Decoded? && (r.instruction.Inc? || r.instruction.Dec?) ==>
      r.instruction.register.Reg8? && RegisterCode(r.instruction.register.r8) == opcode / 8 % 8
  {
    match opcode
    case 0x06 => Decoded(Ld(Data8, Reg8(B)))
    case 0x0E => Decoded(Ld(Data8, Reg8(C)))
    case 0x16 => Decoded(Ld(Data8, Reg8(D)))
    case 0x1E => Decoded(Ld(Data8, Reg8(E)))
    case 0x26 => Decoded(Ld(Data8, Reg8(H)))
    case 0x2E => Decoded(Ld(Data8, Reg8(L)))
    case 0x3E => Decoded(Ld(Data8, Reg8(A)))

    case 0xC1 => Decoded(Pop(BC))
    case 0xD1 => Decoded(Pop(DE))
    case 0xE1 => Decoded(Pop(HL))
    case 0xF1 => Decoded(Pop(AF))

    case 0xC5 => Decoded(Push(BC))
    case 0xD5 => Decoded(Push(DE))
    case 0xE5 => Decoded(Push(HL))
    case 0xF5 => Decoded(Push(AF))

    case 0xCD => Decoded(Call(Always))
    case 0xC4 => Decoded(Call(NotZero))
    case 0xCC => Decoded(Call(Zero))
    case 0xD4 => Decoded(Call(NotCarry))
    case 0xDC => Decoded(Call(Carry))

    case 0xC9 => Decoded(Ret(Always))
    case 0xC0 => Decoded(Ret(NotZero))
    case 0xC8 => Decoded(Ret(Zero))
    case 0xD0 => Decoded(Ret(NotCarry))
    case 0xD8 => Decoded(Ret(Carry))

    case 0x3C | 0x04 | 0x0C | 0x14 | 0x1C | 0x24 | 0x34 | 0x2C => IncDec(opcode, true)

    case 0x3D | 0x05 | 0x0D | 0x15 | 0x1D | 0x25 | 0x2D | 0x35 => IncDec(opcode, false)

    case 0xC3 => Decoded(Jp(Always))
    case 0xC2 => Decoded(Jp(NotZero))
    case 0xCA => Decoded(Jp(Zero))
    case 0xD2 => Decoded(Jp(NotCarry))
    case 0xDA => Decoded(Jp(Carry))

    case _ => NotDecoded
  }

  /** The 2-bit code of a condition (NZ, Z, NC, C) in bits 4-3; None for the unconditional form. */
  function ConditionCode(c: JumpCondition): (code: Option<nat>)
    ensures code.Some? <==> c != Always
    ensures code.Some? ==> code.value < 4
  {
    match c
    case Always => None
    case NotZero => Some(0)
    case Zero => Some(1)
    case NotCarry => Some(2)
    case Carry => Some(3)
  }

  /** The 2-bit code of a pair in PUSH and POP (bits 5-4); None for SP. */
  function StackCode(pair: Register16): (code: Option<nat>)
    ensures code.Some? <==> pair != SP
    ensures code.Some? ==> code.value < 4
  {
    match pair
    case BC => Some(0)
    case DE => Some(1)
    case HL => Some(2)
    case AF => Some(3)
    case SP => None
  }

  /** The opcode of an instruction in the SM83 encoding, built from its
      fields; None for an instruction the decoder has no entry for. */
  function Encode(i: Instruction): (r: Option<Byte>)
  {
    match i
    case Ld(Data8, Reg8(r)) => Some(0x06 + 8 * RegisterCode(r))
    case Pop(pair) => if pair == SP then None else Some(0xC1 + 0x10 * StackCode(pair).value)
    case Push(pair) => if pair == SP then None else Some(0xC5 + 0x10 * StackCode(pair).value)
    case Call(c) => if c == Always then Some(0xCD) else Some(0xC4 + 8 * ConditionCode(c).value)
    case Ret(c) => if c == Always then Some(0xC9) else Some(0xC0 + 8 * ConditionCode(c).value)
    case Jp(c) => if c == Always then Some(0xC3) else Some(0xC2 + 8 * ConditionCode(c).value)
    case Inc(Reg8(r)) => Some(0x04 + 8 * RegisterCode(r))
    case Dec(Reg8(r)) => Some(0x05 + 8 * RegisterCode(r))
    case _ => None
  }

  /** Every instruction with an opcode decodes from that opcode. */
  lemma DecodeEncode(i: Instruction)
    requires Encode(i).Some?
    ensures Decode(Encode(i).value, false) == Decoded(i)
  {
    if i.Ld? {
      DecodeLdFamily(i.destination.r8);
    } else if i.Inc? {
      DecodeIncFamily(i.register.r8);
    } else if i.Dec? {
      DecodeDecFamily(i.register.r8);
    } else if i.Pop? || i.Push? {
      DecodeStackFamilies(i.pair);
    } else if i.Call? {
      DecodeCallFamily(i.condition);
    } else if i.Ret? {
      DecodeRetFamily(i.condition);
    } else {
      DecodeJpFamily(i.condition);
    }
  }

  lemma DecodeLdFamily(r: Register8)
    ensures DecodeNotPrefixed(0x06 + 8 * RegisterCode(r)) == Decoded(Ld(Data8, Reg8(r)))
  {
    match r
    case A =>
    case B =>
    case C =>
    case D =>
    case E =>
    case H =>
    case L =>
  }

  lemma DecodeIncFamily(r: Register8)
    ensures DecodeNotPrefixed(0x04 + 8 * RegisterCode(r)) == Decoded(Inc(Reg8(r)))
  {
    match r
    case A =>
    case B =>
    case C =>
    case D =>
    case E =>
    case H =>
    case L =>
  }

  lemma DecodeDecFamily(r: Register8)
    ensures DecodeNotPrefixed(0x05 + 8 * RegisterCode(r)) == Decoded(Dec(Reg8(r)))
  {
    match r
    case A =>
    case B =>
    case C =>
    case D =>
    case E =>
    case H =>
    case L =>
  }

  lemma DecodeStackFamilies(pair: StackTarget)
    ensures DecodeNotPrefixed(0xC1 + 0x10 * StackCode(pair).value) == Decoded(Pop(pair))
    ensures DecodeNotPrefixed(0xC5 + 0x10 * StackCode(pair).value) == Decoded(Push(pair))
  {
    match pair
    case AF =>
    case BC =>
    case DE =>
    case HL =>
  }

  lemma DecodeCallFamily(c: JumpCondition)
    ensures DecodeNotPrefixed(Encode(Call(c)).value) == Decoded(Call(c))
  {
    match c
    case Always =>
    case NotZero =>
    case Zero =>
    case NotCarry =>
    case Carry =>
  }

  lemma DecodeRetFamily(c: JumpCondition)
    ensures DecodeNotPrefixed(Encode(Ret(c)).value) == Decoded(Ret(c))
  {
    match c
    case Always =>
    case NotZero =>
    case Zero =>
    case NotCarry =>
    case Carry =>
  }

  lemma DecodeJpFamily(c: JumpCondition)
    ensures DecodeNotPrefixed(Encode(Jp(c)).value) == Decoded(Jp(c))
  {
    match c
    case Always =>
    case NotZero =>
    case Zero =>
    case NotCarry =>
    case Carry =>
  }

  /** The opcodes the unprefixed table has an entry for. */
  const KnownOpcodes: set<int> := {
    0x06, 0x0E, 0x16, 0x1E, 0x26, 0x2E, 0x3E,
    0xC1, 0xD1, 0xE1, 0xF1, 0xC5, 0xD5, 0xE5, 0xF5,
    0xCD, 0xC4, 0xCC, 0xD4, 0xDC, 0xC9, 0xC0, 0xC8, 0xD0, 0xD8,
    0x3C, 0x04, 0x0C, 0x14, 0x1C, 0x24, 0x34, 0x2C,
    0x3D, 0x05, 0x0D, 0x15, 0x1D, 0x25, 0x2D, 0x35,
    0xC3, 0xC2, 0xCA, 0xD2, 0xDA}

  const RegisterOpcodes: set<int> := {
    0x06, 0x0E, 0x16, 0x1E, 0x26, 0x2E, 0x3E,
    0x3C, 0x04, 0x0C, 0x14, 0x1C, 0x24, 0x2C,
    0x3D, 0x05, 0x0D, 0x15, 0x1D, 0x25, 0x2D}

  const StackOpcodes: set<int> := {0xC1, 0xD1, 0xE1, 0xF1, 0xC5, 0xD5, 0xE5, 0xF5}

  const ConditionOpcodes: set<int> := {
    0xCD, 0xC4, 0xCC, 0xD4, 0xDC, 0xC9, 0xC0, 0xC8, 0xD0, 0xD8,
    0xC3, 0xC2, 0xCA, 0xD2, 0xDA}

  lemma KnownOpcodesSplit(opcode: int)
    ensures opcode in KnownOpcodes <==>
      opcode in RegisterOpcodes || opcode in StackOpcodes || opcode in ConditionOpcodes || opcode == 0x34 || opcode == 0x35
  {
  }

  lemma RegisterOpcodesRoundTrip(opcode: Byte)
    requires opcode in RegisterOpcodes
    ensures Decode(opcode, false).Decoded?
    ensures Encode(Decode(opcode, false).instruction) == Some(opcode)
  {
    if opcode in {0x06, 0x0E, 0x16, 0x1E, 0x26, 0x2E, 0x3E} {
      LdOpcodesRoundTrip(opcode);
    } else if opcode in {0x3C, 0x04, 0x0C, 0x14, 0x1C, 0x24, 0x2C} {
      IncOpcodesRoundTrip(opcode);
    } else {
      DecOpcodesRoundTrip(opcode);
    }
  }

  lemma LdOpcodesRoundTrip(opcode: Byte)
    requires opcode in {0x06, 0x0E, 0x16, 0x1E, 0x26, 0x2E, 0x3E}
    ensures Decode(opcode, false).Decoded?
    ensures Encode(Decode(opcode, false).instruction) == Some(opcode)
  {
  }

  lemma IncOpcodesRoundTrip(opcode: Byte)
    requires opcode in {0x3C, 0x04, 0x0C, 0x14, 0x1C, 0x24, 0x2C}
    ensures Decode(opcode, false).Decoded?
    ensures Encode(Decode(opcode, false).instruction) == Some(opcode)
  {
    var k := opcode / 8;
    assert opcode == 0x04 + 8 * k && k < 8 && k != 6;
    RegisterFieldOf(4, k);
    var r := GetRegister(opcode).value;
    DecodeIncFamily(r);
    assert opcode == 0x04 + 8 * RegisterCode(r);
    assert Decode(opcode, false) == DecodeNotPrefixed(0x04 + 8 * RegisterCode(r));
  }

  lemma DecOpcodesRoundTrip(opcode: Byte)
    requires opcode in {0x3D, 0x05, 0x0D, 0x15, 0x1D, 0x25, 0x2D}
    ensures Decode(opcode, false).Decoded?
    ensures Encode(Decode(opcode, false).instruction) == Some(opcode)
  {
    var k := opcode / 8;
    assert opcode == 0x05 + 8 * k && k < 8 && k != 6;
    RegisterFieldOf(5, k);
    var r := GetRegister(opcode).value;
    DecodeDecFamily(r);
    assert opcode == 0x05 + 8 * RegisterCode(r);
    assert Decode(opcode, false) == DecodeNotPrefixed(0x05 + 8 * RegisterCode(r));
  }

  lemma StackOpcodesRoundTrip(opcode: Byte)
    requires opcode in StackOpcodes
    ensures Decode(opcode, false).Decoded?
    ensures Encode(Decode(opcode, false).instruction) == Some(opcode)
  {
  }

  lemma ConditionOpcodesRoundTrip(opcode: Byte)
    requires opcode in ConditionOpcodes
    ensures Decode(opcode, false).Decoded?
    ensures Encode(Decode(opcode, false).instruction) == Some(opcode)
  {
    if opcode in {0xCD, 0xC4, 0xCC, 0xD4, 0xDC} {
      CallOpcodesRoundTrip(opcode);
    } else if opcode in {0xC9, 0xC0, 0xC8, 0xD0, 0xD8} {
      RetOpcodesRoundTrip(opcode);
    } else {
      JpOpcodesRoundTrip(opcode);
    }
  }

  lemma CallOpcodesRoundTrip(opcode: Byte)
    requires opcode in {0xCD, 0xC4, 0xCC, 0xD4, 0xDC}
    ensures Decode(opcode, false).Decoded?
    ensures Encode(Decode(opcode, false).instruction) == Some(opcode)
  {
  }

  lemma RetOpcodesRoundTrip(opcode: Byte)
    requires opcode in {0xC9, 0xC0, 0xC8, 0xD0, 0xD8}
    ensures Decode(opcode, false).Decoded?
    ensures Encode(Decode(opcode, false).instruction) == Some(opcode)
  {
  }

  lemma JpOpcodesRoundTrip(opcode: Byte)
    requires opcode in {0xC3, 0xC2, 0xCA, 0xD2, 0xDA}
    ensures Decode(opcode, false).Decoded?
    ensures Encode(Decode(opcode, false).instruction) == Some(opcode)
  {
  }

  /** An opcode without an entry decodes to nothing; one with an entry decodes
      to an instruction or, at 0x34 and 0x35, to the register error. */
  lemma NotDecodedIffUnknown(opcode: Byte)
    ensures Decode(opcode, false).NotDecoded? <==> opcode !in KnownOpcodes
  {
    KnownOpcodesSplit(opcode);
    if opcode in RegisterOpcodes {
      RegisterOpcodesRoundTrip(opcode);
    } else if opcode in StackOpcodes {
      StackOpcodesRoundTrip(opcode);
    } else if opcode in ConditionOpcodes {
      ConditionOpcodesRoundTrip(opcode);
    } else if opcode == 0x34 || opcode == 0x35 {
      assert RegisterField(opcode) == 6;
    }
  }

  /** Every decoded instruction encodes back to its opcode. */
  lemma EncodeDecode(opcode: Byte)
    requires Decode(opcode, false).Decoded?
    ensures Encode(Decode(opcode, false).instruction) == Some(opcode)
  {
    NotDecodedIffUnknown(opcode);
    DecodeErrors(opcode);
    KnownOpcodesSplit(opcode);
    if opcode in RegisterOpcodes {
      RegisterOpcodesRoundTrip(opcode);
    } else if opcode in StackOpcodes {
      StackOpcodesRoundTrip(opcode);
    } else {
      ConditionOpcodesRoundTrip(opcode);
    }
  }

  /** Decoding fails with an error exactly at 0x34 (INC (HL)) and 0x35 (DEC (HL)),
      whose bits 5-3 hold 6. */
  lemma DecodeErrors(opcode: Byte)
    ensures Decode(opcode, false).InvalidRegister? <==> opcode == 0x34 || opcode == 0x35
    ensures Decode(opcode, false).InvalidRegister? ==> Decode(opcode, false).code == 6
  {
  }

  /** The LD r, n opcodes name their destination in the same bits 5-3 that GetRegister reads. */
  lemma LdTargetField(opcode: Byte)
    requires Decode(opcode, false).Decoded? && Decode(opcode, false).instruction.Ld?
    ensures GetRegister(opcode) == Some(Decode(opcode, false).instruction.destination.r8)
  {
    var load := Decode(opcode, false).instruction;
    EncodeDecode(opcode);
    var r := load.destination.r8;
    assert opcode == 0x06 + 8 * RegisterCode(r);
    RegisterFieldOf(6, RegisterCode(r));
    RegisterCodeInjective(GetRegister(opcode).value, r);
  }
}
