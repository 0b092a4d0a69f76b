# kgbemu CPU core in Dafny

This project models the SM83 CPU core of the Game Boy emulator kgbemu. It covers:

- the 8-bit adder and the clamping subtractor;
- the register file with its 16-bit register pairs;
- the program counter and the stack pointer;
- the memory bus with its interrupt-enable and interrupt-flag registers;
- the operand and instruction types;
- the opcode decoder;
- the part of the executor that runs arithmetic, logic, flag and rotate instructions on the register file.

Unsigned Kotlin types (`UByte`, `UShort`) become the bounded integer types `Bits.Byte` and `Bits.Word`. Kotlin's `Int` becomes `Bits.Int32`, and 32-bit wrap-around is written out where the code depends on it. Bitwise `and`/`or`/`xor` are defined bit by bit on natural numbers (`Bits.Combine`).

Modules and the Kotlin files they model:

| module | file |
|---|---|
| `Addition` | Add.kt |
| `Subtraction` | Subtract.kt |
| `RegisterFile` | Registers.kt |
| `FlagsCodec` | the flags register that CPU.kt imports |
| `Pc` | ProgramCounter.kt, as a class |
| `Sp` | StackPointer.kt, as a class |
| `Memory` | MemoryBus.kt: a class over an array |
| `Operands` | Operand.kt |
| `Instructions` | Instruction.kt |
| `Decoder` | InstructionDecoder.kt |
| `Execution` | the effect of each instruction CPU.kt executes, as functions on the register file |
| `Cpu` | CPU.kt: a class whose methods follow the Kotlin steps and are proved to have the effect `Execution` describes |

Three definitions CPU.kt uses are not part of this model: `FlagsRegister`, `ArithmeticTarget` and the 16-bit `overflowAdd` overload that CPU.kt calls. Stand-ins are used for them:

- `FlagsCodec.FlagsRegister`: Z, N, H and C in bits 7, 6, 5 and 4 of F, with bits 3-0 clear, as the register tests expect.
- `Execution.ArithmeticTarget`: the seven 8-bit registers.
- `Addition.OverflowAdd16`: carry out of bit 15 and half-carry out of bit 11.

Where the code and its documentation or tests disagree, the model follows the code:

- SUB, SBC, CP and DEC clamp at 0, and they report a borrow when the operands are equal (Subtract.kt:14-23). Six subtract tests expect wrap-around (SubtractTest.kt:29, 38, 56, 96, 105 and 123), and two DEC tests expect 0 to become 0xFF (CPUIncDecTest.kt:179 for DEC C and :235 for DEC A).
- The decoder returns nothing for the ALU opcodes 0x80-0xBF (InstructionDecoder.kt:84), although the decoder tests expect them decoded.
- RRA and RLA copy the old flags and replace only C, so they keep Z, N and H (CPU.kt:200-202, 211-213). The doc comments on the instruction types (Instruction.kt:80-86, 108-114) say all three are cleared.
- AND, OR, XOR and CPL leave F untouched (CPU.kt:117-130, 216-218).
- ADD HL sets Z from the new HL (CPU.kt:47-62).

## Model

| member | source | states |
|---|---|---|
| `Addition.OverflowAdd` | composeApp/src/commonMain/kotlin/com/vicgarci/kgbem/cpu/Add.kt:9-18 | sum + 256·carry is exactly first + second, so the sum is (first + second) mod 256; carry iff first + second > 0xFF; half-carry iff the low nibbles add past 0xF |
| `Addition.OverflowAdd16` | composeApp/src/commonMain/kotlin/com/vicgarci/kgbem/cpu/CPU.kt:47-62 | the 16-bit adder CPU.kt calls: sum + 2^16·carry is exactly first + second; carry out of bit 15; half-carry out of bit 11 |
| `Addition.OverflowAdd16OfByte` | composeApp/src/commonMain/kotlin/com/vicgarci/kgbem/cpu/CPU.kt:47-52 | with a second operand of at most 0x100, the 16-bit sum is (first + second) mod 2^16, the carry is first + second > 0xFFFF and the half-carry looks only at first's low 12 bits |
| `Addition.OverflowAddCommutes` | composeApp/src/commonMain/kotlin/com/vicgarci/kgbem/cpu/Add.kt:10-12 | overflowAdd(a, b) == overflowAdd(b, a), sum and both flags |
| `Addition.OverflowAddZero` | composeApp/src/commonMain/kotlin/com/vicgarci/kgbem/cpu/Add.kt:10-12 | adding 0 on either side returns the other operand, with no carry and no half-carry |
| `Subtraction.Sub` | composeApp/src/commonMain/kotlin/com/vicgarci/kgbem/cpu/Subtract.kt:13-24 | borrow iff second >= first; without a borrow, value + second == first; with one, value == 0; half-borrow iff first's low nibble < second's; value never exceeds first |
| `Subtraction.SubBytes` | composeApp/src/commonMain/kotlin/com/vicgarci/kgbem/cpu/Subtract.kt:9-11 | the byte overload is the word overload on widened operands: value is first - second when first > second and 0 otherwise, and the borrow and half-borrow are the same |
| `Subtraction.SubUndoesAdd` | composeApp/src/commonMain/kotlin/com/vicgarci/kgbem/cpu/Subtract.kt:13-24 | subtracting second from a carry-free overflowAdd(first, second) gives first back; it borrows only when first is 0 |
| `Subtraction.SubClampsAtZero` | composeApp/src/commonMain/kotlin/com/vicgarci/kgbem/cpu/Subtract.kt:14-23 | when second >= first (equal included) the result is 0 with a borrow, not a wrapped difference |
| `RegisterFile.Registers.AF` | composeApp/src/commonMain/kotlin/com/vicgarci/kgbem/cpu/Registers.kt:14-15 | af == a·256 + f, a 16-bit value |
| `RegisterFile.Registers.BC` | composeApp/src/commonMain/kotlin/com/vicgarci/kgbem/cpu/Registers.kt:17-18 | bc == b·256 + c, a 16-bit value |
| `RegisterFile.Registers.DE` | composeApp/src/commonMain/kotlin/com/vicgarci/kgbem/cpu/Registers.kt:20-21 | de == d·256 + e, a 16-bit value |
| `RegisterFile.Registers.HL` | composeApp/src/commonMain/kotlin/com/vicgarci/kgbem/cpu/Registers.kt:23-24 | hl == h·256 + l, a 16-bit value |
| `RegisterFile.Registers.WithHl` | composeApp/src/commonMain/kotlin/com/vicgarci/kgbem/cpu/CPU.kt:54 | assigning hl makes HL read back the assigned value and leaves A, B, C, D, E and F unchanged |
| `RegisterFile.Virtual16` | composeApp/src/commonMain/kotlin/com/vicgarci/kgbem/cpu/Registers.kt:26-28 | the pair value is high·256 + low, below 65536 |
| `RegisterFile.PairSplits` | composeApp/src/commonMain/kotlin/com/vicgarci/kgbem/cpu/Registers.kt:26-28 | a pair splits back: pair / 256 is the high register and pair % 256 the low one |
| `RegisterFile.PairInjective` | composeApp/src/commonMain/kotlin/com/vicgarci/kgbem/cpu/Registers.kt:26-28 | equal pair values come from equal (high, low) registers |
| `FlagsCodec.ToByte` | composeApp/src/commonMain/kotlin/com/vicgarci/kgbem/cpu/CPU.kt:3-4 | the packed byte always has its low nibble clear |
| `FlagsCodec.ToByteBits` | composeApp/src/commonMain/kotlin/com/vicgarci/kgbem/cpu/CPU.kt:3-4 | packing puts Z in bit 7, N in bit 6, H in bit 5 and C in bit 4 |
| `FlagsCodec.FromToByte` | composeApp/src/commonMain/kotlin/com/vicgarci/kgbem/cpu/CPU.kt:3-4 | unpacking a packed flags register gives back the four flags |
| `FlagsCodec.ToFromByte` | composeApp/src/commonMain/kotlin/com/vicgarci/kgbem/cpu/CPU.kt:3-4 | packing an unpacked byte gives the byte with its low nibble cleared |
| `Pc.AdvanceIsModular` | composeApp/src/commonMain/kotlin/com/vicgarci/kgbem/cpu/ProgramCounter.kt:26-28 | moving the program counter by any step, negative included, gives (pc + step) mod 65536 |
| `Pc.AdvanceWraps` | composeApp/src/commonMain/kotlin/com/vicgarci/kgbem/cpu/ProgramCounter.kt:27 | one step past 0xFFFF is 0 |
| `Pc.AdvanceUndone` | composeApp/src/commonMain/kotlin/com/vicgarci/kgbem/cpu/ProgramCounter.kt:26-28 | moving by n and then by -n restores the program counter |
| `Bits.WrapInt32` | composeApp/src/commonMain/kotlin/com/vicgarci/kgbem/cpu/ProgramCounter.kt:27 | Kotlin Int addition: the result is a signed 32-bit value congruent to the exact sum modulo 2^32 |
| `Bits.Int32WrapKeepsLowBits` | composeApp/src/commonMain/kotlin/com/vicgarci/kgbem/cpu/ProgramCounter.kt:27 | an Int overflow in value + stepSize does not change the UShort that toUShort keeps |
| `Pc.ProgramCounter.constructor` | composeApp/src/commonMain/kotlin/com/vicgarci/kgbem/cpu/ProgramCounter.kt:3-5 | the program counter starts at the given address |
| `Pc.ProgramCounter.GetAndIncrement` | composeApp/src/commonMain/kotlin/com/vicgarci/kgbem/cpu/ProgramCounter.kt:10-14 | returns the old value and leaves old + 1 mod 65536 |
| `Pc.ProgramCounter.SetTo` | composeApp/src/commonMain/kotlin/com/vicgarci/kgbem/cpu/ProgramCounter.kt:19-21 | the program counter becomes the given address |
| `Pc.ProgramCounter.IncreaseBy` | composeApp/src/commonMain/kotlin/com/vicgarci/kgbem/cpu/ProgramCounter.kt:26-28 | for any Int step the new value is old + step mod 65536, computed through a 32-bit Int sum and a truncation to UShort |
| `Sp.AboveBelowInverse` | composeApp/src/commonMain/kotlin/com/vicgarci/kgbem/cpu/StackPointer.kt:17-29 | the wrapping increment and decrement of the stack pointer undo each other, 0 and 0xFFFF included |
| `Sp.StackPointer.constructor` | composeApp/src/commonMain/kotlin/com/vicgarci/kgbem/cpu/StackPointer.kt:3-5 | the stack pointer starts at the given address |
| `Sp.StackPointer.Default` | composeApp/src/commonMain/kotlin/com/vicgarci/kgbem/cpu/StackPointer.kt:38-41 | by default the stack pointer starts at 0xFFFE, past the boot ROM |
| `Sp.StackPointer.Get` | composeApp/src/commonMain/kotlin/com/vicgarci/kgbem/cpu/StackPointer.kt:10-12 | returns the stack pointer and changes nothing |
| `Sp.StackPointer.GetAndIncrement` | composeApp/src/commonMain/kotlin/com/vicgarci/kgbem/cpu/StackPointer.kt:17-21 | returns the old value and leaves old + 1 mod 65536, so 0xFFFF becomes 0 |
| `Sp.StackPointer.DecrementAndGet` | composeApp/src/commonMain/kotlin/com/vicgarci/kgbem/cpu/StackPointer.kt:26-29 | sets old - 1 mod 65536, so 0 becomes 0xFFFF, and returns the new value |
| `Sp.StackPointer.SetTo` | composeApp/src/commonMain/kotlin/com/vicgarci/kgbem/cpu/StackPointer.kt:34-36 | the stack pointer becomes the given address |
| `Sp.PushThenPop` | composeApp/src/commonMain/kotlin/com/vicgarci/kgbem/cpu/StackPointer.kt:17-29 | decrementAndGet then getAndIncrement returns the decremented value both times and restores the stack pointer |
| `Memory.PendingMask` | composeApp/src/commonMain/kotlin/com/vicgarci/kgbem/cpu/MemoryBus.kt:11-12 | the mask is below 32, and bit k is set iff k < 5 and bit k is set in both IE and IF |
| `Memory.PendingIffSomeSource` | composeApp/src/commonMain/kotlin/com/vicgarci/kgbem/cpu/MemoryBus.kt:44-46 | the mask is nonzero iff one of the five interrupt sources is both enabled and requested |
| `Memory.BitUpdated` | composeApp/src/commonMain/kotlin/com/vicgarci/kgbem/cpu/MemoryBus.kt:56-65 | with Kotlin's shift taken mod 32, bit bitPosition becomes value and every other bit of the byte keeps its value; a position of 8 or more leaves the byte unchanged |
| `Memory.MemoryBus.constructor` | composeApp/src/commonMain/kotlin/com/vicgarci/kgbem/cpu/MemoryBus.kt:3-5 | the bus works on the given memory array |
| `Memory.MemoryBus.Default` | composeApp/src/commonMain/kotlin/com/vicgarci/kgbem/cpu/MemoryBus.kt:4 | the default memory is 0x10000 bytes, all zero |
| `Memory.MemoryBus.ReadByte` | composeApp/src/commonMain/kotlin/com/vicgarci/kgbem/cpu/MemoryBus.kt:36-38 | reads the byte at the address, which must lie inside the memory |
| `Memory.MemoryBus.WriteByte` | composeApp/src/commonMain/kotlin/com/vicgarci/kgbem/cpu/MemoryBus.kt:40-42 | readByte of the address then gives the written value, and every other address is unchanged |
| `Memory.MemoryBus.InterruptPendingMask` | composeApp/src/commonMain/kotlin/com/vicgarci/kgbem/cpu/MemoryBus.kt:11-34 | the mask of memory[0xFFFF] and memory[0xFF0F] is below 32 and holds exactly the sources enabled and requested in both |
| `Memory.MemoryBus.AnyInterruptPending` | composeApp/src/commonMain/kotlin/com/vicgarci/kgbem/cpu/MemoryBus.kt:44-46 | true iff some source below 5 is set in both IE and IF |
| `Memory.MemoryBus.SetInterruptFlagBit` | composeApp/src/commonMain/kotlin/com/vicgarci/kgbem/cpu/MemoryBus.kt:48-50 | sets or clears one bit of memory[0xFF0F]; every other bit and every other address is unchanged |
| `Memory.MemoryBus.SetInterruptEnableBit` | composeApp/src/commonMain/kotlin/com/vicgarci/kgbem/cpu/MemoryBus.kt:52-54 | sets or clears one bit of memory[0xFFFF]; every other bit and every other address is unchanged |
| `Memory.MemoryBus.SetBit` | composeApp/src/commonMain/kotlin/com/vicgarci/kgbem/cpu/MemoryBus.kt:56-65 | the addressed byte becomes the old byte with the one bit updated, and no other address changes |
| `Operands.OperandWidths` | composeApp/src/commonMain/kotlin/com/vicgarci/kgbem/cpu/Operand.kt:1-58 | every operand is either 8-bit or 16-bit: 8-bit operands are the 8-bit registers, Data8 and the five memory operands; 16-bit ones are the register pairs and Data16 |
| `Operands.ImmediateLength` | composeApp/src/commonMain/kotlin/com/vicgarci/kgbem/cpu/Operand.kt:26-53 | Data8 and MemoryAtHighData8 read one byte after the opcode; Data16 and MemoryAtData16 read two; no operand reads more |
| `Operands.MemoryAddress` | composeApp/src/commonMain/kotlin/com/vicgarci/kgbem/cpu/Operand.kt:36-58 | memory operands and only those have an address: HL, the value of the named pair (SP included), the 16-bit immediate (low byte first), 0xFF00 + n, or 0xFF00 + C |
| `Operands.HighPageAddresses` | composeApp/src/commonMain/kotlin/com/vicgarci/kgbem/cpu/Operand.kt:50-58 | the high-page addresses lie in 0xFF00..0xFFFF |
| `Instructions.MakeBit` | composeApp/src/commonMain/kotlin/com/vicgarci/kgbem/cpu/Instruction.kt:159-167 | a Bit instruction can be built iff its index is in 0..7, and it then holds that index and target |
| `Instructions.MakeRes` | composeApp/src/commonMain/kotlin/com/vicgarci/kgbem/cpu/Instruction.kt:175-183 | a Res instruction can be built iff its index is in 0..7, and it then holds that index and target |
| `Instructions.MakeSet` | composeApp/src/commonMain/kotlin/com/vicgarci/kgbem/cpu/Instruction.kt:191-199 | a Set instruction can be built iff its index is in 0..7, and it then holds that index and target |
| `Instructions.SwapNibbles` | composeApp/src/commonMain/kotlin/com/vicgarci/kgbem/cpu/Instruction.kt:230-235 | the upper nibble of the result is the lower nibble of the input and vice versa |
| `Instructions.SwapTwice` | composeApp/src/commonMain/kotlin/com/vicgarci/kgbem/cpu/Instruction.kt:230-235 | swapping twice gives the byte back |
| `Instructions.ShiftRightArithmetic` | composeApp/src/commonMain/kotlin/com/vicgarci/kgbem/cpu/Instruction.kt:208-217 | the sign bit is kept, the rest shifts right one place, and the bit shifted out becomes the carry |
| `Instructions.ShiftLeftArithmetic` | composeApp/src/commonMain/kotlin/com/vicgarci/kgbem/cpu/Instruction.kt:219-228 | the most significant bit becomes the carry, the rest shifts left, and bit 0 becomes 0 |
| `Instructions.ShiftLeftThenRight` | composeApp/src/commonMain/kotlin/com/vicgarci/kgbem/cpu/Instruction.kt:208-228 | when bits 7 and 6 agree, SLA then SRA gives the byte back with no carry |
| `Decoder.RegisterCode` | composeApp/src/commonMain/kotlin/com/vicgarci/kgbem/cpu/InstructionDecoder.kt:93-100 | each 8-bit register's code is a 3-bit value other than 110 |
| `Decoder.RegisterField` | composeApp/src/commonMain/kotlin/com/vicgarci/kgbem/cpu/InstructionDecoder.kt:91 | `(opcode shr 3) and 0b111` is bits 5-3 of the opcode |
| `Decoder.GetRegister` | composeApp/src/commonMain/kotlin/com/vicgarci/kgbem/cpu/InstructionDecoder.kt:88-103 | bits 5-3 select B, C, D, E, H, L or A by their code; 110 gives no register |
| `Decoder.RegisterCodeInjective` | composeApp/src/commonMain/kotlin/com/vicgarci/kgbem/cpu/InstructionDecoder.kt:93-100 | no two registers share a code |
| `Decoder.IncDec` | composeApp/src/commonMain/kotlin/com/vicgarci/kgbem/cpu/InstructionDecoder.kt:58-76 | INC and DEC name the register whose code is bits 5-3 of the opcode; the register error arises exactly when that field is 6, and it carries the field |
| `Decoder.DecodeNotPrefixed` | composeApp/src/commonMain/kotlin/com/vicgarci/kgbem/cpu/InstructionDecoder.kt:24-86 | the unprefixed table: every INC or DEC it yields names the register coded in bits 5-3, and the register error arises only for the field 6 (its entries are pinned down by the round-trip lemmas below) |
| `Decoder.Decode` | composeApp/src/commonMain/kotlin/com/vicgarci/kgbem/cpu/InstructionDecoder.kt:9-22 | prefixed opcodes never decode; unprefixed ones go to the main table |
| `Decoder.DecodeEncode` | composeApp/src/commonMain/kotlin/com/vicgarci/kgbem/cpu/InstructionDecoder.kt:24-86 | every instruction that has an opcode in the table decodes back from that opcode |
| `Decoder.DecodeLdFamily` | composeApp/src/commonMain/kotlin/com/vicgarci/kgbem/cpu/InstructionDecoder.kt:28-34 | 0x06 + 8k decodes to LD r, d8 for the register r whose code is k |
| `Decoder.DecodeIncFamily` | composeApp/src/commonMain/kotlin/com/vicgarci/kgbem/cpu/InstructionDecoder.kt:58-66 | 0x04 + 8k decodes to INC r for the register r whose code is k |
| `Decoder.DecodeDecFamily` | composeApp/src/commonMain/kotlin/com/vicgarci/kgbem/cpu/InstructionDecoder.kt:68-76 | 0x05 + 8k decodes to DEC r for the register r whose code is k |
| `Decoder.RegisterFieldOf` | composeApp/src/commonMain/kotlin/com/vicgarci/kgbem/cpu/InstructionDecoder.kt:91 | bits 5-3 of base + 8k, with base below 8, are k |
| `Decoder.DecodeStackFamilies` | composeApp/src/commonMain/kotlin/com/vicgarci/kgbem/cpu/InstructionDecoder.kt:36-44 | 0xC1/D1/E1/F1 pop and 0xC5/D5/E5/F5 push BC, DE, HL and AF |
| `Decoder.DecodeCallFamily` | composeApp/src/commonMain/kotlin/com/vicgarci/kgbem/cpu/InstructionDecoder.kt:46-50 | the opcode of CALL with each condition (0xCD, 0xC4, 0xCC, 0xD4, 0xDC) decodes back to that CALL |
| `Decoder.DecodeRetFamily` | composeApp/src/commonMain/kotlin/com/vicgarci/kgbem/cpu/InstructionDecoder.kt:52-56 | the opcode of RET with each condition (0xC9, 0xC0, 0xC8, 0xD0, 0xD8) decodes back to that RET |
| `Decoder.DecodeJpFamily` | composeApp/src/commonMain/kotlin/com/vicgarci/kgbem/cpu/InstructionDecoder.kt:78-82 | the opcode of JP with each condition (0xC3, 0xC2, 0xCA, 0xD2, 0xDA) decodes back to that JP |
| `Decoder.LdOpcodesRoundTrip` | composeApp/src/commonMain/kotlin/com/vicgarci/kgbem/cpu/InstructionDecoder.kt:28-34 | each LD r, d8 opcode decodes to an LD whose opcode is that opcode |
| `Decoder.IncOpcodesRoundTrip` | composeApp/src/commonMain/kotlin/com/vicgarci/kgbem/cpu/InstructionDecoder.kt:58-66 | each INC r opcode decodes to an INC whose opcode is that opcode |
| `Decoder.DecOpcodesRoundTrip` | composeApp/src/commonMain/kotlin/com/vicgarci/kgbem/cpu/InstructionDecoder.kt:68-76 | each DEC r opcode decodes to a DEC whose opcode is that opcode |
| `Decoder.RegisterOpcodesRoundTrip` | composeApp/src/commonMain/kotlin/com/vicgarci/kgbem/cpu/InstructionDecoder.kt:28-76 | each LD r, d8 / INC r / DEC r opcode decodes to an instruction whose opcode is that opcode |
| `Decoder.StackOpcodesRoundTrip` | composeApp/src/commonMain/kotlin/com/vicgarci/kgbem/cpu/InstructionDecoder.kt:36-44 | each POP/PUSH opcode decodes to an instruction whose opcode is that opcode |
| `Decoder.ConditionOpcodesRoundTrip` | composeApp/src/commonMain/kotlin/com/vicgarci/kgbem/cpu/InstructionDecoder.kt:46-82 | each CALL/RET/JP opcode decodes to an instruction whose opcode is that opcode |
| `Decoder.CallOpcodesRoundTrip` | composeApp/src/commonMain/kotlin/com/vicgarci/kgbem/cpu/InstructionDecoder.kt:46-50 | each CALL opcode decodes to a CALL with that opcode |
| `Decoder.RetOpcodesRoundTrip` | composeApp/src/commonMain/kotlin/com/vicgarci/kgbem/cpu/InstructionDecoder.kt:52-56 | each RET opcode decodes to a RET with that opcode |
| `Decoder.JpOpcodesRoundTrip` | composeApp/src/commonMain/kotlin/com/vicgarci/kgbem/cpu/InstructionDecoder.kt:78-82 | each JP opcode decodes to a JP with that opcode |
| `Decoder.KnownOpcodesSplit` | composeApp/src/commonMain/kotlin/com/vicgarci/kgbem/cpu/InstructionDecoder.kt:26-83 | the listed opcodes are exactly the register, stack and condition families |
| `Decoder.NotDecodedIffUnknown` | composeApp/src/commonMain/kotlin/com/vicgarci/kgbem/cpu/InstructionDecoder.kt:84 | an unprefixed opcode decodes to nothing iff it is not one of the listed opcodes |
| `Decoder.EncodeDecode` | composeApp/src/commonMain/kotlin/com/vicgarci/kgbem/cpu/InstructionDecoder.kt:24-86 | every opcode that decodes is the opcode of the instruction it decodes to, so decoding is injective |
| `Decoder.DecodeErrors` | composeApp/src/commonMain/kotlin/com/vicgarci/kgbem/cpu/InstructionDecoder.kt:58-76 | decoding fails with an invalid register exactly for 0x34 and 0x35, whose register field is 110 |
| `Decoder.LdTargetField` | composeApp/src/commonMain/kotlin/com/vicgarci/kgbem/cpu/InstructionDecoder.kt:28-34 | an LD r, d8 opcode names its destination in bits 5-3, as getRegister reads them |
| `Execution.ReadAfterWrite` | composeApp/src/commonMain/kotlin/com/vicgarci/kgbem/cpu/CPU.kt:220-247 | writing a target and reading it back gives the written value; other targets and F are unchanged |
| `Execution.AdcAsWritten` | composeApp/src/commonMain/kotlin/com/vicgarci/kgbem/cpu/CPU.kt:64-82 | ADC as written: only A and F change, and the packed F keeps its low nibble clear (its A and flags are stated by the lemmas below) |
| `Execution.AdcAsWrittenDropsCarries` | composeApp/src/commonMain/kotlin/com/vicgarci/kgbem/cpu/CPU.kt:64-82 | ADC as written gets A right but never reports a carry or a half-carry |
| `Execution.AdcAsWrittenSum` | composeApp/src/commonMain/kotlin/com/vicgarci/kgbem/cpu/CPU.kt:64-74 | ADC as written leaves in A the same byte as the corrected ADC |
| `Execution.AdcAsWrittenFlags` | composeApp/src/commonMain/kotlin/com/vicgarci/kgbem/cpu/CPU.kt:64-82 | ADC as written sets Z only when A, r and the carry are all 0, and clears N, H and C |
| `Execution.WideAddOfBytes` | composeApp/src/commonMain/kotlin/com/vicgarci/kgbem/cpu/CPU.kt:69-72 | the 16-bit overflowAdd of a byte and a byte plus carry gives the exact sum with no carry and no half-carry |
| `Execution.AdcAsWrittenCounterexample` | composeApp/src/commonMain/kotlin/com/vicgarci/kgbem/cpu/CPU.kt:64-82 | with A = 1, D = 0xFF and F = 0, ADC A, D as written gives A = 0 with all flags clear, where the corrected ADC gives A = 0 with Z, H and C set |
| `Execution.AddCarriesOut` | composeApp/src/commonMain/kotlin/com/vicgarci/kgbem/cpu/CPU.kt:31-45 | after ADD, A' + 256·C == A + r; Z iff A' == 0; H from the nibbles; N clear |
| `Execution.AdcCarriesOut` | composeApp/src/commonMain/kotlin/com/vicgarci/kgbem/cpu/CPU.kt:64-82 | after ADC, A' + 256·C' == A + r + C; Z iff A' == 0; H iff the low nibbles and C pass 0xF; N clear |
| `Execution.SubUndoesAdd` | composeApp/src/commonMain/kotlin/com/vicgarci/kgbem/cpu/CPU.kt:84-96 | SUB r after a carry-free ADD r restores A |
| `Execution.SubBorrowsOut` | composeApp/src/commonMain/kotlin/com/vicgarci/kgbem/cpu/CPU.kt:84-96 | with no borrow SUB gives the exact difference, with one it gives 0; N is set |
| `Execution.CpIsSubWithoutResult` | composeApp/src/commonMain/kotlin/com/vicgarci/kgbem/cpu/CPU.kt:132-143 | CP sets exactly the flags SUB sets and keeps A |
| `Execution.IncDecKeepCarry` | composeApp/src/commonMain/kotlin/com/vicgarci/kgbem/cpu/CPU.kt:145-173 | INC and DEC keep C and every other register; N is 0 for INC and 1 for DEC |
| `Execution.IncKeepsCarry` | composeApp/src/commonMain/kotlin/com/vicgarci/kgbem/cpu/CPU.kt:145-157 | INC copies the old flags with only Z, N and H replaced, so C and every register but the target survive; N is 0 |
| `Execution.DecKeepsCarry` | composeApp/src/commonMain/kotlin/com/vicgarci/kgbem/cpu/CPU.kt:159-171 | DEC copies the old flags with only Z, N and H replaced, so C and every register but the target survive; N is 1 |
| `Execution.IncThenDec` | composeApp/src/commonMain/kotlin/com/vicgarci/kgbem/cpu/CPU.kt:145-173 | DEC undoes INC below 0xFF; from 0xFF, INC wraps to 0 and DEC leaves 0 |
| `Execution.DecClampsAtZero` | composeApp/src/commonMain/kotlin/com/vicgarci/kgbem/cpu/CPU.kt:160-173 | DEC of 0 stays 0, setting Z and H |
| `Execution.CcfTwice` | composeApp/src/commonMain/kotlin/com/vicgarci/kgbem/cpu/CPU.kt:175-191 | CCF twice restores C and keeps Z with N and H cleared; SCF sets C and keeps Z; CCF after SCF clears C |
| `Execution.RlaUndoesRra` | composeApp/src/commonMain/kotlin/com/vicgarci/kgbem/cpu/CPU.kt:193-214 | RLA after RRA restores A and all flags |
| `Execution.RraUndoesRla` | composeApp/src/commonMain/kotlin/com/vicgarci/kgbem/cpu/CPU.kt:193-214 | RRA after RLA restores A and all flags |
| `Execution.CplComplements` | composeApp/src/commonMain/kotlin/com/vicgarci/kgbem/cpu/CPU.kt:216-218 | CPL flips every bit of A, and CPL twice restores the registers |
| `Execution.LogicBits` | composeApp/src/commonMain/kotlin/com/vicgarci/kgbem/cpu/CPU.kt:117-130 | each bit of the new A after AND, OR or XOR is the AND, OR or XOR of that bit of A and of the operand |
| `Execution.LogicOnSelf` | composeApp/src/commonMain/kotlin/com/vicgarci/kgbem/cpu/CPU.kt:117-130 | XOR A with itself clears A; AND and OR of A with itself change nothing |
| `Execution.AddHlCarriesOut` | composeApp/src/commonMain/kotlin/com/vicgarci/kgbem/cpu/CPU.kt:47-62 | after ADD HL, HL' + 2^16·C == HL + r, and only H, L and F change |
| `Execution.StepKeepsLowNibbleClear` | composeApp/src/commonMain/kotlin/com/vicgarci/kgbem/cpu/CPU.kt:10-29 | if the low nibble of F is clear before an instruction, it is clear after it |
| `Cpu.CPU.constructor` | composeApp/src/commonMain/kotlin/com/vicgarci/kgbem/cpu/CPU.kt:6-8 | the CPU holds the given registers |
| `Cpu.CPU.Execute` | composeApp/src/commonMain/kotlin/com/vicgarci/kgbem/cpu/CPU.kt:10-29 | executing an instruction leaves the registers the one-step effect describes |
| `Cpu.CPU.Add` | composeApp/src/commonMain/kotlin/com/vicgarci/kgbem/cpu/CPU.kt:31-45 | A := (A + r) mod 256 with Z, N = 0, H and C from overflowAdd |
| `Cpu.CPU.AddHl` | composeApp/src/commonMain/kotlin/com/vicgarci/kgbem/cpu/CPU.kt:47-62 | HL := (HL + r) mod 2^16 with the 16-bit adder's H and C and Z from the new HL |
| `Cpu.CPU.AddC` | composeApp/src/commonMain/kotlin/com/vicgarci/kgbem/cpu/CPU.kt:64-82 | corrected ADC: A := (A + r + C) mod 256; C iff A + r + C > 0xFF; H iff the nibbles and C pass 0xF |
| `Cpu.CPU.Sub` | composeApp/src/commonMain/kotlin/com/vicgarci/kgbem/cpu/CPU.kt:84-96 | A := the clamped difference, with N set and Z, H and C from sub |
| `Cpu.CPU.Sbc` | composeApp/src/commonMain/kotlin/com/vicgarci/kgbem/cpu/CPU.kt:98-115 | A := A minus r + C, clamped, with the flags of sub on the widened subtrahend |
| `Cpu.CPU.And` | composeApp/src/commonMain/kotlin/com/vicgarci/kgbem/cpu/CPU.kt:117-120 | A := A and r; nothing else changes |
| `Cpu.CPU.Or` | composeApp/src/commonMain/kotlin/com/vicgarci/kgbem/cpu/CPU.kt:122-125 | A := A or r; nothing else changes |
| `Cpu.CPU.Xor` | composeApp/src/commonMain/kotlin/com/vicgarci/kgbem/cpu/CPU.kt:127-130 | A := A xor r; nothing else changes |
| `Cpu.CPU.Cp` | composeApp/src/commonMain/kotlin/com/vicgarci/kgbem/cpu/CPU.kt:132-143 | F := the flags of SUB; A is kept |
| `Cpu.CPU.Inc` | composeApp/src/commonMain/kotlin/com/vicgarci/kgbem/cpu/CPU.kt:145-158 | the target wraps up by one; Z, N = 0 and H are set, C is kept |
| `Cpu.CPU.Dec` | composeApp/src/commonMain/kotlin/com/vicgarci/kgbem/cpu/CPU.kt:160-173 | the target goes down by one, clamping at 0; Z, N = 1 and H are set, C is kept |
| `Cpu.CPU.Ccf` | composeApp/src/commonMain/kotlin/com/vicgarci/kgbem/cpu/CPU.kt:175-182 | C is inverted, N and H cleared, Z kept |
| `Cpu.CPU.Scf` | composeApp/src/commonMain/kotlin/com/vicgarci/kgbem/cpu/CPU.kt:184-191 | C is set, N and H cleared, Z kept |
| `Cpu.CPU.Rra` | composeApp/src/commonMain/kotlin/com/vicgarci/kgbem/cpu/CPU.kt:193-203 | the Kotlin masks and shifts compute A := (A >> 1) or (C << 7) and C := A and 1, keeping Z, N and H |
| `Cpu.CPU.Rla` | composeApp/src/commonMain/kotlin/com/vicgarci/kgbem/cpu/CPU.kt:205-214 | the Kotlin masks and shifts compute A := ((A << 1) or C) and 0xFF and C := A >> 7, keeping Z, N and H |
| `Cpu.CPU.Cpl` | composeApp/src/commonMain/kotlin/com/vicgarci/kgbem/cpu/CPU.kt:216-218 | A := 255 - A; nothing else changes |
| `Cpu.CPU.UpdateArithmeticTarget` | composeApp/src/commonMain/kotlin/com/vicgarci/kgbem/cpu/CPU.kt:220-233 | exactly the named register takes the new value |
| `Cpu.AdcResult` | composeApp/src/commonMain/kotlin/com/vicgarci/kgbem/cpu/CPU.kt:64-82 | writing back the two chained 8-bit additions gives exactly the corrected ADC |
| `Cpu.AddHlResult` | composeApp/src/commonMain/kotlin/com/vicgarci/kgbem/cpu/CPU.kt:47-62 | writing back the 16-bit overflowAdd result gives exactly the ADD HL effect |
| `Cpu.BorrowWithCarry` | composeApp/src/commonMain/kotlin/com/vicgarci/kgbem/cpu/CPU.kt:98-115 | the widened subtrahend r + C is not truncated, and sub's value, half-borrow and borrow are the clamped difference and the flags SBC reports |
| `Cpu.RotateRightBits` | composeApp/src/commonMain/kotlin/com/vicgarci/kgbem/cpu/CPU.kt:193-203 | `a and 1` is a mod 2, and `((a ushr 1) or (carry shl 7)) and 0xFF` is a / 2 + 128·carry |
| `Cpu.RotateLeftBits` | composeApp/src/commonMain/kotlin/com/vicgarci/kgbem/cpu/CPU.kt:205-214 | bit 7 of a comes out as 1 iff a >= 0x80, and `((a shl 1) or carry) and 0xFF` is (2a + carry) mod 256 |
| `Cpu.CarryChain` | composeApp/src/commonMain/kotlin/com/vicgarci/kgbem/cpu/CPU.kt:64-82 | two 8-bit adds, of r and then of C, with their carries and half-carries ORed, give the byte sum and flags of A + r + C |

## Left out

- The fetch-decode-execute loop (`step()`), interrupt dispatch, HALT and EI/DI timing have no implementation in the modelled files.
- The execution of LD, PUSH, POP, CALL, RET, RST, JR, JP, DAA, BIT, RES, SET, the shifts and rotates through a register, ADD SP and the LD SP forms is left out. CPU.kt:10-29 handles only the sixteen arithmetic, logic, flag and rotate instructions, and it names no other case.
- Cpu.CPU.Execute: the arithmetic and INC/DEC cases are dispatched only when the operand is an 8-bit register. CPU.kt passes an `ArithmeticTarget`, whose definition is not part of this model. Execute leaves the registers unchanged for ADD HL (whose operand is typed as a register pair) and for memory and immediate operands. ADD HL itself is modelled by `Cpu.CPU.AddHl`, on an 8-bit register as CPU.kt:47-62 types it.
- Operands.MemoryAddress: Operand.kt:45-48 does not say in which order the two immediate bytes of `MemoryAtData16` form the address. The model assumes low byte first, the SM83 order.
- Decoder.DecodeNotPrefixed: InstructionDecoder.kt:28-34 builds a one-argument `Instruction.Ld(ArithmeticTarget.X)` for 0x06, 0x0E, …, 0x3E, but Instruction.kt:255-258 declares only `Ld(source, target)`. The model reads these entries as `Ld(Data8, Reg8(X))`, loading the immediate byte into X, as the opcodes mean on the SM83.
- The prefixed (0xCB) decoding table is empty in the code, so `Decoder.DecodePrefixed` returns nothing for every opcode.
- `Decoder.Encode` is an inverse of the table, written to state the decoder's round trips; it is not a function of the code.
- Memory.MemoryBus.ReadByte, Memory.MemoryBus.WriteByte: the address must lie inside the memory array. Kotlin throws an index exception otherwise, and the model does not model that exception.
- Kotlin `require` failures are modelled as results rather than exceptions: `Instructions.MakeBit`/`MakeRes`/`MakeSet` return `None`, and `Decoder.Decode` returns `InvalidRegister` where `getRegister` calls `error`.
- Registers.kt declares every register `val` and gives `hl` no setter, yet CPU.kt assigns `registers.a`, `registers.f`, `registers.hl` and the target registers. The model takes these assignments at face value. Assigning `hl` stores its high byte in H and its low byte in L (`RegisterFile.Registers.WithHl`).
- `updateArithmeticTarget` takes a lambda that maps the old value to the new one. In the model, the new value is passed directly; every call site ignores the old value.
- Instruction.kt:349-404 repeats the operand declarations of Operand.kt; they are modelled once, in `Operands`.
- The SRA, SLA and SWAP bit functions follow the instruction doc comments (Instruction.kt:208-235). There is no executor code for them.
- FlagsRegister.kt, ArithmeticTarget and the 16-bit `overflowAdd` overload are not part of this model. They are replaced by the stand-ins described above.

## Findings

| source | as written | input that shows it | evidently intended | confidence | as-written member | corrected member |
|---|---|---|---|---|---|---|
| composeApp/src/commonMain/kotlin/com/vicgarci/kgbem/cpu/CPU.kt:64-82 | ADC widens A and r + C to UShort and adds them with the 16-bit overflowAdd. Its carry (bit 15) and half-carry (bit 11) can never be raised by byte operands, and Z tests the untruncated sum. | A = 1, D = 0xFF, F = 0: ADC A, D gives A = 0 with Z, H and C all clear (CPUTest.kt:25-34 expects the carry) | A = (A + r + C) mod 256, with C iff A + r + C > 0xFF, H iff the low nibbles and C pass 0xF, and Z iff the new A is 0 | not executed | `Execution.AdcAsWritten`, `Execution.AdcAsWrittenCounterexample` | `Execution.AdcA`, `Cpu.CPU.AddC` |
