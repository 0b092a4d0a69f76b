/** The program counter (ProgramCounter.kt): a 16-bit address, advanced with
    wrap-around past 0xFFFF. */
module Pc {
  import opened Bits

  /** The address `stepSize` bytes on from `pc`, going round the 64 KiB space:
      past 0xFFFF for a forward step, below 0 for a backward one. */
  function Advance(pc: Word, stepSize: int): (r: Word)
    decreases if pc + stepSize < 0 then 0x1_0000 - (pc + stepSize) else pc + stepSize
  {
    if 0 <= pc + stepSize < 0x1_0000 then pc + stepSize
    else if pc + stepSize < 0 then Advance(pc, stepSize + 0x1_0000)
    else Advance(pc, stepSize - 0x1_0000)
  }

  /** Advance is addition modulo 2^16. */
  lemma {:induction false} AdvanceIsModular(pc: Word, stepSize: int)
    ensures Advance(pc, stepSize) == (pc + stepSize) % 0x1_0000
    decreases if pc + stepSize < 0 then 0x1_0000 - (pc + stepSize) else pc + stepSize
  {
    if 0 <= pc + stepSize < 0x1_0000 {
    } else if pc + stepSize < 0 {
      AdvanceIsModular(pc, stepSize + 0x1_0000);
      ModUnique(pc + stepSize, 0x1_0000, (pc + stepSize + 0x1_0000) / 0x1_0000 - 1, (pc + stepSize + 0x1_0000) % 0x1_0000);
    } else {
      AdvanceIsModular(pc, stepSize - 0x1_0000);
      ModUnique(pc + stepSize, 0x1_0000, (pc + stepSize - 0x1_0000) / 0x1_0000 + 1, (pc + stepSize - 0x1_0000) % 0x1_0000);
    }
  }

  /** The next address after 0xFFFF is 0. */
  lemma AdvanceWraps()
    ensures Advance(0xFFFF, 1) == 0
  {
  }

  /** Stepping back by the same amount returns to the starting address. */
  lemma {:induction false} AdvanceUndone(pc: Word, stepSize: int)
    ensures Advance(Advance(pc, stepSize), -stepSize) == pc
  {
    var q := Advance(pc, stepSize);
    AdvanceIsModular(pc, stepSize);
    AdvanceIsModular(q, -stepSize);
    var k := (pc + stepSize) / 0x1_0000;
    assert q == pc + stepSize - 0x1_0000 * k;
    ModUnique(q - stepSize, 0x1_0000, -k, pc);
  }

  class ProgramCounter {
    var value: Word

    constructor(value: Word)
      ensures this.value == value
    {
      this.value := value;
    }

    /** Return the current address and move on to the next one. */
    method GetAndIncrement() returns (current: Word)
      modifies this
      ensures current == old(value)
      ensures value == Advance(old(value), 1)
    {
      current := value;
      IncreaseBy(1);
    }

    /** Jump to `address`. */
    method SetTo(address: Word)
      modifies this
      ensures value == address
    {
      value := address;
    }

    /** Move by `stepSize` bytes, which may be negative. The sum is formed as a
        32-bit Int and then truncated to 16 bits. */
    method IncreaseBy(stepSize: Int32)
      modifies this
      ensures value == Advance(old(value), stepSize)
    {
      AdvanceIsModular(value, stepSize);
      Int32WrapKeepsLowBits(value + stepSize);
      value := ToUShort(WrapInt32(value + stepSize));
    }
  }
}
