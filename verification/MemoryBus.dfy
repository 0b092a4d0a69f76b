/** The memory bus (MemoryBus.kt): a byte array covering the address space,
    holding the interrupt request register IF at 0xFF0F and the interrupt
    enable register IE at 0xFFFF. */
module Memory {
  import opened Bits

  /** Address of the interrupt request register IF. */
  const InterruptFlagsAddress: Word := 0xFF0F
  /** Address of the interrupt enable register IE. */
  const InterruptEnableAddress: Word := 0xFFFF
  /** Number of interrupt sources: V-Blank, LCD STAT, Timer, Serial and Joypad in bits 0-4. */
  const InterruptSources: nat := 5

  /** The interrupts both enabled and requested: `enable and flags and 0x1F`. */
  function PendingMask(enable: Byte, flags: Byte): (m: Byte)
    ensures m < 0x20
    ensures forall k: nat :: TestBit(m, k) <==> k < InterruptSources && TestBit(enable, k) && TestBit(flags, k)
  {
    PendingMaskBits(enable, flags);
    AndAtMost(And(enable, flags), 0x1F);
    And(And(enable, flags), 0x1F)
  }

  lemma PendingMaskBits(enable: Byte, flags: Byte)
    ensures forall k: nat :: TestBit(And(And(enable, flags), 0x1F), k) <==> k < 5 && TestBit(enable, k) && TestBit(flags, k)
  {
    assert Pow2(5) == 0x20;
    forall k: nat
      ensures TestBit(And(And(enable, flags), 0x1F), k) <==> k < 5 && TestBit(enable, k) && TestBit(flags, k)
    {
      CombineBit(AndOp, And(enable, flags), 0x1F, k);
      CombineBit(AndOp, enable, flags, k);
      if k < 5 {
        LowOnes(5, k);
      } else {
        HighBitsClear(0x1F, 5, k);
      }
    }
  }

  /** Some interrupt is pending exactly when one source is both enabled and requested. */
  lemma PendingIffSomeSource(enable: Byte, flags: Byte)
    ensures PendingMask(enable, flags) != 0 <==>
      exists k :: 0 <= k < InterruptSources && TestBit(enable, k) && TestBit(flags, k)
  {
    var m := PendingMask(enable, flags);
    if m != 0 {
      assert Pow2(5) == 0x20;
      var k := SomeBit(m, 5);
      assert k < InterruptSources && TestBit(enable, k) && TestBit(flags, k);
      assert exists j :: 0 <= j < InterruptSources && TestBit(enable, j) && TestBit(flags, j);
    } else {
      forall k | 0 <= k < InterruptSources
        ensures !(TestBit(enable, k) && TestBit(flags, k))
      {
        ZeroHasNoBits(k);
        assert !TestBit(m, k);
      }
      assert !exists j :: 0 <= j < InterruptSources && TestBit(enable, j) && TestBit(flags, j);
    }
  }

  /** A nonzero value below 2^n has one of its n low bits set. */
  lemma SomeBit(x: nat, n: nat) returns (k: nat)
    requires 0 < x < Pow2(n)
    ensures k < n && TestBit(x, k)
  {
    if forall j :: 0 <= j < n ==> !TestBit(x, j) {
      forall j | 0 <= j < n
        ensures TestBit(x, j) == TestBit(0, j)
      {
        ZeroHasNoBits(j);
      }
      BitsDetermine(x, 0, n);
      assert false;
    }
    k :| 0 <= k < n && TestBit(x, k);
  }

  /** Kotlin's `setBit` on a byte, before truncation: `x or (1 shl shift)` to
      set, `x and (1 shl shift).inv()` to clear, as 32-bit patterns. */
  function SetOrClear(x: Byte, shift: nat, value: bool): (r: nat)
    requires shift < 32
    ensures r < 0x1_0000_0000
  {
    Pow2Below32(shift);
    Pow2Widths();
    var mask := Pow2(shift);
    CombineBound(OrOp, x, mask, 32);
    CombineBound(AndOp, x, 0xFFFF_FFFF - mask, 32);
    if value then Or(x, mask) else And(x, 0xFFFF_FFFF - mask)
  }

  /** Kotlin's `setBit` on a byte, truncated back to a byte. The shift
      distance is taken modulo 32, so a position of 8 or more (or a negative
      one) leaves the byte as it was. */
  function BitUpdated(x: Byte, bitPosition: Int32, value: bool): (r: Byte)
    ensures forall k: nat :: k < 8 ==> TestBit(r, k) == if k == bitPosition % 32 then value else TestBit(x, k)
    ensures bitPosition % 32 >= 8 ==> r == x
  {
    BitUpdatedBits(x, bitPosition % 32, value);
    ToUByte(SetOrClear(x, bitPosition % 32, value))
  }

  lemma BitUpdatedBits(x: Byte, shift: nat, value: bool)
    requires shift < 32
    ensures forall k: nat :: k < 8 ==>
      TestBit(ToUByte(SetOrClear(x, shift, value)), k) == if k == shift then value else TestBit(x, k)
    ensures shift >= 8 ==> ToUByte(SetOrClear(x, shift, value)) == x
  {
    var r := ToUByte(SetOrClear(x, shift, value));
    forall k: nat | k < 8
      ensures TestBit(r, k) == if k == shift then value else TestBit(x, k)
    {
      BitUpdatedBit(x, shift, value, k);
    }
    if shift >= 8 {
      BitsDetermine(r, x, 8);
    }
  }

  /** Bit k of the truncated result is the new value at the shifted
      position and the old bit everywhere else. */
  lemma BitUpdatedBit(x: Byte, shift: nat, value: bool, k: nat)
    requires shift < 32 && k < 8
    ensures TestBit(ToUByte(SetOrClear(x, shift, value)), k) == if k == shift then value else TestBit(x, k)
  {
    Pow2Widths();
    Pow2Below32(shift);
    var mask := Pow2(shift);
    ModKeepsLowBits(SetOrClear(x, shift, value), 8, k);
    TestBitPow2(shift, k);
    if value {
      CombineBit(OrOp, x, mask, k);
    } else {
      CombineBit(AndOp, x, 0xFFFF_FFFF - mask, k);
      ComplementBits(mask, 32, k);
    }
  }

  class MemoryBus {
    const memory: array<Byte>

    constructor(memory: array<Byte>)
      ensures this.memory == memory
    {
      this.memory := memory;
    }

    /** The default bus: 0x10000 bytes, all zero. */
    constructor Default()
      ensures memory.Length == 0x1_0000
      ensures forall i :: 0 <= i < memory.Length ==> memory[i] == 0
    {
      memory := new Byte[0x1_0000](_ => 0);
    }

    /** The byte stored at `address`; the address must lie inside the array. */
    function ReadByte(address: Word): (v: Byte)
      reads memory
      requires address < memory.Length
      ensures v == memory[address]
    {
      memory[address]
    }

    /** Store `value` at `address`, leaving every other byte as it was. */
    method WriteByte(address: Word, value: Byte)
      modifies memory
      requires address < memory.Length
      ensures ReadByte(address) == value
      ensures forall i :: 0 <= i < memory.Length && i != address ==> memory[i] == old(memory[i])
    {
      memory[address] := value;
    }

    /** The interrupts that are both enabled (IE) and requested (IF). */
    function InterruptPendingMask(): (m: Byte)
      reads memory
      requires InterruptEnableAddress < memory.Length
      ensures m < 0x20
      ensures forall k: nat :: TestBit(m, k) <==>
        k < InterruptSources && TestBit(memory[InterruptEnableAddress], k) && TestBit(memory[InterruptFlagsAddress], k)
    {
      PendingMask(ReadByte(InterruptEnableAddress), ReadByte(InterruptFlagsAddress))
    }

    /** Some interrupt source is both enabled and requested. */
    predicate AnyInterruptPending()
      reads memory
      requires InterruptEnableAddress < memory.Length
      ensures AnyInterruptPending() <==>
        exists k :: 0 <= k < InterruptSources && TestBit(memory[InterruptEnableAddress], k) && TestBit(memory[InterruptFlagsAddress], k)
    {
      PendingIffSomeSource(memory[InterruptEnableAddress], memory[InterruptFlagsAddress]);
      InterruptPendingMask() != 0
    }

    /** Set or clear bit `bitPosition` of IF. */
    method SetInterruptFlagBit(bitPosition: Int32, value: bool)
      modifies memory
      requires InterruptEnableAddress < memory.Length
      ensures memory[InterruptFlagsAddress] == BitUpdated(old(memory[InterruptFlagsAddress]), bitPosition, value)
      ensures forall i :: 0 <= i < memory.Length && i != InterruptFlagsAddress ==> memory[i] == old(memory[i])
    {
      SetBit(InterruptFlagsAddress, bitPosition, value);
    }

    /** Set or clear bit `bitPosition` of IE. */
    method SetInterruptEnableBit(bitPosition: Int32, value: bool)
      modifies memory
      requires InterruptEnableAddress < memory.Length
      ensures memory[InterruptEnableAddress] == BitUpdated(old(memory[InterruptEnableAddress]), bitPosition, value)
      ensures forall i :: 0 <= i < memory.Length && i != InterruptEnableAddress ==> memory[i] == old(memory[i])
    {
      SetBit(InterruptEnableAddress, bitPosition, value);
    }

    /** Read the byte at `address`, set or clear one bit of it, write it back. */
    method SetBit(address: Word, bitPosition: Int32, value: bool)
      modifies memory
      requires address < memory.Length
      ensures memory[address] == BitUpdated(old(memory[address]), bitPosition, value)
      ensures forall i :: 0 <= i < memory.Length && i != address ==> memory[i] == old(memory[i])
    {
      var currentValue := ReadByte(address);
      WriteByte(address, BitUpdated(currentValue, bitPosition, value));
    }
  }
}
