/** The stack pointer (StackPointer.kt): a 16-bit address, moved one byte at a
    time with wrap-around. */
module Sp {
  import opened Bits

  /** The starting value when the boot ROM is skipped. */
  const SkipBootRom: Word := 0xFFFE

  /** The address one above `sp`, 0xFFFF going round to 0. */
  function Above(sp: Word): Word
  {
    if sp == 0xFFFF then 0 else sp + 1
  }

  /** The address one below `sp`, 0 going round to 0xFFFF. */
  function Below(sp: Word): Word
  {
    if sp == 0 then 0xFFFF else sp - 1
  }

  /** Moving down then up, or up then down, returns to the same address. */
  lemma AboveBelowInverse(sp: Word)
    ensures Above(Below(sp)) == sp
    ensures Below(Above(sp)) == sp
  {
  }

  class StackPointer {
    var value: Word

    constructor(value: Word)
      ensures this.value == value
    {
      this.value := value;
    }

    /** The stack pointer with its default starting value. */
    constructor Default()
      ensures value == SkipBootRom
    {
      value := SkipBootRom;
    }

    /** The current stack pointer; nothing changes. */
    method Get() returns (current: Word)
      ensures current == value
    {
      current := value;
    }

    /** Return the current address and move one byte up, as a pop does. */
    method GetAndIncrement() returns (current: Word)
      modifies this
      ensures current == old(value)
      ensures value == Above(old(value))
    {
      current := value;
      value := ToUShort(value + 1);
    }

    /** Move one byte down and return the new address, as a push does. */
    method DecrementAndGet() returns (current: Word)
      modifies this
      ensures value == Below(old(value))
      ensures current == value
    {
      value := ToUShort(value - 1);
      current := value;
    }

    /** Point the stack at `address`. */
    method SetTo(address: Word)
      modifies this
      ensures value == address
    {
      value := address;
    }
  }

  /** A push followed by a pop hands back the pushed-to address and restores the pointer. */
  method PushThenPop(sp: StackPointer) returns (pushed: Word, popped: Word)
    modifies sp
    ensures pushed == popped == Below(old(sp.value))
    ensures sp.value == old(sp.value)
  {
    pushed := sp.DecrementAndGet();
    popped := sp.GetAndIncrement();
  }
}
