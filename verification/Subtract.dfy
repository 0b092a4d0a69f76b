/** Subtraction reporting borrow and half-borrow (Subtract.kt). The result
    does not wrap: when the subtrahend is at least the minuend the value is 0
    and a borrow is reported, equal operands included. */
module Subtraction {
  import opened Bits
  import Addition

  datatype SubtractResult = SubtractResult(value: Word, halfBorrow: bool, borrow: bool)

  /** The 16-bit overload, which the 8-bit one delegates to. */
  function Sub(first: Word, second: Word): (r: SubtractResult)
    ensures r.borrow <==> second >= first
    ensures !r.borrow ==> r.value + second == first
    ensures r.borrow ==> r.value == 0
    ensures r.halfBorrow <==> first % 16 < second % 16
    ensures r.value <= first
  {
    var value := if second >= first then 0 else first - second;
    AndLowNibble(first);
    AndLowNibble(second);
    SubtractResult(value, And(first, 0x0F) < And(second, 0x0F), second >= first)
  }

  /** The 8-bit overload: the operands are widened to 16 bits. */
  function SubBytes(first: Byte, second: Byte): (r: SubtractResult)
    ensures r.value < 0x100
    ensures r.borrow <==> second >= first
    ensures r.value == if first > second then first - second else 0
    ensures r.halfBorrow <==> first % 16 < second % 16
  {
    Sub(first, second)
  }

  /** Subtracting the second addend from an uncarried sum gives back the first
      addend; a borrow is still reported exactly when that addend is 0, since
      equal operands count as a borrow. */
  lemma SubUndoesAdd(first: Byte, second: Byte)
    requires first + second <= 0xFF
    ensures SubBytes(Addition.OverflowAdd(first, second).sum, second).value == first
    ensures SubBytes(Addition.OverflowAdd(first, second).sum, second).borrow <==> first == 0
  {
  }

  /** The value clamps at zero instead of wrapping around. */
  lemma SubClampsAtZero(first: Word, second: Word)
    requires first <= second
    ensures Sub(first, second) == SubtractResult(0, first % 16 < second % 16, true)
  {
  }
}
