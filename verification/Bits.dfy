/** Unsigned machine values and the bitwise operators Kotlin applies to them.
    Bit patterns are natural numbers; AND, OR and XOR are defined one bit at a
    time, from the least significant bit upwards, and the lemmas below connect
    them to ordinary arithmetic. */
module Bits {

  /** Kotlin's UByte. */
  type Byte = x: int | 0 <= x < 0x100

  /** Kotlin's UShort. */
  type Word = x: int | 0 <= x < 0x1_0000

  /** Kotlin's Int (32-bit two's complement). */
  type Int32 = x: int | -0x8000_0000 <= x < 0x8000_0000

  /** Kotlin's `Int.toUShort()`: keep the low 16 bits (for a negative value, of its two's complement). */
  function ToUShort(x: int): Word
  {
    x % 0x1_0000
  }

  /** Kotlin's `Int.toUByte()`: keep the low 8 bits. */
  function ToUByte(x: int): Byte
  {
    x % 0x100
  }

  function Pow2(n: nat): (r: nat)
    ensures r >= 1
  {
    if n == 0 then 1 else 2 * Pow2(n - 1)
  }

  /** Bit k of x, bit 0 being the least significant. */
  predicate TestBit(x: nat, k: nat)
  {
    if k == 0 then x % 2 == 1 else TestBit(x / 2, k - 1)
  }

  datatype BitOp = AndOp | OrOp | XorOp

  predicate Apply(op: BitOp, p: bool, q: bool)
  {
    match op
    case AndOp => p && q
    case OrOp => p || q
    case XorOp => p != q
  }

  /** Combine two bit patterns bit by bit with `op`. */
  function Combine(op: BitOp, x: nat, y: nat): nat
    decreases x + y
  {
    if x == 0 && y == 0 then 0
    else 2 * Combine(op, x / 2, y / 2) + (if Apply(op, x % 2 == 1, y % 2 == 1) then 1 else 0)
  }

  function And(x: nat, y: nat): nat { Combine(AndOp, x, y) }

  function Or(x: nat, y: nat): nat { Combine(OrOp, x, y) }

  function Xor(x: nat, y: nat): nat { Combine(XorOp, x, y) }

  lemma {:induction false} TestBitStep(q: nat, b: nat, k: nat)
    requires b < 2
    ensures TestBit(2 * q + b, 0) == (b == 1)
    ensures TestBit(2 * q + b, k + 1) == TestBit(q, k)
  {
    assert (2 * q + b) / 2 == q;
  }

  /** Bit k of a combination is `op` applied to bit k of each operand. */
  lemma {:induction false} CombineBit(op: BitOp, x: nat, y: nat, k: nat)
    ensures TestBit(Combine(op, x, y), k) == Apply(op, TestBit(x, k), TestBit(y, k))
    decreases x + y
  {
    if x == 0 && y == 0 {
      ZeroHasNoBits(k);
    } else {
      var b := if Apply(op, x % 2 == 1, y % 2 == 1) then 1 else 0;
      TestBitStep(Combine(op, x / 2, y / 2), b, if k == 0 then 0 else k - 1);
      TestBitStep(x / 2, x % 2, if k == 0 then 0 else k - 1);
      TestBitStep(y / 2, y % 2, if k == 0 then 0 else k - 1);
      if k > 0 {
        CombineBit(op, x / 2, y / 2, k - 1);
      }
    }
  }

  lemma {:induction false} ZeroHasNoBits(k: nat)
    ensures !TestBit(0, k)
  {
    if k > 0 {
      ZeroHasNoBits(k - 1);
    }
  }

  /** No bit at or above position n is set in a value below 2^n. */
  lemma {:induction false} HighBitsClear(x: nat, n: nat, k: nat)
    requires x < Pow2(n) && n <= k
    ensures !TestBit(x, k)
  {
    if n == 0 {
      ZeroHasNoBits(k);
    } else {
      HighBitsClear(x / 2, n - 1, k - 1);
    }
  }

  /** Two values below 2^n with the same n low bits are equal. */
  lemma {:induction false} BitsDetermine(x: nat, y: nat, n: nat)
    requires x < Pow2(n) && y < Pow2(n)
    requires forall k :: 0 <= k < n ==> TestBit(x, k) == TestBit(y, k)
    ensures x == y
  {
    if n > 0 {
      forall k | 0 <= k < n - 1
        ensures TestBit(x / 2, k) == TestBit(y / 2, k)
      {
        assert TestBit(x, k + 1) == TestBit(y, k + 1);
      }
      BitsDetermine(x / 2, y / 2, n - 1);
      assert TestBit(x, 0) == TestBit(y, 0);
    }
  }

  /** A combination of two values below 2^n stays below 2^n. */
  lemma {:induction false} CombineBound(op: BitOp, x: nat, y: nat, n: nat)
    requires x < Pow2(n) && y < Pow2(n)
    ensures Combine(op, x, y) < Pow2(n)
  {
    if n == 0 {
    } else if x == 0 && y == 0 {
    } else {
      CombineBound(op, x / 2, y / 2, n - 1);
    }
  }

  /** AND never sets a bit that is clear in its second operand, so it is at most that operand. */
  lemma {:induction false} AndAtMost(x: nat, y: nat)
    ensures And(x, y) <= y
    decreases x + y
  {
    if x == 0 && y == 0 {
    } else {
      AndAtMost(x / 2, y / 2);
    }
  }

  /** Masking with 2^n - 1 keeps the n low bits: `x and 0xF` is `x % 16`. */
  lemma {:induction false} AndLowMask(x: nat, n: nat)
    ensures And(x, Pow2(n) - 1) == x % Pow2(n)
  {
    var m := Pow2(n) - 1;
    AndAtMost(x, m);
    forall k | 0 <= k < n
      ensures TestBit(And(x, m), k) == TestBit(x % Pow2(n), k)
    {
      CombineBit(AndOp, x, m, k);
      LowOnes(n, k);
      ModKeepsLowBits(x, n, k);
    }
    BitsDetermine(And(x, m), x % Pow2(n), n);
  }

  /** A sum of two bytes wraps at most once. */
  lemma ByteSumWraps(x: int)
    requires 0 <= x < 0x200
    ensures x % 0x100 == if x > 0xFF then x - 0x100 else x
  {
    if x > 0xFF {
      ModUnique(x, 0x100, 1, x - 0x100);
    } else {
      ModUnique(x, 0x100, 0, x);
    }
  }

  /** A sum of two words wraps at most once. */
  lemma WordSumWraps(x: int)
    requires 0 <= x < 0x2_0000
    ensures x % 0x1_0000 == if x > 0xFFFF then x - 0x1_0000 else x
  {
    if x > 0xFFFF {
      ModUnique(x, 0x1_0000, 1, x - 0x1_0000);
    } else {
      ModUnique(x, 0x1_0000, 0, x);
    }
  }

  /** `x and 0xF` is the low nibble of x. */
  lemma AndLowNibble(x: nat)
    ensures And(x, 0xF) == x % 0x10
  {
    AndLowMask(x, 4);
    assert Pow2(4) == 0x10;
  }

  /** `x and 0xFF` is the low byte of x. */
  lemma AndLowByte(x: nat)
    ensures And(x, 0xFF) == x % 0x100
  {
    AndLowMask(x, 8);
    Pow2Widths();
  }

  /** `x and 0xFFF` is the low 12 bits of x. */
  lemma AndLowTwelveBits(x: nat)
    ensures And(x, 0xFFF) == x % 0x1000
  {
    AndLowMask(x, 12);
    assert Pow2(12) == 0x1000;
  }

  /** 2^n - 1 has its n low bits set. */
  lemma {:induction false} LowOnes(n: nat, k: nat)
    requires k < n
    ensures TestBit(Pow2(n) - 1, k)
  {
    var m := Pow2(n) - 1;
    assert m == 2 * (Pow2(n - 1) - 1) + 1;
    TestBitStep(Pow2(n - 1) - 1, 1, if k == 0 then 0 else k - 1);
    if k > 0 {
      LowOnes(n - 1, k - 1);
    }
  }

  /** Reducing modulo 2^n keeps the bits below n. */
  lemma {:induction false} ModKeepsLowBits(x: nat, n: nat, k: nat)
    requires k < n
    ensures TestBit(x % Pow2(n), k) == TestBit(x, k)
  {
    var p := Pow2(n - 1);
    assert Pow2(n) == 2 * p;
    var r := x % Pow2(n);
    // x = 2 * (x / 2) + x % 2, and r = 2 * ((x / 2) % p) + x % 2
    assert r == 2 * ((x / 2) % p) + x % 2 by {
      DivModHalf(x, p);
    }
    TestBitStep((x / 2) % p, x % 2, if k == 0 then 0 else k - 1);
    TestBitStep(x / 2, x % 2, if k == 0 then 0 else k - 1);
    if k > 0 {
      ModKeepsLowBits(x / 2, n - 1, k - 1);
    }
  }

  lemma DivModHalf(x: nat, p: nat)
    requires p >= 1
    ensures x % (2 * p) == 2 * ((x / 2) % p) + x % 2
  {
    var q := (x / 2) / p;
    var s := (x / 2) % p;
    assert x / 2 == p * q + s;
    assert x == (2 * p) * q + (2 * s + x % 2);
    ModUnique(x, 2 * p, q, 2 * s + x % 2);
  }

  /** Quotient and remainder are determined by any decomposition x == d * q + r with 0 <= r < d. */
  lemma ModUnique(x: int, d: int, q: int, r: int)
    requires d > 0 && x == d * q + r && 0 <= r < d
    ensures x % d == r && x / d == q
  {
    var q' := x / d;
    var r' := x % d;
    assert x == d * q' + r';
    var k := q - q';
    assert d * k == r' - r by {
      assert d * q - d * q' == d * (q - q');
    }
    if k >= 1 {
      MulAtLeast(d, k);
    } else if k <= -1 {
      MulAtLeast(d, -k);
    }
  }

  /** Dividing by 2 and then by p is dividing by 2 * p. */
  lemma DivDivHalf(x: nat, p: nat)
    requires p >= 1
    ensures (x / 2) / p == x / (2 * p)
  {
    var q := (x / 2) / p;
    var s := (x / 2) % p;
    assert x / 2 == p * q + s;
    assert x == (2 * p) * q + (2 * s + x % 2);
    ModUnique(x, 2 * p, q, 2 * s + x % 2);
  }

  /** Bit k of x is the parity of x / 2^k. */
  lemma {:induction false} TestBitClosedForm(x: nat, k: nat)
    ensures TestBit(x, k) == ((x / Pow2(k)) % 2 == 1)
  {
    if k > 0 {
      TestBitClosedForm(x / 2, k - 1);
      DivDivHalf(x, Pow2(k - 1));
    }
  }

  lemma MulAtLeast(d: int, k: int)
    requires d > 0 && k >= 1
    ensures d * k >= d
  {
  }

  /** 2^n has exactly bit n set. */
  lemma {:induction false} TestBitPow2(n: nat, k: nat)
    ensures TestBit(Pow2(n), k) == (k == n)
  {
    if n == 0 {
      TestBitStep(0, 1, if k == 0 then 0 else k - 1);
      if k > 0 {
        ZeroHasNoBits(k - 1);
      }
    } else {
      TestBitStep(Pow2(n - 1), 0, if k == 0 then 0 else k - 1);
      if k > 0 {
        TestBitPow2(n - 1, k - 1);
      }
    }
  }

  /** Below 2^n, `x` and its n-bit complement `2^n - 1 - x` differ in every bit. */
  lemma {:induction false} ComplementBits(x: nat, n: nat, k: nat)
    requires x < Pow2(n) && k < n
    ensures TestBit(Pow2(n) - 1 - x, k) == !TestBit(x, k)
  {
    var p := Pow2(n - 1);
    var c := Pow2(n) - 1 - x;
    assert c == 2 * (p - 1 - x / 2) + (1 - x % 2);
    TestBitStep(p - 1 - x / 2, 1 - x % 2, if k == 0 then 0 else k - 1);
    TestBitStep(x / 2, x % 2, if k == 0 then 0 else k - 1);
    if k > 0 {
      ComplementBits(x / 2, n - 1, k - 1);
    }
  }

  /** OR-ing a value shifted left by n with a value below 2^n is addition:
      `(high shl n) or low == high * 2^n + low`. */
  lemma {:induction false} OrShifted(high: nat, low: nat, n: nat)
    requires low < Pow2(n)
    ensures Or(high * Pow2(n), low) == high * Pow2(n) + low
  {
    var x := high * Pow2(n);
    var s := x + low;
    var p := Pow2(n);
    forall k | 0 <= k
      ensures TestBit(Or(x, low), k) == TestBit(s, k)
    {
      CombineBit(OrOp, x, low, k);
      ShiftedSumBit(high, low, n, k);
    }
    OrBound(x, low, s);
    BitsDetermine(Or(x, low), s, BoundExponent(s + 1));
  }

  /** Bits of `high * 2^n + low` with low below 2^n: the low part below n, the high part from n. */
  lemma {:induction false} ShiftedSumBit(high: nat, low: nat, n: nat, k: nat)
    requires low < Pow2(n)
    ensures TestBit(high * Pow2(n) + low, k) == (TestBit(high * Pow2(n), k) || TestBit(low, k))
    ensures k < n ==> !TestBit(high * Pow2(n), k)
    ensures n <= k ==> !TestBit(low, k)
  {
    if n <= k {
      HighBitsClear(low, n, k);
    }
    if n == 0 {
    } else {
      var p := Pow2(n - 1);
      assert high * Pow2(n) == 2 * (high * p);
      var s := high * Pow2(n) + low;
      assert s == 2 * (high * p + low / 2) + low % 2;
      TestBitStep(high * p + low / 2, low % 2, if k == 0 then 0 else k - 1);
      TestBitStep(high * p, 0, if k == 0 then 0 else k - 1);
      TestBitStep(low / 2, low % 2, if k == 0 then 0 else k - 1);
      if k > 0 {
        ShiftedSumBit(high, low / 2, n - 1, k - 1);
      }
    }
  }

  /** An exponent e with x < 2^e. */
  function BoundExponent(x: nat): (e: nat)
    ensures x <= Pow2(e)
  {
    if x <= 1 then 0 else BoundExponent((x + 1) / 2) + 1
  }

  /** OR of two values is below any power of two that bounds their sum. */
  lemma OrBound(x: nat, y: nat, s: nat)
    requires s == x + y
    ensures Or(x, y) < Pow2(BoundExponent(s + 1))
    ensures s < Pow2(BoundExponent(s + 1))
  {
    var e := BoundExponent(s + 1);
    MonotoneBelow(x, s + 1, e);
    MonotoneBelow(y, s + 1, e);
    CombineBound(OrOp, x, y, e);
  }

  lemma MonotoneBelow(x: nat, bound: nat, e: nat)
    requires x < bound <= Pow2(e)
    ensures x < Pow2(e)
  {
  }

  /** Powers of two grow strictly. */
  lemma {:induction false} Pow2Increasing(m: nat, n: nat)
    requires m < n
    ensures Pow2(m) < Pow2(n)
  {
    if m + 1 < n {
      Pow2Increasing(m, n - 1);
    }
  }

  /** Kotlin's 32-bit `Int` addition: the exact sum wrapped into the two's complement range. */
  function WrapInt32(x: int): (r: Int32)
    ensures (r - x) % 0x1_0000_0000 == 0
  {
    (x + 0x8000_0000) % 0x1_0000_0000 - 0x8000_0000
  }

  /** Wrapping to 32 bits does not disturb the low 16 bits. */
  lemma Int32WrapKeepsLowBits(x: int)
    ensures ToUShort(WrapInt32(x)) == ToUShort(x)
  {
    var r := WrapInt32(x);
    var k := (r - x) / 0x1_0000_0000;
    assert r == x + 0x1_0000 * (0x1_0000 * k);
    ModUnique(r, 0x1_0000, x / 0x1_0000 + 0x1_0000 * k, x % 0x1_0000);
  }

  /** Exponents add when powers of two multiply. */
  lemma {:induction false} Pow2Add(m: nat, n: nat)
    ensures Pow2(m + n) == Pow2(m) * Pow2(n)
  {
    if n > 0 {
      Pow2Add(m, n - 1);
    }
  }

  /** The powers of two that name the byte, word and 32-bit Int widths. */
  lemma Pow2Widths()
    ensures Pow2(8) == 0x100 && Pow2(16) == 0x1_0000 && Pow2(32) == 0x1_0000_0000
  {
    assert Pow2(4) == 0x10;
    Pow2Add(4, 4);
    Pow2Add(8, 8);
    Pow2Add(16, 16);
  }

  /** A single bit of a 32-bit Int lies below 2^32. */
  lemma Pow2Below32(shift: nat)
    requires shift < 32
    ensures Pow2(shift) < 0x1_0000_0000
  {
    Pow2Widths();
    Pow2Increasing(shift, 32);
  }

  /** AND, OR and XOR do not depend on the order of their operands. */
  lemma {:induction false} CombineCommutes(op: BitOp, x: nat, y: nat)
    ensures Combine(op, x, y) == Combine(op, y, x)
    decreases x + y
  {
    if !(x == 0 && y == 0) {
      CombineCommutes(op, x / 2, y / 2);
    }
  }

  /** Masking with a single bit keeps that bit and nothing else. */
  lemma AndSingleBit(x: nat, n: nat)
    ensures And(x, Pow2(n)) == if TestBit(x, n) then Pow2(n) else 0
  {
    var lhs := And(x, Pow2(n));
    var rhs := if TestBit(x, n) then Pow2(n) else 0;
    AndAtMost(x, Pow2(n));
    Pow2Increasing(n, n + 1);
    forall k | 0 <= k < n + 1
      ensures TestBit(lhs, k) == TestBit(rhs, k)
    {
      CombineBit(AndOp, x, Pow2(n), k);
      TestBitPow2(n, k);
      ZeroHasNoBits(k);
    }
    BitsDetermine(lhs, rhs, n + 1);
  }
}
