/** The register file (Registers.kt): eight 8-bit registers, read in pairs
    AF, BC, DE and HL as high * 256 + low. */
module RegisterFile {
  import opened Bits

  datatype Registers = Registers(a: Byte, b: Byte, c: Byte, d: Byte, e: Byte, f: Byte, h: Byte, l: Byte)
  {
    function AF(): (r: Word)
      ensures r == a * 0x100 + f
    {
      Virtual16(a, f)
    }

    function BC(): (r: Word)
      ensures r == b * 0x100 + c
    {
      Virtual16(b, c)
    }

    function DE(): (r: Word)
      ensures r == d * 0x100 + e
    {
      Virtual16(d, e)
    }

    function HL(): (r: Word)
      ensures r == h * 0x100 + l
    {
      Virtual16(h, l)
    }

    /** Assign the HL pair: H receives the high byte, L the low byte. */
    function WithHl(value: Word): (r: Registers)
      ensures r.HL() == value
      ensures r.a == a && r.b == b && r.c == c && r.d == d && r.e == e && r.f == f
    {
      this.(h := value / 0x100, l := value % 0x100)
    }
  }

  /** `((left shl 8) or right) and 0xFFFF`. */
  function Virtual16(left: Byte, right: Byte): (r: Word)
    ensures r == left * 0x100 + right
  {
    Pow2Widths();
    OrShifted(left, right, 8);
    AndLowMask(left * 0x100 + right, 16);
    assert (left * 0x100 + right) % 0x1_0000 == left * 0x100 + right;
    And(Or(left * 0x100, right), 0xFFFF)
  }

  /** A pair splits back into its high and low registers. */
  lemma {:induction false} PairSplits(high: Byte, low: Byte)
    ensures Virtual16(high, low) / 0x100 == high
    ensures Virtual16(high, low) % 0x100 == low
  {
  }

  /** Different register contents give different pair values. */
  lemma {:induction false} PairInjective(high: Byte, low: Byte, high': Byte, low': Byte)
    requires Virtual16(high, low) == Virtual16(high', low')
    ensures high == high' && low == low'
  {
    PairSplits(high, low);
    PairSplits(high', low');
  }
}
