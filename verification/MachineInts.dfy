// The fixed-width integers of the contracts, written out over `int`.
module MachineInts {

  const I128_MAX := 0x7FFF_FFFF_FFFF_FFFF_FFFF_FFFF_FFFF_FFFF

  const I128_MIN := -0x8000_0000_0000_0000_0000_0000_0000_0000

  const U64_MAX := 0xFFFF_FFFF_FFFF_FFFF

  const U32_MAX := 0xFFFF_FFFF

  predicate IsI128(x: int) {
    I128_MIN <= x <= I128_MAX
  }

  /** What the saturating `i128` operations return for the exact result `x`. */
  function Saturate(x: int): (r: int)
    ensures IsI128(r)
    ensures IsI128(x) ==> r == x
  {
    if x > I128_MAX then I128_MAX else if x < I128_MIN then I128_MIN else x
  }

  function SaturateU64(x: nat): nat {
    if x > U64_MAX then U64_MAX else x
  }

  /** Division that truncates toward zero. */
  function TruncDiv(x: int, y: int): int
    requires y != 0
  {
    if x >= 0 then
      if y > 0 then x / y else -(x / -y)
    else
      if y > 0 then -(-x / y) else -x / -y
  }

  /** The quotient `q` of non-negative numbers, pinned down by multiplication. */
  lemma Quotient(x: nat, y: int)
    requires y > 0
    ensures 0 <= TruncDiv(x, y) == x / y
    ensures TruncDiv(x, y) * y <= x < TruncDiv(x, y) * y + y
  {
    assert x == x / y * y + x % y;
  }

  lemma MulMonotone(a: int, b: int, k: nat)
    requires a <= b
    ensures a * k <= b * k
  {
  }

  lemma MulOrder(a: int, b: int, k: nat)
    ensures a <= b ==> a * k <= b * k
  {
    if a <= b {
      MulMonotone(a, b, k);
    }
  }

  /** The limits of the fixed-width integers in decimal. */
  lemma Limits()
    ensures I128_MAX == 170_141_183_460_469_231_731_687_303_715_884_105_727 && I128_MIN == -I128_MAX - 1
    ensures U64_MAX == 18_446_744_073_709_551_615 && U32_MAX == 4_294_967_295
  {
  }
}
