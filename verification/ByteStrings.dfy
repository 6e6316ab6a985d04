// Byte strings, and the powers of two that shifts multiply by.
module ByteStrings {

  type Byte = b: int | 0 <= b < 256

  type Bytes = seq<Byte>

  function Pow2(n: nat): (p: nat)
    ensures p > 0
  {
    if n == 0 then 1 else 2 * Pow2(n - 1)
  }
}
