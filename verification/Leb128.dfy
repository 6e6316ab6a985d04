// Unsigned LEB128 integers (section 5.2.2 of the WebAssembly Core Specification 1.0).
module Leb128 {
  import opened Options
  import opened ByteStrings

  /** `result | (low << shift)`, which adds because `result` has no bit at `shift` or above. */
  function OrShifted(result: nat, low: nat, shift: nat): nat
    requires result < Pow2(shift)
  {
    result + low * Pow2(shift)
  }

  /** `bytes` is an encoding of `n`, minimal or padded. */
  ghost predicate Encodes(bytes: seq<Byte>, n: nat)
    decreases |bytes|
  {
    if |bytes| == 0 then false
    else if |bytes| == 1 then bytes[0] < 128 && n == bytes[0]
    else bytes[0] >= 128 && n % 128 == bytes[0] - 128 && Encodes(bytes[1..], n / 128)
  }

  /** The value at `pos` and the number of bytes it takes, unless the data ends first. */
  function Decode(data: seq<Byte>, pos: nat): (r: Option<(nat, nat)>)
    ensures r.Some? ==> r.value.1 > 0 && pos + r.value.1 <= |data|
    decreases |data| - pos
  {
    if pos >= |data| then None
    else if data[pos] < 128 then Some((data[pos], 1))
    else match Decode(data, pos + 1)
      case None => None
      case Some((v, k)) => Some((data[pos] - 128 + 128 * v, k + 1))
  }

  /** What a read comes to once the groups still to be read are known. */
  function Resume(rest: Option<(nat, nat)>, result: nat, weight: nat, consumed: nat): Option<(nat, nat)> {
    match rest
    case None => None
    case Some((v, k)) => Some((result + weight * v, consumed + k))
  }

  lemma ResumeStep(data: seq<Byte>, at: nat, result: nat, weight: nat, consumed: nat)
    requires at < |data|
    ensures Resume(Decode(data, at), result, weight, consumed)
         == if data[at] < 128 then Some((result + data[at] % 128 * weight, consumed + 1))
            else Resume(Decode(data, at + 1), result + data[at] % 128 * weight, 128 * weight, consumed + 1)
  {
    if data[at] >= 128 && Decode(data, at + 1).Some? {
      Regroup(weight, data[at] % 128, Decode(data, at + 1).value.0);
    }
  }

  /** The loop of the reader; None is the IndexError of reading past the end. */
  method ReadLeb128(data: seq<Byte>, pos: nat) returns (r: Option<(nat, nat)>)
    ensures r == Decode(data, pos)
  {
    var result: nat, shift: nat, consumed: nat := 0, 0, 0;
    while true
      invariant result < Pow2(shift)
      invariant Decode(data, pos) == Resume(Decode(data, pos + consumed), result, Pow2(shift), consumed)
      decreases |data| - pos - consumed
    {
      if pos + consumed >= |data| {
        return None;
      }
      ResumeStep(data, pos + consumed, result, Pow2(shift), consumed);
      var b := data[pos + consumed];
      consumed := consumed + 1;
      StepValue(result, b % 128, Pow2(shift));
      Pow2Add7(shift);
      result := OrShifted(result, b % 128, shift);
      shift := shift + 7;
      if b < 128 {
        return Some((result, consumed));
      }
    }
  }

  lemma Pow2Add7(n: nat)
    ensures Pow2(n + 7) == 128 * Pow2(n)
  {
    assert Pow2(n + 7) == 2 * Pow2(n + 6) == 4 * Pow2(n + 5) == 8 * Pow2(n + 4);
    assert Pow2(n + 4) == 2 * Pow2(n + 3) == 4 * Pow2(n + 2) == 8 * Pow2(n + 1);
  }

  lemma StepValue(result: nat, low: nat, p: nat)
    requires result < p && low < 128
    ensures result + low * p < 128 * p
  {
    assert low * p <= 127 * p;
  }

  lemma Regroup(p: nat, low: nat, v: nat)
    ensures p * (low + 128 * v) == low * p + 128 * p * v
  {
  }

  // ---- The reader inverts every encoding ----------------------------------------------

  /** Reading any encoding gives its value and its length, wherever it stands. */
  lemma {:induction false} ReadsEncoding(prefix: seq<Byte>, bytes: seq<Byte>, n: nat, suffix: seq<Byte>)
    requires Encodes(bytes, n)
    ensures Decode(prefix + bytes + suffix, |prefix|) == Some((n, |bytes|))
    decreases |bytes|
  {
    var data := prefix + bytes + suffix;
    assert data[|prefix|] == bytes[0];
    if |bytes| > 1 {
      ReadsEncoding(prefix + [bytes[0]], bytes[1..], n / 128, suffix);
      assert prefix + [bytes[0]] + bytes[1..] + suffix == data;
    }
  }

  /** Whatever the reader accepts is an encoding of what it returns. */
  lemma {:induction false} ReadIsEncoding(data: seq<Byte>, pos: nat)
    requires Decode(data, pos).Some?
    ensures var (n, k) := Decode(data, pos).value;
            Encodes(data[pos..pos + k], n)
    decreases |data| - pos
  {
    var (n, k) := Decode(data, pos).value;
    if data[pos] >= 128 {
      ReadIsEncoding(data, pos + 1);
      assert data[pos..pos + k][1..] == data[pos + 1..pos + k];
    }
  }

  /** The minimal encoding. */
  function Encode(n: nat): seq<Byte> {
    if n < 128 then [n] else [n % 128 + 128] + Encode(n / 128)
  }

  lemma {:induction false} EncodeEncodes(n: nat)
    ensures Encodes(Encode(n), n)
  {
    if n >= 128 {
      EncodeEncodes(n / 128);
      assert Encode(n)[1..] == Encode(n / 128);
    }
  }

  /** Every natural reads back, with the right byte count, at any position. */
  lemma EncodeReadsBack(prefix: seq<Byte>, n: nat, suffix: seq<Byte>)
    ensures Decode(prefix + Encode(n) + suffix, |prefix|) == Some((n, |Encode(n)|))
  {
    EncodeEncodes(n);
    ReadsEncoding(prefix, Encode(n), n, suffix);
  }

  /** A read fails exactly when every byte that is left announces another one. */
  lemma {:induction false} FailsIff(data: seq<Byte>, pos: nat)
    ensures Decode(data, pos).None? <==> forall i | pos <= i < |data| :: data[i] >= 128
    decreases |data| - pos
  {
    if pos < |data| {
      FailsIff(data, pos + 1);
    }
  }
}
