// The CRC16-XModem checksum of StrKeys (polynomial 0x1021, initial value 0).
//
// Bytes and the 16-bit register are kept as their bits, most significant first.
// Exclusive or, the mask 0xFFFF and the test of 0x8000 then act bit by bit.
module Crc16 {

  type Byte = b: seq<bool> | |b| == 8 witness [false, false, false, false, false, false, false, false]

  type Word = w: seq<bool> | |w| == 16
    witness [false, false, false, false, false, false, false, false,
             false, false, false, false, false, false, false, false]

  /** The bit with value 2^(15 - i) of 0x1021: bits 12, 5 and 0 are set. */
  predicate Polynomial(i: nat) {
    i == 3 || i == 10 || i == 15
  }

  function Zero(): Word {
    seq(16, _ => false)
  }

  /** 0x1021 */
  function Poly(): Word {
    seq(16, i requires 0 <= i => Polynomial(i))
  }

  function Xor(x: Word, y: Word): Word {
    seq(16, i requires 0 <= i < 16 => x[i] != y[i])
  }

  /** `(w << 1) & 0xFFFF`. */
  function ShiftLeft(w: Word): Word {
    w[1..] + [false]
  }

  /** `b << 8`. */
  function HighByte(b: Byte): Word {
    b + seq(8, _ => false)
  }

  /** One pass of the inner loop. */
  function Shift(crc: Word): Word {
    if crc[0] then Xor(ShiftLeft(crc), Poly()) else ShiftLeft(crc)
  }

  function ShiftN(crc: Word, n: nat): Word
    decreases n
  {
    if n == 0 then crc else ShiftN(Shift(crc), n - 1)
  }

  function Absorb(crc: Word, b: Byte): Word {
    ShiftN(Xor(crc, HighByte(b)), 8)
  }

  function CrcFrom(crc: Word, data: seq<Byte>): Word
    decreases |data|
  {
    if data == [] then crc else CrcFrom(Absorb(crc, data[0]), data[1..])
  }

  function Crc(data: seq<Byte>): Word {
    CrcFrom(Zero(), data)
  }

  /** The inner loop: eight shifts, each folding the bit that falls out back in. */
  method AbsorbByte(start: Word, b: Byte) returns (crc: Word)
    ensures crc == Absorb(start, b)
  {
    crc := Xor(start, HighByte(b));
    for k := 0 to 8
      invariant ShiftN(crc, 8 - k) == Absorb(start, b)
    {
      if crc[0] {
        crc := Xor(ShiftLeft(crc), Poly());
      } else {
        crc := ShiftLeft(crc);
      }
    }
  }

  method Crc16Xmodem(data: seq<Byte>) returns (crc: Word)
    ensures crc == Crc(data)
  {
    crc := Zero();
    for i := 0 to |data|
      invariant CrcFrom(crc, data[i..]) == Crc(data)
    {
      crc := AbsorbByte(crc, data[i]);
      assert data[i..][1..] == data[i + 1..];
    }
    assert data[|data|..] == [];
  }

  // ---- The register is linear and never forgets --------------------------------

  /** Bit `i` after a shift. */
  lemma ShiftAt(w: Word, i: nat)
    requires i < 16
    ensures Shift(w)[i] == ((i < 15 && w[i + 1]) != (w[0] && Polynomial(i)))
  {
  }

  lemma ShiftInjective(s: Word, t: Word)
    requires Shift(s) == Shift(t)
    ensures s == t
  {
    ShiftAt(s, 15);
    ShiftAt(t, 15);
    forall i | 0 < i < 16
      ensures s[i] == t[i]
    {
      ShiftAt(s, i - 1);
      ShiftAt(t, i - 1);
    }
  }

  lemma ShiftLinear(s: Word, t: Word)
    ensures Shift(Xor(s, t)) == Xor(Shift(s), Shift(t))
  {
    forall i | 0 <= i < 16
      ensures Shift(Xor(s, t))[i] == Xor(Shift(s), Shift(t))[i]
    {
      ShiftAt(s, i);
      ShiftAt(t, i);
      ShiftAt(Xor(s, t), i);
    }
  }

  lemma {:induction false} ShiftNInjective(s: Word, t: Word, n: nat)
    requires ShiftN(s, n) == ShiftN(t, n)
    ensures s == t
    decreases n
  {
    if n > 0 {
      ShiftNInjective(Shift(s), Shift(t), n - 1);
      ShiftInjective(s, t);
    }
  }

  lemma {:induction false} ShiftNLinear(s: Word, t: Word, n: nat)
    ensures ShiftN(Xor(s, t), n) == Xor(ShiftN(s, n), ShiftN(t, n))
    decreases n
  {
    if n > 0 {
      ShiftLinear(s, t);
      ShiftNLinear(Shift(s), Shift(t), n - 1);
    }
  }

  lemma XorCancel(w: Word, s: Word, t: Word)
    requires Xor(w, s) == Xor(w, t)
    ensures s == t
  {
    forall i | 0 <= i < 16
      ensures s[i] == t[i]
    {
      assert Xor(w, s)[i] == Xor(w, t)[i];
    }
  }

  // ---- The bit-serial view -------------------------------------------------------

  /** Absorbs one message bit. */
  function Feed(crc: Word, bit: bool): Word {
    Shift(crc[0 := crc[0] != bit])
  }

  function FeedAll(crc: Word, bits: seq<bool>): Word
    decreases |bits|
  {
    if bits == [] then crc else FeedAll(Feed(crc, bits[0]), bits[1..])
  }

  function MessageBits(data: seq<Byte>): (bits: seq<bool>)
    ensures |bits| == 8 * |data|
  {
    if data == [] then [] else data[0] + MessageBits(data[1..])
  }

  lemma {:induction false} FeedAppend(crc: Word, x: seq<bool>, y: seq<bool>)
    ensures FeedAll(crc, x + y) == FeedAll(FeedAll(crc, x), y)
    decreases |x|
  {
    if x == [] {
      assert x + y == y;
    } else {
      assert (x + y)[1..] == x[1..] + y;
      FeedAppend(Feed(crc, x[0]), x[1..], y);
    }
  }

  /** Up to 16 bits, left-aligned in a word. */
  function Window(x: seq<bool>): Word
    requires |x| <= 16
  {
    x + seq(16 - |x|, _ => false)
  }

  lemma FeedIntoWindow(crc: Word, x: seq<bool>)
    requires 0 < |x| <= 16
    ensures Xor(Feed(crc, x[0]), Window(x[1..])) == Shift(Xor(crc, Window(x)))
  {
    var flipped := crc[0 := crc[0] != x[0]];
    forall i | 0 <= i < 16
      ensures Xor(Shift(flipped), Window(x[1..]))[i] == Shift(Xor(crc, Window(x)))[i]
    {
      ShiftAt(flipped, i);
      ShiftAt(Xor(crc, Window(x)), i);
      assert Window(x[1..])[i] == (i < 15 && Window(x)[i + 1]);
    }
  }

  /** Feeding up to 16 bits is one shift count applied to their window. */
  lemma {:induction false} FeedWindow(crc: Word, x: seq<bool>)
    requires |x| <= 16
    ensures FeedAll(crc, x) == ShiftN(Xor(crc, Window(x)), |x|)
    decreases |x|
  {
    if x == [] {
      assert Xor(crc, Window(x)) == crc;
    } else {
      FeedWindow(Feed(crc, x[0]), x[1..]);
      FeedIntoWindow(crc, x);
    }
  }

  lemma AbsorbIsFeed(crc: Word, b: Byte)
    ensures Absorb(crc, b) == FeedAll(crc, b)
  {
    FeedWindow(crc, b);
    assert Window(b) == HighByte(b);
  }

  /** The byte loop of the source computes the bit-serial checksum. */
  lemma {:induction false} CrcIsSerial(crc: Word, data: seq<Byte>)
    ensures CrcFrom(crc, data) == FeedAll(crc, MessageBits(data))
    decreases |data|
  {
    if data != [] {
      AbsorbIsFeed(crc, data[0]);
      FeedAppend(crc, data[0], MessageBits(data[1..]));
      CrcIsSerial(Absorb(crc, data[0]), data[1..]);
    }
  }

  /** Reading the same bits keeps different registers different. */
  lemma {:induction false} FeedInjective(s: Word, t: Word, bits: seq<bool>)
    requires FeedAll(s, bits) == FeedAll(t, bits)
    ensures s == t
    decreases |bits|
  {
    if bits != [] {
      FeedInjective(Feed(s, bits[0]), Feed(t, bits[0]), bits[1..]);
      var s', t' := s[0 := s[0] != bits[0]], t[0 := t[0] != bits[0]];
      ShiftInjective(s', t');
      assert s == s'[0 := s'[0] != bits[0]] && t == t'[0 := t'[0] != bits[0]];
    }
  }

  lemma WindowInjective(crc: Word, x: seq<bool>, y: seq<bool>)
    requires |x| == |y| <= 16 && FeedAll(crc, x) == FeedAll(crc, y)
    ensures x == y
  {
    FeedWindow(crc, x);
    FeedWindow(crc, y);
    ShiftNInjective(Xor(crc, Window(x)), Xor(crc, Window(y)), |x|);
    XorCancel(crc, Window(x), Window(y));
    assert x == Window(x)[..|x|] && y == Window(y)[..|y|];
  }

  /** Bit strings that differ only inside a window of 16 bits never share a checksum. */
  lemma BurstDetected(crc: Word, prefix: seq<bool>, x: seq<bool>, y: seq<bool>, suffix: seq<bool>)
    requires |x| == |y| <= 16 && x != y
    ensures FeedAll(crc, prefix + x + suffix) != FeedAll(crc, prefix + y + suffix)
  {
    FeedAppend(crc, prefix, x);
    FeedAppend(crc, prefix, y);
    FeedAppend(crc, prefix + x, suffix);
    FeedAppend(crc, prefix + y, suffix);
    if FeedAll(crc, prefix + x + suffix) == FeedAll(crc, prefix + y + suffix) {
      FeedInjective(FeedAll(crc, prefix + x), FeedAll(crc, prefix + y), suffix);
      WindowInjective(FeedAll(crc, prefix), x, y);
    }
  }

  lemma {:induction false} MessageBitsAppend(x: seq<Byte>, y: seq<Byte>)
    ensures MessageBits(x + y) == MessageBits(x) + MessageBits(y)
    decreases |x|
  {
    if x == [] {
      assert x + y == y;
    } else {
      assert (x + y)[1..] == x[1..] + y;
      MessageBitsAppend(x[1..], y);
    }
  }

  /** Messages of equal length that differ only inside two adjacent bytes never share a checksum. */
  lemma AdjacentBytesDetected(prefix: seq<Byte>, x: (Byte, Byte), y: (Byte, Byte), suffix: seq<Byte>)
    requires x != y
    ensures Crc(prefix + [x.0, x.1] + suffix) != Crc(prefix + [y.0, y.1] + suffix)
  {
    AdjacentBits(prefix, x, suffix);
    AdjacentBits(prefix, y, suffix);
    assert x.0 == (x.0 + x.1)[..8] && x.1 == (x.0 + x.1)[8..];
    assert y.0 == (y.0 + y.1)[..8] && y.1 == (y.0 + y.1)[8..];
    BurstDetected(Zero(), MessageBits(prefix), x.0 + x.1, y.0 + y.1, MessageBits(suffix));
  }

  lemma AdjacentBits(prefix: seq<Byte>, x: (Byte, Byte), suffix: seq<Byte>)
    ensures Crc(prefix + [x.0, x.1] + suffix)
         == FeedAll(Zero(), MessageBits(prefix) + (x.0 + x.1) + MessageBits(suffix))
  {
    CrcIsSerial(Zero(), prefix + [x.0, x.1] + suffix);
    MessageBitsAppend(prefix + [x.0, x.1], suffix);
    MessageBitsAppend(prefix, [x.0, x.1]);
    var one: seq<Byte> := [x.1];
    assert [x.0, x.1][1..] == one && one[1..] == [];
    assert MessageBits(one) == x.1;
    assert MessageBits([x.0, x.1]) == x.0 + x.1;
  }

  // ---- The checksum as a remainder --------------------------------------------------

  /** x^12 + x^5 + 1, the divisor without its leading x^16. */
  function Generator(): Word {
    [false, false, false, true, false, false, false, false, false, false, true, false, false, false, false, true]
  }

  function XorFront(bits: seq<bool>, w: Word): (r: seq<bool>)
    requires |bits| >= 16
    ensures |r| == |bits|
  {
    seq(|bits|, i requires 0 <= i < |bits| => if i < 16 then bits[i] != w[i] else bits[i])
  }

  /** One step of long division over bits: subtract the divisor if the leading bit is set, then drop that bit. */
  function DivisionStep(bits: seq<bool>): (r: seq<bool>)
    requires |bits| > 16
    ensures |r| == |bits| - 1
  {
    if bits[0] then XorFront(bits[1..], Generator()) else bits[1..]
  }

  function Remainder(bits: seq<bool>): Word
    requires |bits| >= 16
    decreases |bits|
  {
    if |bits| == 16 then bits else Remainder(DivisionStep(bits))
  }

  lemma GeneratorIsPoly(i: nat)
    requires i < 16
    ensures Generator()[i] == Polynomial(i)
  {
  }

  lemma FeedDivides(crc: Word, bit: bool, rest: seq<bool>)
    ensures DivisionStep(XorFront([bit] + rest + Zero(), crc)) == XorFront(rest + Zero(), Feed(crc, bit))
  {
    var whole, later := XorFront([bit] + rest + Zero(), crc), XorFront(rest + Zero(), Feed(crc, bit));
    assert forall i | 0 <= i < |rest| + 16 :: ([bit] + rest + Zero())[i + 1] == (rest + Zero())[i];
    forall i | 0 <= i < |later|
      ensures DivisionStep(whole)[i] == later[i]
    {
      if i < 16 {
        ShiftAt(crc[0 := crc[0] != bit], i);
        GeneratorIsPoly(i);
      }
    }
  }

  lemma {:induction false} FeedAllDivides(crc: Word, bits: seq<bool>)
    ensures FeedAll(crc, bits) == Remainder(XorFront(bits + Zero(), crc))
    decreases |bits|
  {
    if bits == [] {
      assert XorFront(bits + Zero(), crc) == crc;
    } else {
      FeedDivides(crc, bits[0], bits[1..]);
      assert [bits[0]] + bits[1..] == bits;
      FeedAllDivides(Feed(crc, bits[0]), bits[1..]);
    }
  }

  /** The checksum is the remainder of the message, shifted by 16 bits, by x^16 + x^12 + x^5 + 1. */
  lemma CrcIsRemainder(data: seq<Byte>)
    ensures Crc(data) == Remainder(MessageBits(data) + Zero())
  {
    CrcIsSerial(Zero(), data);
    FeedAllDivides(Zero(), MessageBits(data));
    XorNothing(MessageBits(data) + Zero());
  }

  lemma XorNothing(bits: seq<bool>)
    requires |bits| >= 16
    ensures XorFront(bits, Zero()) == bits
  {
  }
}
