// StrKey validation (SEP-0023): 56 base32 characters carrying a version byte, a
// 32-byte payload and the little-endian CRC16-XModem of both.
module StrKey {
  import opened Options
  import opened Crc16
  import ByteStrings

  const STRKEY_LEN := 56

  /** 6 << 3, the version byte of a 'G...' key. */
  const VERSION_ACCOUNT: Byte := [false, false, true, true, false, false, false, false]

  /** 2 << 3, the version byte of a 'C...' key. */
  const VERSION_CONTRACT: Byte := [false, false, false, true, false, false, false, false]

  datatype StrKeyError = WrongLength(length: nat) | InvalidCharacters | InvalidChecksum | WrongType

  predicate InAlphabet(c: char) {
    'A' <= c <= 'Z' || '2' <= c <= '7'
  }

  /** The position of `c` in ABCDEFGHIJKLMNOPQRSTUVWXYZ234567. */
  function CharValue(c: char): (v: nat)
    requires InAlphabet(c)
    ensures v < 32
  {
    if 'A' <= c <= 'Z' then c as int - 'A' as int else c as int - '2' as int + 26
  }

  /** The `n` low bits of `v`, most significant first. */
  function LowBits(v: nat, n: nat): (bits: seq<bool>)
    ensures |bits| == n
    decreases n
  {
    if n == 0 then [] else LowBits(v / 2, n - 1) + [v % 2 == 1]
  }

  predicate IsBase32(s: string) {
    forall i | 0 <= i < |s| :: InAlphabet(s[i])
  }

  type Quintet = q: seq<bool> | |q| == 5 witness [false, false, false, false, false]

  function CharBits(c: char): Quintet
    requires InAlphabet(c)
  {
    LowBits(CharValue(c), 5)
  }

  function Quintets(s: string): (qs: seq<Quintet>)
    requires IsBase32(s)
    ensures |qs| == |s| && forall i | 0 <= i < |s| :: qs[i] == CharBits(s[i])
  {
    seq(|s|, i requires 0 <= i < |s| => CharBits(s[i]))
  }

  function Flatten(qs: seq<Quintet>): (bits: seq<bool>)
    ensures |bits| == 5 * |qs|
  {
    if qs == [] then [] else qs[0] + Flatten(qs[1..])
  }

  function TextBits(s: string): (bits: seq<bool>)
    requires IsBase32(s)
    ensures |bits| == 5 * |s|
  {
    Flatten(Quintets(s))
  }

  function Bytes(bits: seq<bool>): (data: seq<Byte>)
    requires |bits| % 8 == 0
    ensures 8 * |data| == |bits|
  {
    if bits == [] then [] else [bits[..8]] + Bytes(bits[8..])
  }

  /** Unpadded base32 decoding of a text of the one length that reaches it. */
  function Base32Decode(s: string): (data: seq<Byte>)
    requires IsBase32(s) && |s| == STRKEY_LEN
    ensures |data| == 35
  {
    Bytes(TextBits(s))
  }

  function LittleEndian(w: Word): seq<Byte> {
    [w[8..], w[..8]]
  }

  predicate ChecksumMatches(raw: seq<Byte>)
    requires |raw| == 35
  {
    raw[33..35] == LittleEndian(Crc(raw[..33]))
  }

  function Error(value: string, expectedVersion: Byte): Option<StrKeyError> {
    if |value| != STRKEY_LEN then
      Some(WrongLength(|value|))
    else if !IsBase32(value) then
      Some(InvalidCharacters)
    else
      var raw := Base32Decode(value);
      if !ChecksumMatches(raw) then Some(InvalidChecksum)
      else if raw[0] != expectedVersion then Some(WrongType)
      else None
  }

  method CheckStrKey(value: string, expectedVersion: Byte) returns (error: Option<StrKeyError>)
    ensures error == Error(value, expectedVersion)
  {
    if |value| != STRKEY_LEN {
      return Some(WrongLength(|value|));
    }
    if exists i | 0 <= i < |value| :: !InAlphabet(value[i]) {
      return Some(InvalidCharacters);
    }
    var raw := Base32Decode(value);
    var versionByte, payload, checksum := raw[0], raw[1..33], raw[33..35];
    var crc := Crc16Xmodem([versionByte] + payload);
    assert [versionByte] + payload == raw[..33];
    if checksum != LittleEndian(crc) {
      return Some(InvalidChecksum);
    }
    if versionByte != expectedVersion {
      return Some(WrongType);
    }
    return None;
  }

  // ---- The checksum in terms of the 280 bits of the text ---------------------------

  lemma {:induction false} BitsOfBytes(bits: seq<bool>)
    requires |bits| % 8 == 0
    ensures MessageBits(Bytes(bits)) == bits
    decreases |bits|
  {
    if bits != [] {
      BitsOfBytes(bits[8..]);
      assert Bytes(bits)[1..] == Bytes(bits[8..]);
    }
  }

  lemma {:induction false} BytesAppend(x: seq<bool>, y: seq<bool>)
    requires |x| % 8 == 0 && |y| % 8 == 0
    ensures Bytes(x + y) == Bytes(x) + Bytes(y)
    decreases |x|
  {
    if x == [] {
      assert x + y == y;
    } else {
      assert (x + y)[..8] == x[..8];
      assert (x + y)[8..] == x[8..] + y;
      BytesAppend(x[8..], y);
    }
  }

  /** The 33 message bytes and the two checksum bytes of a decoded key. */
  lemma KeyBytes(bits: seq<bool>)
    requires |bits| == 280
    ensures Bytes(bits)[..33] == Bytes(bits[..264]) && Bytes(bits)[33..35] == Bytes(bits[264..])
  {
    BytesAppend(bits[..264], bits[264..]);
    assert bits[..264] + bits[264..] == bits;
  }

  /** The register that the last 16 bits of the text announce: the high byte is stored last. */
  function StoredChecksum(bits: seq<bool>): Word
    requires |bits| == 280
  {
    bits[272..280] + bits[264..272]
  }

  lemma StoredBytes(bits: seq<bool>, crc: Word)
    requires |bits| == 280
    ensures Bytes(bits)[33..35] == LittleEndian(crc) <==> crc == StoredChecksum(bits)
  {
    KeyBytes(bits);
    var tail := bits[264..];
    TwoBytes(tail);
    assert tail[..8] == bits[264..272] && tail[8..] == bits[272..280];
    var stored := StoredChecksum(bits);
    assert stored[..8] == bits[272..280] && stored[8..] == bits[264..272];
    assert crc == crc[..8] + crc[8..];
  }

  lemma TwoBytes(tail: seq<bool>)
    requires |tail| == 16
    ensures Bytes(tail) == [tail[..8], tail[8..]]
  {
    var low := tail[8..];
    assert low[..8] == low && low[8..] == [];
    assert Bytes(low) == [low];
  }

  lemma ChecksumInBits(s: string)
    requires |s| == STRKEY_LEN && IsBase32(s)
    ensures ChecksumMatches(Base32Decode(s))
       <==> FeedAll(Zero(), TextBits(s)[..264]) == StoredChecksum(TextBits(s))
  {
    var bits := TextBits(s);
    KeyBytes(bits);
    BitsOfBytes(bits[..264]);
    CrcIsSerial(Zero(), Bytes(bits)[..33]);
    StoredBytes(bits, FeedAll(Zero(), bits[..264]));
  }

  // ---- Which bits a character decides ----------------------------------------------

  lemma {:induction false} LowBitsInjective(v: nat, w: nat, n: nat)
    requires v < ByteStrings.Pow2(n) && w < ByteStrings.Pow2(n) && LowBits(v, n) == LowBits(w, n)
    ensures v == w
    decreases n
  {
    if n > 0 {
      var a, b := LowBits(v, n), LowBits(w, n);
      assert a[n - 1] == b[n - 1] && a[..n - 1] == b[..n - 1];
      LowBitsInjective(v / 2, w / 2, n - 1);
    }
  }

  lemma CharBitsInjective(c: char, d: char)
    requires InAlphabet(c) && InAlphabet(d) && CharBits(c) == CharBits(d)
    ensures c == d
  {
    assert ByteStrings.Pow2(5) == 32;
    LowBitsInjective(CharValue(c), CharValue(d), 5);
  }

  lemma {:induction false} FlattenInjective(p: seq<Quintet>, q: seq<Quintet>)
    requires |p| == |q| && Flatten(p) == Flatten(q)
    ensures p == q
    decreases |p|
  {
    if p != [] {
      assert p[0] == Flatten(p)[..5] && q[0] == Flatten(q)[..5];
      assert Flatten(p[1..]) == Flatten(p)[5..] && Flatten(q[1..]) == Flatten(q)[5..];
      FlattenInjective(p[1..], q[1..]);
      assert p == [p[0]] + p[1..] && q == [q[0]] + q[1..];
    }
  }

  lemma TextDecided(s: string, t: string)
    requires IsBase32(s) && IsBase32(t) && |s| == |t| && TextBits(s) == TextBits(t)
    ensures s == t
  {
    FlattenInjective(Quintets(s), Quintets(t));
    forall k | 0 <= k < |s|
      ensures s[k] == t[k]
    {
      assert Quintets(s)[k] == Quintets(t)[k];
      CharBitsInjective(s[k], t[k]);
    }
  }

  lemma {:induction false} FlattenAppend(p: seq<Quintet>, q: seq<Quintet>)
    ensures Flatten(p + q) == Flatten(p) + Flatten(q)
    decreases |p|
  {
    if p == [] {
      assert p + q == q;
    } else {
      assert (p + q)[1..] == p[1..] + q;
      FlattenAppend(p[1..], q);
    }
  }

  lemma FlattenSplit(p: seq<Quintet>, k: nat)
    requires k <= |p|
    ensures Flatten(p)[..5 * k] == Flatten(p[..k]) && Flatten(p)[5 * k..] == Flatten(p[k..])
  {
    FlattenAppend(p[..k], p[k..]);
    assert p[..k] + p[k..] == p;
  }

  lemma TextBitsSplit(s: string, k: nat)
    requires IsBase32(s) && k <= |s|
    ensures TextBits(s)[..5 * k] == TextBits(s[..k]) && TextBits(s)[5 * k..] == TextBits(s[k..])
  {
    FlattenSplit(Quintets(s), k);
    assert Quintets(s)[..k] == Quintets(s[..k]);
    assert Quintets(s)[k..] == Quintets(s[k..]);
  }

  // ---- Typing errors -----------------------------------------------------------------

  function OneBit(i: nat): Word {
    seq(16, j => j == i)
  }

  lemma {:induction false} OneBitMovesUp(i: nat, n: nat)
    requires n <= i < 16
    ensures ShiftN(OneBit(i), n) == OneBit(i - n)
    decreases n
  {
    if n > 0 {
      assert Shift(OneBit(i)) == OneBit(i - 1) by {
        forall j | 0 <= j < 16
          ensures Shift(OneBit(i))[j] == OneBit(i - 1)[j]
        {
          ShiftAt(OneBit(i), j);
        }
      }
      OneBitMovesUp(i - 1, n - 1);
    }
  }

  /** 0x4408, the only register that nine shifts take to 0x0080. */
  function Before0080(): Word {
    seq(16, j => j == 1 || j == 5 || j == 12)
  }

  lemma NineShifts()
    ensures ShiftN(Before0080(), 9) == OneBit(8)
  {
    var first: Word := seq(16, j => j == 0 || j == 4 || j == 11);
    assert Shift(Before0080()) == first by {
      forall j | 0 <= j < 16
        ensures Shift(Before0080())[j] == first[j]
      {
        ShiftAt(Before0080(), j);
      }
    }
    assert Shift(first) == OneBit(15) by {
      forall j | 0 <= j < 16
        ensures Shift(first)[j] == OneBit(15)[j]
      {
        ShiftAt(first, j);
      }
    }
    OneBitMovesUp(15, 7);
    assert ShiftN(first, 8) == ShiftN(OneBit(15), 7);
  }

  /** While zeros follow, a shift rotates the top four bits. */
  lemma NibbleRotates(d: Word, zeros: nat)
    requires 1 <= zeros <= 5 && forall j | 4 <= j < 4 + zeros :: !d[j]
    ensures var e := Shift(d);
            && e[0] == d[1] && e[1] == d[2] && e[2] == d[3] && e[3] == d[0]
            && forall j | 4 <= j < 3 + zeros :: !e[j]
  {
    ShiftAt(d, 0);
    ShiftAt(d, 1);
    ShiftAt(d, 2);
    ShiftAt(d, 3);
    forall j | 4 <= j < 3 + zeros
      ensures !Shift(d)[j]
    {
      ShiftAt(d, j);
    }
  }

  /** Four shifts bring the top four bits back to the top. */
  lemma FourShifts(d: Word, i: nat)
    requires i < 4 && forall j | 4 <= j < 16 :: !d[j]
    ensures ShiftN(d, 4)[i] == d[i]
  {
    var d1 := Shift(d);
    var d2 := Shift(d1);
    var d3 := Shift(d2);
    NibbleRotates(d, 5);
    NibbleRotates(d1, 4);
    NibbleRotates(d2, 3);
    NibbleRotates(d3, 2);
    assert ShiftN(d, 4) == ShiftN(d1, 3) == ShiftN(d2, 2) == ShiftN(d3, 1) == Shift(d3);
  }

  /** How the checksums of two messages that differ only in their last bits differ. */
  lemma ChecksumDifference(prefix: seq<bool>, x: seq<bool>, y: seq<bool>)
    requires |x| == |y| <= 16
    ensures Xor(FeedAll(Zero(), prefix + x), FeedAll(Zero(), prefix + y)) == ShiftN(Xor(Window(x), Window(y)), |x|)
  {
    var c := FeedAll(Zero(), prefix);
    FeedAppend(Zero(), prefix, x);
    FeedAppend(Zero(), prefix, y);
    FeedWindow(c, x);
    FeedWindow(c, y);
    ShiftNLinear(Xor(c, Window(x)), Xor(c, Window(y)), |x|);
    assert Xor(Xor(c, Window(x)), Xor(c, Window(y))) == Xor(Window(x), Window(y));
  }

  lemma ShiftNZero(n: nat)
    ensures ShiftN(Zero(), n) == Zero()
  {
    assert Xor(Zero(), Zero()) == Zero();
    ShiftNLinear(Zero(), Zero(), n);
    var w := ShiftN(Zero(), n);
    assert Xor(w, w) == Zero();
  }

  lemma EqualWindows(x: seq<bool>, y: seq<bool>)
    requires |x| == |y| <= 16 && Xor(Window(x), Window(y)) == Zero()
    ensures x == y
  {
    forall i | 0 <= i < |x|
      ensures x[i] == y[i]
    {
      assert Xor(Window(x), Window(y))[i] == Zero()[i];
      assert Window(x)[i] == x[i] && Window(y)[i] == y[i];
    }
  }

  ghost predicate Consistent(bits: seq<bool>) {
    |bits| == 280 && FeedAll(Zero(), bits[..264]) == StoredChecksum(bits)
  }

  ghost predicate AgreeOutside(b: seq<bool>, c: seq<bool>, from: nat, to: nat) {
    |b| == |c| && from <= to <= |b| && b[..from] == c[..from] && b[to..] == c[to..]
  }

  lemma MessageError(b: seq<bool>, c: seq<bool>, from: nat)
    requires Consistent(b) && Consistent(c) && from + 10 <= 264 && AgreeOutside(b, c, from, from + 10)
    ensures b == c
  {
    var prefix, x, y := b[..from], b[from..from + 10], c[from..from + 10];
    var suffix := b[from + 10..264];
    assert suffix == b[from + 10..][..264 - from - 10] == c[from + 10..][..264 - from - 10];
    assert b[..264] == prefix + x + suffix && c[..264] == prefix + y + suffix;
    var k := 264 - from - 10;
    assert b[264..272] == b[from + 10..][k..k + 8] == c[from + 10..][k..k + 8] == c[264..272];
    assert b[272..280] == b[from + 10..][k + 8..k + 16] == c[from + 10..][k + 8..k + 16] == c[272..280];
    if x != y {
      BurstDetected(Zero(), prefix, x, y, suffix);
    }
    assert b == prefix + x + b[from + 10..] && c == prefix + y + c[from + 10..];
  }

  lemma ChecksumError(b: seq<bool>, c: seq<bool>)
    requires Consistent(b) && Consistent(c) && b[..264] == c[..264]
    ensures b == c
  {
    var sb, sc := StoredChecksum(b), StoredChecksum(c);
    assert b[272..280] == sb[..8] && b[264..272] == sb[8..];
    assert c[272..280] == sc[..8] && c[264..272] == sc[8..];
    assert b == b[..264] + b[264..272] + b[272..280] && c == c[..264] + c[264..272] + c[272..280];
  }

  lemma StoredAgree(b: seq<bool>, c: seq<bool>, to: nat)
    requires |b| == |c| == 280 && 264 <= to <= 272 && b[to..] == c[to..]
    ensures forall i | 0 <= i < 16 && !(8 <= i < to - 256) :: StoredChecksum(b)[i] == StoredChecksum(c)[i]
    ensures StoredChecksum(b)[8] == b[264] && StoredChecksum(c)[8] == c[264]
  {
    forall i | 0 <= i < 16 && !(8 <= i < to - 256)
      ensures StoredChecksum(b)[i] == StoredChecksum(c)[i]
    {
      var at := if i < 8 then 272 + i else 256 + i;
      assert b[at] == b[to..][at - to] && c[at] == c[to..][at - to];
    }
  }

  /** A difference of nine message bits never shows as bit 7 of the checksum alone. */
  lemma NineBitSyndrome(d: Word)
    requires forall i | 9 <= i < 16 :: !d[i]
    requires forall i | 0 <= i < 16 && i != 8 :: !ShiftN(d, 9)[i]
    ensures d == Zero()
  {
    var w := ShiftN(d, 9);
    if w[8] {
      assert w == OneBit(8);
      NineShifts();
      assert Before0080()[12];
      ShiftNInjective(d, Before0080(), 9);
    } else {
      assert w == Zero();
      ShiftNZero(9);
      ShiftNInjective(d, Zero(), 9);
    }
  }

  /** A difference of four message bits always shows in the high checksum byte. */
  lemma FourBitSyndrome(d: Word)
    requires forall i | 4 <= i < 16 :: !d[i]
    requires forall i | 0 <= i < 8 :: !ShiftN(d, 4)[i]
    ensures d == Zero()
  {
    forall i | 0 <= i < 16
      ensures d[i] == Zero()[i]
    {
      if i < 4 {
        FourShifts(d, i);
      }
    }
  }

  /** Nine message bits and the top bit of the low checksum byte cannot make up for each other. */
  lemma NineBitsAndOne(prefix: seq<bool>, x: seq<bool>, y: seq<bool>, sx: Word, sy: Word)
    requires |x| == |y| == 9
    requires sx == FeedAll(Zero(), prefix + x) && sy == FeedAll(Zero(), prefix + y)
    requires forall i | 0 <= i < 16 && i != 8 :: sx[i] == sy[i]
    ensures x == y
  {
    ChecksumDifference(prefix, x, y);
    assert forall i | 0 <= i < 16 :: Xor(sx, sy)[i] == (sx[i] != sy[i]);
    NineBitSyndrome(Xor(Window(x), Window(y)));
    EqualWindows(x, y);
  }

  /** Four message bits and the low checksum byte cannot make up for each other. */
  lemma FourBitsAndLowByte(prefix: seq<bool>, x: seq<bool>, y: seq<bool>, sx: Word, sy: Word)
    requires |x| == |y| == 4
    requires sx == FeedAll(Zero(), prefix + x) && sy == FeedAll(Zero(), prefix + y)
    requires forall i | 0 <= i < 8 :: sx[i] == sy[i]
    ensures x == y
  {
    ChecksumDifference(prefix, x, y);
    assert forall i | 0 <= i < 16 :: Xor(sx, sy)[i] == (sx[i] != sy[i]);
    FourBitSyndrome(Xor(Window(x), Window(y)));
    EqualWindows(x, y);
  }

  /** Characters 51 and 52 hold the last nine message bits and the first checksum bit. */
  lemma BoundaryError51(b: seq<bool>, c: seq<bool>)
    requires Consistent(b) && Consistent(c) && AgreeOutside(b, c, 255, 265)
    ensures b == c
  {
    var x, y := b[255..264], c[255..264];
    assert b[..255] + x == b[..264] && c[..255] + y == c[..264];
    StoredAgree(b, c, 265);
    NineBitsAndOne(b[..255], x, y, StoredChecksum(b), StoredChecksum(c));
    ChecksumError(b, c);
  }

  /** Characters 52 and 53 hold the last four message bits and the first six checksum bits. */
  lemma BoundaryError52(b: seq<bool>, c: seq<bool>)
    requires Consistent(b) && Consistent(c) && AgreeOutside(b, c, 260, 270)
    ensures b == c
  {
    var x, y := b[260..264], c[260..264];
    assert b[..260] + x == b[..264] && c[..260] + y == c[..264];
    StoredAgree(b, c, 270);
    FourBitsAndLowByte(b[..260], x, y, StoredChecksum(b), StoredChecksum(c));
    ChecksumError(b, c);
  }

  /** Two consistent bit strings that differ only inside the ten bits of two characters are equal. */
  lemma NeighbourBits(b: seq<bool>, c: seq<bool>, k: nat)
    requires k <= 54 && Consistent(b) && Consistent(c) && AgreeOutside(b, c, 5 * k, 5 * k + 10)
    ensures b == c
  {
    if k <= 50 {
      MessageError(b, c, 5 * k);
    } else if k == 51 {
      BoundaryError51(b, c);
    } else if k == 52 {
      BoundaryError52(b, c);
    } else {
      assert b[..264] == b[..5 * k][..264] == c[..5 * k][..264] == c[..264];
      ChecksumError(b, c);
    }
  }

  /** A checksum holds for at most one of two keys that differ only in two neighbouring characters. */
  lemma NeighbourChecksum(s: string, t: string, k: nat)
    requires |s| == |t| == STRKEY_LEN && k + 2 <= STRKEY_LEN
    requires s[..k] == t[..k] && s[k + 2..] == t[k + 2..]
    requires IsBase32(s) && IsBase32(t)
    requires ChecksumMatches(Base32Decode(s)) && ChecksumMatches(Base32Decode(t))
    ensures s == t
  {
    ChecksumInBits(s);
    ChecksumInBits(t);
    TextBitsSplit(s, k);
    TextBitsSplit(t, k);
    TextBitsSplit(s, k + 2);
    TextBitsSplit(t, k + 2);
    NeighbourBits(TextBits(s), TextBits(t), k);
    TextDecided(s, t);
  }

  /**
   * Every typing error inside two neighbouring characters of a valid StrKey is reported: one wrong
   * character, two wrong characters or two swapped characters, whichever type of key is expected.
   */
  lemma TypingErrorReported(s: string, t: string, k: nat, version: Byte, expectedVersion: Byte)
    requires Error(s, version) == None
    requires |t| == |s| && t != s && k + 2 <= |s|
    requires s[..k] == t[..k] && s[k + 2..] == t[k + 2..]
    ensures Error(t, expectedVersion).Some?
    ensures !IsBase32(t) || Error(t, expectedVersion) == Some(InvalidChecksum)
  {
    if IsBase32(t) && ChecksumMatches(Base32Decode(t)) {
      NeighbourChecksum(s, t, k);
    }
  }

  /** A key is accepted for at most one of the two address types. */
  lemma OneAddressType(s: string)
    ensures !(Error(s, VERSION_ACCOUNT) == None && Error(s, VERSION_CONTRACT) == None)
  {
    assert VERSION_ACCOUNT[2] && !VERSION_CONTRACT[2];
  }

  // ---- Exactly the encoded keys are accepted -----------------------------------------

  /** The number a group of bits stands for, most significant first. */
  function NatOf(bits: seq<bool>): (v: nat)
    ensures v < ByteStrings.Pow2(|bits|)
  {
    if bits == [] then 0 else 2 * NatOf(bits[..|bits| - 1]) + if bits[|bits| - 1] then 1 else 0
  }

  function Letter(v: nat): char
    requires v < 32
  {
    "ABCDEFGHIJKLMNOPQRSTUVWXYZ234567"[v]
  }

  lemma LetterValue(v: nat)
    requires v < 32
    ensures InAlphabet(Letter(v)) && CharValue(Letter(v)) == v
  {
    assert v == 0 || v == 1 || v == 2 || v == 3 || v == 4 || v == 5 || v == 6 || v == 7 || v == 8 || v == 9
        || v == 10 || v == 11 || v == 12 || v == 13 || v == 14 || v == 15 || v == 16 || v == 17 || v == 18
        || v == 19 || v == 20 || v == 21 || v == 22 || v == 23 || v == 24 || v == 25 || v == 26 || v == 27
        || v == 28 || v == 29 || v == 30 || v == 31;
  }

  lemma Pow2Of5()
    ensures ByteStrings.Pow2(5) == 32
  {
    assert ByteStrings.Pow2(3) == 8;
  }

  /** Base32 encoding, five bits a letter. */
  function Text(bits: seq<bool>): string
    requires |bits| % 5 == 0
  {
    if bits == [] then ""
    else
      Pow2Of5();
      [Letter(NatOf(bits[..5]))] + Text(bits[5..])
  }

  /**
   * The key of SEP-0023 for a payload: version byte, payload and the checksum of both, low byte first,
   * in base32.
   */
  function Encode(version: Byte, payload: seq<Byte>): string
    requires |payload| == 32
  {
    var message := [version] + payload;
    var crc := Remainder(MessageBits(message) + Zero());
    Text(MessageBits(message) + crc[8..] + crc[..8])
  }

  lemma {:induction false} LowBitsOfNat(bits: seq<bool>)
    ensures LowBits(NatOf(bits), |bits|) == bits
    decreases |bits|
  {
    if bits != [] {
      var rest := bits[..|bits| - 1];
      LowBitsOfNat(rest);
      assert NatOf(bits) / 2 == NatOf(rest);
      assert rest + [bits[|bits| - 1]] == bits;
    }
  }

  lemma LetterBits(bits: seq<bool>)
    requires |bits| == 5
    ensures NatOf(bits) < 32 && InAlphabet(Letter(NatOf(bits))) && CharBits(Letter(NatOf(bits))) == bits
  {
    Pow2Of5();
    LetterValue(NatOf(bits));
    LowBitsOfNat(bits);
  }

  lemma BitsOfLetterAndText(c: char, s: string)
    requires InAlphabet(c) && IsBase32(s)
    ensures IsBase32([c] + s) && TextBits([c] + s) == CharBits(c) + TextBits(s)
  {
    assert Quintets([c] + s)[1..] == Quintets(s);
  }

  lemma StillBase32(c: char, s: string)
    requires InAlphabet(c) && IsBase32(s)
    ensures IsBase32([c] + s)
  {
  }

  lemma {:induction false} TextShape(bits: seq<bool>)
    requires |bits| % 5 == 0
    ensures IsBase32(Text(bits)) && 5 * |Text(bits)| == |bits|
    decreases |bits|
  {
    if bits != [] {
      LetterBits(bits[..5]);
      TextShape(bits[5..]);
      StillBase32(Letter(NatOf(bits[..5])), Text(bits[5..]));
    }
  }

  /** Decoding the letters of some bits gives the bits back. */
  lemma {:induction false} TextRoundTrip(bits: seq<bool>)
    requires |bits| % 5 == 0
    ensures IsBase32(Text(bits)) && 5 * |Text(bits)| == |bits| && TextBits(Text(bits)) == bits
    decreases |bits|
  {
    TextShape(bits);
    if bits != [] {
      LetterBits(bits[..5]);
      TextRoundTrip(bits[5..]);
      BitsOfLetterAndText(Letter(NatOf(bits[..5])), Text(bits[5..]));
      assert bits[..5] + bits[5..] == bits;
    }
  }

  lemma {:induction false} BytesOfBits(data: seq<Byte>)
    ensures Bytes(MessageBits(data)) == data
    decreases |data|
  {
    if data != [] {
      BytesOfBits(data[1..]);
      assert MessageBits(data)[..8] == data[0] && MessageBits(data)[8..] == MessageBits(data[1..]);
    }
  }

  /** The 35 bytes behind an encoded key. */
  function KeyBytesOf(message: seq<Byte>, crc: Word): seq<Byte> {
    message + [crc[8..], crc[..8]]
  }

  lemma KeyBitsOf(message: seq<Byte>, crc: Word)
    ensures MessageBits(KeyBytesOf(message, crc)) == MessageBits(message) + crc[8..] + crc[..8]
  {
    MessageBitsAppend(message, [crc[8..], crc[..8]]);
    var low, high: Byte := crc[8..], crc[..8];
    assert MessageBits([high]) == high && [low, high][1..] == [high];
    assert MessageBits([low, high]) == low + high;
    assert MessageBits(message) + crc[8..] + crc[..8] == MessageBits(message) + (low + high);
  }

  lemma EncodedIsAccepted(version: Byte, payload: seq<Byte>)
    requires |payload| == 32
    ensures Error(Encode(version, payload), version) == None
  {
    var message := [version] + payload;
    CrcIsRemainder(message);
    var crc := Crc(message);
    var raw := KeyBytesOf(message, crc);
    KeyBitsOf(message, crc);
    TextRoundTrip(MessageBits(message) + crc[8..] + crc[..8]);
    BytesOfBits(raw);
    assert raw[..33] == message && raw[33..35] == LittleEndian(crc) && raw[0] == version;
  }

  lemma AcceptedIsEncoded(s: string, version: Byte)
    requires Error(s, version) == None
    ensures exists payload: seq<Byte> :: |payload| == 32 && s == Encode(version, payload)
  {
    var raw := Base32Decode(s);
    var payload := raw[1..33];
    var message := [version] + payload;
    assert message == raw[..33];
    CrcIsRemainder(message);
    var crc := Crc(message);
    assert raw == raw[..33] + raw[33..35];
    assert raw == KeyBytesOf(message, crc);
    KeyBitsOf(message, crc);
    BitsOfBytes(TextBits(s));
    TextRoundTrip(TextBits(s));
    TextDecided(s, Text(TextBits(s)));
    assert s == Encode(version, payload);
  }

  /** Exactly the keys that encode some payload under the expected version are accepted. */
  lemma AcceptedIff(s: string, version: Byte)
    ensures Error(s, version) == None <==> exists payload: seq<Byte> :: |payload| == 32 && s == Encode(version, payload)
  {
    if Error(s, version) == None {
      AcceptedIsEncoded(s, version);
    }
    if payload: seq<Byte> :| |payload| == 32 && s == Encode(version, payload) {
      EncodedIsAccepted(version, payload);
    }
  }

  /** An accepted account key starts with 'G', an accepted contract key with 'C'. */
  lemma FirstLetter(s: string)
    ensures Error(s, VERSION_ACCOUNT) == None ==> s[0] == 'G'
    ensures Error(s, VERSION_CONTRACT) == None ==> s[0] == 'C'
  {
    VersionLetters();
    if Error(s, VERSION_ACCOUNT) == None {
      FirstOfAccepted(s, VERSION_ACCOUNT);
    }
    if Error(s, VERSION_CONTRACT) == None {
      FirstOfAccepted(s, VERSION_CONTRACT);
    }
  }

  lemma FirstOfAccepted(s: string, version: Byte)
    requires Error(s, version) == None
    ensures NatOf(version[..5]) < 32 && s[0] == Letter(NatOf(version[..5]))
  {
    AcceptedIsEncoded(s, version);
    var payload: seq<Byte> :| |payload| == 32 && s == Encode(version, payload);
    EncodedLetter(version, payload);
  }

  lemma NatOfFive(a: bool, b: bool, c: bool, d: bool, e: bool)
    ensures NatOf([a, b, c, d, e]) == (if a then 16 else 0) + (if b then 8 else 0) + (if c then 4 else 0)
                                    + (if d then 2 else 0) + (if e then 1 else 0)
  {
    assert [a, b, c, d, e][..4] == [a, b, c, d] && [a, b, c, d][..3] == [a, b, c];
    assert [a, b, c][..2] == [a, b] && [a, b][..1] == [a] && [a][..0] == [];
    assert NatOf([a]) == (if a then 1 else 0);
    assert NatOf([a, b]) == 2 * NatOf([a]) + (if b then 1 else 0);
    assert NatOf([a, b, c]) == 2 * NatOf([a, b]) + (if c then 1 else 0);
    assert NatOf([a, b, c, d]) == 2 * NatOf([a, b, c]) + (if d then 1 else 0);
  }

  lemma VersionLetters()
    ensures NatOf(VERSION_ACCOUNT[..5]) == 6 && Letter(6) == 'G'
    ensures NatOf(VERSION_CONTRACT[..5]) == 2 && Letter(2) == 'C'
  {
    NatOfFive(false, false, true, true, false);
    NatOfFive(false, false, false, true, false);
    assert VERSION_ACCOUNT[..5] == [false, false, true, true, false];
    assert VERSION_CONTRACT[..5] == [false, false, false, true, false];
  }

  lemma EncodedLetter(version: Byte, payload: seq<Byte>)
    requires |payload| == 32
    ensures NatOf(version[..5]) < 32 && Encode(version, payload)[0] == Letter(NatOf(version[..5]))
  {
    Pow2Of5();
    var message := [version] + payload;
    var crc := Remainder(MessageBits(message) + Zero());
    assert (MessageBits(message) + crc[8..] + crc[..8])[..5] == version[..5];
  }
}
