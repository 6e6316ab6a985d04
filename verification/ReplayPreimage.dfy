// The byte strings that the replay-protection digests hash: domain-separated and
// length-prefixed, so that different inputs are never the same byte string.
module ReplayPreimage {
  import opened Options
  import opened ByteStrings

  const TWO_32 := 0x1_0000_0000

  /** "signal-replay-v1" */
  const DOMAIN_TAG: Bytes := [115, 105, 103, 110, 97, 108, 45, 114, 101, 112, 108, 97, 121, 45, 118, 49]

  /** "signal-idempotency-v1" */
  const IDEMPOTENCY_DOMAIN_TAG: Bytes :=
    [115, 105, 103, 110, 97, 108, 45, 105, 100, 101, 109, 112, 111, 116, 101, 110, 99, 121, 45, 118, 49]

  datatype NonceDomain = UserOrder | KeeperRetry | Administrative

  function Tag(d: NonceDomain): Byte {
    match d
    case UserOrder => 0x01
    case KeeperRetry => 0x02
    case Administrative => 0x03
  }

  function FromTag(tag: Byte): Option<NonceDomain> {
    if tag == 0x01 then Some(UserOrder)
    else if tag == 0x02 then Some(KeeperRetry)
    else if tag == 0x03 then Some(Administrative)
    else None
  }

  datatype SubmissionContext =
    SubmissionContext(provider: Bytes, payload: Bytes, caller: Bytes, registry: Bytes, domain: NonceDomain)
  {
    function Fields(): seq<Bytes> {
      [provider, payload, caller, registry]
    }
  }

  datatype IdempotencyKey = IdempotencyKey(operation: Bytes, key: Bytes)
  {
    function Fields(): seq<Bytes> {
      [operation, key]
    }
  }

  // ---- Writing ---------------------------------------------------------------------------

  /** `(n as u32).to_be_bytes()`, which keeps the length modulo 2^32. */
  function U32Be(n: nat): (b: Bytes)
    ensures |b| == 4
  {
    [n / 0x100_0000 % 256, n / 0x1_0000 % 256, n / 0x100 % 256, n % 256]
  }

  function WriteField(field: Bytes): Bytes {
    U32Be(|field|) + field
  }

  function WriteFields(fields: seq<Bytes>): Bytes {
    if fields == [] then [] else WriteField(fields[0]) + WriteFields(fields[1..])
  }

  function SubmissionPreimage(c: SubmissionContext): Bytes {
    DOMAIN_TAG + [0] + [Tag(c.domain)] + WriteFields(c.Fields())
  }

  function IdempotencyPreimage(k: IdempotencyKey): Bytes {
    IDEMPOTENCY_DOMAIN_TAG + [0] + WriteFields(k.Fields())
  }

  /** The loop that feeds the hasher one length-prefixed field after the other. */
  method FeedFields(start: Bytes, fields: seq<Bytes>) returns (fed: Bytes)
    ensures fed == start + WriteFields(fields)
  {
    fed := start;
    for i := 0 to |fields|
      invariant fed + WriteFields(fields[i..]) == start + WriteFields(fields)
    {
      assert fields[i..][1..] == fields[i + 1..];
      assert fed + WriteFields(fields[i..]) == fed + U32Be(|fields[i]|) + fields[i] + WriteFields(fields[i + 1..]);
      fed := fed + U32Be(|fields[i]|);
      fed := fed + fields[i];
    }
    assert fields[|fields|..] == [];
    assert fed + [] == fed;
  }

  method FeedSubmission(c: SubmissionContext) returns (fed: Bytes)
    ensures fed == SubmissionPreimage(c)
  {
    fed := DOMAIN_TAG;
    fed := fed + [0];
    fed := fed + [Tag(c.domain)];
    fed := FeedFields(fed, [c.provider, c.payload, c.caller, c.registry]);
  }

  method FeedIdempotencyKey(k: IdempotencyKey) returns (fed: Bytes)
    ensures fed == IdempotencyPreimage(k)
  {
    fed := IDEMPOTENCY_DOMAIN_TAG;
    fed := fed + [0];
    fed := FeedFields(fed, [k.operation, k.key]);
  }

  // ---- Reading back ----------------------------------------------------------------------

  function ReadU32Be(b: Bytes): nat
    requires |b| == 4
  {
    var b0: int, b1: int, b2: int, b3: int := b[0], b[1], b[2], b[3];
    ((b0 * 256 + b1) * 256 + b2) * 256 + b3
  }

  /** The first field of `b` and what follows it. */
  function ReadField(b: Bytes): Option<(Bytes, Bytes)> {
    if |b| < 4 then None
    else
      var n := ReadU32Be(b[..4]);
      if |b| < 4 + n then None else Some((b[4..4 + n], b[4 + n..]))
  }

  /** Exactly `count` fields and nothing after them. */
  function ReadFields(b: Bytes, count: nat): Option<seq<Bytes>>
    decreases count
  {
    if count == 0 then if b == [] then Some([]) else None
    else match ReadField(b)
      case None => None
      case Some((field, rest)) =>
        match ReadFields(rest, count - 1)
        case None => None
        case Some(fields) => Some([field] + fields)
  }

  predicate Short(field: Bytes) {
    |field| < TWO_32
  }

  lemma U32RoundTrip(n: nat)
    requires n < TWO_32
    ensures ReadU32Be(U32Be(n)) == n
  {
    var a := n / 0x100;
    var b := a / 0x100;
    var c := b / 0x100;
    assert n == a * 256 + n % 256 && a == b * 256 + a % 256 && b == c * 256 + b % 256;
    assert b == n / 0x1_0000 && c == n / 0x100_0000;
    assert c % 256 == c;
  }

  lemma FieldRoundTrip(field: Bytes, rest: Bytes)
    requires Short(field)
    ensures ReadField(WriteField(field) + rest) == Some((field, rest))
  {
    var b := WriteField(field) + rest;
    assert b[..4] == U32Be(|field|);
    U32RoundTrip(|field|);
    assert b[4..4 + |field|] == field && b[4 + |field|..] == rest;
  }

  lemma {:induction false} FieldsRoundTrip(fields: seq<Bytes>)
    requires forall f | f in fields :: Short(f)
    ensures ReadFields(WriteFields(fields), |fields|) == Some(fields)
    decreases |fields|
  {
    if fields != [] {
      FieldRoundTrip(fields[0], WriteFields(fields[1..]));
      FieldsRoundTrip(fields[1..]);
      assert [fields[0]] + fields[1..] == fields;
    }
  }

  lemma TagRoundTrip(d: NonceDomain)
    ensures FromTag(Tag(d)) == Some(d)
  {
  }

  // ---- Injectivity and separation -----------------------------------------------------------

  lemma FieldsInjective(p: seq<Bytes>, q: seq<Bytes>)
    requires |p| == |q| && (forall f | f in p :: Short(f)) && (forall f | f in q :: Short(f))
    requires WriteFields(p) == WriteFields(q)
    ensures p == q
  {
    FieldsRoundTrip(p);
    FieldsRoundTrip(q);
  }

  lemma PrefixCancels(prefix: Bytes, x: Bytes, y: Bytes)
    requires prefix + x == prefix + y
    ensures x == y
  {
    assert x == (prefix + x)[|prefix|..] && y == (prefix + y)[|prefix|..];
  }

  ghost predicate ShortContext(c: SubmissionContext) {
    Short(c.provider) && Short(c.payload) && Short(c.caller) && Short(c.registry)
  }

  ghost predicate ShortKey(k: IdempotencyKey) {
    Short(k.operation) && Short(k.key)
  }

  /** Equal submission preimages come from equal domain, provider, payload, caller and registry. */
  lemma SubmissionInjective(c: SubmissionContext, d: SubmissionContext)
    requires ShortContext(c) && ShortContext(d)
    requires SubmissionPreimage(c) == SubmissionPreimage(d)
    ensures c == d
  {
    var header := DOMAIN_TAG + [0];
    var cw, dw := WriteFields(c.Fields()), WriteFields(d.Fields());
    assert SubmissionPreimage(c) == header + ([Tag(c.domain)] + cw);
    assert SubmissionPreimage(d) == header + ([Tag(d.domain)] + dw);
    PrefixCancels(header, [Tag(c.domain)] + cw, [Tag(d.domain)] + dw);
    assert ([Tag(c.domain)] + cw)[0] == Tag(c.domain) && ([Tag(d.domain)] + dw)[0] == Tag(d.domain);
    PrefixCancels([Tag(c.domain)], cw, dw);
    FieldsInjective(c.Fields(), d.Fields());
    assert c.Fields()[0] == d.Fields()[0] && c.Fields()[1] == d.Fields()[1];
    assert c.Fields()[2] == d.Fields()[2] && c.Fields()[3] == d.Fields()[3];
  }

  /** Equal idempotency preimages come from equal operation and key. */
  lemma IdempotencyInjective(k: IdempotencyKey, l: IdempotencyKey)
    requires ShortKey(k) && ShortKey(l)
    requires IdempotencyPreimage(k) == IdempotencyPreimage(l)
    ensures k == l
  {
    PrefixCancels(IDEMPOTENCY_DOMAIN_TAG + [0], WriteFields(k.Fields()), WriteFields(l.Fields()));
    FieldsInjective(k.Fields(), l.Fields());
    assert k.Fields()[0] == l.Fields()[0] && k.Fields()[1] == l.Fields()[1];
  }

  /** No submission preimage is an idempotency preimage, whatever the lengths of the fields. */
  lemma DomainsSeparated(c: SubmissionContext, k: IdempotencyKey)
    ensures SubmissionPreimage(c) != IdempotencyPreimage(k)
  {
    assert SubmissionPreimage(c)[7] == DOMAIN_TAG[7] == 114;
    assert IdempotencyPreimage(k)[7] == IDEMPOTENCY_DOMAIN_TAG[7] == 105;
  }

  /** `x` and `y` show that `hash` is not injective. */
  predicate Collision<Digest(==)>(hash: Bytes -> Digest, x: Bytes, y: Bytes) {
    x != y && hash(x) == hash(y)
  }

  /** Whatever the hash, different submissions share a digest exactly when their own preimages collide. */
  lemma SharedDigestIsCollision<Digest>(hash: Bytes -> Digest, c: SubmissionContext, d: SubmissionContext)
    requires ShortContext(c) && ShortContext(d) && c != d
    ensures hash(SubmissionPreimage(c)) == hash(SubmissionPreimage(d))
       <==> Collision(hash, SubmissionPreimage(c), SubmissionPreimage(d))
  {
    if SubmissionPreimage(c) == SubmissionPreimage(d) {
      SubmissionInjective(c, d);
    }
  }

  /** The tags spell their names. */
  lemma TagsSpell(i: nat)
    ensures |DOMAIN_TAG| == |"signal-replay-v1"| == 16 && |IDEMPOTENCY_DOMAIN_TAG| == |"signal-idempotency-v1"| == 21
    ensures i < 16 ==> DOMAIN_TAG[i] == "signal-replay-v1"[i] as int
    ensures i < 21 ==> IDEMPOTENCY_DOMAIN_TAG[i] == "signal-idempotency-v1"[i] as int
  {
    assert i == 0 || i == 1 || i == 2 || i == 3 || i == 4 || i == 5 || i == 6 || i == 7 || i == 8 || i == 9 || i == 10
        || i == 11 || i == 12 || i == 13 || i == 14 || i == 15 || i == 16 || i == 17 || i == 18 || i == 19 || i == 20
        || i > 20;
  }

  /** The stable byte of each domain. */
  lemma DomainBytes()
    ensures Tag(UserOrder) == 1 && Tag(KeeperRetry) == 2 && Tag(Administrative) == 3
  {
  }

  /** Behind the tag, a zero byte and the domain byte, the fields read back in the announced order. */
  lemma SubmissionLayout(c: SubmissionContext)
    requires ShortContext(c)
    ensures var b := SubmissionPreimage(c);
            && |b| >= 18 && b[..16] == DOMAIN_TAG && b[16] == 0 && FromTag(b[17]) == Some(c.domain)
            && ReadFields(b[18..], 4) == Some([c.provider, c.payload, c.caller, c.registry])
  {
    var fields := WriteFields(c.Fields());
    assert SubmissionPreimage(c)[18..] == fields;
    TagRoundTrip(c.domain);
    FieldsRoundTrip(c.Fields());
  }

  lemma IdempotencyLayout(k: IdempotencyKey)
    requires ShortKey(k)
    ensures var b := IdempotencyPreimage(k);
            && |b| >= 22 && b[..21] == IDEMPOTENCY_DOMAIN_TAG && b[21] == 0
            && ReadFields(b[22..], 2) == Some([k.operation, k.key])
  {
    assert IdempotencyPreimage(k)[22..] == WriteFields(k.Fields());
    FieldsRoundTrip(k.Fields());
  }

  /** The byte string the file header describes, which has no domain byte. */
  function HeaderPreimage(c: SubmissionContext): Bytes {
    DOMAIN_TAG + [0] + WriteFields(c.Fields())
  }

  /**
   * The header is never what is hashed: it is one byte short, and it gives a submission the same bytes
   * in every domain where the hashed ones differ.
   */
  lemma HeaderOmitsDomain(c: SubmissionContext, domain: NonceDomain)
    ensures |SubmissionPreimage(c)| == |HeaderPreimage(c)| + 1
    ensures HeaderPreimage(c.(domain := domain)) == HeaderPreimage(c)
    ensures SubmissionPreimage(c.(domain := domain)) == SubmissionPreimage(c) <==> domain == c.domain
  {
    var d := c.(domain := domain);
    assert d.Fields() == c.Fields();
    var at := |DOMAIN_TAG| + 1;
    assert SubmissionPreimage(c)[at] == Tag(c.domain) && SubmissionPreimage(d)[at] == Tag(domain);
    TagRoundTrip(c.domain);
    TagRoundTrip(domain);
  }

  // ---- Where the length prefix stops telling fields apart ---------------------------------------

  function Zeros(n: nat): Bytes {
    seq(n, _ => 0)
  }

  /** A field of 2^32 zero bytes hides behind the same prefix as an empty one. */
  lemma LongFieldsCollide(rest: seq<Bytes>)
    ensures WriteFields([Zeros(TWO_32), []] + rest) == WriteFields([[], Zeros(TWO_32)] + rest)
  {
    var long := Zeros(TWO_32);
    assert U32Be(|long|) == Zeros(4) && U32Be(0) == Zeros(4);
    WriteTwo(long, [], rest);
    WriteTwo([], long, rest);
    assert U32Be(|long|) + long + U32Be(0) + [] == Zeros(TWO_32 + 8) == U32Be(0) + [] + U32Be(|long|) + long;
  }

  lemma WriteTwo(x: Bytes, y: Bytes, rest: seq<Bytes>)
    ensures WriteFields([x, y] + rest) == U32Be(|x|) + x + U32Be(|y|) + y + WriteFields(rest)
  {
    assert ([x, y] + rest)[1..] == [y] + rest && ([y] + rest)[1..] == rest;
    assert WriteFields([y] + rest) == WriteField(y) + WriteFields(rest);
  }

  function LongOperation(): IdempotencyKey {
    IdempotencyKey(Zeros(TWO_32), [])
  }

  function LongKey(): IdempotencyKey {
    IdempotencyKey([], Zeros(TWO_32))
  }

  /** Two idempotency keys with a field of 2^32 bytes and one preimage. */
  lemma LongKeysCollide()
    ensures LongOperation() != LongKey() && IdempotencyPreimage(LongOperation()) == IdempotencyPreimage(LongKey())
  {
    LongFieldsCollide([]);
    assert LongOperation().Fields() == [Zeros(TWO_32), []] + [];
    assert LongKey().Fields() == [[], Zeros(TWO_32)] + [];
    assert |LongOperation().operation| != |LongKey().operation|;
  }

  function LongProvider(): SubmissionContext {
    SubmissionContext(Zeros(TWO_32), [], [], [], UserOrder)
  }

  function LongPayload(): SubmissionContext {
    SubmissionContext([], Zeros(TWO_32), [], [], UserOrder)
  }

  /** Two submissions with a field of 2^32 bytes and one preimage. */
  lemma LongSubmissionsCollide()
    ensures LongProvider() != LongPayload() && SubmissionPreimage(LongProvider()) == SubmissionPreimage(LongPayload())
  {
    LongFieldsCollide([[], []]);
    assert LongProvider().Fields() == [Zeros(TWO_32), []] + [[], []];
    assert LongPayload().Fields() == [[], Zeros(TWO_32)] + [[], []];
    assert |LongProvider().provider| != |LongPayload().provider|;
  }

  ghost predicate FieldsWithin(fields: seq<Bytes>, limit: nat) {
    forall f | f in fields :: |f| < limit
  }

  /** All idempotency keys whose fields are shorter than `limit` have different preimages. */
  ghost predicate SafeForKeys(limit: nat) {
    forall k: IdempotencyKey, l: IdempotencyKey | FieldsWithin(k.Fields(), limit) && FieldsWithin(l.Fields(), limit) ::
      IdempotencyPreimage(k) == IdempotencyPreimage(l) ==> k == l
  }

  /** All submissions whose fields are shorter than `limit` have different preimages. */
  ghost predicate SafeForSubmissions(limit: nat) {
    forall c: SubmissionContext, d: SubmissionContext | FieldsWithin(c.Fields(), limit)
        && FieldsWithin(d.Fields(), limit) ::
      SubmissionPreimage(c) == SubmissionPreimage(d) ==> c == d
  }

  /** 2^32 is the exact limit below which idempotency preimages are unambiguous. */
  lemma LimitIsExact(limit: nat)
    ensures SafeForKeys(limit) <==> limit <= TWO_32
  {
    if limit <= TWO_32 {
      forall k: IdempotencyKey, l: IdempotencyKey | FieldsWithin(k.Fields(), limit) && FieldsWithin(l.Fields(), limit)
                                                    && IdempotencyPreimage(k) == IdempotencyPreimage(l)
        ensures k == l
      {
        IdempotencyInjective(k, l);
      }
    } else {
      LongKeysCollide();
      assert FieldsWithin(LongOperation().Fields(), limit) && FieldsWithin(LongKey().Fields(), limit);
    }
  }

  /** The same limit is exact for submissions. */
  lemma SubmissionLimitIsExact(limit: nat)
    ensures SafeForSubmissions(limit) <==> limit <= TWO_32
  {
    if limit <= TWO_32 {
      forall c: SubmissionContext, d: SubmissionContext | FieldsWithin(c.Fields(), limit)
          && FieldsWithin(d.Fields(), limit)
                                                          && SubmissionPreimage(c) == SubmissionPreimage(d)
        ensures c == d
      {
        SubmissionInjective(c, d);
      }
    } else {
      LongSubmissionsCollide();
      assert FieldsWithin(LongProvider().Fields(), limit) && FieldsWithin(LongPayload().Fields(), limit);
    }
  }
}
