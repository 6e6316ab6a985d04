// The structural checks of the event schema, and what the topic uniqueness rule
// means for an indexer: no published topic tuple fits two events of a contract.
module EventSchema {
  import opened Options

  /** A body field of an event; `name` is None when the key is missing. */
  datatype BodyField = NotAnObject | Field(name: Option<string>, fieldType: string)

  /**
   * An entry of the `events` array. `topics` and `fields` are None when the key does not hold an
   * array (of strings, for `topics`).
   */
  datatype Event =
    | NotAnEvent
    | Event(contract: string, name: string, version: Option<string>,
            topics: Option<seq<string>>, fields: Option<seq<BodyField>>)

  datatype Document = Document(version: Option<string>, events: Option<seq<Event>>, notesAreAnObject: bool)

  datatype SchemaError =
    | NoVersion
    | NoEvents
    | Incomplete
    | DuplicateIdentifier(id: string)
    | InvalidName(id: string)
    | VersionMismatch(id: string)
    | BadTopics(id: string)
    | BadFields(id: string)
    | NoLiteralTopic(id: string)
    | NotASymbol(id: string, slot: string)
    | TopicCollision(id: string, other: string)
    | DuplicateOrUnnamedField(id: string)
    | UnsupportedFieldType(id: string)
    | MissingContracts
    | NotesNotAnObject

  const SYMBOL := "symbol:"

  const REQUIRED_CONTRACTS: set<string> :=
    {"signal_registry", "stake_vault", "fee_collector", "governance", "bridge"}

  const SCALAR_TYPES: set<string> :=
    {"Address", "Option<u64>", "String", "Symbol", "Vec<Address>", "Vec<String>", "bool", "i128", "u32", "u64",
     "object"}

  // ---- Signatures and collisions ---------------------------------------------------------

  function EventId(e: Event): string
    requires e.Event?
  {
    e.contract + "." + e.name
  }

  /** A literal symbol, or a field name in braces. */
  function Resolve(e: Event, topic: string): string
    requires e.Event?
  {
    if topic == "symbol:event_name" then e.name
    else if SYMBOL <= topic then topic[|SYMBOL|..]
    else "{" + topic + "}"
  }

  function Signature(e: Event): seq<string>
    requires e.Event? && e.topics.Some?
  {
    seq(|e.topics.value|, i requires 0 <= i < |e.topics.value| => Resolve(e, e.topics.value[i]))
  }

  method TopicSignature(e: Event) returns (signature: seq<string>)
    requires e.Event? && e.topics.Some?
    ensures signature == Signature(e)
  {
    signature := [];
    for i := 0 to |e.topics.value|
      invariant signature == Signature(e)[..i]
    {
      var topic := e.topics.value[i];
      if topic == "symbol:event_name" {
        signature := signature + [e.name];
      } else if SYMBOL <= topic {
        signature := signature + [topic[|SYMBOL|..]];
      } else {
        signature := signature + ["{" + topic + "}"];
      }
    }
  }

  predicate IsField(slot: string) {
    "{" <= slot
  }

  predicate TopicsCollide(a: seq<string>, b: seq<string>) {
    |a| == |b| && forall i | 0 <= i < |a| :: a[i] == b[i] || IsField(a[i]) || IsField(b[i])
  }

  /** A tuple fits a resolved signature as the check reads it: every slot that starts with a brace is a field. */
  ghost predicate Fits(tuple: seq<string>, signature: seq<string>) {
    |tuple| == |signature| && forall i | 0 <= i < |tuple| :: IsField(signature[i]) || tuple[i] == signature[i]
  }

  ghost predicate Confusable(a: seq<string>, b: seq<string>) {
    exists tuple :: Fits(tuple, a) && Fits(tuple, b)
  }

  /** On resolved signatures the check decides exactly whether some tuple fits both. */
  lemma CollideIffConfusable(a: seq<string>, b: seq<string>)
    ensures TopicsCollide(a, b) <==> Confusable(a, b)
  {
    if TopicsCollide(a, b) {
      var tuple := seq(|a|, i requires 0 <= i < |a| => if IsField(a[i]) then b[i] else a[i]);
      assert Fits(tuple, a) && Fits(tuple, b);
    }
  }

  // ---- What the topics of an event mean -------------------------------------------------------

  /** A topic is a literal exactly when it carries the `symbol:` prefix; any other names a data field. */
  predicate IsLiteral(topic: string) {
    "symbol:" <= topic
  }

  /** The text a literal topic publishes: the event's own name, or what stands after the prefix. */
  function LiteralOf(e: Event, topic: string): (text: string)
    requires e.Event? && IsLiteral(topic)
    ensures topic == "symbol:event_name" ==> text == e.name
    ensures topic != "symbol:event_name" ==> topic == "symbol:" + text
  {
    if topic == "symbol:event_name" then e.name else topic[7..]
  }

  predicate OpensBrace(text: string) {
    text != "" && text[0] == '{'
  }

  /** A topic tuple the event can publish: its literals as they are, its fields with any value. */
  ghost predicate Instance(tuple: seq<string>, e: Event)
    requires e.Event? && e.topics.Some?
  {
    && |tuple| == |e.topics.value|
    && forall i | 0 <= i < |tuple| :: IsLiteral(e.topics.value[i]) ==> tuple[i] == LiteralOf(e, e.topics.value[i])
  }

  /** Some tuple could come from either event. */
  ghost predicate Ambiguous(a: Event, b: Event)
    requires a.Event? && a.topics.Some? && b.Event? && b.topics.Some?
  {
    exists tuple :: Instance(tuple, a) && Instance(tuple, b)
  }

  /** No literal of the event publishes a text that starts with a brace. */
  predicate NoBraces(e: Event)
    requires e.Event? && e.topics.Some?
  {
    forall i | 0 <= i < |e.topics.value| && IsLiteral(e.topics.value[i]) :: !OpensBrace(LiteralOf(e, e.topics.value[i]))
  }

  /** A literal resolves to what it publishes, anything else to a field slot. */
  lemma FieldOrLiteral(e: Event, topic: string)
    requires e.Event?
    ensures IsLiteral(topic) ==> Resolve(e, topic) == LiteralOf(e, topic)
    ensures !IsLiteral(topic) ==> IsField(Resolve(e, topic))
    ensures IsField(Resolve(e, topic)) <==> OpensBrace(Resolve(e, topic))
  {
    assert |SYMBOL| == 7 && SYMBOL <= "symbol:event_name";
    BraceFirst(Resolve(e, topic));
  }

  lemma ResolvedTopics(e: Event)
    requires e.Event? && e.topics.Some?
    ensures forall i | 0 <= i < |e.topics.value| ::
              && (IsLiteral(e.topics.value[i]) ==> Signature(e)[i] == LiteralOf(e, e.topics.value[i]))
              && (!IsLiteral(e.topics.value[i]) ==> IsField(Signature(e)[i]))
              && (IsField(Signature(e)[i]) <==> OpensBrace(Signature(e)[i]))
  {
    forall i | 0 <= i < |e.topics.value|
      ensures IsLiteral(e.topics.value[i]) ==> Signature(e)[i] == LiteralOf(e, e.topics.value[i])
      ensures !IsLiteral(e.topics.value[i]) ==> IsField(Signature(e)[i])
      ensures IsField(Signature(e)[i]) <==> OpensBrace(Signature(e)[i])
    {
      FieldOrLiteral(e, e.topics.value[i]);
    }
  }

  lemma BraceFirst(s: string)
    ensures IsField(s) <==> OpensBrace(s)
  {
    assert |"{"| == 1 && "{"[0] == '{';
  }

  /** Events that can publish the same tuple always collide. */
  lemma AmbiguousCollide(a: Event, b: Event)
    requires a.Event? && a.topics.Some? && b.Event? && b.topics.Some? && Ambiguous(a, b)
    ensures TopicsCollide(Signature(a), Signature(b))
  {
    var tuple :| Instance(tuple, a) && Instance(tuple, b);
    var x, y := Signature(a), Signature(b);
    forall i | 0 <= i < |x|
      ensures x[i] == y[i] || IsField(x[i]) || IsField(y[i])
    {
      FieldOrLiteral(a, a.topics.value[i]);
      FieldOrLiteral(b, b.topics.value[i]);
      assert IsLiteral(a.topics.value[i]) ==> tuple[i] == x[i];
      assert IsLiteral(b.topics.value[i]) ==> tuple[i] == y[i];
    }
  }

  /** Without such literals, events collide exactly when some tuple could come from either. */
  lemma CollideIffAmbiguous(a: Event, b: Event)
    requires a.Event? && a.topics.Some? && b.Event? && b.topics.Some? && NoBraces(a) && NoBraces(b)
    ensures TopicsCollide(Signature(a), Signature(b)) <==> Ambiguous(a, b)
  {
    var x, y := Signature(a), Signature(b);
    ResolvedTopics(a);
    ResolvedTopics(b);
    if TopicsCollide(x, y) {
      var tuple := seq(|x|, i requires 0 <= i < |x| => if IsLiteral(a.topics.value[i]) then x[i] else y[i]);
      assert Instance(tuple, a);
      assert Instance(tuple, b);
    }
    if Ambiguous(a, b) {
      AmbiguousCollide(a, b);
    }
  }

  /** An event with one literal, at position `k` of `n`, and fields elsewhere. */
  function OneLiteral(n: nat, k: nat): Event
    requires k < n
  {
    Event("c", "e", None, Some(seq(n, i => if i == k then "symbol:x" else "f")), None)
  }

  /**
   * The check agrees with the meaning against all events without such literals exactly for an event
   * that has none itself.
   */
  lemma CheckIsExactIff(a: Event)
    requires a.Event? && a.topics.Some?
    ensures (forall b: Event | b.Event? && b.topics.Some? && NoBraces(b) ::
               TopicsCollide(Signature(a), Signature(b)) <==> Ambiguous(a, b))
       <==> NoBraces(a)
  {
    if NoBraces(a) {
      forall b: Event | b.Event? && b.topics.Some? && NoBraces(b)
        ensures TopicsCollide(Signature(a), Signature(b)) <==> Ambiguous(a, b)
      {
        CollideIffAmbiguous(a, b);
      }
    } else {
      var k :| 0 <= k < |a.topics.value| && IsLiteral(a.topics.value[k]) && OpensBrace(LiteralOf(a, a.topics.value[k]));
      BraceMisread(a, k);
    }
  }

  /** The event that the check confuses with `a` and no reader would. */
  lemma BraceMisread(a: Event, k: nat)
    requires a.Event? && a.topics.Some? && k < |a.topics.value|
    requires IsLiteral(a.topics.value[k]) && OpensBrace(LiteralOf(a, a.topics.value[k]))
    ensures var b := OneLiteral(|a.topics.value|, k);
            NoBraces(b) && TopicsCollide(Signature(a), Signature(b)) && !Ambiguous(a, b)
  {
    var b := OneLiteral(|a.topics.value|, k);
    ResolvedTopics(a);
    ResolvedTopics(b);
    assert !IsLiteral("f") && IsLiteral("symbol:x") && LiteralOf(b, "symbol:x") == "x" && !OpensBrace("x");
    assert forall i | 0 <= i < |b.topics.value| && i != k :: b.topics.value[i] == "f";
    assert IsLiteral(b.topics.value[k]) && LiteralOf(b, b.topics.value[k]) != LiteralOf(a, a.topics.value[k]);
  }

  /** Two events that publish nothing but their names are told apart exactly by their names. */
  lemma NamesTellApart(a: Event, b: Event)
    requires a.Event? && b.Event? && a.topics == b.topics == Some(["symbol:event_name"])
    ensures Ambiguous(a, b) <==> a.name == b.name
    ensures !OpensBrace(a.name) && !OpensBrace(b.name) ==>
              (TopicsCollide(Signature(a), Signature(b)) <==> a.name == b.name)
  {
    assert IsLiteral("symbol:event_name");
    if a.name == b.name {
      assert Instance([a.name], a) && Instance([a.name], b);
    }
    if tuple :| Instance(tuple, a) && Instance(tuple, b) {
      assert tuple[0] == a.name && tuple[0] == b.name;
    }
    if !OpensBrace(a.name) && !OpensBrace(b.name) {
      CollideIffAmbiguous(a, b);
    }
  }

  // ---- Well-formed events ------------------------------------------------------------------

  predicate IsWordChar(c: char) {
    'A' <= c <= 'Z' || 'a' <= c <= 'z' || '0' <= c <= '9' || c == '_'
  }

  /** `re.match("^[...]{1,max}$", s)`: `$` also matches before a final newline. */
  predicate Matches(s: string, colon: bool, max: nat) {
    InClass(s, colon, max) || (s != [] && s[|s| - 1] == '\n' && InClass(s[..|s| - 1], colon, max))
  }

  predicate InClass(s: string, colon: bool, max: nat) {
    1 <= |s| <= max && forall i | 0 <= i < |s| :: IsWordChar(s[i]) || (colon && s[i] == ':')
  }

  predicate IsSymbol(slot: string) {
    Matches(slot, false, 32)
  }

  predicate DistinctNames(fields: seq<BodyField>) {
    && (forall i | 0 <= i < |fields| :: fields[i].Field? && fields[i].name.Some?)
    && (forall i, j | 0 <= i < j < |fields| :: fields[i].name != fields[j].name)
  }

  predicate FieldsOk(fields: seq<BodyField>) {
    DistinctNames(fields) && forall i | 0 <= i < |fields| :: fields[i].fieldType in SCALAR_TYPES
  }

  predicate Complete(e: Event) {
    e.Event? && e.contract != "" && e.name != ""
  }

  /** What the check demands of the literals of one event. */
  predicate LiteralsAccepted(e: Event)
    requires e.Event? && e.topics.Some?
  {
    && (exists i | 0 <= i < |Signature(e)| :: !IsField(Signature(e)[i]))
    && (forall i | 0 <= i < |Signature(e)| :: IsField(Signature(e)[i]) || IsSymbol(Signature(e)[i]))
  }

  predicate WellFormed(version: string, e: Event)
    requires Complete(e)
  {
    && Matches(e.name, true, 64)
    && e.version == Some(version)
    && e.topics.Some? && e.topics.value != [] && e.fields.Some?
    && LiteralsAccepted(e)
    && FieldsOk(e.fields.value)
  }

  // ---- Valid documents -----------------------------------------------------------------------

  /** Two events an indexer of their contract can always tell apart. */
  ghost predicate ToldApart(a: Event, b: Event)
    requires Complete(a) && Complete(b)
  {
    && EventId(a) != EventId(b)
    && (a.contract == b.contract && a.topics.Some? && b.topics.Some? ==> !Confusable(Signature(b), Signature(a)))
  }

  ghost predicate EventOk(version: string, events: seq<Event>, i: nat)
    requires i < |events|
  {
    && Complete(events[i]) && WellFormed(version, events[i])
    && forall k | 0 <= k < i && Complete(events[k]) :: ToldApart(events[k], events[i])
  }

  ghost predicate HasContracts(events: seq<Event>) {
    forall c | c in REQUIRED_CONTRACTS :: exists k :: 0 <= k < |events| && events[k].Event? && events[k].contract == c
  }

  ghost predicate ValidDocument(d: Document) {
    && d.version.Some? && d.version.value != "" && d.events.Some? && d.events.value != []
    && (forall i | 0 <= i < |d.events.value| :: EventOk(d.version.value, d.events.value, i))
    && HasContracts(d.events.value)
    && d.notesAreAnObject
  }

  /** In a valid schema, a tuple an event of a contract can publish comes from no other one, braces or not. */
  lemma TupleIdentifiesEvent(d: Document, tuple: seq<string>, i: nat, j: nat)
    requires ValidDocument(d) && i < |d.events.value| && j < |d.events.value|
    requires var a, b := d.events.value[i], d.events.value[j];
             && a.Event? && b.Event? && a.contract == b.contract && a.topics.Some? && b.topics.Some?
             && Instance(tuple, a) && Instance(tuple, b)
    ensures i == j
  {
    var version, events := d.version.value, d.events.value;
    var a, b := events[i], events[j];
    assert EventOk(version, events, i) && EventOk(version, events, j);
    assert Ambiguous(a, b) && Ambiguous(b, a);
    AmbiguousCollide(a, b);
    AmbiguousCollide(b, a);
    CollideIffConfusable(Signature(a), Signature(b));
    CollideIffConfusable(Signature(b), Signature(a));
  }

  // ---- The documented rules --------------------------------------------------------------------

  /** A Soroban symbol: 1 to 32 letters, digits and underscores. */
  predicate SorobanSymbol(s: string) {
    && 1 <= |s| <= 32
    && forall c | c in s :: 'a' <= c <= 'z' || 'A' <= c <= 'Z' || '0' <= c <= '9' || c == '_'
  }

  /** An event name: the same characters and colons, 1 to 64 of them, but for a final newline. */
  predicate EventName(s: string) {
    var base := if s != "" && s[|s| - 1] == '\n' then s[..|s| - 1] else s;
    && 1 <= |base| <= 64
    && forall c | c in base :: 'a' <= c <= 'z' || 'A' <= c <= 'Z' || '0' <= c <= '9' || c == '_' || c == ':'
  }

  lemma EventNameIff(s: string)
    ensures Matches(s, true, 64) <==> EventName(s)
  {
    var base := if s != "" && s[|s| - 1] == '\n' then s[..|s| - 1] else s;
    if Matches(s, true, 64) {
      assert InClass(base, true, 64);
    }
    if EventName(s) {
      forall i | 0 <= i < |base|
        ensures IsWordChar(base[i]) || base[i] == ':'
      {
        assert base[i] in base;
      }
    }
  }

  /** Body fields as documented: named, unique and of a supported type. */
  predicate FieldsDocumented(fields: seq<BodyField>) {
    forall i | 0 <= i < |fields| ::
      && fields[i].Field? && fields[i].name.Some? && fields[i].fieldType in SCALAR_TYPES
      && forall j | 0 <= j < |fields| && i != j :: fields[j].Field? && fields[j].name != fields[i].name
  }

  lemma FieldsIff(fields: seq<BodyField>)
    ensures FieldsOk(fields) <==> FieldsDocumented(fields)
  {
  }

  /** The documented rule of one event: a literal among its topics, and every literal a Soroban symbol. */
  predicate LiteralsDocumented(e: Event)
    requires e.Event? && e.topics.Some?
  {
    && (exists i | 0 <= i < |e.topics.value| :: IsLiteral(e.topics.value[i]))
    && (forall i | 0 <= i < |e.topics.value| && IsLiteral(e.topics.value[i]) ::
          SorobanSymbol(LiteralOf(e, e.topics.value[i])))
  }

  /** A literal the check lets through although it is no symbol: it starts with a brace or ends in a newline. */
  predicate Slips(s: string) {
    OpensBrace(s) || (s != [] && s[|s| - 1] == '\n')
  }

  predicate NoneSlips(e: Event)
    requires e.Event? && e.topics.Some?
  {
    forall i | 0 <= i < |e.topics.value| && IsLiteral(e.topics.value[i]) :: !Slips(LiteralOf(e, e.topics.value[i]))
  }

  lemma SymbolIffMatches(s: string)
    ensures SorobanSymbol(s) <==> IsSymbol(s) && !Slips(s)
    ensures SorobanSymbol(s) ==> !IsField(s)
  {
    BraceFirst(s);
    if SorobanSymbol(s) {
      forall i | 0 <= i < |s|
        ensures IsWordChar(s[i])
      {
        assert s[i] in s;
      }
      assert IsWordChar(s[0]) && IsWordChar(s[|s| - 1]);
    }
  }

  /** The check meets the documented rule exactly for an event it accepts without a literal that slips. */
  lemma LiteralRuleIff(e: Event)
    requires e.Event? && e.topics.Some?
    ensures LiteralsDocumented(e) <==> LiteralsAccepted(e) && NoneSlips(e)
  {
    var topics, signature := e.topics.value, Signature(e);
    ResolvedTopics(e);
    forall i | 0 <= i < |topics|
      ensures SorobanSymbol(signature[i]) <==> IsSymbol(signature[i]) && !Slips(signature[i])
      ensures SorobanSymbol(signature[i]) ==> !IsField(signature[i])
    {
      SymbolIffMatches(signature[i]);
    }
    if LiteralsDocumented(e) {
      var i :| 0 <= i < |topics| && IsLiteral(topics[i]);
      assert !IsField(signature[i]);
    }
    if LiteralsAccepted(e) && NoneSlips(e) {
      var i :| 0 <= i < |signature| && !IsField(signature[i]);
      assert IsLiteral(topics[i]);
    }
  }

  function EventWith(topics: seq<string>): Event {
    Event("c", "e", None, Some(topics), None)
  }

  /** A literal that opens a brace is taken for a field and never checked. */
  lemma BraceLiteralIsAccepted()
    ensures LiteralsAccepted(EventWith(["symbol:ok", "symbol:{bad"]))
        && !LiteralsDocumented(EventWith(["symbol:ok", "symbol:{bad"]))
  {
    var e := EventWith(["symbol:ok", "symbol:{bad"]);
    assert Signature(e)[0] == "ok" && Signature(e)[1] == "{bad";
    BraceFirst("ok");
    BraceFirst("{bad");
    assert InClass("ok", false, 32);
    assert !IsField(Signature(e)[0]);
    LiteralRuleIff(e);
    assert IsLiteral(e.topics.value[1]) && Slips(LiteralOf(e, e.topics.value[1]));
  }

  /** The end of the pattern also matches before a final newline. */
  lemma NewlineLiteralIsAccepted()
    ensures LiteralsAccepted(EventWith(["symbol:ok\n"])) && !LiteralsDocumented(EventWith(["symbol:ok\n"]))
  {
    var e := EventWith(["symbol:ok\n"]);
    assert Signature(e)[0] == "ok\n";
    BraceFirst("ok\n");
    assert "ok\n"[..2] == "ok" && InClass("ok", false, 32);
    assert IsSymbol("ok\n");
    assert !IsField(Signature(e)[0]);
    LiteralRuleIff(e);
    assert IsLiteral(e.topics.value[0]) && Slips(LiteralOf(e, e.topics.value[0]));
  }

  /** The document rules as documented: literals and ambiguity read off the topics themselves. */
  ghost predicate DocumentedEvent(version: string, events: seq<Event>, i: nat)
    requires i < |events|
  {
    && Complete(events[i])
    && EventName(events[i].name) && events[i].version == Some(version)
    && events[i].topics.Some? && events[i].topics.value != [] && events[i].fields.Some?
    && LiteralsDocumented(events[i]) && FieldsDocumented(events[i].fields.value)
    && (forall k | 0 <= k < i && Complete(events[k]) ::
          && EventId(events[k]) != EventId(events[i])
          && (events[k].contract == events[i].contract && events[k].topics.Some? ==> !Ambiguous(events[i], events[k])))
  }

  ghost predicate DocumentedRules(d: Document) {
    && d.version.Some? && d.version.value != "" && d.events.Some? && d.events.value != []
    && (forall i | 0 <= i < |d.events.value| :: DocumentedEvent(d.version.value, d.events.value, i))
    && HasContracts(d.events.value)
    && d.notesAreAnObject
  }

  ghost predicate Unslipped(events: seq<Event>) {
    forall i | 0 <= i < |events| && events[i].Event? && events[i].topics.Some? :: NoneSlips(events[i])
  }

  lemma EventRulesIff(version: string, events: seq<Event>, i: nat)
    requires i < |events| && Unslipped(events)
    ensures EventOk(version, events, i) <==> DocumentedEvent(version, events, i)
  {
    var e := events[i];
    if e.Event? {
      EventNameIff(e.name);
    }
    if e.Event? && e.fields.Some? {
      FieldsIff(e.fields.value);
    }
    if Complete(e) && e.topics.Some? {
      assert NoneSlips(e);
      LiteralRuleIff(e);
      assert NoBraces(e);
      forall k | 0 <= k < i && Complete(events[k]) && events[k].topics.Some?
        ensures Confusable(Signature(e), Signature(events[k])) <==> Ambiguous(e, events[k])
      {
        assert NoneSlips(events[k]);
        assert NoBraces(events[k]);
        CollideIffAmbiguous(e, events[k]);
        CollideIffConfusable(Signature(e), Signature(events[k]));
      }
    }
  }

  lemma UnslippedIff(d: Document)
    requires d.version.Some? && d.events.Some? && Unslipped(d.events.value)
    ensures ValidDocument(d) <==> DocumentedRules(d)
  {
    forall i | 0 <= i < |d.events.value|
      ensures EventOk(d.version.value, d.events.value, i) <==> DocumentedEvent(d.version.value, d.events.value, i)
    {
      EventRulesIff(d.version.value, d.events.value, i);
    }
  }

  /** A document meets the documented rules exactly when the check accepts it and none of its literals slips. */
  lemma DocumentedIff(d: Document)
    ensures DocumentedRules(d) <==> ValidDocument(d) && Unslipped(d.events.value)
  {
    if DocumentedRules(d) {
      var events := d.events.value;
      forall i | 0 <= i < |events| && events[i].Event? && events[i].topics.Some?
        ensures NoneSlips(events[i])
      {
        assert DocumentedEvent(d.version.value, events, i);
        LiteralRuleIff(events[i]);
      }
      UnslippedIff(d);
    } else if ValidDocument(d) && Unslipped(d.events.value) {
      UnslippedIff(d);
    }
  }

  /** An event of a contract that is complete but for a literal that opens a brace. */
  function BracedEvent(contract: string): Event {
    Event(contract, "e", Some("1"), Some(["symbol:ok", "symbol:{bad"]), Some([]))
  }

  /** One such event for each required contract. */
  function BracedDocument(): Document {
    Document(Some("1"), Some([BracedEvent("signal_registry"), BracedEvent("stake_vault"), BracedEvent("fee_collector"),
                              BracedEvent("governance"), BracedEvent("bridge")]), true)
  }

  lemma BracedIsAccepted(contract: string)
    requires contract != ""
    ensures WellFormed("1", BracedEvent(contract)) && !LiteralsDocumented(BracedEvent(contract))
  {
    var e := BracedEvent(contract);
    assert Signature(e)[0] == "ok" && Signature(e)[1] == "{bad";
    BraceFirst("ok");
    BraceFirst("{bad");
    assert InClass("ok", false, 32) && InClass("e", true, 64);
    assert !IsField(Signature(e)[0]);
    LiteralRuleIff(e);
    assert IsLiteral(e.topics.value[1]) && Slips(LiteralOf(e, e.topics.value[1]));
  }

  lemma SameNameOtherContract(a: string, b: string)
    requires a != b
    ensures EventId(BracedEvent(a)) != EventId(BracedEvent(b))
  {
    assert EventId(BracedEvent(a))[..|a|] == a && EventId(BracedEvent(b))[..|b|] == b;
    assert |EventId(BracedEvent(a))| == |a| + 2 && |EventId(BracedEvent(b))| == |b| + 2;
  }

  /** A whole document that the check accepts against the documented rules. */
  lemma BracedDocumentIsAccepted()
    ensures ValidDocument(BracedDocument()) && !DocumentedRules(BracedDocument())
  {
    var events := BracedDocument().events.value;
    var contracts := ["signal_registry", "stake_vault", "fee_collector", "governance", "bridge"];
    assert forall i | 0 <= i < 5 :: events[i] == BracedEvent(contracts[i]) && contracts[i] != "";
    DistinctContracts();
    forall i | 0 <= i < |events|
      ensures EventOk("1", events, i)
    {
      BracedIsAccepted(contracts[i]);
      forall k | 0 <= k < i && Complete(events[k])
        ensures ToldApart(events[k], events[i])
      {
        assert contracts[k] != contracts[i];
        SameNameOtherContract(contracts[k], contracts[i]);
      }
    }
    AllContractsPresent(events);
    BracedIsAccepted("signal_registry");
    assert !DocumentedEvent("1", events, 0);
  }

  lemma DistinctContracts()
    ensures var contracts := ["signal_registry", "stake_vault", "fee_collector", "governance", "bridge"];
            forall i, k | 0 <= k < i < 5 :: contracts[k] != contracts[i]
  {
    assert |"signal_registry"| == 15 && |"stake_vault"| == 11 && |"fee_collector"| == 13;
    assert |"governance"| == 10 && |"bridge"| == 6;
  }

  lemma AllContractsPresent(events: seq<Event>)
    requires events == BracedDocument().events.value
    ensures HasContracts(events)
  {
    forall c | c in REQUIRED_CONTRACTS
      ensures exists k :: 0 <= k < |events| && events[k].Event? && events[k].contract == c
    {
      assert events[0].contract == "signal_registry" && events[1].contract == "stake_vault";
      assert events[2].contract == "fee_collector" && events[3].contract == "governance"
          && events[4].contract == "bridge";
    }
  }

  /** A document without an event of one of the five families is refused. */
  lemma MissingFamilyRefused(d: Document, contract: string)
    requires contract == "signal_registry" || contract == "stake_vault" || contract == "fee_collector"
          || contract == "governance" || contract == "bridge"
    requires d.events.Some? && forall k | 0 <= k < |d.events.value| && d.events.value[k].Event? ::
               d.events.value[k].contract != contract
    ensures !ValidDocument(d)
  {
    assert contract in REQUIRED_CONTRACTS;
  }

  /** The types a body field may have. */
  lemma SupportedTypes(t: string)
    ensures t in SCALAR_TYPES <==>
              || t == "Address" || t == "Option<u64>" || t == "String" || t == "Symbol" || t == "Vec<Address>"
              || t == "Vec<String>" || t == "bool" || t == "i128" || t == "u32" || t == "u64" || t == "object"
  {
  }

  // ---- The validator ---------------------------------------------------------------------------

  type Recorded = seq<(string, seq<string>)>

  /** A collision with one of the first `n` signatures recorded. */
  ghost predicate CollisionFault(id: string, signature: seq<string>, earlier: Recorded, n: nat, e: SchemaError)
    requires n <= |earlier|
  {
    exists k :: 0 <= k < n && e == TopicCollision(id, earlier[k].0) && Confusable(signature, earlier[k].1)
  }

  /** A signature without a literal, or one of its first `n` slots that is a literal and no symbol. */
  ghost predicate LiteralFault(id: string, signature: seq<string>, n: nat, e: SchemaError)
    requires n <= |signature|
  {
    || (e == NoLiteralTopic(id) && forall i | 0 <= i < |signature| :: OpensBrace(signature[i]))
    || exists i :: 0 <= i < n && e == NotASymbol(id, signature[i])
                   && !OpensBrace(signature[i]) && !IsSymbol(signature[i])
  }

  /** The faults of one complete event with a fresh identifier. */
  ghost predicate EventFault(version: string, ev: Event, earlier: Recorded, e: SchemaError)
    requires Complete(ev)
  {
    var id := EventId(ev);
    var readable := ev.topics.Some? && ev.topics.value != [] && ev.fields.Some?;
    || (e == InvalidName(id) && !EventName(ev.name))
    || (e == VersionMismatch(id) && ev.version != Some(version))
    || (e == BadTopics(id) && (ev.topics.None? || ev.topics.value == []))
    || (e == BadFields(id) && ev.topics.Some? && ev.topics.value != [] && ev.fields.None?)
    || (readable && LiteralFault(id, Signature(ev), |Signature(ev)|, e))
    || (readable && CollisionFault(id, Signature(ev), earlier, |earlier|, e))
    || (readable && FieldFault(id, ev.fields.value, e))
  }

  method CollisionErrors(id: string, signature: seq<string>, earlier: Recorded) returns (errors: seq<SchemaError>)
    ensures errors == [] <==> forall s | s in RecordedSet(earlier) :: !Confusable(signature, s)
    ensures forall e :: e in errors <==> CollisionFault(id, signature, earlier, |earlier|, e)
  {
    errors := [];
    for k := 0 to |earlier|
      invariant forall e :: e in errors <==> CollisionFault(id, signature, earlier, k, e)
      invariant errors == [] <==> forall j | 0 <= j < k :: !Confusable(signature, earlier[j].1)
    {
      CollideIffConfusable(signature, earlier[k].1);
      if TopicsCollide(signature, earlier[k].1) {
        errors := errors + [TopicCollision(id, earlier[k].0)];
      }
    }
  }

  lemma BracesFirst(signature: seq<string>)
    ensures forall i | 0 <= i < |signature| :: IsField(signature[i]) <==> OpensBrace(signature[i])
  {
    forall i | 0 <= i < |signature|
      ensures IsField(signature[i]) <==> OpensBrace(signature[i])
    {
      BraceFirst(signature[i]);
    }
  }

  method LiteralErrors(id: string, signature: seq<string>) returns (errors: seq<SchemaError>)
    ensures errors == [] <==>
              && (exists i | 0 <= i < |signature| :: !IsField(signature[i]))
              && (forall i | 0 <= i < |signature| :: IsField(signature[i]) || IsSymbol(signature[i]))
    ensures forall e :: e in errors <==> LiteralFault(id, signature, |signature|, e)
  {
    BracesFirst(signature);
    errors := [];
    if forall i | 0 <= i < |signature| :: IsField(signature[i]) {
      errors := errors + [NoLiteralTopic(id)];
    }
    ghost var start := errors;
    for k := 0 to |signature|
      invariant forall e :: e in errors <==> LiteralFault(id, signature, k, e)
      invariant errors == []
           <==> start == [] && forall i | 0 <= i < k :: IsField(signature[i]) || IsSymbol(signature[i])
    {
      if !IsField(signature[k]) && !IsSymbol(signature[k]) {
        errors := errors + [NotASymbol(id, signature[k])];
      }
    }
  }

  /** The fault of a list of body fields, if it has one. */
  predicate FieldFault(id: string, fields: seq<BodyField>, e: SchemaError) {
    || (e == DuplicateOrUnnamedField(id) && !DistinctNames(fields))
    || (e == UnsupportedFieldType(id) && DistinctNames(fields) && !FieldsDocumented(fields))
  }

  method FieldErrors(id: string, fields: seq<BodyField>) returns (errors: seq<SchemaError>)
    ensures errors == [] <==> FieldsOk(fields)
    ensures forall e :: e in errors <==> FieldFault(id, fields, e)
  {
    FieldsIff(fields);
    errors := [];
    if !DistinctNames(fields) {
      errors := errors + [DuplicateOrUnnamedField(id)];
    } else if exists i | 0 <= i < |fields| :: fields[i].fieldType !in SCALAR_TYPES {
      errors := errors + [UnsupportedFieldType(id)];
    }
  }

  /**
   * The checks of one complete event with a fresh identifier; `recorded` is its signature unless
   * the topics or fields are unreadable.
   */
  method EventErrors(version: string, e: Event, earlier: Recorded)
    returns (errors: seq<SchemaError>, recorded: Option<seq<string>>)
    requires Complete(e)
    ensures recorded.Some? ==> e.topics.Some? && recorded.value == Signature(e)
    ensures errors == [] ==> recorded.Some?
    ensures errors == [] <==>
              && WellFormed(version, e)
              && forall s | s in RecordedSet(earlier) :: !Confusable(Signature(e), s)
    ensures forall f :: f in errors <==> EventFault(version, e, earlier, f)
  {
    EventNameIff(e.name);
    var id := EventId(e);
    errors := [];
    if !Matches(e.name, true, 64) {
      errors := errors + [InvalidName(id)];
    }
    if e.version != Some(version) {
      errors := errors + [VersionMismatch(id)];
    }
    if e.topics.None? || e.topics.value == [] {
      return errors + [BadTopics(id)], None;
    }
    if e.fields.None? {
      return errors + [BadFields(id)], None;
    }
    var signature := TopicSignature(e);
    var more := LiteralErrors(id, signature);
    errors := errors + more;
    more := CollisionErrors(id, signature, earlier);
    errors := errors + more;
    more := FieldErrors(id, e.fields.value);
    errors := errors + more;
    recorded := Some(signature);
  }

  function EarlierOf(signatures: map<string, Recorded>, contract: string): Recorded {
    if contract in signatures then signatures[contract] else []
  }

  ghost function RecordedSet(recorded: Recorded): set<seq<string>> {
    set r | 0 <= r < |recorded| :: recorded[r].1
  }

  ghost predicate Readable(e: Event) {
    Complete(e) && e.topics.Some?
  }

  ghost function Identifiers(events: seq<Event>): set<string> {
    set k | 0 <= k < |events| && Complete(events[k]) :: EventId(events[k])
  }

  ghost function Contracts(events: seq<Event>): set<string> {
    set k | 0 <= k < |events| && Complete(events[k]) :: events[k].contract
  }

  ghost function SignaturesOf(events: seq<Event>, contract: string): set<seq<string>> {
    set k | 0 <= k < |events| && Readable(events[k]) && events[k].contract == contract :: Signature(events[k])
  }

  /** The dictionary files exactly the signatures of the events read so far. */
  ghost predicate Filed(events: seq<Event>, signatures: map<string, Recorded>) {
    forall c :: RecordedSet(EarlierOf(signatures, c)) == SignaturesOf(events, c)
  }

  lemma RecordedAppend(recorded: Recorded, id: string, signature: seq<string>)
    ensures RecordedSet(recorded + [(id, signature)]) == RecordedSet(recorded) + {signature}
  {
    var longer: Recorded := recorded + [(id, signature)];
    assert longer[|recorded|].1 == signature;
    forall s | s in RecordedSet(recorded)
      ensures s in RecordedSet(longer)
    {
      var r :| 0 <= r < |recorded| && recorded[r].1 == s;
      assert longer[r].1 == s;
    }
  }

  lemma AppendEvent(events: seq<Event>, e: Event)
    requires Readable(e)
    ensures Identifiers(events + [e]) == Identifiers(events) + {EventId(e)}
    ensures Contracts(events + [e]) == Contracts(events) + {e.contract}
  {
    var longer := events + [e];
    assert longer[|events|] == e;
    assert forall k | 0 <= k < |events| :: longer[k] == events[k];
  }

  lemma AppendSignature(events: seq<Event>, e: Event, c: string)
    requires Readable(e)
    ensures SignaturesOf(events + [e], c) == SignaturesOf(events, c) + (if e.contract == c then {Signature(e)} else {})
  {
    var longer := events + [e];
    assert longer[|events|] == e;
    assert forall k | 0 <= k < |events| :: longer[k] == events[k];
  }

  lemma File(events: seq<Event>, e: Event, signatures: map<string, Recorded>)
    requires Readable(e) && Filed(events, signatures)
    ensures Filed(events + [e],
                  signatures[e.contract := EarlierOf(signatures, e.contract) + [(EventId(e), Signature(e))]])
  {
    var filed: map<string, Recorded> :=
      signatures[e.contract := EarlierOf(signatures, e.contract) + [(EventId(e), Signature(e))]];
    forall c
      ensures RecordedSet(EarlierOf(filed, c)) == SignaturesOf(events + [e], c)
    {
      AppendSignature(events, e, c);
      RecordedAppend(EarlierOf(signatures, c), EventId(e), Signature(e));
    }
  }

  /** An event is told apart from all before it when its identifier and its signature are new. */
  lemma ToldApartFromAll(events: seq<Event>, e: Event)
    requires Readable(e)
    ensures (forall k | 0 <= k < |events| && Complete(events[k]) :: ToldApart(events[k], e))
       <==> EventId(e) !in Identifiers(events)
            && forall s | s in SignaturesOf(events, e.contract) :: !Confusable(Signature(e), s)
  {
    if forall k | 0 <= k < |events| && Complete(events[k]) :: ToldApart(events[k], e) {
      forall s | s in SignaturesOf(events, e.contract)
        ensures !Confusable(Signature(e), s)
      {
        var k :| 0 <= k < |events| && Readable(events[k]) && events[k].contract == e.contract
            && Signature(events[k]) == s;
        assert ToldApart(events[k], e);
      }
    }
    if EventId(e) !in Identifiers(events)
       && forall s | s in SignaturesOf(events, e.contract) :: !Confusable(Signature(e), s) {
      forall k | 0 <= k < |events| && Complete(events[k])
        ensures ToldApart(events[k], e)
      {
        assert EventId(events[k]) in Identifiers(events);
        if Readable(events[k]) && events[k].contract == e.contract {
          assert Signature(events[k]) in SignaturesOf(events, e.contract);
        }
      }
    }
  }

  /** What one turn of the loop decides. */
  lemma DecideEvent(version: string, events: seq<Event>, i: nat)
    requires i < |events|
    ensures EventOk(version, events, i) <==>
              && Complete(events[i]) && WellFormed(version, events[i])
              && EventId(events[i]) !in Identifiers(events[..i])
              && forall s | s in SignaturesOf(events[..i], events[i].contract) :: !Confusable(Signature(events[i]), s)
  {
    assert forall k | 0 <= k < i :: events[..i][k] == events[k];
    if Complete(events[i]) && events[i].topics.Some? {
      ToldApartFromAll(events[..i], events[i]);
    }
  }

  /** No error is reported exactly for a valid document. */
  method ValidateStructure(d: Document) returns (errors: seq<SchemaError>)
    ensures errors == [] <==> ValidDocument(d)
    ensures errors == [] && Unslipped(d.events.value) <==> DocumentedRules(d)
  {
    DocumentedIff(d);
    if d.version.None? || d.version.value == "" {
      return [NoVersion];
    }
    if d.events.None? || d.events.value == [] {
      return [NoEvents];
    }
    var contracts: set<string>;
    errors, contracts := EventsErrors(d.version.value, d.events.value);
    if errors == [] {
      ContractsPresent(d.version.value, d.events.value);
    }
    if !(REQUIRED_CONTRACTS <= contracts) {
      errors := errors + [MissingContracts];
    }
    if !d.notesAreAnObject {
      errors := errors + [NotesNotAnObject];
    }
  }

  lemma ContractsPresent(version: string, events: seq<Event>)
    requires forall k | 0 <= k < |events| :: EventOk(version, events, k)
    ensures REQUIRED_CONTRACTS <= Contracts(events) <==> HasContracts(events)
  {
    forall k | 0 <= k < |events|
      ensures Complete(events[k])
    {
      assert EventOk(version, events, k);
    }
    if REQUIRED_CONTRACTS <= Contracts(events) {
      forall c | c in REQUIRED_CONTRACTS
        ensures exists k :: 0 <= k < |events| && events[k].Event? && events[k].contract == c
      {
        assert c in Contracts(events);
      }
    }
  }

  /** What the sets and the dictionary hold after one more event. */
  lemma TakeEvent(events: seq<Event>, i: nat, signatures: map<string, Recorded>)
    requires i < |events| && Readable(events[i]) && Filed(events[..i], signatures)
    ensures var e := events[i];
            var filed := EarlierOf(signatures, e.contract) + [(EventId(e), Signature(e))];
            && Identifiers(events[..i + 1]) == Identifiers(events[..i]) + {EventId(e)}
            && Contracts(events[..i + 1]) == Contracts(events[..i]) + {e.contract}
            && Filed(events[..i + 1], signatures[e.contract := filed])
  {
    assert events[..i + 1] == events[..i] + [events[i]];
    AppendEvent(events[..i], events[i]);
    File(events[..i], events[i], signatures);
  }

  /** The loop over the events, with the contracts it has seen. */
  method EventsErrors(version: string, events: seq<Event>) returns (errors: seq<SchemaError>, contracts: set<string>)
    ensures errors == [] <==> forall k | 0 <= k < |events| :: EventOk(version, events, k)
    ensures errors == [] ==> contracts == Contracts(events)
  {
    errors, contracts := [], {};
    var seenIds: set<string> := {};
    var signatures: map<string, Recorded> := map[];
    for i := 0 to |events|
      invariant errors == [] ==> seenIds == Identifiers(events[..i]) && contracts == Contracts(events[..i])
      invariant errors == [] ==> Filed(events[..i], signatures)
      invariant errors == [] <==> forall k | 0 <= k < i :: EventOk(version, events, k)
    {
      var e := events[i];
      DecideEvent(version, events, i);
      if !Complete(e) {
        errors := errors + [Incomplete];
      } else if EventId(e) in seenIds {
        errors := errors + [DuplicateIdentifier(EventId(e))];
      } else {
        seenIds, contracts := seenIds + {EventId(e)}, contracts + {e.contract};
        var earlier := EarlierOf(signatures, e.contract);
        var more, recorded := EventErrors(version, e, earlier);
        if errors == [] && more == [] {
          TakeEvent(events, i, signatures);
        }
        errors := errors + more;
        if recorded.Some? {
          signatures := signatures[e.contract := earlier + [(EventId(e), recorded.value)]];
        }
      }
    }
    assert events[..|events|] == events;
  }
}
