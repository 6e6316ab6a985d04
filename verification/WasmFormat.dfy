// The parser inverts the binary format: modules are built from section lists, and
// what the gate extracts is what went in. The bytes of the format are written out here,
// apart from the parser's own.
module WasmFormat {
  import opened Options
  import opened ByteStrings
  import opened Leb128
  import opened WasmExports

  /** One export: its name, its kind (0 is a function) and its index, with their length encodings. */
  datatype Export = Export(nameLength: Bytes, name: Bytes, kind: Byte, indexBytes: Bytes, index: nat)
  {
    ghost predicate WellFormed() {
      Encodes(nameLength, |name|) && Encodes(indexBytes, index)
    }

    function ToBytes(): Bytes {
      nameLength + name + [kind] + indexBytes
    }
  }

  datatype Content =
    | Exports(countBytes: Bytes, exports: seq<Export>)
    | Custom(nameLength: Bytes, name: Bytes, payload: Bytes)
    | Other(id: Byte, content: Bytes)
  {
    function Id(): Byte {
      if Exports? then 7 else if Custom? then 0 else id
    }

    function Body(): Bytes {
      match this
      case Exports(count, exports) => count + ExportBytes(exports)
      case Custom(nameLength, name, payload) => nameLength + name + payload
      case Other(_, content) => content
    }

    ghost predicate WellFormed() {
      match this
      case Exports(count, exports) => Encodes(count, |exports|) && forall e | e in exports :: e.WellFormed()
      case Custom(nameLength, name, _) => Encodes(nameLength, |name|)
      case Other(id, _) => id != 7 && id != 0
    }
  }

  datatype Section = Section(sizeBytes: Bytes, content: Content)
  {
    ghost predicate WellFormed() {
      Encodes(sizeBytes, |content.Body()|) && content.WellFormed()
    }

    function ToBytes(): Bytes {
      [content.Id()] + sizeBytes + content.Body()
    }
  }

  function ExportBytes(exports: seq<Export>): Bytes {
    if exports == [] then [] else exports[0].ToBytes() + ExportBytes(exports[1..])
  }

  function SectionBytes(sections: seq<Section>): Bytes {
    if sections == [] then [] else sections[0].ToBytes() + SectionBytes(sections[1..])
  }

  function ModuleBytes(sections: seq<Section>): Bytes {
    Header() + SectionBytes(sections)
  }

  /** "\0asm" and version 1. */
  function Header(): Bytes {
    [0x00, 0x61, 0x73, 0x6D, 0x01, 0x00, 0x00, 0x00]
  }

  ghost predicate WellFormed(sections: seq<Section>) {
    forall s | s in sections :: s.WellFormed()
  }

  function Pairs(sections: seq<Section>): seq<(Byte, Bytes)> {
    if sections == [] then []
    else [(sections[0].content.Id(), sections[0].content.Body())] + Pairs(sections[1..])
  }

  // ---- Sections --------------------------------------------------------------------------

  lemma SliceInside(prefix: Bytes, middle: Bytes, suffix: Bytes)
    ensures Slice(prefix + middle + suffix, |prefix|, |prefix| + |middle|) == middle
  {
  }

  lemma {:induction false} SectionsRead(prefix: Bytes, sections: seq<Section>)
    requires WellFormed(sections)
    ensures SectionsFrom(prefix + SectionBytes(sections), |prefix|) == Some(Pairs(sections))
    decreases |sections|
  {
    if sections != [] {
      var s, rest := sections[0], sections[1..];
      var next := prefix + s.ToBytes();
      SectionRead(prefix, s, SectionBytes(rest));
      assert prefix + SectionBytes(sections) == next + SectionBytes(rest);
      SectionsRead(next, rest);
      SectionsStep(next + SectionBytes(rest), |prefix|, s.content.Id(), s.content.Body(), |s.sizeBytes|, |next|,
                   Pairs(rest));
    }
  }

  lemma SectionsStep(data: Bytes, pos: nat, id: Byte, body: Bytes, n: nat, next: nat, rest: seq<(Byte, Bytes)>)
    requires pos < |data| && data[pos] == id
    requires Decode(data, pos + 1) == Some((|body|, n)) && next == pos + 1 + n + |body|
    requires Slice(data, pos + 1 + n, next) == body && SectionsFrom(data, next) == Some(rest)
    ensures SectionsFrom(data, pos) == Some([(id, body)] + rest)
  {
    assert SectionAt(data, pos) == Some((id, body, next));
  }

  /** The header of a section leads to its body and to whatever follows. */
  lemma SectionRead(prefix: Bytes, s: Section, suffix: Bytes)
    requires s.WellFormed()
    ensures var data := prefix + s.ToBytes() + suffix;
            && |prefix| < |data| && data[|prefix|] == s.content.Id()
            && Decode(data, |prefix| + 1) == Some((|s.content.Body()|, |s.sizeBytes|))
            && Slice(data, |prefix| + 1 + |s.sizeBytes|, |prefix| + |s.ToBytes()|) == s.content.Body()
  {
    HeaderRead(prefix, s.content.Id(), s.sizeBytes, s.content.Body(), suffix);
    var body := s.content.Body();
    assert prefix + s.ToBytes() + suffix == prefix + [s.content.Id()] + s.sizeBytes + body + suffix;
  }

  lemma HeaderRead(prefix: Bytes, id: Byte, sizeBytes: Bytes, body: Bytes, suffix: Bytes)
    requires Encodes(sizeBytes, |body|)
    ensures var data := prefix + [id] + sizeBytes + body + suffix;
            && |prefix| < |data| && data[|prefix|] == id
            && Decode(data, |prefix| + 1) == Some((|body|, |sizeBytes|))
            && Slice(data, |prefix| + 1 + |sizeBytes|, |prefix| + 1 + |sizeBytes| + |body|) == body
  {
    var head := prefix + [id];
    ReadsEncoding(head, sizeBytes, |body|, body + suffix);
    assert head + sizeBytes + (body + suffix) == head + sizeBytes + body + suffix;
    SliceInside(head + sizeBytes, body, suffix);
  }

  lemma HeaderIsMagicAndVersion()
    ensures Header() == MAGIC + VERSION && |MAGIC| == |VERSION| == 4
  {
  }

  lemma HeaderAccepted(data: Bytes)
    ensures Slice(data, 0, 4) == MAGIC && Slice(data, 4, 8) == VERSION <==> Header() <= data
  {
    HeaderIsMagicAndVersion();
    if Header() <= data {
      assert data[..8] == MAGIC + VERSION;
      assert data[..4] == data[..8][..4] && data[4..8] == data[..8][4..];
    }
    if Slice(data, 0, 4) == MAGIC && Slice(data, 4, 8) == VERSION {
      assert data[..8] == data[..4] + data[4..8];
    }
  }

  /** Data without the header has no sections, no names and no payloads; other data is parsed. */
  lemma HeaderDecides(data: Bytes)
    ensures ParsedSections(data) == Err(ValueError) <==> !(Header() <= data)
    ensures !(Header() <= data) ==> ExportNames(data) == Ok([]) && SpecPayloads(data) == Ok([])
  {
    HeaderAccepted(data);
  }

  /** Parsing a module stores, for every id, the body of its last section. */
  lemma ModuleParsed(sections: seq<Section>)
    requires WellFormed(sections)
    ensures SectionsFrom(ModuleBytes(sections), 8) == Some(Pairs(sections))
    ensures ParsedSections(ModuleBytes(sections)) == Ok(Store(map[], Pairs(sections)))
  {
    HeaderIsMagicAndVersion();
    SectionsRead(Header(), sections);
    HeaderAccepted(ModuleBytes(sections));
    assert Header() <= ModuleBytes(sections);
  }

  lemma {:induction false} StoreAbsent(m: map<Byte, Bytes>, pairs: seq<(Byte, Bytes)>, id: Byte)
    requires forall p | p in pairs :: p.0 != id
    ensures id in Store(m, pairs) <==> id in m
    ensures id in m ==> Store(m, pairs)[id] == m[id]
    decreases |pairs|
  {
    if pairs != [] {
      StoreAbsent(m[pairs[0].0 := pairs[0].1], pairs[1..], id);
    }
  }

  lemma {:induction false} StoreLast(m: map<Byte, Bytes>, pairs: seq<(Byte, Bytes)>, k: nat)
    requires k < |pairs| && forall j | k < j < |pairs| :: pairs[j].0 != pairs[k].0
    ensures pairs[k].0 in Store(m, pairs) && Store(m, pairs)[pairs[k].0] == pairs[k].1
    decreases |pairs|
  {
    var next := m[pairs[0].0 := pairs[0].1];
    if k == 0 {
      forall p | p in pairs[1..]
        ensures p.0 != pairs[0].0
      {
        var j :| 0 <= j < |pairs[1..]| && pairs[1..][j] == p;
        assert pairs[j + 1] == p;
      }
      StoreAbsent(next, pairs[1..], pairs[0].0);
    } else {
      assert pairs[1..][k - 1] == pairs[k];
      StoreLast(next, pairs[1..], k - 1);
    }
  }

  lemma {:induction false} PairsAt(sections: seq<Section>)
    ensures |Pairs(sections)| == |sections|
    ensures forall i | 0 <= i < |sections| ::
        Pairs(sections)[i] == (sections[i].content.Id(), sections[i].content.Body())
    decreases |sections|
  {
    if sections != [] {
      PairsAt(sections[1..]);
    }
  }

  // ---- Exports ---------------------------------------------------------------------------

  /** The names of the exported functions, in order. */
  function FunctionNames(exports: seq<Export>): seq<Bytes> {
    if exports == [] then []
    else (if exports[0].kind == 0 then [exports[0].name] else []) + FunctionNames(exports[1..])
  }

  lemma EntryName(prefix: Bytes, e: Export, suffix: Bytes)
    requires e.WellFormed()
    ensures var raw := prefix + e.ToBytes() + suffix;
            var nameAt := |prefix| + |e.nameLength|;
            && Decode(raw, |prefix|) == Some((|e.name|, |e.nameLength|))
            && nameAt + |e.name| < |raw|
            && raw[nameAt..nameAt + |e.name|] == e.name
            && raw[nameAt + |e.name|] == e.kind
  {
    var raw := prefix + e.ToBytes() + suffix;
    var tail := e.name + [e.kind] + e.indexBytes + suffix;
    ReadsEncoding(prefix, e.nameLength, |e.name|, tail);
    assert prefix + e.nameLength + tail == raw;
    var nameAt := |prefix| + |e.nameLength|;
    assert raw[nameAt..] == tail;
    assert raw[nameAt..][..|e.name|] == e.name && raw[nameAt..][|e.name|] == e.kind;
  }

  lemma EntryIndex(prefix: Bytes, e: Export, suffix: Bytes)
    requires e.WellFormed()
    ensures Decode(prefix + e.ToBytes() + suffix, |prefix| + |e.nameLength| + |e.name| + 1)
        == Some((e.index, |e.indexBytes|))
  {
    var head := prefix + e.nameLength + e.name + [e.kind];
    ReadsEncoding(head, e.indexBytes, e.index, suffix);
    assert head + e.indexBytes + suffix == prefix + e.ToBytes() + suffix;
  }

  lemma EntryRead(prefix: Bytes, e: Export, suffix: Bytes)
    requires e.WellFormed()
    ensures EntryAt(prefix + e.ToBytes() + suffix, |prefix|) == Some((e.name, e.kind, |prefix| + |e.ToBytes()|))
  {
    EntryName(prefix, e, suffix);
    EntryIndex(prefix, e, suffix);
  }

  lemma {:induction false} EntriesRead(prefix: Bytes, exports: seq<Export>)
    requires forall e | e in exports :: e.WellFormed()
    ensures EntriesFrom(prefix + ExportBytes(exports), |prefix|, |exports|) == Some(FunctionNames(exports))
    decreases |exports|
  {
    if exports != [] {
      var e, rest := exports[0], exports[1..];
      var next := prefix + e.ToBytes();
      var raw := prefix + ExportBytes(exports);
      EntryRead(prefix, e, ExportBytes(rest));
      assert raw == next + ExportBytes(rest);
      EntriesRead(next, rest);
      EntriesStep(raw, |prefix|, |exports|, e.name, e.kind, |next|, FunctionNames(rest));
    }
  }

  lemma EntriesStep(raw: Bytes, pos: nat, count: nat, name: Bytes, kind: Byte, next: nat, rest: seq<Bytes>)
    requires count > 0 && EntryAt(raw, pos) == Some((name, kind, next))
    requires EntriesFrom(raw, next, count - 1) == Some(rest)
    ensures EntriesFrom(raw, pos, count) == Some(NameIfFunction(name, kind) + rest)
  {
  }

  /** The last export section of a module, if there is one. */
  ghost predicate LastExports(sections: seq<Section>, k: nat) {
    && k < |sections| && sections[k].content.Exports?
    && forall j | k < j < |sections| :: !sections[j].content.Exports?
  }

  /** The gate reads exactly the function names of the (last) export section, in order. */
  lemma ExportNamesRecovered(sections: seq<Section>, k: nat)
    requires WellFormed(sections) && LastExports(sections, k)
    ensures ExportNames(ModuleBytes(sections)) == Ok(FunctionNames(sections[k].content.exports))
  {
    ModuleParsed(sections);
    PairsAt(sections);
    assert forall j | 0 <= j < |sections| :: sections[j].WellFormed();
    StoreLast(map[], Pairs(sections), k);
    ExportsRead(sections[k].content);
  }

  lemma ExportsRead(content: Content)
    requires content.Exports? && content.WellFormed()
    ensures content.Body() != []
    ensures Decode(content.Body(), 0) == Some((|content.exports|, |content.countBytes|))
    ensures EntriesFrom(content.Body(), |content.countBytes|, |content.exports|) == Some(FunctionNames(content.exports))
  {
    ReadsEncoding([], content.countBytes, |content.exports|, ExportBytes(content.exports));
    assert [] + content.countBytes + ExportBytes(content.exports) == content.Body();
    EntriesRead(content.countBytes, content.exports);
  }

  /** Without an export section there is nothing to read. */
  lemma NoExportsRecovered(sections: seq<Section>)
    requires WellFormed(sections) && forall s | s in sections :: !s.content.Exports?
    ensures ExportNames(ModuleBytes(sections)) == Ok([])
  {
    ModuleParsed(sections);
    PairsAt(sections);
    forall p | p in Pairs(sections)
      ensures p.0 != EXPORT_SECTION
    {
      var j :| 0 <= j < |sections| && Pairs(sections)[j] == p;
      assert sections[j].WellFormed();
    }
    StoreAbsent(map[], Pairs(sections), EXPORT_SECTION);
  }

  // ---- Contract specification payloads -------------------------------------------------------

  /** "contractspecv0" */
  function SpecName(): Bytes {
    [99, 111, 110, 116, 114, 97, 99, 116, 115, 112, 101, 99, 118, 48]
  }

  lemma SpecNameSpells(i: nat)
    requires i < 14
    ensures |SpecName()| == |"contractspecv0"| == 14 && SpecName()[i] == "contractspecv0"[i] as int
  {
    assert i == 0 || i == 1 || i == 2 || i == 3 || i == 4 || i == 5 || i == 6 || i == 7 || i == 8 || i == 9
        || i == 10 || i == 11 || i == 12 || i == 13;
  }

  function NamedPayload(wanted: Bytes, c: Content): seq<Bytes> {
    if c.Custom? && c.name == wanted then [c.payload] else []
  }

  /** The payloads of the custom sections with the wanted name, in order. */
  function NamedPayloads(wanted: Bytes, sections: seq<Section>): seq<Bytes> {
    if sections == [] then [] else NamedPayload(wanted, sections[0].content) + NamedPayloads(wanted, sections[1..])
  }

  lemma PayloadRead(wanted: Bytes, c: Content)
    requires c.WellFormed()
    ensures SpecPayload(wanted, c.Id(), c.Body()) == Some(NamedPayload(wanted, c))
  {
    if c.Custom? {
      var body, n := c.Body(), |c.nameLength|;
      ReadsEncoding([], c.nameLength, |c.name|, c.name + c.payload);
      assert [] + c.nameLength + (c.name + c.payload) == body;
      SliceInside(c.nameLength, c.name, c.payload);
      assert Slice(body, n + |c.name|, n + |c.name| + |body|) == c.payload;
    }
  }

  lemma {:induction false} PayloadsRead(wanted: Bytes, sections: seq<Section>)
    requires WellFormed(sections)
    ensures SpecPayloadsOf(wanted, Pairs(sections)) == Some(NamedPayloads(wanted, sections))
    decreases |sections|
  {
    if sections != [] {
      assert sections[0] in sections;
      PayloadRead(wanted, sections[0].content);
      PayloadsRead(wanted, sections[1..]);
      assert Pairs(sections)[1..] == Pairs(sections[1..]);
    }
  }

  lemma {:induction false} NoPayloads(wanted: Bytes, sections: seq<Section>)
    requires forall s | s in sections :: !s.content.Custom?
    ensures NamedPayloads(wanted, sections) == []
    decreases |sections|
  {
    if sections != [] {
      assert sections[0] in sections;
      NoPayloads(wanted, sections[1..]);
    }
  }

  lemma {:induction false} FindLastCustom(sections: seq<Section>) returns (k: nat)
    requires exists s :: s in sections && s.content.Custom?
    ensures k < |sections| && sections[k].content.Custom?
    ensures forall j | k < j < |sections| :: !sections[j].content.Custom?
    decreases |sections|
  {
    var last := |sections| - 1;
    if sections[last].content.Custom? {
      k := last;
    } else {
      assert forall s | s in sections :: s in sections[..last] || s == sections[last];
      k := FindLastCustom(sections[..last]);
    }
  }

  /** The hashed payloads are exactly those of the `contractspecv0` sections, in order. */
  lemma SpecPayloadsRecovered(sections: seq<Section>)
    requires WellFormed(sections)
    ensures SpecPayloads(ModuleBytes(sections)) == Ok(NamedPayloads(SpecName(), sections))
  {
    ModuleParsed(sections);
    PayloadsRead(SPEC_NAME, sections);
    if exists s :: s in sections && s.content.Custom? {
      CustomStored(sections);
    } else {
      NoPayloads(SPEC_NAME, sections);
      NoCustomStored(sections);
    }
  }

  lemma CustomStored(sections: seq<Section>)
    requires WellFormed(sections) && exists s :: s in sections && s.content.Custom?
    ensures var stored := Store(map[], Pairs(sections));
            CUSTOM_SECTION in stored && stored[CUSTOM_SECTION] != []
  {
    var k := FindLastCustom(sections);
    PairsAt(sections);
    assert forall j | 0 <= j < |sections| :: sections[j].WellFormed();
    StoreLast(map[], Pairs(sections), k);
    assert |sections[k].content.nameLength| > 0;
  }

  lemma NoCustomStored(sections: seq<Section>)
    requires WellFormed(sections) && forall s | s in sections :: !s.content.Custom?
    ensures CUSTOM_SECTION !in Store(map[], Pairs(sections))
  {
    PairsAt(sections);
    forall p | p in Pairs(sections)
      ensures p.0 != CUSTOM_SECTION
    {
      var j :| 0 <= j < |sections| && Pairs(sections)[j] == p;
      assert sections[j].WellFormed();
    }
    StoreAbsent(map[], Pairs(sections), CUSTOM_SECTION);
  }
}
