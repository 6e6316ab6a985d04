// The section and export parser of the ABI gate, and the binary format it reads
// (sections 5.5.2 and 5.5.10 of the WebAssembly Core Specification 1.0).
//
// Names stay raw bytes: UTF-8 decoding is left to the library.
module WasmExports {
  import opened Options
  import opened ByteStrings
  import opened Leb128

  const MAGIC: Bytes := [0x00, 0x61, 0x73, 0x6D]

  const VERSION: Bytes := [0x01, 0x00, 0x00, 0x00]

  const CUSTOM_SECTION: Byte := 0

  const EXPORT_SECTION: Byte := 7

  /** "contractspecv0" */
  const SPEC_NAME: Bytes := [99, 111, 110, 116, 114, 97, 99, 116, 115, 112, 101, 99, 118, 48]

  /** `ValueError` is caught by the callers; `IndexError` is not. */
  datatype ParseError = ValueError | IndexError

  /** Python slicing, which clips at the end of the data. */
  function Slice(data: Bytes, lo: nat, hi: nat): Bytes
    requires lo <= hi
  {
    if |data| <= lo then [] else if |data| <= hi then data[lo..] else data[lo..hi]
  }

  /** `first` in front of what is still to be read. */
  function Prepend<T>(first: seq<T>, rest: Option<seq<T>>): Option<seq<T>> {
    match rest
    case None => None
    case Some(r) => Some(first + r)
  }

  lemma PrependNothing<T>(rest: Option<seq<T>>)
    ensures Prepend([], rest) == rest
  {
    if rest.Some? {
      assert [] + rest.value == rest.value;
    }
  }

  lemma PrependTwice<T>(x: seq<T>, y: seq<T>, rest: Option<seq<T>>)
    ensures Prepend(x, Prepend(y, rest)) == Prepend(x + y, rest)
  {
    if rest.Some? {
      assert x + (y + rest.value) == (x + y) + rest.value;
    }
  }

  // ---- Sections ------------------------------------------------------------------------

  /** The id and body of the section at `pos`, and where the next one starts. */
  function SectionAt(data: Bytes, pos: nat): (r: Option<(Byte, Bytes, nat)>)
    requires pos < |data|
    ensures r.Some? ==> pos < r.value.2
  {
    match Decode(data, pos + 1)
    case None => None
    case Some((size, n)) =>
      var start := pos + 1 + n;
      Some((data[pos], Slice(data, start, start + size), start + size))
  }

  /** The sections from `pos` on, as (id, body) pairs in file order. */
  function SectionsFrom(data: Bytes, pos: nat): Option<seq<(Byte, Bytes)>>
    decreases |data| - pos
  {
    if pos >= |data| then Some([])
    else match SectionAt(data, pos)
      case None => None
      case Some((id, body, next)) => Prepend([(id, body)], SectionsFrom(data, next))
  }

  method ReadSection(data: Bytes, start: nat) returns (r: Option<(Byte, Bytes, nat)>)
    requires start < |data|
    ensures r == SectionAt(data, start)
  {
    var pos: nat := start;
    var sectionId := data[pos];
    pos := pos + 1;
    var sized := ReadLeb128(data, pos);
    if sized.None? {
      return None;
    }
    var (size, n) := sized.value;
    pos := pos + n;
    return Some((sectionId, Slice(data, pos, pos + size), pos + size));
  }

  /** The dictionary after storing `pairs` in order: the last body of an id stays. */
  function Store(sections: map<Byte, Bytes>, pairs: seq<(Byte, Bytes)>): map<Byte, Bytes>
    decreases |pairs|
  {
    if pairs == [] then sections else Store(sections[pairs[0].0 := pairs[0].1], pairs[1..])
  }

  function StoreAll(sections: map<Byte, Bytes>, rest: Option<seq<(Byte, Bytes)>>): Option<map<Byte, Bytes>> {
    match rest
    case None => None
    case Some(pairs) => Some(Store(sections, pairs))
  }

  function ParsedSections(data: Bytes): Result<map<Byte, Bytes>, ParseError> {
    if Slice(data, 0, 4) != MAGIC || Slice(data, 4, 8) != VERSION then Err(ValueError)
    else match StoreAll(map[], SectionsFrom(data, 8))
      case None => Err(IndexError)
      case Some(sections) => Ok(sections)
  }

  lemma StoreStep(sections: map<Byte, Bytes>, id: Byte, body: Bytes, rest: Option<seq<(Byte, Bytes)>>)
    ensures StoreAll(sections, Prepend([(id, body)], rest)) == StoreAll(sections[id := body], rest)
  {
    if rest.Some? {
      assert ([(id, body)] + rest.value)[1..] == rest.value;
    }
  }

  method ParseWasmSections(data: Bytes) returns (r: Result<map<Byte, Bytes>, ParseError>)
    ensures r == ParsedSections(data)
  {
    if Slice(data, 0, 4) != MAGIC {
      return Err(ValueError);
    }
    if Slice(data, 4, 8) != VERSION {
      return Err(ValueError);
    }
    var stored := StoreSections(data, 8);
    return if stored.None? then Err(IndexError) else Ok(stored.value);
  }

  /** The loop over the sections. */
  method StoreSections(data: Bytes, start: nat) returns (r: Option<map<Byte, Bytes>>)
    ensures r == StoreAll(map[], SectionsFrom(data, start))
  {
    var sections: map<Byte, Bytes> := map[];
    var pos: nat := start;
    while pos < |data|
      invariant StoreAll(sections, SectionsFrom(data, pos)) == StoreAll(map[], SectionsFrom(data, start))
      decreases |data| - pos
    {
      var read := ReadSection(data, pos);
      if read.None? {
        return None;
      }
      var (id, body, next) := read.value;
      StoreStep(sections, id, body, SectionsFrom(data, next));
      sections := sections[id := body];
      pos := next;
    }
    return Some(sections);
  }

  // ---- Exports -------------------------------------------------------------------------

  /** The name and kind of the export at `pos`, and where the next one starts. */
  function EntryAt(raw: Bytes, pos: nat): Option<(Bytes, Byte, nat)> {
    match Decode(raw, pos)
    case None => None
    case Some((nameLen, n)) =>
      var kindAt := pos + n + nameLen;
      if kindAt >= |raw| then None
      else match Decode(raw, kindAt + 1)
        case None => None
        case Some((_, m)) => Some((raw[pos + n..kindAt], raw[kindAt], kindAt + 1 + m))
  }

  function NameIfFunction(name: Bytes, kind: Byte): seq<Bytes> {
    if kind == 0x00 then [name] else []
  }

  /** The function names among the next `count` exports from `pos` on. */
  function EntriesFrom(raw: Bytes, pos: nat, count: nat): Option<seq<Bytes>>
    decreases count
  {
    if count == 0 then Some([])
    else match EntryAt(raw, pos)
      case None => None
      case Some((name, kind, next)) => Prepend(NameIfFunction(name, kind), EntriesFrom(raw, next, count - 1))
  }

  function ExportNames(data: Bytes): Result<seq<Bytes>, ParseError> {
    match ParsedSections(data)
    case Err(ValueError) => Ok([])
    case Err(IndexError) => Err(IndexError)
    case Ok(sections) =>
      if EXPORT_SECTION !in sections || sections[EXPORT_SECTION] == [] then Ok([])
      else
        var raw := sections[EXPORT_SECTION];
        match Decode(raw, 0)
        case None => Err(IndexError)
        case Some((count, n)) =>
          match EntriesFrom(raw, n, count)
          case None => Err(IndexError)
          case Some(names) => Ok(names)
  }

  method ExtractExportNames(data: Bytes) returns (r: Result<seq<Bytes>, ParseError>)
    ensures r == ExportNames(data)
  {
    var parsed := ParseWasmSections(data);
    if parsed.Err? {
      if parsed.error == ValueError {
        return Ok([]);
      }
      return Err(IndexError);
    }
    if EXPORT_SECTION !in parsed.value || parsed.value[EXPORT_SECTION] == [] {
      return Ok([]);
    }
    var raw := parsed.value[EXPORT_SECTION];
    var counted := ReadLeb128(raw, 0);
    if counted.None? {
      return Err(IndexError);
    }
    var names := ReadEntries(raw, counted.value.1, counted.value.0);
    return if names.None? then Err(IndexError) else Ok(names.value);
  }

  method ReadEntry(raw: Bytes, start: nat) returns (r: Option<(Bytes, Byte, nat)>)
    ensures r == EntryAt(raw, start)
  {
    var pos: nat := start;
    var named := ReadLeb128(raw, pos);
    if named.None? {
      return None;
    }
    var (nameLen, n) := named.value;
    pos := pos + n;
    var name := Slice(raw, pos, pos + nameLen);
    pos := pos + nameLen;
    if pos >= |raw| {
      return None;
    }
    var kind := raw[pos];
    pos := pos + 1;
    var indexed := ReadLeb128(raw, pos);
    if indexed.None? {
      return None;
    }
    pos := pos + indexed.value.1;
    return Some((name, kind, pos));
  }

  /** The loop over the export entries. */
  method ReadEntries(raw: Bytes, start: nat, count: nat) returns (r: Option<seq<Bytes>>)
    ensures r == EntriesFrom(raw, start, count)
  {
    var pos: nat := start;
    var names: seq<Bytes> := [];
    PrependNothing(EntriesFrom(raw, start, count));
    for i := 0 to count
      invariant EntriesFrom(raw, start, count) == Prepend(names, EntriesFrom(raw, pos, count - i))
    {
      var entry := ReadEntry(raw, pos);
      if entry.None? {
        return None;
      }
      var (name, kind, next) := entry.value;
      PrependTwice(names, NameIfFunction(name, kind), EntriesFrom(raw, next, count - i - 1));
      names := names + NameIfFunction(name, kind);
      pos := next;
    }
    assert names + [] == names;
    return Some(names);
  }

  // ---- The contract specification payloads ------------------------------------------------

  /** The payload of a section, if it is custom and has the wanted name; None past the end. */
  function SpecPayload(wanted: Bytes, id: Byte, body: Bytes): Option<seq<Bytes>> {
    if id != CUSTOM_SECTION then Some([])
    else match Decode(body, 0)
      case None => None
      case Some((nameLen, n)) =>
        if Slice(body, n, n + nameLen) != wanted then Some([])
        else Some([Slice(body, n + nameLen, n + nameLen + |body|)])
  }

  function SpecPayloadsOf(wanted: Bytes, pairs: seq<(Byte, Bytes)>): Option<seq<Bytes>> {
    if pairs == [] then Some([])
    else match SpecPayload(wanted, pairs[0].0, pairs[0].1)
      case None => None
      case Some(first) => Prepend(first, SpecPayloadsOf(wanted, pairs[1..]))
  }

  /** The byte strings fed to the hash, in order; the hash is "" when there are none. */
  function SpecPayloads(data: Bytes): Result<seq<Bytes>, ParseError> {
    match ParsedSections(data)
    case Err(ValueError) => Ok([])
    case Err(IndexError) => Err(IndexError)
    case Ok(sections) =>
      if CUSTOM_SECTION !in sections || sections[CUSTOM_SECTION] == [] then Ok([])
      else match PayloadsFrom(SPEC_NAME, data, 8)
        case None => Err(IndexError)
        case Some(payloads) => Ok(payloads)
  }

  method ReadSpecPayload(wanted: Bytes, sectionId: Byte, body: Bytes) returns (r: Option<seq<Bytes>>)
    ensures r == SpecPayload(wanted, sectionId, body)
  {
    if sectionId != CUSTOM_SECTION {
      return Some([]);
    }
    var named := ReadLeb128(body, 0);
    if named.None? {
      return None;
    }
    var (nameLen, nb) := named.value;
    if Slice(body, nb, nb + nameLen) == wanted {
      return Some([Slice(body, nb + nameLen, nb + nameLen + |body|)]);
    }
    return Some([]);
  }

  function PayloadsFrom(wanted: Bytes, data: Bytes, pos: nat): Option<seq<Bytes>> {
    match SectionsFrom(data, pos)
    case None => None
    case Some(pairs) => SpecPayloadsOf(wanted, pairs)
  }

  lemma PayloadStep(wanted: Bytes, data: Bytes, pos: nat, payloads: seq<Bytes>)
    requires pos < |data| && SectionsFrom(data, pos).Some?
    ensures SectionAt(data, pos).Some?
    ensures var (id, body, next) := SectionAt(data, pos).value;
            var first := SpecPayload(wanted, id, body);
            && SectionsFrom(data, next).Some?
            && Prepend(payloads, PayloadsFrom(wanted, data, pos))
                 == (if first.None? then None else Prepend(payloads + first.value, PayloadsFrom(wanted, data, next)))
  {
    var (id, body, next) := SectionAt(data, pos).value;
    var first := SpecPayload(wanted, id, body);
    assert SectionsFrom(data, pos).value[1..] == SectionsFrom(data, next).value;
    if first.Some? {
      PrependTwice(payloads, first.value, PayloadsFrom(wanted, data, next));
    }
  }

  /** The second scan of the binary. */
  method ScanSpecPayloads(wanted: Bytes, data: Bytes, start: nat) returns (r: Option<seq<Bytes>>)
    requires SectionsFrom(data, start).Some?
    ensures r == PayloadsFrom(wanted, data, start)
  {
    var payloads: seq<Bytes> := [];
    var pos: nat := start;
    PrependNothing(PayloadsFrom(wanted, data, start));
    while pos < |data|
      invariant SectionsFrom(data, pos).Some?
      invariant PayloadsFrom(wanted, data, start) == Prepend(payloads, PayloadsFrom(wanted, data, pos))
      decreases |data| - pos
    {
      PayloadStep(wanted, data, pos, payloads);
      var read := ReadSection(data, pos);
      var (id, body, next) := read.value;
      var found := ReadSpecPayload(wanted, id, body);
      if found.None? {
        return None;
      }
      payloads := payloads + found.value;
      pos := next;
    }
    assert payloads + [] == payloads;
    return Some(payloads);
  }

  method CollectSpecPayloads(data: Bytes) returns (r: Result<seq<Bytes>, ParseError>)
    ensures r == SpecPayloads(data)
  {
    var parsed := ParseWasmSections(data);
    if parsed.Err? {
      if parsed.error == ValueError {
        return Ok([]);
      }
      return Err(IndexError);
    }
    if CUSTOM_SECTION !in parsed.value || parsed.value[CUSTOM_SECTION] == [] {
      return Ok([]);
    }
    var payloads := ScanSpecPayloads(SPEC_NAME, data, 8);
    return if payloads.None? then Err(IndexError) else Ok(payloads.value);
  }
}
