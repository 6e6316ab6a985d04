// Categories, signals and their immutable revisions in the signal registry.
//
// `auth` is the set of addresses that authorised the call. `verdict` is what the
// metadata policy says about the content; None is acceptance.
module SignalCatalog {
  import opened Options
  import opened MachineInts

  type Address = nat

  const MAX_REVISION_PAGE := 50

  datatype SignalError =
    | NotInitialized
    | AuthRequired
    | Unauthorized
    | InvalidAddress
    | EmptyMetadata
    | RejectedMetadata(rule: nat)
    | RevisionOverflow
    | InvalidBatchSize
    | SignalNotFound
    | CategoryNotFound
    | CategoryExists
    | CategoryTombstoned
    | CaseNotFound
    | InvalidCaseState
    | SelfReview
    | AppealExpired
    | AppealNotExpired
    | Panic

  datatype Category = Category(labelText: string, tombstoned: bool, deletedAt: nat)

  datatype Head = Head(provider: Address, category: nat, currentRevision: nat)

  datatype Revision = Revision(revision: nat, creator: Address, content: string, createdAt: nat)

  /** Who administers the registry, and the addresses it never accepts. */
  datatype Roles = Roles(admin: Option<Address>, sentinels: set<Address>)

  /** What is stored for one signal: its head, and its revisions by number. */
  datatype Signal = Signal(head: Head, revisions: map<nat, Revision>)

  datatype Catalog = Catalog(categories: map<nat, Category>, signalCount: nat, signals: map<nat, Signal>)

  const EMPTY := Catalog(map[], 0, map[])

  // ---- The entrypoints as functions of the state --------------------------------------------

  /** `require_admin`; None is success. */
  function AdminError(roles: Roles, auth: set<Address>): Option<SignalError> {
    if roles.admin.None? then Some(NotInitialized)
    else if roles.admin.value !in auth then Some(AuthRequired)
    else None
  }

  function CreatedCategory(c: Catalog, roles: Roles, auth: set<Address>, id: nat, labelText: string)
    : Result<Catalog, SignalError>
  {
    if AdminError(roles, auth).Some? then Err(AdminError(roles, auth).value)
    else if labelText == "" then Err(EmptyMetadata)
    else if id in c.categories then Err(if c.categories[id].tombstoned then CategoryTombstoned else CategoryExists)
    else Ok(c.(categories := c.categories[id := Category(labelText, false, 0)]))
  }

  function DeletedCategory(c: Catalog, roles: Roles, auth: set<Address>, id: nat, now: nat)
    : Result<Catalog, SignalError>
  {
    if AdminError(roles, auth).Some? then Err(AdminError(roles, auth).value)
    else if id !in c.categories then Err(CategoryNotFound)
    else if c.categories[id].tombstoned then Err(CategoryTombstoned)
    else Ok(c.(categories := c.categories[id := c.categories[id].(tombstoned := true, deletedAt := now)]))
  }

  function StoreRevision(s: Signal, n: nat, creator: Address, content: string, now: nat): Signal {
    s.(revisions := s.revisions[n := Revision(n, creator, content, now)])
  }

  function CreatedSignal(c: Catalog, roles: Roles, auth: set<Address>, provider: Address, category: nat,
                         content: string, verdict: Option<SignalError>, now: nat): Result<Catalog, SignalError>
  {
    if provider in roles.sentinels then Err(InvalidAddress)
    else if provider !in auth then Err(AuthRequired)
    else if verdict.Some? then Err(verdict.value)
    else if category !in c.categories then Err(CategoryNotFound)
    else if c.categories[category].tombstoned then Err(CategoryTombstoned)
    else
      var id := c.signalCount + 1;
      var signal := StoreRevision(Signal(Head(provider, category, 1), map[]), 1, provider, content, now);
      Ok(c.(signalCount := id, signals := c.signals[id := signal]))
  }

  function EditedSignal(c: Catalog, auth: set<Address>, provider: Address, id: nat,
                        content: string, verdict: Option<SignalError>, now: nat): Result<Catalog, SignalError>
  {
    if provider !in auth then Err(AuthRequired)
    else if verdict.Some? then Err(verdict.value)
    else if id !in c.signals then Err(SignalNotFound)
    else if c.signals[id].head.provider != provider then Err(Unauthorized)
    else if c.signals[id].head.currentRevision + 1 > U32_MAX then Err(RevisionOverflow)
    else Ok(c.(signals := c.signals[id := NextRevision(c.signals[id], content, now)]))
  }

  function NextRevision(s: Signal, content: string, now: nat): Signal {
    var n := s.head.currentRevision + 1;
    var stored := StoreRevision(s, n, s.head.provider, content, now);
    stored.(head := s.head.(currentRevision := n))
  }

  function CategoryLabel(c: Catalog, id: nat): Option<string> {
    if id in c.signals && c.signals[id].head.category in c.categories
    then Some(c.categories[c.signals[id].head.category].labelText)
    else None
  }

  // ---- What every call keeps --------------------------------------------------------------------

  /** A signal has stored exactly revisions 1 to its current one, by its provider, in time order. */
  ghost predicate HistoryOk(s: Signal, now: nat) {
    && 1 <= s.head.currentRevision <= U32_MAX
    && (forall n :: n in s.revisions <==> 1 <= n <= s.head.currentRevision)
    && (forall n | n in s.revisions :: RevisionOk(s.revisions[n], n, s.head.provider, now))
    && (forall m, n | m in s.revisions && n in s.revisions && m <= n ::
          s.revisions[m].createdAt <= s.revisions[n].createdAt)
  }

  ghost predicate RevisionOk(r: Revision, n: nat, provider: Address, now: nat) {
    r.revision == n && r.creator == provider && r.createdAt <= now
  }

  ghost predicate CatalogOk(c: Catalog, now: nat) {
    && (forall id :: id in c.signals <==> 1 <= id <= c.signalCount)
    && (forall id | id in c.signals :: HistoryOk(c.signals[id], now))
    && (forall id | id in c.signals :: c.signals[id].head.category in c.categories)
  }

  /** `t` is a later state of signal `s`: no revision rewritten, provider and category unchanged. */
  ghost predicate Continues(s: Signal, t: Signal) {
    && t.head.provider == s.head.provider && t.head.category == s.head.category
    && t.head.currentRevision >= s.head.currentRevision
    && forall n | n in s.revisions :: n in t.revisions && t.revisions[n] == s.revisions[n]
  }

  /** `b` is a later state of category `a`: same label, and a tombstone stays as it is. */
  ghost predicate Outlives(a: Category, b: Category) {
    b.labelText == a.labelText && (a.tombstoned ==> b == a)
  }

  /** `d` is a later state of `c`: nothing published was rewritten and no tombstone undone. */
  ghost predicate Extends(c: Catalog, d: Catalog) {
    && c.signalCount <= d.signalCount
    && (forall id | id in c.signals :: id in d.signals && Continues(c.signals[id], d.signals[id]))
    && (forall k | k in c.categories :: k in d.categories && Outlives(c.categories[k], d.categories[k]))
  }

  lemma ExtendsTransitive(c: Catalog, d: Catalog, e: Catalog)
    requires Extends(c, d) && Extends(d, e)
    ensures Extends(c, e)
  {
    forall id | id in c.signals
      ensures id in e.signals && Continues(c.signals[id], e.signals[id])
    {
      assert Continues(c.signals[id], d.signals[id]) && Continues(d.signals[id], e.signals[id]);
    }
    forall k | k in c.categories
      ensures k in e.categories && Outlives(c.categories[k], e.categories[k])
    {
      assert Outlives(c.categories[k], d.categories[k]) && Outlives(d.categories[k], e.categories[k]);
    }
  }

  lemma TimePasses(c: Catalog, now: nat, later: nat)
    requires CatalogOk(c, now) && now <= later
    ensures CatalogOk(c, later)
  {
    forall id | id in c.signals
      ensures HistoryOk(c.signals[id], later)
    {
      assert HistoryOk(c.signals[id], now);
    }
  }

  /** Storing the next revision of a signal continues its history. */
  lemma NextRevisionOk(s: Signal, content: string, now: nat)
    requires HistoryOk(s, now) && s.head.currentRevision < U32_MAX
    ensures HistoryOk(NextRevision(s, content, now), now) && Continues(s, NextRevision(s, content, now))
  {
  }

  lemma FirstRevisionOk(head: Head, content: string, now: nat)
    requires head.currentRevision == 1
    ensures HistoryOk(StoreRevision(Signal(head, map[]), 1, head.provider, content, now), now)
  {
  }

  /** Storing one good signal keeps the catalog good and changes no other signal. */
  lemma PutSignal(c: Catalog, id: nat, signal: Signal, now: nat)
    requires CatalogOk(c, now) && HistoryOk(signal, now) && signal.head.category in c.categories
    requires if id in c.signals then Continues(c.signals[id], signal) else id == c.signalCount + 1
    ensures var d := c.(signalCount := if id in c.signals then c.signalCount else id,
                        signals := c.signals[id := signal]);
            CatalogOk(d, now) && Extends(c, d)
  {
    var d := c.(signalCount := if id in c.signals then c.signalCount else id, signals := c.signals[id := signal]);
    forall k | k in d.signals
      ensures HistoryOk(d.signals[k], now)
    {
      assert d.signals[k] == if k == id then signal else c.signals[k];
    }
  }

  // ---- Runs -----------------------------------------------------------------------------------------

  datatype CatalogOp =
    | CreateCategory(auth: set<Address>, id: nat, labelText: string)
    | DeleteCategory(auth: set<Address>, id: nat)
    | CreateSignal(auth: set<Address>, provider: Address, category: nat, content: string, verdict: Option<SignalError>)
    | EditSignal(auth: set<Address>, provider: Address, id: nat, content: string, verdict: Option<SignalError>)

  function Outcome(c: Catalog, roles: Roles, op: CatalogOp, now: nat): Result<Catalog, SignalError> {
    match op
    case CreateCategory(auth, id, labelText) => CreatedCategory(c, roles, auth, id, labelText)
    case DeleteCategory(auth, id) => DeletedCategory(c, roles, auth, id, now)
    case CreateSignal(auth, provider, category, content, verdict) =>
      CreatedSignal(c, roles, auth, provider, category, content, verdict, now)
    case EditSignal(auth, provider, id, content, verdict) =>
      EditedSignal(c, auth, provider, id, content, verdict, now)
  }

  /** A call leaves the new catalog, or the old one when it fails. */
  function Step(c: Catalog, roles: Roles, op: CatalogOp, now: nat): Catalog {
    match Outcome(c, roles, op, now) case Ok(d) => d case Err(_) => c
  }

  lemma CategoriesKeep(c: Catalog, categories: map<nat, Category>, now: nat)
    requires CatalogOk(c, now)
    requires forall k | k in c.categories :: k in categories && Outlives(c.categories[k], categories[k])
    ensures CatalogOk(c.(categories := categories), now) && Extends(c, c.(categories := categories))
  {
  }

  lemma CategoryOpKeeps(c: Catalog, roles: Roles, op: CatalogOp, now: nat)
    requires CatalogOk(c, now) && (op.CreateCategory? || op.DeleteCategory?)
    ensures CatalogOk(Step(c, roles, op, now), now) && Extends(c, Step(c, roles, op, now))
  {
    var d := Step(c, roles, op, now);
    assert d == c.(categories := d.categories);
    CategoriesKeep(c, d.categories, now);
  }

  lemma StepKeepsCatalog(c: Catalog, roles: Roles, op: CatalogOp, now: nat)
    requires CatalogOk(c, now)
    ensures CatalogOk(Step(c, roles, op, now), now) && Extends(c, Step(c, roles, op, now))
  {
    if op.CreateCategory? || op.DeleteCategory? {
      CategoryOpKeeps(c, roles, op, now);
    } else if Outcome(c, roles, op, now).Err? {
      CategoriesKeep(c, c.categories, now);
    } else if op.CreateSignal? {
      var head := Head(op.provider, op.category, 1);
      FirstRevisionOk(head, op.content, now);
      PutSignal(c, c.signalCount + 1, StoreRevision(Signal(head, map[]), 1, op.provider, op.content, now), now);
    } else {
      NextRevisionOk(c.signals[op.id], op.content, now);
      PutSignal(c, op.id, NextRevision(c.signals[op.id], op.content, now), now);
    }
  }

  // ---- Reading history in pages -----------------------------------------------------------------------

  function Larger(x: nat, y: nat): nat {
    if x >= y then x else y
  }

  /** Revisions `first` to `last` of a signal that are stored. */
  function Stored(s: Signal, first: nat, last: nat): seq<Revision>
    decreases last + 1 - first
  {
    if first > last then []
    else (if first in s.revisions then [s.revisions[first]] else []) + Stored(s, first + 1, last)
  }

  function LastOfPage(s: Signal, start: nat, limit: nat): nat
    requires limit > 0
  {
    var end := Larger(start, 1) + limit - 1;
    var capped := if end > U32_MAX then U32_MAX else end;
    if capped <= s.head.currentRevision then capped else s.head.currentRevision
  }

  /** A page; the counter of the loop overflows when it has to step past the largest u32. */
  function Page(c: Catalog, id: nat, start: nat, limit: nat): Result<seq<Revision>, SignalError> {
    if limit == 0 || limit > MAX_REVISION_PAGE then Err(InvalidBatchSize)
    else if id !in c.signals then Err(SignalNotFound)
    else
      var last := LastOfPage(c.signals[id], start, limit);
      if Larger(start, 1) <= last == U32_MAX then Err(Panic)
      else Ok(Stored(c.signals[id], Larger(start, 1), last))
  }

  method GetSignalHistory(c: Catalog, id: nat, start: nat, limit: nat) returns (r: Result<seq<Revision>, SignalError>)
    ensures r == Page(c, id, start, limit)
  {
    if limit == 0 || limit > MAX_REVISION_PAGE {
      return Err(InvalidBatchSize);
    }
    if id !in c.signals {
      return Err(SignalNotFound);
    }
    var s := c.signals[id];
    var out: seq<Revision> := [];
    var first := Larger(start, 1);
    var last := LastOfPage(s, start, limit);
    var rev := first;
    while rev <= last
      invariant first <= rev && (rev == first || rev <= U32_MAX)
      invariant out + Stored(s, rev, last) == Stored(s, first, last)
      decreases last + 1 - rev
    {
      if rev in s.revisions {
        out := out + [s.revisions[rev]];
      }
      if rev == U32_MAX {
        return Err(Panic);
      }
      rev := rev + 1;
    }
    assert out + [] == out;
    return Ok(out);
  }

  ghost predicate Unbroken(s: Signal) {
    forall n | 1 <= n <= s.head.currentRevision :: n in s.revisions
  }

  /** The stored revisions of a signal from the first to the current one. */
  ghost function FullHistory(s: Signal): seq<Revision>
    requires Unbroken(s)
  {
    seq(s.head.currentRevision, i requires 0 <= i < s.head.currentRevision => s.revisions[i + 1])
  }

  lemma {:induction false} StoredIsSlice(s: Signal, first: nat, last: nat)
    requires Unbroken(s) && 1 <= first <= last + 1 && last <= s.head.currentRevision
    ensures Stored(s, first, last) == FullHistory(s)[first - 1..last]
    decreases last + 1 - first
  {
    if first <= last {
      StoredIsSlice(s, first + 1, last);
      var full := FullHistory(s);
      assert full[first - 1] == s.revisions[first];
      assert full[first - 1..last] == [full[first - 1]] + full[first..last];
    }
  }

  /** A client reading page after page until it has passed the current revision. */
  function Paged(c: Catalog, id: nat, start: nat, limit: nat): Result<seq<Revision>, SignalError>
    requires id in c.signals && limit > 0
    decreases c.signals[id].head.currentRevision + 1 - start
  {
    if start > c.signals[id].head.currentRevision then Ok([])
    else match Page(c, id, start, limit)
      case Err(e) => Err(e)
      case Ok(page) =>
        match Paged(c, id, start + limit, limit)
        case Err(e) => Err(e)
        case Ok(rest) => Ok(page + rest)
  }

  /** The history from revision `start` on. */
  ghost function HistoryFrom(s: Signal, start: nat): seq<Revision>
    requires Unbroken(s) && start >= 1
  {
    if start <= s.head.currentRevision then FullHistory(s)[start - 1..] else []
  }

  lemma PageIsPrefix(c: Catalog, id: nat, start: nat, limit: nat)
    requires id in c.signals && Unbroken(c.signals[id]) && c.signals[id].head.currentRevision < U32_MAX
    requires 1 <= start <= c.signals[id].head.currentRevision && 1 <= limit <= MAX_REVISION_PAGE
    ensures Page(c, id, start, limit).Ok?
    ensures Page(c, id, start, limit).value + HistoryFrom(c.signals[id], start + limit)
        == HistoryFrom(c.signals[id], start)
  {
    var s := c.signals[id];
    var full, last := FullHistory(s), LastOfPage(s, start, limit);
    StoredIsSlice(s, start, last);
    assert HistoryFrom(s, start + limit) == full[last..];
    assert full[start - 1..] == full[start - 1..last] + full[last..];
  }

  lemma {:induction false} PagesFrom(c: Catalog, id: nat, start: nat, limit: nat)
    requires id in c.signals && Unbroken(c.signals[id]) && c.signals[id].head.currentRevision < U32_MAX
    requires start >= 1 && 1 <= limit <= MAX_REVISION_PAGE
    ensures Paged(c, id, start, limit) == Ok(HistoryFrom(c.signals[id], start))
    decreases c.signals[id].head.currentRevision + 1 - start
  {
    if start <= c.signals[id].head.currentRevision {
      PageIsPrefix(c, id, start, limit);
      PagesFrom(c, id, start + limit, limit);
    }
  }

  /** With the largest u32 as the current revision, the last page overflows the counter. */
  lemma {:induction false} PagesOverflow(c: Catalog, id: nat, start: nat, limit: nat)
    requires id in c.signals && c.signals[id].head.currentRevision == U32_MAX
    requires 1 <= start <= U32_MAX && 1 <= limit <= MAX_REVISION_PAGE
    ensures Paged(c, id, start, limit) == Err(Panic)
    decreases U32_MAX + 1 - start
  {
    if start + limit <= U32_MAX {
      PagesOverflow(c, id, start + limit, limit);
    }
  }

  /**
   * Pages of any legal size, read from revision 1, concatenate to the full history, exactly as long
   * as the signal has not reached the largest revision number.
   */
  lemma PagesConcatenate(c: Catalog, id: nat, limit: nat, now: nat)
    requires CatalogOk(c, now) && id in c.signals && 1 <= limit <= MAX_REVISION_PAGE
    ensures Unbroken(c.signals[id])
    ensures Paged(c, id, 1, limit) == Ok(FullHistory(c.signals[id])) <==> c.signals[id].head.currentRevision < U32_MAX
  {
    assert HistoryOk(c.signals[id], now);
    if c.signals[id].head.currentRevision < U32_MAX {
      PagesFrom(c, id, 1, limit);
      var full := FullHistory(c.signals[id]);
      assert full[0..] == full;
    } else {
      PagesOverflow(c, id, 1, limit);
    }
  }

  /** A page is refused for its size or for the signal, and otherwise has at most 50 revisions, in order. */
  lemma PageVerdict(c: Catalog, id: nat, start: nat, limit: nat)
    ensures Page(c, id, start, limit) == Err(InvalidBatchSize) <==> limit == 0 || limit > 50
    ensures Page(c, id, start, limit) == Err(SignalNotFound) <==> 1 <= limit <= 50 && id !in c.signals
    ensures Page(c, id, start, limit).Ok? && Unbroken(c.signals[id]) ==>
              |Page(c, id, start, limit).value| <= limit <= 50
  {
    if Page(c, id, start, limit).Ok? && Unbroken(c.signals[id]) {
      var first, last := Larger(start, 1), LastOfPage(c.signals[id], start, limit);
      if first <= last {
        StoredIsSlice(c.signals[id], first, last);
      }
    }
  }
}
