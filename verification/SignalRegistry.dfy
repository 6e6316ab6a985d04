// The signal registry contract: its storage, its entrypoints, and what holds over
// every run of them.
module SignalRegistry {
  import opened Options
  import opened MachineInts
  import opened SignalCatalog
  import opened ModerationAppeals

  class Registry {
    const roles: Roles
    var categories: map<nat, Category>
    var signalCount: nat
    var signals: map<nat, Signal>
    var reviewers: set<Address>
    var caseCount: nat
    var cases: map<nat, Case>
    var appeals: map<nat, Appeal>
    var published: seq<Published>

    function TheCatalog(): Catalog
      reads this
    {
      Catalog(categories, signalCount, signals)
    }

    function TheDocket(): Docket
      reads this
    {
      Docket(reviewers, caseCount, cases, appeals, published)
    }

    constructor (roles: Roles)
      ensures this.roles == roles && TheCatalog() == EMPTY && TheDocket() == NO_CASES
    {
      this.roles := roles;
      categories, signalCount, signals := map[], 0, map[];
      reviewers, caseCount, cases, appeals, published := {}, 0, map[], map[], [];
    }

    method CreateCategory(auth: set<Address>, id: nat, labelText: string) returns (error: Option<SignalError>)
      modifies this`categories
      ensures match CreatedCategory(old(TheCatalog()), roles, auth, id, labelText)
              case Ok(c) => error.None? && TheCatalog() == c
              case Err(e) => error == Some(e) && TheCatalog() == old(TheCatalog())
    {
      if AdminError(roles, auth).Some? {
        return AdminError(roles, auth);
      }
      if labelText == "" {
        return Some(EmptyMetadata);
      }
      if id in categories {
        return Some(if categories[id].tombstoned then CategoryTombstoned else CategoryExists);
      }
      categories := categories[id := Category(labelText, false, 0)];
      return None;
    }

    method DeleteCategory(auth: set<Address>, id: nat, now: nat) returns (error: Option<SignalError>)
      modifies this`categories
      ensures match DeletedCategory(old(TheCatalog()), roles, auth, id, now)
              case Ok(c) => error.None? && TheCatalog() == c
              case Err(e) => error == Some(e) && TheCatalog() == old(TheCatalog())
    {
      if AdminError(roles, auth).Some? {
        return AdminError(roles, auth);
      }
      if id !in categories {
        return Some(CategoryNotFound);
      }
      var category := categories[id];
      if category.tombstoned {
        return Some(CategoryTombstoned);
      }
      category := category.(tombstoned := true);
      category := category.(deletedAt := now);
      categories := categories[id := category];
      return None;
    }

    method CreateSignal(auth: set<Address>, provider: Address, category: nat, content: string,
                        verdict: Option<SignalError>, now: nat) returns (r: Result<nat, SignalError>)
      modifies this`signalCount, this`signals
      ensures match CreatedSignal(old(TheCatalog()), roles, auth, provider, category, content, verdict, now)
              case Ok(c) => r == Ok(c.signalCount) && TheCatalog() == c
              case Err(e) => r == Err(e) && TheCatalog() == old(TheCatalog())
    {
      if provider in roles.sentinels {
        return Err(InvalidAddress);
      }
      if provider !in auth {
        return Err(AuthRequired);
      }
      if verdict.Some? {
        return Err(verdict.value);
      }
      if category !in categories {
        return Err(CategoryNotFound);
      }
      if categories[category].tombstoned {
        return Err(CategoryTombstoned);
      }
      var id := signalCount + 1;
      signalCount := id;
      signals := signals[id := Signal(Head(provider, category, 1), map[])];
      PutRevision(id, 1, provider, content, now);
      return Ok(id);
    }

    method PutRevision(id: nat, n: nat, creator: Address, content: string, now: nat)
      requires id in signals
      modifies this`signals
      ensures signals == old(signals)[id := StoreRevision(old(signals)[id], n, creator, content, now)]
    {
      var s := signals[id];
      signals := signals[id := Signal(s.head, s.revisions[n := Revision(n, creator, content, now)])];
    }

    method EditSignal(auth: set<Address>, provider: Address, id: nat, content: string,
                      verdict: Option<SignalError>, now: nat) returns (r: Result<nat, SignalError>)
      modifies this`signals
      ensures match EditedSignal(old(TheCatalog()), auth, provider, id, content, verdict, now)
              case Ok(c) => r == Ok(c.signals[id].head.currentRevision) && TheCatalog() == c
              case Err(e) => r == Err(e) && TheCatalog() == old(TheCatalog())
    {
      if provider !in auth {
        return Err(AuthRequired);
      }
      if verdict.Some? {
        return Err(verdict.value);
      }
      if id !in signals {
        return Err(SignalNotFound);
      }
      var head := signals[id].head;
      if head.provider != provider {
        return Err(Unauthorized);
      }
      if head.currentRevision + 1 > U32_MAX {
        return Err(RevisionOverflow);
      }
      var revision := head.currentRevision + 1;
      PutRevision(id, revision, provider, content, now);
      head := head.(currentRevision := revision);
      signals := signals[id := signals[id].(head := head)];
      return Ok(revision);
    }

    method SetAppealReviewer(auth: set<Address>, reviewer: Address, enabled: bool) returns (error: Option<SignalError>)
      modifies this`reviewers
      ensures match SetReviewer(old(TheDocket()), roles, auth, reviewer, enabled)
              case Ok(d) => error.None? && TheDocket() == d
              case Err(e) => error == Some(e) && TheDocket() == old(TheDocket())
    {
      if reviewer in roles.sentinels {
        return Some(InvalidAddress);
      }
      if AdminError(roles, auth).Some? {
        return AdminError(roles, auth);
      }
      if enabled {
        reviewers := reviewers + {reviewer};
      } else {
        reviewers := reviewers - {reviewer};
      }
      return None;
    }

    method OpenModerationCase(auth: set<Address>, signalId: nat, reason: string) returns (r: Result<nat, SignalError>)
      modifies this`caseCount, this`cases
      ensures match OpenedCase(old(TheDocket()), TheCatalog(), roles, auth, signalId, reason)
              case Ok(d) => r == Ok(d.caseCount) && TheDocket() == d
              case Err(e) => r == Err(e) && TheDocket() == old(TheDocket())
    {
      if AdminError(roles, auth).Some? {
        return Err(AdminError(roles, auth).value);
      }
      if signalId !in signals {
        return Err(SignalNotFound);
      }
      var id := caseCount + 1;
      caseCount := id;
      cases := cases[id := Case(signalId, roles.admin.value, reason, Open)];
      return Ok(id);
    }

    method DecideModerationCase(auth: set<Address>, id: nat) returns (error: Option<SignalError>)
      modifies this`cases
      ensures match DecidedCase(old(TheDocket()), roles, auth, id)
              case Ok(d) => error.None? && TheDocket() == d
              case Err(e) => error == Some(e) && TheDocket() == old(TheDocket())
    {
      if AdminError(roles, auth).Some? {
        return AdminError(roles, auth);
      }
      if id !in cases {
        return Some(CaseNotFound);
      }
      if cases[id].status != Open {
        return Some(InvalidCaseState);
      }
      cases := cases[id := cases[id].(status := Decided)];
      return None;
    }

    method SubmitAppeal(auth: set<Address>, appellant: Address, id: nat, reason: string, now: nat)
      returns (error: Option<SignalError>)
      modifies this`cases, this`appeals
      ensures match SubmittedAppeal(old(TheDocket()), TheCatalog(), auth, appellant, id, reason, now)
              case Ok(d) => error.None? && TheDocket() == d
              case Err(e) => error == Some(e) && TheDocket() == old(TheDocket())
    {
      if appellant !in auth {
        return Some(AuthRequired);
      }
      if id !in cases {
        return Some(CaseNotFound);
      }
      var theCase := cases[id];
      if theCase.status != Decided {
        return Some(InvalidCaseState);
      }
      if theCase.signalId !in signals {
        return Some(SignalNotFound);
      }
      if signals[theCase.signalId].head.provider != appellant {
        return Some(Unauthorized);
      }
      appeals := appeals[id := Appeal(appellant, reason, now, None, None, None)];
      cases := cases[id := theCase.(status := Appealed)];
      return None;
    }

    method ReviewAppeal(auth: set<Address>, reviewer: Address, id: nat) returns (error: Option<SignalError>)
      modifies this`appeals
      ensures match ReviewedAppeal(old(TheDocket()), auth, reviewer, id)
              case Ok(d) => error.None? && TheDocket() == d
              case Err(e) => error == Some(e) && TheDocket() == old(TheDocket())
    {
      if ReviewerError(TheDocket(), auth, reviewer).Some? {
        return ReviewerError(TheDocket(), auth, reviewer);
      }
      if PendingError(TheDocket(), id).Some? {
        return PendingError(TheDocket(), id);
      }
      var appeal := appeals[id];
      if appeal.appellant == reviewer {
        return Some(SelfReview);
      }
      if appeal.reviewer.Some? {
        return Some(InvalidCaseState);
      }
      appeals := appeals[id := appeal.(reviewer := Some(reviewer))];
      return None;
    }

    method ResolveAppeal(auth: set<Address>, reviewer: Address, id: nat, approved: bool, reason: string, now: nat)
      returns (error: Option<SignalError>)
      modifies this`cases, this`appeals, this`published
      ensures match ResolvedAppeal(old(TheDocket()), auth, reviewer, id, approved, reason, now)
              case Ok(d) => error.None? && TheDocket() == d
              case Err(e) => error == Some(e) && TheDocket() == old(TheDocket())
    {
      if ReviewerError(TheDocket(), auth, reviewer).Some? {
        return ReviewerError(TheDocket(), auth, reviewer);
      }
      if PendingError(TheDocket(), id).Some? {
        return PendingError(TheDocket(), id);
      }
      if appeals[id].appellant == reviewer {
        return Some(SelfReview);
      }
      if appeals[id].reviewer != Some(reviewer) {
        return Some(Unauthorized);
      }
      if now >= Deadline(appeals[id]) {
        return Some(AppealExpired);
      }
      FinishAppeal(id, approved, reason, Some(reviewer), false, now);
      return None;
    }

    method ExpireAppeal(id: nat, now: nat) returns (error: Option<SignalError>)
      modifies this`cases, this`appeals, this`published
      ensures match ExpiredAppeal(old(TheDocket()), id, now)
              case Ok(d) => error.None? && TheDocket() == d
              case Err(e) => error == Some(e) && TheDocket() == old(TheDocket())
    {
      if PendingError(TheDocket(), id).Some? {
        return PendingError(TheDocket(), id);
      }
      if now < Deadline(appeals[id]) {
        return Some(AppealNotExpired);
      }
      FinishAppeal(id, false, "appeal timed out", None, true, now);
      return None;
    }

    method FinishAppeal(id: nat, approved: bool, reason: string, resolver: Option<Address>, timedOut: bool, now: nat)
      requires id in cases && id in appeals
      modifies this`cases, this`appeals, this`published
      ensures TheDocket() == Finished(old(TheDocket()), id, approved, reason, resolver, timedOut, now)
    {
      appeals := appeals[id := appeals[id].(approved := Some(approved), finalReason := Some(reason))];
      cases := cases[id := cases[id].(status := AppealResolved)];
      published := published
          + [Published(now, Resolution(id, cases[id].signalId, approved, reason, resolver, timedOut))];
    }
  }

  // ---- Runs -------------------------------------------------------------------------------------

  datatype Call =
    | OnCatalog(now: nat, catalogOp: CatalogOp)
    | OnDocket(now: nat, docketOp: DocketOp)

  datatype State = State(catalog: Catalog, docket: Docket)

  function CallStep(s: State, roles: Roles, call: Call): State {
    match call
    case OnCatalog(now, op) => s.(catalog := Step(s.catalog, roles, op, now))
    case OnDocket(now, op) => s.(docket := DocketStep(s.docket, s.catalog, roles, op, now))
  }

  function Run(s: State, roles: Roles, calls: seq<Call>): State
    decreases |calls|
  {
    if calls == [] then s else CallStep(Run(s, roles, calls[..|calls| - 1]), roles, calls[|calls| - 1])
  }

  ghost predicate TimesOrdered(calls: seq<Call>) {
    forall i, j | 0 <= i < j < |calls| :: calls[i].now <= calls[j].now
  }

  function Clock(calls: seq<Call>): nat {
    if calls == [] then 0 else calls[|calls| - 1].now
  }

  ghost predicate StateOk(s: State, now: nat) {
    CatalogOk(s.catalog, now) && DocketOk(s.docket, s.catalog)
  }

  ghost predicate Later(s: State, t: State) {
    Extends(s.catalog, t.catalog) && Progress(s.docket, t.docket)
  }

  lemma CallKeeps(s: State, roles: Roles, call: Call)
    requires StateOk(s, call.now)
    ensures StateOk(CallStep(s, roles, call), call.now) && Later(s, CallStep(s, roles, call))
  {
    match call
    case OnCatalog(now, op) =>
      StepKeepsCatalog(s.catalog, roles, op, now);
      DocketUnderCatalog(s.docket, s.catalog, Step(s.catalog, roles, op, now));
      SameFiles(s.docket, s.docket, s.catalog);
    case OnDocket(now, op) =>
      StepKeepsDocket(s.docket, s.catalog, roles, op, now);
      CategoriesKeep(s.catalog, s.catalog.categories, now);
  }

  const START := State(EMPTY, NO_CASES)

  /**
   * In every reachable state each signal has stored exactly its revisions, in a stored category, and
   * each case file fits its status.
   */
  lemma {:induction false} RunKeepsRegistry(roles: Roles, calls: seq<Call>)
    requires TimesOrdered(calls)
    ensures StateOk(Run(START, roles, calls), Clock(calls))
    decreases |calls|
  {
    if calls != [] {
      var earlier, last := calls[..|calls| - 1], calls[|calls| - 1];
      assert forall i | 0 <= i < |earlier| :: earlier[i] == calls[i];
      RunKeepsRegistry(roles, earlier);
      var s := Run(START, roles, earlier);
      TimePasses(s.catalog, Clock(earlier), last.now);
      CallKeeps(s, roles, last);
    }
  }

  /**
   * Along every run nothing is undone: revisions are never rewritten, labels and tombstones stay,
   * cases only move forward and a resolved one is final.
   */
  lemma {:induction false} NothingUndone(roles: Roles, calls: seq<Call>, k: nat)
    requires TimesOrdered(calls) && k <= |calls|
    ensures Later(Run(START, roles, calls[..k]), Run(START, roles, calls))
    decreases |calls|
  {
    RunKeepsRegistry(roles, calls);
    if k == |calls| {
      assert calls[..k] == calls;
      var s := Run(START, roles, calls);
      SameFiles(s.docket, s.docket, s.catalog);
      CategoriesKeep(s.catalog, s.catalog.categories, Clock(calls));
    } else {
      var earlier, last := calls[..|calls| - 1], calls[|calls| - 1];
      assert forall i | 0 <= i < |earlier| :: earlier[i] == calls[i];
      assert earlier[..k] == calls[..k];
      NothingUndone(roles, earlier, k);
      RunKeepsRegistry(roles, earlier);
      var r, s, t := Run(START, roles, calls[..k]), Run(START, roles, earlier), Run(START, roles, calls);
      TimePasses(s.catalog, Clock(earlier), last.now);
      CallKeeps(s, roles, last);
      ExtendsTransitive(r.catalog, s.catalog, t.catalog);
      ProgressTransitive(r.docket, s.docket, t.docket);
    }
  }

  /** The content and time of a call that writes a revision of signal `id`. */
  function Writes(c: Catalog, roles: Roles, op: CatalogOp, now: nat, id: nat): seq<(string, nat)> {
    if Outcome(c, roles, op, now).Err? then []
    else match op
      case CreateSignal(_, _, _, content, _) => if id == c.signalCount + 1 then [(content, now)] else []
      case EditSignal(_, _, target, content, _) => if id == target then [(content, now)] else []
      case _ => []
  }

  /** Everything accepted calls wrote to signal `id`, in order. */
  function Written(roles: Roles, calls: seq<Call>, id: nat): seq<(string, nat)>
    decreases |calls|
  {
    if calls == [] then []
    else
      var earlier, last := calls[..|calls| - 1], calls[|calls| - 1];
      Written(roles, earlier, id)
      + (if last.OnCatalog? then Writes(Run(START, roles, earlier).catalog, roles, last.catalogOp, last.now, id)
          else [])
  }

  /** The revisions of signal `id` are exactly what was written, numbered from 1. */
  ghost predicate HoldsWritten(c: Catalog, id: nat, written: seq<(string, nat)>) {
    if id !in c.signals then written == []
    else
      var s := c.signals[id];
      && |written| == s.head.currentRevision
      && forall n | 1 <= n <= |written| ::
           n in s.revisions && s.revisions[n] == Revision(n, s.head.provider, written[n - 1].0, written[n - 1].1)
  }

  lemma StepHoldsWritten(c: Catalog, roles: Roles, op: CatalogOp, now: nat, id: nat, written: seq<(string, nat)>)
    requires CatalogOk(c, now) && HoldsWritten(c, id, written)
    ensures HoldsWritten(Step(c, roles, op, now), id, written + Writes(c, roles, op, now, id))
  {
    assert id in c.signals <==> 1 <= id <= c.signalCount;
  }

  /** In every run the history of a signal is exactly the contents its accepted calls gave, with their times. */
  lemma {:induction false} HistoryIsWhatWasWritten(roles: Roles, calls: seq<Call>, id: nat)
    requires TimesOrdered(calls)
    ensures HoldsWritten(Run(START, roles, calls).catalog, id, Written(roles, calls, id))
    decreases |calls|
  {
    if calls != [] {
      var earlier, last := calls[..|calls| - 1], calls[|calls| - 1];
      assert forall i | 0 <= i < |earlier| :: earlier[i] == calls[i];
      HistoryIsWhatWasWritten(roles, earlier, id);
      RunKeepsRegistry(roles, earlier);
      var c := Run(START, roles, earlier).catalog;
      TimePasses(c, Clock(earlier), last.now);
      if last.OnCatalog? {
        StepHoldsWritten(c, roles, last.catalogOp, last.now, id, Written(roles, earlier, id));
      }
    }
  }

  /** The category label of a signal reads the same for ever, tombstoned or not. */
  lemma LabelForever(roles: Roles, calls: seq<Call>, k: nat, id: nat)
    requires TimesOrdered(calls) && k <= |calls|
    requires id in Run(START, roles, calls[..k]).catalog.signals
    ensures CategoryLabel(Run(START, roles, calls[..k]).catalog, id).Some?
    ensures CategoryLabel(Run(START, roles, calls).catalog, id)
        == CategoryLabel(Run(START, roles, calls[..k]).catalog, id)
  {
    assert forall i | 0 <= i < k :: calls[..k][i] == calls[i];
    RunKeepsRegistry(roles, calls[..k]);
    NothingUndone(roles, calls, k);
    var c, d := Run(START, roles, calls[..k]).catalog, Run(START, roles, calls).catalog;
    assert Continues(c.signals[id], d.signals[id]);
    var category := c.signals[id].head.category;
    assert Outlives(c.categories[category], d.categories[category]);
  }

  /** A tombstoned category identifier never accepts a signal or a new category again. */
  lemma TombstonesArePermanent(roles: Roles, calls: seq<Call>, k: nat, id: nat, op: CatalogOp, now: nat)
    requires TimesOrdered(calls) && k <= |calls|
    requires var c := Run(START, roles, calls[..k]).catalog; id in c.categories && c.categories[id].tombstoned
    requires (op.CreateCategory? && op.id == id) || (op.CreateSignal? && op.category == id)
    ensures Outcome(Run(START, roles, calls).catalog, roles, op, now).Err?
  {
    NothingUndone(roles, calls, k);
    var c, d := Run(START, roles, calls[..k]).catalog, Run(START, roles, calls).catalog;
    assert Outlives(c.categories[id], d.categories[id]);
  }

  /** Exactly one resolved event per resolved case, and none for any other. */
  lemma OneEventPerResolvedCase(roles: Roles, calls: seq<Call>, id: nat)
    requires TimesOrdered(calls) && id in Run(START, roles, calls).docket.cases
    ensures var d := Run(START, roles, calls).docket;
            |EventsOf(d.published, id)| == if d.cases[id].status == AppealResolved then 1 else 0
  {
    RunKeepsRegistry(roles, calls);
    var s := Run(START, roles, calls);
    assert CaseOk(s.docket, s.catalog, id);
  }

  /** Every approval in any run came from the assigned reviewer, not the appellant, before the deadline. */
  lemma ApprovalsAreReviewed(roles: Roles, calls: seq<Call>, i: nat)
    requires TimesOrdered(calls) && i < |Run(START, roles, calls).docket.published|
    requires Run(START, roles, calls).docket.published[i].event.approved
    ensures var s := Run(START, roles, calls);
            var p := s.docket.published[i];
            var id := p.event.caseId;
            && id in s.docket.cases && id in s.docket.appeals && s.docket.cases[id].signalId in s.catalog.signals
            && var appeal := s.docket.appeals[id];
               && p.event.resolver.Some? && p.event.resolver == appeal.reviewer
               && p.event.resolver != Some(appeal.appellant) && p.at < Deadline(appeal)
               && appeal.appellant == s.catalog.signals[s.docket.cases[id].signalId].head.provider
  {
    RunKeepsRegistry(roles, calls);
    var s := Run(START, roles, calls);
    PublishedIsTheVerdict(s.docket, s.catalog, i);
    assert CaseOk(s.docket, s.catalog, s.docket.published[i].event.caseId);
  }
}
