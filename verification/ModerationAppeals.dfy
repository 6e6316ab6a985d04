// Moderation cases against signals and their single appeal.
module ModerationAppeals {
  import opened Options
  import opened MachineInts
  import opened SignalCatalog

  const APPEAL_TIMEOUT_SECONDS := 7 * 24 * 60 * 60

  datatype CaseStatus = Open | Decided | Appealed | AppealResolved

  datatype Case = Case(signalId: nat, moderator: Address, reason: string, status: CaseStatus)

  datatype Appeal = Appeal(appellant: Address, reason: string, submittedAt: nat, reviewer: Option<Address>,
                           approved: Option<bool>, finalReason: Option<string>)

  datatype Resolution = Resolution(caseId: nat, signalId: nat, approved: bool, finalReason: string,
                                   resolver: Option<Address>, timedOut: bool)

  /** A resolved event and the ledger time it was published at. */
  datatype Published = Published(at: nat, event: Resolution)

  datatype Docket = Docket(reviewers: set<Address>, caseCount: nat, cases: map<nat, Case>,
                           appeals: map<nat, Appeal>, published: seq<Published>)

  const NO_CASES := Docket({}, 0, map[], map[], [])

  function Deadline(a: Appeal): nat {
    SaturateU64(a.submittedAt + APPEAL_TIMEOUT_SECONDS)
  }

  // ---- The entrypoints as functions of the state ------------------------------------------

  function SetReviewer(d: Docket, roles: Roles, auth: set<Address>, reviewer: Address, enabled: bool)
    : Result<Docket, SignalError>
  {
    if reviewer in roles.sentinels then Err(InvalidAddress)
    else if AdminError(roles, auth).Some? then Err(AdminError(roles, auth).value)
    else Ok(d.(reviewers := if enabled then d.reviewers + {reviewer} else d.reviewers - {reviewer}))
  }

  function OpenedCase(d: Docket, c: Catalog, roles: Roles, auth: set<Address>, signalId: nat, reason: string)
    : Result<Docket, SignalError>
  {
    if AdminError(roles, auth).Some? then Err(AdminError(roles, auth).value)
    else if signalId !in c.signals then Err(SignalNotFound)
    else
      var id := d.caseCount + 1;
      Ok(d.(caseCount := id, cases := d.cases[id := Case(signalId, roles.admin.value, reason, Open)]))
  }

  function DecidedCase(d: Docket, roles: Roles, auth: set<Address>, id: nat): Result<Docket, SignalError> {
    if AdminError(roles, auth).Some? then Err(AdminError(roles, auth).value)
    else if id !in d.cases then Err(CaseNotFound)
    else if d.cases[id].status != Open then Err(InvalidCaseState)
    else Ok(d.(cases := d.cases[id := d.cases[id].(status := Decided)]))
  }

  function SubmittedAppeal(d: Docket, c: Catalog, auth: set<Address>, appellant: Address, id: nat, reason: string,
                           now: nat)
    : Result<Docket, SignalError>
  {
    if appellant !in auth then Err(AuthRequired)
    else if id !in d.cases then Err(CaseNotFound)
    else if d.cases[id].status != Decided then Err(InvalidCaseState)
    else if d.cases[id].signalId !in c.signals then Err(SignalNotFound)
    else if c.signals[d.cases[id].signalId].head.provider != appellant then Err(Unauthorized)
    else Ok(d.(appeals := d.appeals[id := Appeal(appellant, reason, now, None, None, None)],
               cases := d.cases[id := d.cases[id].(status := Appealed)]))
  }

  /** `load_pending_appeal`; None is success. */
  function PendingError(d: Docket, id: nat): Option<SignalError> {
    if id !in d.cases then Some(CaseNotFound)
    else if d.cases[id].status != Appealed then Some(InvalidCaseState)
    else if id !in d.appeals then Some(CaseNotFound)
    else None
  }

  function ReviewerError(d: Docket, auth: set<Address>, reviewer: Address): Option<SignalError> {
    if reviewer !in auth then Some(AuthRequired)
    else if reviewer !in d.reviewers then Some(Unauthorized)
    else None
  }

  function ReviewedAppeal(d: Docket, auth: set<Address>, reviewer: Address, id: nat): Result<Docket, SignalError> {
    if ReviewerError(d, auth, reviewer).Some? then Err(ReviewerError(d, auth, reviewer).value)
    else if PendingError(d, id).Some? then Err(PendingError(d, id).value)
    else if d.appeals[id].appellant == reviewer then Err(SelfReview)
    else if d.appeals[id].reviewer.Some? then Err(InvalidCaseState)
    else Ok(d.(appeals := d.appeals[id := d.appeals[id].(reviewer := Some(reviewer))]))
  }

  function Finished(d: Docket, id: nat, approved: bool, reason: string, resolver: Option<Address>, timedOut: bool,
                    now: nat)
    : Docket
    requires id in d.cases && id in d.appeals
  {
    var appeal := d.appeals[id].(approved := Some(approved), finalReason := Some(reason));
    d.(appeals := d.appeals[id := appeal],
       cases := d.cases[id := d.cases[id].(status := AppealResolved)],
       published := d.published
         + [Published(now, Resolution(id, d.cases[id].signalId, approved, reason, resolver, timedOut))])
  }

  function ResolvedAppeal(d: Docket, auth: set<Address>, reviewer: Address, id: nat, approved: bool, reason: string,
                          now: nat)
    : Result<Docket, SignalError>
  {
    if ReviewerError(d, auth, reviewer).Some? then Err(ReviewerError(d, auth, reviewer).value)
    else if PendingError(d, id).Some? then Err(PendingError(d, id).value)
    else if d.appeals[id].appellant == reviewer then Err(SelfReview)
    else if d.appeals[id].reviewer != Some(reviewer) then Err(Unauthorized)
    else if now >= Deadline(d.appeals[id]) then Err(AppealExpired)
    else Ok(Finished(d, id, approved, reason, Some(reviewer), false, now))
  }

  function ExpiredAppeal(d: Docket, id: nat, now: nat): Result<Docket, SignalError> {
    if PendingError(d, id).Some? then Err(PendingError(d, id).value)
    else if now < Deadline(d.appeals[id]) then Err(AppealNotExpired)
    else Ok(Finished(d, id, false, "appeal timed out", None, true, now))
  }

  // ---- What a case file looks like in every reachable state ------------------------------------

  function AppealOf(d: Docket, id: nat): Option<Appeal> {
    if id in d.appeals then Some(d.appeals[id]) else None
  }

  /** The resolved events of one case. */
  function EventsOf(published: seq<Published>, id: nat): seq<Published> {
    if published == [] then []
    else
      var earlier, last := EventsOf(published[..|published| - 1], id), published[|published| - 1];
      if last.event.caseId == id then earlier + [last] else earlier
  }

  /** The appeal is the provider's own, and nobody reviews their own appeal. */
  ghost predicate AppealOk(a: Appeal, provider: Address) {
    a.appellant == provider && a.reviewer != Some(a.appellant)
  }

  /** A verdict in time comes from the assigned reviewer; a timeout is a rejection without one. */
  ghost predicate VerdictOk(a: Appeal, e: Published) {
    && a.approved == Some(e.event.approved) && a.finalReason == Some(e.event.finalReason)
    && if e.event.timedOut
       then !e.event.approved && e.event.resolver.None? && e.at >= Deadline(a)
       else e.event.resolver.Some? && e.event.resolver == a.reviewer && e.at < Deadline(a)
  }

  ghost predicate FileOk(case_: Case, appeal: Option<Appeal>, events: seq<Published>, provider: Address) {
    match case_.status
    case Open => appeal.None? && events == []
    case Decided => appeal.None? && events == []
    case Appealed =>
      && appeal.Some? && AppealOk(appeal.value, provider) && events == []
      && appeal.value.approved.None? && appeal.value.finalReason.None?
    case AppealResolved =>
      && appeal.Some? && AppealOk(appeal.value, provider)
      && |events| == 1 && events[0].event.signalId == case_.signalId && VerdictOk(appeal.value, events[0])
  }

  ghost predicate CaseOk(d: Docket, c: Catalog, id: nat)
    requires id in d.cases
  {
    && d.cases[id].signalId in c.signals
    && FileOk(d.cases[id], AppealOf(d, id), EventsOf(d.published, id), c.signals[d.cases[id].signalId].head.provider)
  }

  ghost predicate DocketOk(d: Docket, c: Catalog) {
    && (forall id :: id in d.cases <==> 1 <= id <= d.caseCount)
    && (forall id | id in d.appeals :: id in d.cases)
    && (forall i | 0 <= i < |d.published| :: d.published[i].event.caseId in d.cases)
    && (forall id | id in d.cases :: CaseOk(d, c, id))
  }

  function Rank(s: CaseStatus): nat {
    match s
    case Open => 0
    case Decided => 1
    case Appealed => 2
    case AppealResolved => 3
  }

  /** What happens to one case file: it only moves forward, and a resolved one is final. */
  ghost predicate Moves(a: Case, x: Option<Appeal>, b: Case, y: Option<Appeal>) {
    && b.signalId == a.signalId && b.moderator == a.moderator && b.reason == a.reason
    && Rank(a.status) <= Rank(b.status)
    && (x.Some? ==> y.Some? && y.value.appellant == x.value.appellant && y.value.submittedAt == x.value.submittedAt
                    && y.value.reason == x.value.reason
                    && (x.value.reviewer.Some? ==> y.value.reviewer == x.value.reviewer))
    && (a.status == AppealResolved ==> b == a && y == x)
  }

  ghost predicate Progress(d: Docket, e: Docket) {
    && d.published <= e.published
    && (forall id | id in d.cases ::
          id in e.cases && Moves(d.cases[id], AppealOf(d, id), e.cases[id], AppealOf(e, id)))
  }

  // ---- One call -----------------------------------------------------------------------------------

  /** `e` differs from `d` in the file of case `id` at most, and may have published one event of it. */
  ghost predicate Touches(d: Docket, e: Docket, id: nat) {
    && id in d.cases && id in e.cases && e.caseCount == d.caseCount
    && e.cases == d.cases[id := e.cases[id]]
    && (forall k | k != id :: AppealOf(e, k) == AppealOf(d, k))
    && (e.published == d.published
        || (|e.published| > 0 && e.published[..|e.published| - 1] == d.published
            && e.published[|e.published| - 1].event.caseId == id))
  }

  lemma OtherFileKept(d: Docket, e: Docket, c: Catalog, id: nat, k: nat)
    requires Touches(d, e, id) && k in d.cases && k != id && CaseOk(d, c, k)
    ensures CaseOk(e, c, k) && Moves(d.cases[k], AppealOf(d, k), e.cases[k], AppealOf(e, k))
  {
    assert e.cases[k] == d.cases[k] && AppealOf(e, k) == AppealOf(d, k);
    assert EventsOf(e.published, k) == EventsOf(d.published, k);
  }

  /** A call on case `id` that leaves every other file alone. */
  lemma OneFileChanges(d: Docket, e: Docket, c: Catalog, id: nat)
    requires DocketOk(d, c) && Touches(d, e, id)
    requires CaseOk(e, c, id) && Moves(d.cases[id], AppealOf(d, id), e.cases[id], AppealOf(e, id))
    ensures DocketOk(e, c) && Progress(d, e)
  {
    forall k | k in e.appeals
      ensures k in e.cases
    {
      assert k != id ==> AppealOf(d, k).Some?;
    }
    forall k | k in e.cases && k != id
      ensures CaseOk(e, c, k) && Moves(d.cases[k], AppealOf(d, k), e.cases[k], AppealOf(e, k))
    {
      OtherFileKept(d, e, c, id, k);
    }
    PublishedKept(d.published, d.cases, e.published, e.cases, id);
  }

  lemma PublishedKept(older: seq<Published>, cases: map<nat, Case>, newer: seq<Published>, later: map<nat, Case>,
                      id: nat)
    requires forall i | 0 <= i < |older| :: older[i].event.caseId in cases
    requires (forall k | k in cases :: k in later) && id in later
    requires newer == older || (|newer| > 0 && newer[..|newer| - 1] == older && newer[|newer| - 1].event.caseId == id)
    ensures older <= newer && forall i | 0 <= i < |newer| :: newer[i].event.caseId in later
  {
    forall i | 0 <= i < |newer|
      ensures newer[i].event.caseId in later
    {
      assert i < |older| ==> newer[i] == older[i];
    }
  }

  lemma DecideKeeps(d: Docket, c: Catalog, roles: Roles, auth: set<Address>, id: nat)
    requires DocketOk(d, c) && DecidedCase(d, roles, auth, id).Ok?
    ensures DocketOk(DecidedCase(d, roles, auth, id).value, c) && Progress(d, DecidedCase(d, roles, auth, id).value)
  {
    assert CaseOk(d, c, id);
    OneFileChanges(d, DecidedCase(d, roles, auth, id).value, c, id);
  }

  lemma SubmitKeeps(d: Docket, c: Catalog, auth: set<Address>, appellant: Address, id: nat, reason: string, now: nat)
    requires DocketOk(d, c) && SubmittedAppeal(d, c, auth, appellant, id, reason, now).Ok?
    ensures var e := SubmittedAppeal(d, c, auth, appellant, id, reason, now).value;
            DocketOk(e, c) && Progress(d, e)
  {
    assert CaseOk(d, c, id);
    OneFileChanges(d, SubmittedAppeal(d, c, auth, appellant, id, reason, now).value, c, id);
  }

  lemma ReviewKeeps(d: Docket, c: Catalog, auth: set<Address>, reviewer: Address, id: nat)
    requires DocketOk(d, c) && ReviewedAppeal(d, auth, reviewer, id).Ok?
    ensures var e := ReviewedAppeal(d, auth, reviewer, id).value;
            DocketOk(e, c) && Progress(d, e)
  {
    var e := ReviewedAppeal(d, auth, reviewer, id).value;
    assert CaseOk(d, c, id);
    assert e.cases == d.cases[id := e.cases[id]];
    OneFileChanges(d, e, c, id);
  }

  lemma FinishKeeps(d: Docket, c: Catalog, id: nat, approved: bool, reason: string,
                    resolver: Option<Address>, timedOut: bool, now: nat)
    requires DocketOk(d, c) && id in d.cases && id in d.appeals && d.cases[id].status == Appealed
    requires if timedOut then !approved && resolver.None? && now >= Deadline(d.appeals[id])
             else resolver.Some? && resolver == d.appeals[id].reviewer && now < Deadline(d.appeals[id])
    ensures var e := Finished(d, id, approved, reason, resolver, timedOut, now);
            DocketOk(e, c) && Progress(d, e)
  {
    var e := Finished(d, id, approved, reason, resolver, timedOut, now);
    assert CaseOk(d, c, id);
    assert e.published[..|e.published| - 1] == d.published;
    assert EventsOf(e.published, id) == [] + [e.published[|e.published| - 1]];
    OneFileChanges(d, e, c, id);
  }

  lemma OpenKeeps(d: Docket, c: Catalog, roles: Roles, auth: set<Address>, signalId: nat, reason: string)
    requires DocketOk(d, c) && OpenedCase(d, c, roles, auth, signalId, reason).Ok?
    ensures var e := OpenedCase(d, c, roles, auth, signalId, reason).value;
            DocketOk(e, c) && Progress(d, e)
  {
    var e := OpenedCase(d, c, roles, auth, signalId, reason).value;
    var id := e.caseCount;
    assert id !in d.cases && id !in d.appeals;
    NoEvents(d.published, id);
    forall k | k in d.cases
      ensures CaseOk(e, c, k) && Moves(d.cases[k], AppealOf(d, k), e.cases[k], AppealOf(e, k))
    {
      assert CaseOk(d, c, k);
    }
  }

  lemma {:induction false} NoEvents(published: seq<Published>, id: nat)
    requires forall i | 0 <= i < |published| :: published[i].event.caseId != id
    ensures EventsOf(published, id) == []
    decreases |published|
  {
    if published != [] {
      NoEvents(published[..|published| - 1], id);
    }
  }

  // ---- Steps ----------------------------------------------------------------------------------------

  datatype DocketOp =
    | SetAppealReviewer(auth: set<Address>, reviewer: Address, enabled: bool)
    | OpenCase(auth: set<Address>, signalId: nat, reason: string)
    | DecideCase(auth: set<Address>, id: nat)
    | SubmitAppeal(auth: set<Address>, appellant: Address, id: nat, reason: string)
    | ReviewAppeal(auth: set<Address>, reviewer: Address, id: nat)
    | ResolveAppeal(auth: set<Address>, reviewer: Address, id: nat, approved: bool, reason: string)
    | ExpireAppeal(id: nat)

  function Ruling(d: Docket, c: Catalog, roles: Roles, op: DocketOp, now: nat): Result<Docket, SignalError> {
    match op
    case SetAppealReviewer(auth, reviewer, enabled) => SetReviewer(d, roles, auth, reviewer, enabled)
    case OpenCase(auth, signalId, reason) => OpenedCase(d, c, roles, auth, signalId, reason)
    case DecideCase(auth, id) => DecidedCase(d, roles, auth, id)
    case SubmitAppeal(auth, appellant, id, reason) => SubmittedAppeal(d, c, auth, appellant, id, reason, now)
    case ReviewAppeal(auth, reviewer, id) => ReviewedAppeal(d, auth, reviewer, id)
    case ResolveAppeal(auth, reviewer, id, approved, reason) =>
      ResolvedAppeal(d, auth, reviewer, id, approved, reason, now)
    case ExpireAppeal(id) => ExpiredAppeal(d, id, now)
  }

  /** A call leaves the new docket, or the old one when it fails. */
  function DocketStep(d: Docket, c: Catalog, roles: Roles, op: DocketOp, now: nat): Docket {
    match Ruling(d, c, roles, op, now) case Ok(e) => e case Err(_) => d
  }

  lemma SameFiles(d: Docket, e: Docket, c: Catalog)
    requires DocketOk(d, c) && e == d.(reviewers := e.reviewers)
    ensures DocketOk(e, c) && Progress(d, e)
  {
    forall id | id in d.cases
      ensures CaseOk(e, c, id)
    {
      assert CaseOk(d, c, id);
    }
  }

  lemma StepKeepsDocket(d: Docket, c: Catalog, roles: Roles, op: DocketOp, now: nat)
    requires DocketOk(d, c)
    ensures DocketOk(DocketStep(d, c, roles, op, now), c) && Progress(d, DocketStep(d, c, roles, op, now))
  {
    var e := DocketStep(d, c, roles, op, now);
    if Ruling(d, c, roles, op, now).Err? {
      SameFiles(d, e, c);
    } else {
      match op
      case SetAppealReviewer(_, _, _) => SameFiles(d, e, c);
      case OpenCase(auth, signalId, reason) => OpenKeeps(d, c, roles, auth, signalId, reason);
      case DecideCase(auth, id) => DecideKeeps(d, c, roles, auth, id);
      case SubmitAppeal(auth, appellant, id, reason) => SubmitKeeps(d, c, auth, appellant, id, reason, now);
      case ReviewAppeal(auth, reviewer, id) => ReviewKeeps(d, c, auth, reviewer, id);
      case ResolveAppeal(_, reviewer, id, approved, reason) =>
        FinishKeeps(d, c, id, approved, reason, Some(reviewer), false, now);
      case ExpireAppeal(id) => FinishKeeps(d, c, id, false, "appeal timed out", None, true, now);
    }
  }

  /** Who may move case `id` to its next status, and when. */
  ghost predicate MayMove(d: Docket, c: Catalog, roles: Roles, op: DocketOp, now: nat, id: nat)
    requires id in d.cases
  {
    match d.cases[id].status
    case Open => op.DecideCase? && roles.admin.Some? && roles.admin.value in op.auth
    case Decided =>
      && op.SubmitAppeal? && d.cases[id].signalId in c.signals
      && op.appellant == c.signals[d.cases[id].signalId].head.provider && op.appellant in op.auth
    case Appealed =>
      && id in d.appeals
      && (if now < Deadline(d.appeals[id])
          then op.ResolveAppeal? && op.reviewer in op.auth * d.reviewers && d.appeals[id].reviewer == Some(op.reviewer)
          else op.ExpireAppeal?)
    case AppealResolved => false
  }

  /**
   * A case moves exactly by a call about it from whom its status entitles, one status at a time: the
   * admin decides, the provider of the signal appeals, and before the deadline the assigned reviewer
   * resolves, after it anyone expires.
   */
  lemma StatusMovesAreEntitled(d: Docket, c: Catalog, roles: Roles, op: DocketOp, now: nat, id: nat)
    requires DocketOk(d, c) && id in d.cases
    ensures var e := DocketStep(d, c, roles, op, now);
            && id in e.cases
            && (e.cases[id].status != d.cases[id].status <==>
                  !op.OpenCase? && !op.SetAppealReviewer? && op.id == id && MayMove(d, c, roles, op, now, id))
            && (e.cases[id].status != d.cases[id].status ==> Rank(e.cases[id].status) == Rank(d.cases[id].status) + 1)
  {
    assert 1 <= id <= d.caseCount;
    assert CaseOk(d, c, id);
  }

  lemma ProgressTransitive(d: Docket, e: Docket, f: Docket)
    requires Progress(d, e) && Progress(e, f)
    ensures Progress(d, f)
  {
    forall id | id in d.cases
      ensures id in f.cases && Moves(d.cases[id], AppealOf(d, id), f.cases[id], AppealOf(f, id))
    {
      assert Moves(d.cases[id], AppealOf(d, id), e.cases[id], AppealOf(e, id));
      assert Moves(e.cases[id], AppealOf(e, id), f.cases[id], AppealOf(f, id));
    }
  }

  /** Signals keep their providers, so changes to the catalog leave the docket valid. */
  lemma DocketUnderCatalog(d: Docket, c: Catalog, later: Catalog)
    requires DocketOk(d, c) && Extends(c, later)
    ensures DocketOk(d, later)
  {
    forall id | id in d.cases
      ensures CaseOk(d, later, id)
    {
      assert CaseOk(d, c, id);
      assert Continues(c.signals[d.cases[id].signalId], later.signals[d.cases[id].signalId]);
    }
  }

  // ---- Resolving and expiring -------------------------------------------------------------------------

  /** The time guards of resolve and expire never both pass. */
  lemma ResolveOrExpire(d: Docket, auth: set<Address>, reviewer: Address, id: nat, approved: bool, reason: string,
                        now: nat)
    ensures !(ResolvedAppeal(d, auth, reviewer, id, approved, reason, now).Ok? && ExpiredAppeal(d, id, now).Ok?)
    ensures PendingError(d, id).None? && ReviewerError(d, auth, reviewer).None?
            && d.appeals[id].appellant != reviewer && d.appeals[id].reviewer == Some(reviewer) ==>
              (ResolvedAppeal(d, auth, reviewer, id, approved, reason, now).Ok? <==> !ExpiredAppeal(d, id, now).Ok?)
  {
  }

  lemma {:induction false} EventIsListed(published: seq<Published>, i: nat)
    requires i < |published|
    ensures published[i] in EventsOf(published, published[i].event.caseId)
    decreases |published|
  {
    var last := |published| - 1;
    if i < last {
      EventIsListed(published[..last], i);
      assert published[..last][i] == published[i];
    }
  }

  /**
   * Every published resolution belongs to a resolved case and is its only one. An approval was given
   * by the assigned reviewer, who is not the appellant, before the deadline.
   */
  lemma PublishedIsTheVerdict(d: Docket, c: Catalog, i: nat)
    requires DocketOk(d, c) && i < |d.published|
    ensures var p := d.published[i];
            var id := p.event.caseId;
            && id in d.cases && id in d.appeals && d.cases[id].status == AppealResolved
            && EventsOf(d.published, id) == [p]
            && d.appeals[id].approved == Some(p.event.approved)
            && (p.event.approved ==>
                  && p.event.resolver.Some? && p.event.resolver == d.appeals[id].reviewer
                  && p.event.resolver != Some(d.appeals[id].appellant) && p.at < Deadline(d.appeals[id]))
  {
    var p := d.published[i];
    EventIsListed(d.published, i);
    assert CaseOk(d, c, p.event.caseId);
  }
}
