// The registry told from its calls: which calls are accepted, who must have signed them,
// and that what is stored and published is what the accepted calls gave.
module RegistryCalls {
  import opened Options
  import opened SignalCatalog
  import opened ModerationAppeals
  import opened SignalRegistry

  // ---- Which calls are accepted ------------------------------------------------------------------

  predicate AdminSigned(roles: Roles, auth: set<Address>) {
    roles.admin.Some? && roles.admin.value in auth
  }

  predicate ActiveCategory(c: Catalog, id: nat) {
    id in c.categories && !c.categories[id].tombstoned
  }

  /** What an accepted call on the catalog takes, the signature first. */
  predicate CatalogCallAllowed(c: Catalog, roles: Roles, op: CatalogOp) {
    match op
    case CreateCategory(auth, id, labelText) => AdminSigned(roles, auth) && labelText != "" && id !in c.categories
    case DeleteCategory(auth, id) => AdminSigned(roles, auth) && ActiveCategory(c, id)
    case CreateSignal(auth, provider, category, _, verdict) =>
      provider in auth && provider !in roles.sentinels && verdict.None? && ActiveCategory(c, category)
    case EditSignal(auth, provider, id, _, verdict) =>
      && provider in auth && verdict.None? && id in c.signals
      && c.signals[id].head.provider == provider && c.signals[id].head.currentRevision < 0xFFFF_FFFF
  }

  lemma CatalogAcceptedIff(c: Catalog, roles: Roles, op: CatalogOp, now: nat)
    ensures Outcome(c, roles, op, now).Ok? <==> CatalogCallAllowed(c, roles, op)
  {
  }

  predicate Pending(d: Docket, id: nat) {
    id in d.cases && d.cases[id].status == Appealed && id in d.appeals
  }

  /** Seven days have passed since the appeal, or the clock has run out. */
  predicate TimedOut(a: Appeal, now: nat) {
    now >= a.submittedAt + 604_800 || now >= 0xFFFF_FFFF_FFFF_FFFF
  }

  /** What an accepted call on the docket takes, the signature first. */
  predicate DocketCallAllowed(d: Docket, c: Catalog, roles: Roles, op: DocketOp, now: nat) {
    match op
    case SetAppealReviewer(auth, reviewer, _) => AdminSigned(roles, auth) && reviewer !in roles.sentinels
    case OpenCase(auth, signalId, _) => AdminSigned(roles, auth) && signalId in c.signals
    case DecideCase(auth, id) => AdminSigned(roles, auth) && id in d.cases && d.cases[id].status == Open
    case SubmitAppeal(auth, appellant, id, _) =>
      && appellant in auth && id in d.cases && d.cases[id].status == Decided
      && d.cases[id].signalId in c.signals && c.signals[d.cases[id].signalId].head.provider == appellant
    case ReviewAppeal(auth, reviewer, id) =>
      && reviewer in auth && reviewer in d.reviewers && Pending(d, id)
      && d.appeals[id].appellant != reviewer && d.appeals[id].reviewer.None?
    case ResolveAppeal(auth, reviewer, id, _, _) =>
      && reviewer in auth && reviewer in d.reviewers && Pending(d, id)
      && d.appeals[id].appellant != reviewer && d.appeals[id].reviewer == Some(reviewer)
      && !TimedOut(d.appeals[id], now)
    case ExpireAppeal(id) => Pending(d, id) && TimedOut(d.appeals[id], now)
  }

  lemma DocketAcceptedIff(d: Docket, c: Catalog, roles: Roles, op: DocketOp, now: nat)
    ensures Ruling(d, c, roles, op, now).Ok? <==> DocketCallAllowed(d, c, roles, op, now)
  {
  }

  /** What holds when a call on the catalog is refused with an error. */
  predicate CatalogMeans(c: Catalog, roles: Roles, op: CatalogOp, e: SignalError) {
    match e
    case NotInitialized => (op.CreateCategory? || op.DeleteCategory?) && roles.admin.None?
    case AuthRequired =>
      if op.CreateCategory? || op.DeleteCategory? then roles.admin.Some? && roles.admin.value !in op.auth
      else op.provider !in op.auth
    case Unauthorized => op.EditSignal? && op.id in c.signals && c.signals[op.id].head.provider != op.provider
    case InvalidAddress => op.CreateSignal? && op.provider in roles.sentinels
    case EmptyMetadata => op.CreateCategory? && op.labelText == ""
    case RevisionOverflow =>
      op.EditSignal? && op.id in c.signals && c.signals[op.id].head.currentRevision >= 0xFFFF_FFFF
    case SignalNotFound => op.EditSignal? && op.id !in c.signals
    case CategoryNotFound =>
      (op.DeleteCategory? && op.id !in c.categories) || (op.CreateSignal? && op.category !in c.categories)
    case CategoryExists => op.CreateCategory? && ActiveCategory(c, op.id)
    case CategoryTombstoned =>
      || ((op.CreateCategory? || op.DeleteCategory?) && op.id in c.categories && c.categories[op.id].tombstoned)
      || (op.CreateSignal? && op.category in c.categories && c.categories[op.category].tombstoned)
    case _ => false
  }

  /** The metadata policy rejected the content with this error. */
  predicate Rejected(op: CatalogOp, e: SignalError) {
    (op.CreateSignal? || op.EditSignal?) && op.verdict == Some(e)
  }

  lemma CatalogRefusalMeans(c: Catalog, roles: Roles, op: CatalogOp, now: nat)
    ensures Outcome(c, roles, op, now).Err? ==>
              var e := Outcome(c, roles, op, now).error; CatalogMeans(c, roles, op, e) || Rejected(op, e)
  {
  }

  /** What holds when a call on the docket is refused with an error. */
  predicate DocketMeans(d: Docket, c: Catalog, roles: Roles, op: DocketOp, now: nat, e: SignalError) {
    var forAdmin := op.SetAppealReviewer? || op.OpenCase? || op.DecideCase?;
    var forReviewer := op.ReviewAppeal? || op.ResolveAppeal?;
    match e
    case NotInitialized => forAdmin && roles.admin.None?
    case AuthRequired =>
      || (forAdmin && roles.admin.Some? && roles.admin.value !in op.auth)
      || (op.SubmitAppeal? && op.appellant !in op.auth)
      || (forReviewer && op.reviewer !in op.auth)
    case InvalidAddress => op.SetAppealReviewer? && op.reviewer in roles.sentinels
    case SignalNotFound =>
      || (op.OpenCase? && op.signalId !in c.signals)
      || (op.SubmitAppeal? && op.id in d.cases && d.cases[op.id].signalId !in c.signals)
    case CaseNotFound => !op.SetAppealReviewer? && !op.OpenCase? && (op.id !in d.cases || op.id !in d.appeals)
    case InvalidCaseState =>
      && !op.SetAppealReviewer? && !op.OpenCase? && op.id in d.cases
      && var status := d.cases[op.id].status;
         || (op.DecideCase? && status != Open)
         || (op.SubmitAppeal? && status != Decided)
         || (!op.DecideCase? && !op.SubmitAppeal? && status != Appealed)
         || (op.ReviewAppeal? && op.id in d.appeals && d.appeals[op.id].reviewer.Some?)
    case Unauthorized =>
      || (op.SubmitAppeal? && op.id in d.cases && d.cases[op.id].signalId in c.signals
          && c.signals[d.cases[op.id].signalId].head.provider != op.appellant)
      || (forReviewer && op.reviewer !in d.reviewers)
      || (op.ResolveAppeal? && Pending(d, op.id) && d.appeals[op.id].reviewer != Some(op.reviewer))
    case SelfReview => forReviewer && Pending(d, op.id) && d.appeals[op.id].appellant == op.reviewer
    case AppealExpired => op.ResolveAppeal? && Pending(d, op.id) && TimedOut(d.appeals[op.id], now)
    case AppealNotExpired => op.ExpireAppeal? && Pending(d, op.id) && !TimedOut(d.appeals[op.id], now)
    case _ => false
  }

  lemma DocketRefusalMeans(d: Docket, c: Catalog, roles: Roles, op: DocketOp, now: nat)
    ensures Ruling(d, c, roles, op, now).Err? ==> DocketMeans(d, c, roles, op, now, Ruling(d, c, roles, op, now).error)
  {
  }

  /** The verdict the reviewer gives is the one recorded and published, with its reason. */
  lemma VerdictIsTheReviewers(d: Docket, auth: set<Address>, reviewer: Address, id: nat, approved: bool, reason: string,
                              now: nat)
    requires ResolvedAppeal(d, auth, reviewer, id, approved, reason, now).Ok?
    ensures var e := ResolvedAppeal(d, auth, reviewer, id, approved, reason, now).value;
            && id in e.appeals && e.appeals[id].approved == Some(approved) && e.appeals[id].finalReason == Some(reason)
            && |e.published| == |d.published| + 1 && e.published[..|d.published|] == d.published
            && var last := e.published[|d.published|];
               && last.at == now && last.event.caseId == id && last.event.approved == approved
               && last.event.finalReason == reason && last.event.resolver == Some(reviewer) && !last.event.timedOut
  {
  }

  // ---- Categories ----------------------------------------------------------------------------------

  /** What the accepted calls have made of a category identifier. */
  datatype Story = Unmade | Live(labelText: string) | Gone(labelText: string, at: nat)

  function StoryAfter(story: Story, c: Catalog, roles: Roles, call: Call, id: nat): Story {
    if !call.OnCatalog? || !CatalogCallAllowed(c, roles, call.catalogOp) then story
    else match call.catalogOp
      case CreateCategory(_, target, labelText) => if target == id then Live(labelText) else story
      case DeleteCategory(_, target) => if target == id && story.Live? then Gone(story.labelText, call.now) else story
      case _ => story
  }

  function StoryOf(roles: Roles, calls: seq<Call>, id: nat): Story
    decreases |calls|
  {
    if calls == [] then Unmade
    else
      var earlier := calls[..|calls| - 1];
      StoryAfter(StoryOf(roles, earlier, id), Run(START, roles, earlier).catalog, roles, calls[|calls| - 1], id)
  }

  ghost predicate Tells(story: Story, categories: map<nat, Category>, id: nat) {
    match story
    case Unmade => id !in categories
    case Live(labelText) => id in categories && categories[id] == Category(labelText, false, 0)
    case Gone(labelText, at) => id in categories && categories[id] == Category(labelText, true, at)
  }

  /**
   * In every run a category has the label its creation gave, and it is tombstoned, since the time of the
   * call, exactly if an accepted call deleted it.
   */
  lemma {:induction false} CategoryIsItsStory(roles: Roles, calls: seq<Call>, id: nat)
    ensures Tells(StoryOf(roles, calls, id), Run(START, roles, calls).catalog.categories, id)
    decreases |calls|
  {
    if calls != [] {
      var earlier, last := calls[..|calls| - 1], calls[|calls| - 1];
      CategoryIsItsStory(roles, earlier, id);
      if last.OnCatalog? {
        CatalogAcceptedIff(Run(START, roles, earlier).catalog, roles, last.catalogOp, last.now);
      }
    }
  }

  // ---- Signals -------------------------------------------------------------------------------------

  /** The accepted creations so far, which number the signals. */
  function SignalsMade(roles: Roles, calls: seq<Call>): nat
    decreases |calls|
  {
    if calls == [] then 0
    else SignalsMade(roles, calls[..|calls| - 1]) + if MakesSignal(roles, calls) then 1 else 0
  }

  /** The last call creates a signal. */
  predicate MakesSignal(roles: Roles, calls: seq<Call>)
    requires calls != []
  {
    var earlier, last := calls[..|calls| - 1], calls[|calls| - 1];
    && last.OnCatalog? && last.catalogOp.CreateSignal?
    && CatalogCallAllowed(Run(START, roles, earlier).catalog, roles, last.catalogOp)
  }

  /** The provider and the category of the call that created signal `id`. */
  function MadeBy(roles: Roles, calls: seq<Call>, id: nat): Option<(Address, nat)>
    decreases |calls|
  {
    if calls == [] then None
    else
      var earlier, last := calls[..|calls| - 1], calls[|calls| - 1];
      if MakesSignal(roles, calls) && id == SignalsMade(roles, earlier) + 1
      then Some((last.catalogOp.provider, last.catalogOp.category))
      else MadeBy(roles, earlier, id)
  }

  ghost predicate AsMade(c: Catalog, id: nat, made: Option<(Address, nat)>) {
    match made
    case None => id !in c.signals
    case Some((provider, category)) =>
      id in c.signals && c.signals[id].head.provider == provider && c.signals[id].head.category == category
  }

  /** In every run a signal belongs to the provider and the category of the call that created it. */
  lemma {:induction false} SignalIsAsMade(roles: Roles, calls: seq<Call>, id: nat)
    ensures var c := Run(START, roles, calls).catalog;
            c.signalCount == SignalsMade(roles, calls) && AsMade(c, id, MadeBy(roles, calls, id))
    decreases |calls|
  {
    if calls != [] {
      var earlier, last := calls[..|calls| - 1], calls[|calls| - 1];
      SignalIsAsMade(roles, earlier, id);
      if last.OnCatalog? {
        CatalogAcceptedIff(Run(START, roles, earlier).catalog, roles, last.catalogOp, last.now);
      }
    }
  }

  /** In every run the label read for a signal is the one its category was created with, tombstoned or not. */
  lemma LabelIsTheCreated(roles: Roles, calls: seq<Call>, id: nat)
    requires TimesOrdered(calls)
    ensures CategoryLabel(Run(START, roles, calls).catalog, id)
         == match MadeBy(roles, calls, id)
            case None => None
            case Some((_, category)) =>
              match StoryOf(roles, calls, category)
              case Unmade => None
              case Live(labelText) => Some(labelText)
              case Gone(labelText, _) => Some(labelText)
  {
    SignalIsAsMade(roles, calls, id);
    var made := MadeBy(roles, calls, id);
    if made.Some? {
      CategoryIsItsStory(roles, calls, made.value.1);
    }
  }

  // ---- Reviewers -------------------------------------------------------------------------------------

  function Registered(roles: Roles, calls: seq<Call>, reviewer: Address): bool
    decreases |calls|
  {
    if calls == [] then false
    else
      var earlier, last := calls[..|calls| - 1], calls[|calls| - 1];
      var s := Run(START, roles, earlier);
      if last.OnDocket? && last.docketOp.SetAppealReviewer? && last.docketOp.reviewer == reviewer
         && DocketCallAllowed(s.docket, s.catalog, roles, last.docketOp, last.now)
      then last.docketOp.enabled
      else Registered(roles, earlier, reviewer)
  }

  /** In every run the reviewers are those whom the last accepted call about them enabled. */
  lemma {:induction false} ReviewersAreRegistered(roles: Roles, calls: seq<Call>, reviewer: Address)
    ensures reviewer in Run(START, roles, calls).docket.reviewers <==> Registered(roles, calls, reviewer)
    decreases |calls|
  {
    if calls != [] {
      var earlier, last := calls[..|calls| - 1], calls[|calls| - 1];
      ReviewersAreRegistered(roles, earlier, reviewer);
      var s := Run(START, roles, earlier);
      if last.OnDocket? {
        DocketAcceptedIff(s.docket, s.catalog, roles, last.docketOp, last.now);
      }
    }
  }

  // ---- Case files --------------------------------------------------------------------------------------

  datatype Opening = Opening(signalId: nat, moderator: Address, reason: string)

  datatype Plea = Plea(appellant: Address, reason: string, at: nat)

  datatype Verdict = Verdict(approved: bool, reason: string, timedOut: bool, at: nat)

  /** What the accepted calls about a case have given. */
  datatype File = File(opening: Option<Opening>, decided: bool, plea: Option<Plea>, reviewer: Option<Address>,
                       verdict: Option<Verdict>)

  function EmptyFile(): File {
    File(None, false, None, None, None)
  }

  /** The file after an accepted call; `next` is the number the next opened case gets. */
  function FileAfter(f: File, roles: Roles, op: DocketOp, now: nat, id: nat, next: nat): File
    requires op.OpenCase? ==> roles.admin.Some?
  {
    match op
    case SetAppealReviewer(_, _, _) => f
    case OpenCase(_, signalId, reason) =>
      if id == next then f.(opening := Some(Opening(signalId, roles.admin.value, reason))) else f
    case DecideCase(_, target) => if id == target then f.(decided := true) else f
    case SubmitAppeal(_, appellant, target, reason) =>
      if id == target then f.(plea := Some(Plea(appellant, reason, now))) else f
    case ReviewAppeal(_, reviewer, target) => if id == target then f.(reviewer := Some(reviewer)) else f
    case ResolveAppeal(_, _, target, approved, reason) =>
      if id == target then f.(verdict := Some(Verdict(approved, reason, false, now))) else f
    case ExpireAppeal(target) =>
      if id == target then f.(verdict := Some(Verdict(false, "appeal timed out", true, now))) else f
  }

  /** The last call is an accepted one on the docket. */
  predicate RulesLast(roles: Roles, calls: seq<Call>)
    requires calls != []
  {
    var s, last := Run(START, roles, calls[..|calls| - 1]), calls[|calls| - 1];
    last.OnDocket? && DocketCallAllowed(s.docket, s.catalog, roles, last.docketOp, last.now)
  }

  function CasesOpened(roles: Roles, calls: seq<Call>): nat
    decreases |calls|
  {
    if calls == [] then 0
    else CasesOpened(roles, calls[..|calls| - 1])
         + if RulesLast(roles, calls) && calls[|calls| - 1].docketOp.OpenCase? then 1 else 0
  }

  function FileOf(roles: Roles, calls: seq<Call>, id: nat): File
    decreases |calls|
  {
    if calls == [] then EmptyFile()
    else
      var earlier, last := calls[..|calls| - 1], calls[|calls| - 1];
      var f := FileOf(roles, earlier, id);
      if RulesLast(roles, calls)
      then FileAfter(f, roles, last.docketOp, last.now, id, CasesOpened(roles, earlier) + 1)
      else f
  }

  function StatusOf(f: File): CaseStatus {
    if f.verdict.Some? then AppealResolved else if f.plea.Some? then Appealed else if f.decided then Decided else Open
  }

  function AppealFrom(f: File): Option<Appeal> {
    match f.plea
    case None => None
    case Some(p) =>
      Some(Appeal(p.appellant, p.reason, p.at, f.reviewer,
                  if f.verdict.Some? then Some(f.verdict.value.approved) else None,
                  if f.verdict.Some? then Some(f.verdict.value.reason) else None))
  }

  /** The resolved events of a case with this file. */
  function EventsFrom(f: File, id: nat): seq<Published> {
    if f.verdict.None? || f.opening.None? then []
    else
      var v := f.verdict.value;
      [Published(v.at, Resolution(id, f.opening.value.signalId, v.approved, v.reason,
                                  if v.timedOut then None else f.reviewer, v.timedOut))]
  }

  /** The docket holds and has published exactly what the file says. */
  ghost predicate Matches(d: Docket, id: nat, f: File) {
    && (f.plea.None? ==> f.reviewer.None? && f.verdict.None?)
    && AppealOf(d, id) == AppealFrom(f) && EventsOf(d.published, id) == EventsFrom(f, id)
    && match f.opening
       case None => id !in d.cases && f == EmptyFile()
       case Some(o) => id in d.cases && d.cases[id] == Case(o.signalId, o.moderator, o.reason, StatusOf(f))
  }

  lemma OneMorePublished(published: seq<Published>, p: Published, id: nat)
    ensures EventsOf(published + [p], id) == EventsOf(published, id) + if p.event.caseId == id then [p] else []
  {
    assert (published + [p])[..|published|] == published;
  }

  lemma FinishMatches(d: Docket, id: nat, f: File, target: nat, approved: bool, reason: string,
                      resolver: Option<Address>, timedOut: bool, now: nat)
    requires Matches(d, id, f) && Pending(d, target)
    requires timedOut ==> resolver.None?
    requires !timedOut && target == id ==> resolver.Some? && f.reviewer == resolver
    ensures var g := if id == target then f.(verdict := Some(Verdict(approved, reason, timedOut, now))) else f;
            Matches(Finished(d, target, approved, reason, resolver, timedOut, now), id, g)
  {
    var event := Published(now, Resolution(target, d.cases[target].signalId, approved, reason, resolver, timedOut));
    OneMorePublished(d.published, event, id);
  }

  /** The file of case `id` after an accepted call. */
  ghost predicate MatchesAfter(d: Docket, c: Catalog, roles: Roles, op: DocketOp, now: nat, id: nat, f: File)
    requires op.OpenCase? ==> roles.admin.Some?
  {
    var e := DocketStep(d, c, roles, op, now);
    && Matches(e, id, FileAfter(f, roles, op, now, id, d.caseCount + 1))
    && e.caseCount == d.caseCount + if op.OpenCase? then 1 else 0
  }

  lemma OpenMatches(d: Docket, c: Catalog, roles: Roles, op: DocketOp, now: nat, id: nat, f: File)
    requires DocketOk(d, c) && Matches(d, id, f) && Ruling(d, c, roles, op, now).Ok? && op.OpenCase?
    ensures roles.admin.Some? && MatchesAfter(d, c, roles, op, now, id, f)
  {
    assert id in d.cases <==> 1 <= id <= d.caseCount;
  }

  lemma AppealMatches(d: Docket, c: Catalog, roles: Roles, op: DocketOp, now: nat, id: nat, f: File)
    requires Matches(d, id, f) && Ruling(d, c, roles, op, now).Ok?
    requires op.DecideCase? || op.SubmitAppeal? || op.ReviewAppeal? || op.SetAppealReviewer?
    ensures MatchesAfter(d, c, roles, op, now, id, f)
  {
  }

  lemma StepMatches(d: Docket, c: Catalog, roles: Roles, op: DocketOp, now: nat, id: nat, f: File)
    requires DocketOk(d, c) && Matches(d, id, f) && DocketCallAllowed(d, c, roles, op, now)
    ensures op.OpenCase? ==> roles.admin.Some?
    ensures MatchesAfter(d, c, roles, op, now, id, f)
  {
    DocketAcceptedIff(d, c, roles, op, now);
    match op
    case ResolveAppeal(_, reviewer, target, approved, reason) =>
      FinishMatches(d, id, f, target, approved, reason, Some(reviewer), false, now);
    case ExpireAppeal(target) =>
      FinishMatches(d, id, f, target, false, "appeal timed out", None, true, now);
    case OpenCase(_, _, _) => OpenMatches(d, c, roles, op, now, id, f);
    case _ => AppealMatches(d, c, roles, op, now, id, f);
  }

  /**
   * In every run the case, its appeal and its published resolution are exactly what the accepted calls about
   * it gave: the signal and the reason of the opening, the appellant's plea, the reviewer, and the verdict
   * with its reason and time.
   */
  lemma {:induction false} CaseIsItsFile(roles: Roles, calls: seq<Call>, id: nat)
    requires TimesOrdered(calls)
    ensures var d := Run(START, roles, calls).docket;
            d.caseCount == CasesOpened(roles, calls) && Matches(d, id, FileOf(roles, calls, id))
    decreases |calls|
  {
    if calls != [] {
      var earlier, last := calls[..|calls| - 1], calls[|calls| - 1];
      assert forall i | 0 <= i < |earlier| :: earlier[i] == calls[i];
      CaseIsItsFile(roles, earlier, id);
      RunKeepsRegistry(roles, earlier);
      var s := Run(START, roles, earlier);
      if last.OnDocket? {
        DocketAcceptedIff(s.docket, s.catalog, roles, last.docketOp, last.now);
        if RulesLast(roles, calls) {
          StepMatches(s.docket, s.catalog, roles, last.docketOp, last.now, id, FileOf(roles, earlier, id));
        }
      }
    }
  }

  /** Call `k` of the run is an accepted resolution of case `id` that approves it for this reason. */
  ghost predicate ApprovedAt(roles: Roles, calls: seq<Call>, k: nat, id: nat, reason: string, at: nat) {
    && k < |calls| && RulesLast(roles, calls[..k + 1])
    && calls[k].docketOp.ResolveAppeal? && calls[k].docketOp.id == id
    && calls[k].docketOp.approved && calls[k].docketOp.reason == reason && calls[k].now == at
  }

  lemma {:induction false} ApprovalInFile(roles: Roles, calls: seq<Call>, id: nat) returns (k: nat)
    requires FileOf(roles, calls, id).verdict.Some? && FileOf(roles, calls, id).verdict.value.approved
    ensures var v := FileOf(roles, calls, id).verdict.value; ApprovedAt(roles, calls, k, id, v.reason, v.at)
    decreases |calls|
  {
    var n := |calls| - 1;
    assert calls[..n + 1] == calls;
    if FileOf(roles, calls[..n], id).verdict == FileOf(roles, calls, id).verdict {
      k := ApprovalInFile(roles, calls[..n], id);
      assert calls[..n][..k + 1] == calls[..k + 1] && calls[..n][k] == calls[k];
    } else {
      k := n;
    }
  }

  /** Every approving event of a run comes from an accepted call in which the reviewer approved, for that reason. */
  lemma ApprovalsComeFromReviewers(roles: Roles, calls: seq<Call>, i: nat) returns (k: nat)
    requires TimesOrdered(calls) && i < |Run(START, roles, calls).docket.published|
    requires Run(START, roles, calls).docket.published[i].event.approved
    ensures var p := Run(START, roles, calls).docket.published[i];
            ApprovedAt(roles, calls, k, p.event.caseId, p.event.finalReason, p.at)
  {
    var d := Run(START, roles, calls).docket;
    var id := d.published[i].event.caseId;
    CaseIsItsFile(roles, calls, id);
    EventIsListed(d.published, i);
    k := ApprovalInFile(roles, calls, id);
  }
}
