/** Runs of the ledger: registrations, resolutions by either route, and receipts, in any order. */
module Ledger {
  import opened Prelude
  import opened Events
  import opened EventLog
  import opened Approvals
  import opened RuntimeReceipts
  import opened Resolution
  import AuditExport

  datatype LedgerStep =
    | RegisterStep(registration: RegisterInput)
    | ResolveEventStep(eventId: string, resolution: ResolveInput)
    | ResolveDecisionStep(decisionId: string, resolution: ResolveInput)
    | ReceiptStep(receipt: ReceiptInput)

  function Apply(h: EventHash, log: Log, s: LedgerStep): Log {
    match s
    case RegisterStep(input) => Register(h, log, input).log
    case ResolveEventStep(eventId, input) => Resolve(h, log, eventId, input).log
    case ResolveDecisionStep(decisionId, input) => ResolveByDecision(h, log, decisionId, input).log
    case ReceiptStep(input) => (match Record(h, log, input) case None => log case Some(log') => log')
  }

  function ApplyAll(h: EventHash, log: Log, steps: seq<LedgerStep>): Log {
    if steps == [] then log else Apply(h, ApplyAll(h, log, steps[..|steps| - 1]), steps[|steps| - 1])
  }

  // ---------- Every step appends in time order ----------

  lemma AppendIfFree(h: EventHash, log: Log, p: EventPayload, t: Time)
    requires Built(h, log) && RunUpTo(log, p.runId, t) && t < p.timestamp
    ensures var log' := match Append(h, log, p) case None => log case Some(l) => l;
            Follows(h, log, log', p.runId, p.timestamp)
  {
    if !Logged(log, p.runId, p.id) {
      AppendAfter(h, log, p, t);
    } else {
      FollowsReflexive(h, log, p.runId, p.timestamp);
    }
  }

  lemma AppendLater(h: EventHash, log: Log, p: EventPayload)
    requires Built(h, log) && (ListRun(log, p.runId) != [] ==> MaxTime(ListRun(log, p.runId)) < p.timestamp)
    ensures var log' := match Append(h, log, p) case None => log case Some(l) => l;
            Follows(h, log, log', p.runId, p.timestamp)
  {
    LaterThanLatest(log, p);
    if ListRun(log, p.runId) != [] {
      RunUpToLatest(log, p.runId);
      AppendIfFree(h, log, p, MaxTime(ListRun(log, p.runId)));
    } else {
      AppendIfFree(h, log, p, p.timestamp - 1);
    }
  }

  lemma ContinueFollows(h: EventHash, log: Log, run: string, t: Time, suffix: string)
    requires Built(h, log) && RunUpTo(log, run, t)
    ensures var (done, log2) := Continue(h, log, run, t);
            && Follows(h, log, log2, run, t + 2 * MILLISECOND)
            && Follows(h, log, JournalFailure(h, log2, run, t, suffix), run, t + 3 * MILLISECOND)
  {
    var resume, complete := ResumeEvent(run, t), CompleteEvent(run, t);
    var (done, log2) := Continue(h, log, run, t);
    AppendIfFree(h, log, resume, t);
    if Logged(log, run, resume.id) {
      FollowsReflexive(h, log, run, t + 2 * MILLISECOND);
    } else {
      var log1 := log + [MakeRecord(h, log, resume)];
      AppendIfFree(h, log1, complete, resume.timestamp);
      FollowsTransitive(h, log, log1, log2, run, resume.timestamp, complete.timestamp);
    }
    var failure := FailureEvent(run, t, suffix);
    AppendIfFree(h, log2, failure, t + 2 * MILLISECOND);
    FollowsTransitive(h, log, log2, JournalFailure(h, log2, run, t, suffix), run,
                      t + 2 * MILLISECOND, failure.timestamp);
  }

  /** The logs that a resolution can leave. */
  lemma AppendResolutionLogs(h: EventHash, log: Log, e: StoredEvent, input: ResolveInput)
    requires ListRun(log, e.runId) != []
    ensures var run := e.runId;
            var p := ResolutionEvent(e, input, ResolutionTime(ListRun(log, run), input.now));
            var log1 := log + [MakeRecord(h, log, p)];
            var (done, log2) := Continue(h, log1, run, p.timestamp);
            var log' := AppendResolution(h, log, e, input).log;
            || log' == log
            || log' == log1
            || log' == log2
            || log' == JournalFailure(h, log2, run, p.timestamp, input.errorSuffix)
  {
    forall l: Log, id, done ensures Report(l, e.runId, id, done).log == l {
    }
  }

  lemma ResolutionGrows(h: EventHash, log: Log, target: StoredEvent, input: ResolveInput)
    requires Built(h, log) && ListRun(log, target.runId) != []
    ensures Grows(h, log, AppendResolution(h, log, target, input).log)
  {
    AppendResolutionLogs(h, log, target, input);
    var run := target.runId;
    var p := ResolutionEvent(target, input, ResolutionTime(ListRun(log, run), input.now));
    AppendLater(h, log, p);
    if !Logged(log, run, p.id) {
      var log1 := log + [MakeRecord(h, log, p)];
      ContinueFollows(h, log1, run, p.timestamp, input.errorSuffix);
      var (done, log2) := Continue(h, log1, run, p.timestamp);
      GrowsTransitive(h, log, log1, log2);
      GrowsTransitive(h, log, log1, JournalFailure(h, log2, run, p.timestamp, input.errorSuffix));
    }
  }

  /** Whatever a step writes, it stamps strictly after everything already in that run. */
  lemma StepGrows(h: EventHash, log: Log, s: LedgerStep)
    requires Built(h, log)
    ensures Grows(h, log, Apply(h, log, s))
  {
    match s {
      case RegisterStep(input) =>
        AppendLater(h, log, RequestEvent(input, RequestTime(ListRun(log, input.runId), input.now)));
      case ResolveEventStep(eventId, input) =>
        ResolveGrows(h, log, eventId, input);
      case ResolveDecisionStep(decisionId, input) =>
        forall id ensures Grows(h, log, Resolve(h, log, id, input).log) {
          ResolveGrows(h, log, id, input);
        }
      case ReceiptStep(input) =>
        if ListRun(log, input.runId) != [] {
          LastIsNewest(h, log, input.runId);
        }
        AppendLater(h, log, ReceiptEvent(input, ReceiptTime(ListRun(log, input.runId), input.now)));
    }
  }

  lemma ResolveGrows(h: EventHash, log: Log, eventId: string, input: ResolveInput)
    requires Built(h, log)
    ensures Grows(h, log, Resolve(h, log, eventId, input).log)
  {
    var matches := WithId(log, eventId);
    if |matches| == 1 && ListRun(log, matches[0].runId) != [] {
      ResolutionGrows(h, log, matches[0], input);
    }
  }

  lemma {:induction false} RunGrows(h: EventHash, log: Log, steps: seq<LedgerStep>)
    requires Built(h, log)
    ensures Grows(h, log, ApplyAll(h, log, steps)) && Built(h, ApplyAll(h, log, steps))
  {
    if steps != [] {
      var mid := ApplyAll(h, log, steps[..|steps| - 1]);
      RunGrows(h, log, steps[..|steps| - 1]);
      StepGrows(h, mid, steps[|steps| - 1]);
      GrowsKeeps(h, mid, ApplyAll(h, log, steps));
      GrowsTransitive(h, log, mid, ApplyAll(h, log, steps));
    }
  }

  /** Audit export never finds the chain broken, however the system's own steps are interleaved, if it
      was not broken for an event flagged before them. */
  lemma AuditNeverBreaks(h: EventHash, log: Log, steps: seq<LedgerStep>, decisionId: string)
    requires Built(h, log) && NoWarnings(log) && NonEmpty(h) && CollisionFree(h)
    ensures NoWarnings(ApplyAll(h, log, steps))
    ensures forall run :: AuditExport.Chained(h, ListRun(ApplyAll(h, log, steps), run))
    ensures AuditExport.ExportSpec(h, ApplyAll(h, log, steps), decisionId) != Err(AuditExport.HashChainBroken)
  {
    var log' := ApplyAll(h, log, steps);
    RunGrows(h, log, steps);
    GrowsKeeps(h, log, log');
    forall run ensures AuditExport.Chained(h, ListRun(log', run)) {
      AuditExport.HonestRunVerifies(h, log', run);
      ForRunMembers(log', run);
    }
  }

  // ---------- The events that carry a decision ----------

  function AskedFor(log: Log, d: string): seq<StoredEvent> {
    Filter((e: StoredEvent) => Carries(e, d) && Asks(e), ListAll(log))
  }

  function AnsweredFor(log: Log, d: string): seq<StoredEvent> {
    Filter((e: StoredEvent) => Carries(e, d) && Answers(e), ListAll(log))
  }

  /** r resolves p: in p's run, with p's id in its own, stamped later. */
  predicate ResolvesRequest(p: StoredEvent, r: StoredEvent) {
    && r.runId == p.runId
    && PrefixAnswer(r, p.id)
    && p.timestamp < r.timestamp
    && r.payload.approval.resolvedAt == Some(r.timestamp)
    && (r.payload.approval.status == Approved || r.payload.approval.status == Rejected)
  }

  /** At most one request and one resolution carry the decision, and the resolution resolves the request. */
  ghost predicate DecisionOrder(log: Log, d: string) {
    && |AskedFor(log, d)| <= 1
    && |AnsweredFor(log, d)| <= 1
    && (forall p :: p in AskedFor(log, d) ==> !Answers(p) && p.payload.approval.status == Pending)
    && (forall r :: r in AnsweredFor(log, d) ==> AskedFor(log, d) != [] && ResolvesRequest(AskedFor(log, d)[0], r))
  }

  ghost predicate Orderly(h: EventHash, log: Log) {
    Built(h, log) && forall d :: DecisionOrder(log, d)
  }

  /** A sequence of at most one element, after one more is added somewhere or not at all. */
  lemma SmallPermutation<T>(a: seq<T>, b: seq<T>, x: T, added: bool)
    requires multiset(b) == multiset(a) + if added then multiset{x} else multiset{}
    ensures |b| == |a| + if added then 1 else 0
    ensures !added && |a| <= 1 ==> b == a
    ensures added && a == [] ==> b == [x]
  {
    assert |multiset(a)| == |a| && |multiset(b)| == |b|;
    if !added && |a| == 1 {
      assert b[0] in multiset(b);
    }
    if added && a == [] {
      assert b[0] in multiset(b);
    }
  }

  lemma FilterListAll(q: StoredEvent -> bool, log: Log, r: StoredRecord)
    ensures multiset(Filter(q, ListAll(log + [r]))) ==
            multiset(Filter(q, ListAll(log))) + if q(r.event) then multiset{r.event} else multiset{}
  {
    ListAllAppend(log, r);
    forall x ensures multiset(Filter(q, ListAll(log + [r])))[x] ==
                     (multiset(Filter(q, ListAll(log))) + if q(r.event) then multiset{r.event} else multiset{})[x]
    {
      FilterCount(q, ListAll(log), x);
      FilterCount(q, ListAll(log + [r]), x);
    }
  }

  /** How one more record changes the events that carry d. */
  lemma CarriersStep(log: Log, r: StoredRecord, d: string)
    ensures var asks := Carries(r.event, d) && Asks(r.event);
            var before, after := AskedFor(log, d), AskedFor(log + [r], d);
            && (!asks && |before| <= 1 ==> after == before)
            && (asks && before == [] ==> after == [r.event])
    ensures var answers := Carries(r.event, d) && Answers(r.event);
            var before, after := AnsweredFor(log, d), AnsweredFor(log + [r], d);
            && (!answers && |before| <= 1 ==> after == before)
            && (answers && before == [] ==> after == [r.event])
  {
    FilterListAll((e: StoredEvent) => Carries(e, d) && Asks(e), log, r);
    FilterListAll((e: StoredEvent) => Carries(e, d) && Answers(e), log, r);
    SmallPermutation(AskedFor(log, d), AskedFor(log + [r], d), r.event, Carries(r.event, d) && Asks(r.event));
    SmallPermutation(AnsweredFor(log, d), AnsweredFor(log + [r], d), r.event, Carries(r.event, d) && Answers(r.event));
  }

  // ---------- The state of a decision, under the invariant ----------

  lemma {:induction false} FirstAskMeaning(es: seq<StoredEvent>)
    ensures FirstAsk(es).Some? ==>
              exists i :: 0 <= i < |es| && es[i] == FirstAsk(es).value && Asks(es[i])
                       && forall j :: 0 <= j < i ==> !Asks(es[j])
    ensures FirstAsk(es).None? ==> forall e :: e in es ==> !Asks(e)
  {
    if es != [] {
      var n := |es| - 1;
      FirstAskMeaning(es[..n]);
      assert es == es[..n] + [es[n]];
      if FirstAsk(es[..n]).Some? {
        var i :| 0 <= i < n && es[..n][i] == FirstAsk(es).value && Asks(es[..n][i])
                 && forall j :: 0 <= j < i ==> !Asks(es[..n][j]);
        assert es[i] == FirstAsk(es).value && forall j :: 0 <= j < i ==> es[j] == es[..n][j];
      } else if Asks(es[n]) {
        assert forall j :: 0 <= j < n ==> es[j] in es[..n];
      }
    }
  }

  lemma {:induction false} LastAnswerMeaning(es: seq<StoredEvent>)
    ensures LastAnswer(es).Some? ==>
              exists i :: 0 <= i < |es| && es[i] == LastAnswer(es).value && Answers(es[i])
                       && forall j :: i < j < |es| ==> !Answers(es[j])
    ensures LastAnswer(es).None? ==> forall e :: e in es ==> !Answers(e)
  {
    if es != [] {
      var n := |es| - 1;
      assert es == es[..n] + [es[n]];
      if !Answers(es[n]) {
        LastAnswerMeaning(es[..n]);
        if LastAnswer(es).Some? {
          var i :| 0 <= i < n && es[..n][i] == LastAnswer(es).value && Answers(es[..n][i])
                   && forall j :: i < j < n ==> !Answers(es[..n][j]);
          assert es[i] == LastAnswer(es).value && forall j :: i < j < n ==> es[j] == es[..n][j];
        }
      }
    }
  }

  function StateOfCarriers(asked: seq<StoredEvent>, answered: seq<StoredEvent>): Option<DecisionState>
    requires |asked| <= 1 && |answered| <= 1 && (answered != [] ==> asked != [])
  {
    if asked == [] then None
    else Some(StateFrom(Some(asked[0]), if answered == [] then None else Some(answered[0]), asked[0]))
  }

  lemma LifecycleMembers(log: Log, d: string)
    ensures forall e :: e in Lifecycle(log, d) <==> e in AskedFor(log, d) || e in AnsweredFor(log, d)
  {
  }

  lemma AnsweredHasAsked(log: Log, d: string)
    requires DecisionOrder(log, d)
    ensures AnsweredFor(log, d) != [] ==> AskedFor(log, d) != []
  {
    var answered := AnsweredFor(log, d);
    if answered != [] {
      assert answered[0] in answered;
    }
  }

  function AnswerOf(log: Log, d: string): Option<StoredEvent> {
    if AnsweredFor(log, d) == [] then None else Some(AnsweredFor(log, d)[0])
  }

  /** A decision's lifecycle consists of its one request and its one resolution, if it has them. */
  lemma LifecycleContents(log: Log, d: string)
    requires DecisionOrder(log, d)
    ensures var es, asked, r := Lifecycle(log, d), AskedFor(log, d), AnswerOf(log, d);
            && (es == [] <==> asked == [])
            && (asked != [] ==> asked[0] in es && forall e :: e in es ==> e == asked[0] || r == Some(e))
            && (r.Some? ==> r.value in es)
  {
    AnsweredHasAsked(log, d);
    LifecycleMembers(log, d);
    SomeMember(Lifecycle(log, d));
    assert AskedFor(log, d) != [] ==> AskedFor(log, d)[0] in AskedFor(log, d);
    assert AnsweredFor(log, d) != [] ==> AnsweredFor(log, d)[0] in AnsweredFor(log, d);
  }

  lemma Signals(log: Log, d: string)
    requires DecisionOrder(log, d)
    ensures forall p :: p in AskedFor(log, d) ==> Asks(p) && !Answers(p)
    ensures forall r :: r in AnsweredFor(log, d) ==> Answers(r) && !Asks(r)
  {
  }

  /** The reported state depends on the one request and the one resolution, not on the listing's order. */
  lemma StateMeaning(log: Log, d: string)
    requires DecisionOrder(log, d)
    ensures (AnsweredFor(log, d) != [] ==> AskedFor(log, d) != [])
    ensures StateOf(log, d) == StateOfCarriers(AskedFor(log, d), AnsweredFor(log, d))
  {
    AnsweredHasAsked(log, d);
    LifecycleContents(log, d);
    if AskedFor(log, d) != [] {
      Signals(log, d);
      assert AskedFor(log, d)[0] in AskedFor(log, d);
      assert AnsweredFor(log, d) != [] ==> AnsweredFor(log, d)[0] in AnsweredFor(log, d);
      StateOfMembers(Lifecycle(log, d), AskedFor(log, d)[0], AnswerOf(log, d));
    }
  }

  lemma StateOfMembers(es: seq<StoredEvent>, p: StoredEvent, r: Option<StoredEvent>)
    requires p in es && Asks(p) && !Answers(p)
    requires r.Some? ==> r.value in es && Answers(r.value) && !Asks(r.value)
    requires forall e :: e in es ==> e == p || r == Some(e)
    ensures StateFrom(FirstAsk(es), LastAnswer(es), es[|es| - 1]) == StateFrom(Some(p), r, p)
  {
    SoleAsk(es, p);
    SoleAnswer(es, r);
  }

  lemma SoleAsk(es: seq<StoredEvent>, p: StoredEvent)
    requires p in es && Asks(p) && forall e :: e in es && Asks(e) ==> e == p
    ensures FirstAsk(es) == Some(p)
  {
    FirstAskMeaning(es);
  }

  lemma SoleAnswer(es: seq<StoredEvent>, r: Option<StoredEvent>)
    requires r.Some? ==> r.value in es && Answers(r.value)
    requires forall e :: e in es && Answers(e) ==> r == Some(e)
    ensures LastAnswer(es) == r
  {
    LastAnswerMeaning(es);
  }

  /** Not found, then pending, then approved or rejected: the only changes there are. */
  ghost predicate Progress(a: Option<DecisionState>, b: Option<DecisionState>) {
    || a == b
    || (a.None? && b.Some? && b.value.status == Pending)
    || (&& a.Some? && a.value.status == Pending && b.Some?
        && (b.value.status == Approved || b.value.status == Rejected)
        && b.value.runId == a.value.runId
        && b.value.requestedEventId == a.value.requestedEventId
        && b.value.requestedAt == a.value.requestedAt
        && a.value.requestedAt.Some? && b.value.resolvedAt.Some?
        && a.value.requestedAt.value < b.value.resolvedAt.value)
  }

  ghost predicate Decided(s: Option<DecisionState>) {
    s.Some? && (s.value.status == Approved || s.value.status == Rejected)
  }
}
