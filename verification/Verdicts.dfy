/** What a registration and a resolution make of a decision, and what a rejection rules out for good. */
module Verdicts {
  import opened Prelude
  import opened Events
  import opened EventLog
  import opened RunStatusProjection
  import opened Approvals
  import opened Resolution
  import opened Ledger
  import opened Decisions
  import Enforcement
  import Gateway
  import RuntimeReceipts

  // ---------- Signals and names, by the fields ----------

  /** What asks, what answers, which ids count as answers, and which approval goes on to the demo. */
  lemma Signals(e: StoredEvent, target: string, verdict: Verdict)
    ensures var p := e.payload;
            && (Asks(e) <==> p.kind == ApprovalRequested || (p.requiresApproval && p.approval.status == Pending))
            && (Answers(e) <==>
                  p.kind == ApprovalResolved
                  || (p.requiresApproval && (p.approval.status == Approved || p.approval.status == Rejected)))
            && ResolutionPrefix(target) == "apr_" + target + "_"
            && (TriggersDemo(e, verdict) <==>
                  verdict == Approve && e.runId == "run_triage_inbox_demo_1" && e.id == "evt_triage_inbox_003")
  {
  }

  ghost predicate AwaitsFrom(es: seq<StoredEvent>, target: string, k: int, j: int)
    requires 0 <= j < k <= |es|
  {
    Asks(es[j]) && es[j].id == target && forall i :: j < i < k ==> !Asks(es[i]) && !Answers(es[i])
  }

  /** At k the run's latest signal is the request with this id. */
  ghost predicate Awaits(es: seq<StoredEvent>, target: string, k: int)
    requires 0 <= k <= |es|
  {
    exists j :: 0 <= j < k && AwaitsFrom(es, target, k, j)
  }

  /** Event k counts as the answer to the request: by its id, or by its place. */
  ghost predicate AnswersAt(es: seq<StoredEvent>, target: string, k: int)
    requires 0 <= k < |es|
  {
    !Asks(es[k]) && Answers(es[k]) && ("apr_" + target + "_" <= es[k].id || Awaits(es, target, k))
  }

  lemma AwaitsInit(es: seq<StoredEvent>, target: string, k: int)
    requires 0 <= k < |es|
    ensures Awaits(es, target, k) <==> Awaits(es[..|es| - 1], target, k)
  {
    var init := es[..|es| - 1];
    forall j | 0 <= j < k ensures AwaitsFrom(es, target, k, j) <==> AwaitsFrom(init, target, k, j) {
    }
    if j :| 0 <= j < k && AwaitsFrom(es, target, k, j) {
      assert AwaitsFrom(init, target, k, j);
    }
    if j :| 0 <= j < k && AwaitsFrom(init, target, k, j) {
      assert AwaitsFrom(es, target, k, j);
    }
  }

  lemma AwaitsLast(es: seq<StoredEvent>, target: string)
    requires es != []
    ensures var n := |es| - 1;
            Awaits(es, target, |es|) <==>
            if Asks(es[n]) then es[n].id == target else !Answers(es[n]) && Awaits(es, target, n)
  {
    var n := |es| - 1;
    if Asks(es[n]) && es[n].id == target {
      assert AwaitsFrom(es, target, |es|, n);
    }
    if !Asks(es[n]) && !Answers(es[n]) && Awaits(es, target, n) {
      var j :| 0 <= j < n && AwaitsFrom(es, target, n, j);
      assert AwaitsFrom(es, target, |es|, j);
    }
    if Awaits(es, target, |es|) {
      var j :| 0 <= j < |es| && AwaitsFrom(es, target, |es|, j);
      if j < n {
        assert AwaitsFrom(es, target, n, j);
      }
    }
  }

  /** The scan finds an answer if and only if some event of the run counts as one. */
  lemma {:induction false} ScanExactly(es: seq<StoredEvent>, target: string)
    ensures ScanRun(es, target).Found? <==> exists k :: 0 <= k < |es| && AnswersAt(es, target, k)
    ensures ScanRun(es, target) == Current(Some(target)) ==> Awaits(es, target, |es|)
    ensures ScanRun(es, target).Current? && Awaits(es, target, |es|) ==> ScanRun(es, target) == Current(Some(target))
  {
    if es != [] {
      var n := |es| - 1;
      var init := es[..n];
      ScanExactly(init, target);
      AwaitsLast(es, target);
      AwaitsInit(es, target, n);
      assert StartsWith(es[n].id, ResolutionPrefix(target)) <==> "apr_" + target + "_" <= es[n].id;
      AnswersInit(es, target);
      assert ScanRun(init, target).Current? ==> (ScanRun(es, target).Found? <==> AnswersAt(es, target, n));
    }
  }

  lemma AnswersInit(es: seq<StoredEvent>, target: string)
    requires es != []
    ensures var init := es[..|es| - 1];
            (exists k :: 0 <= k < |es| && AnswersAt(es, target, k)) <==>
            AnswersAt(es, target, |init|) || exists k :: 0 <= k < |init| && AnswersAt(init, target, k)
  {
    var n := |es| - 1;
    forall k | 0 <= k < n ensures AnswersAt(es, target, k) <==> AnswersAt(es[..n], target, k) {
      AwaitsInit(es, target, k);
    }
    if k :| 0 <= k < n && AnswersAt(es[..n], target, k) {
      assert AnswersAt(es, target, k);
    }
  }

  // ---------- Registered ----------

  /** The time of a new event: the clock, or a moment after the newest event of the run. */
  ghost predicate Stamped(log: Log, run: string, now: Time, at: Time) {
    && (forall e :: e in ListRun(log, run) ==> e.timestamp < at)
    && now <= at
    && (at == now || exists e :: e in ListRun(log, run) && now <= e.timestamp + 1000 && at == e.timestamp + 1000)
  }

  lemma RequestStamped(log: Log, run: string, now: Time)
    ensures Stamped(log, run, now, RequestTime(ListRun(log, run), now))
  {
    if ListRun(log, run) != [] {
      var _ := MaxTimeIsGreatest(ListRun(log, run));
    }
  }

  lemma ResolutionStamped(log: Log, run: string, now: Time)
    requires ListRun(log, run) != []
    ensures Stamped(log, run, now, ResolutionTime(ListRun(log, run), now))
  {
    var _ := MaxTimeIsGreatest(ListRun(log, run));
  }

  lemma ReceiptStamped(h: EventHash, log: Log, run: string, now: Time)
    requires Built(h, log)
    ensures Stamped(log, run, now, RuntimeReceipts.ReceiptTime(ListRun(log, run), now))
  {
    if ListRun(log, run) != [] {
      LastIsNewest(h, log, run);
      var _ := MaxTimeIsGreatest(ListRun(log, run));
    }
  }

  /** The request that a registration appends, and the answer that a resolution does, beyond what the decision's
      state shows. */
  lemma Written(h: EventHash, log: Log, input: RegisterInput, e: StoredEvent, answer: ResolveInput)
    requires Built(h, log)
    ensures var o := Register(h, log, input);
            o.result.Ok? ==>
              && |o.log| == |log| + 1 && log <= o.log
              && var p := o.log[|log|].event.payload;
                 && p.kind == ApprovalRequested && p.requiresApproval && p.riskLevel == Some(input.riskLevel)
                 && p.evidence == 0 && p.content == input.content
    ensures Resolvable(h, log, e) && Resolve(h, log, e.id, answer).log != log ==>
              var log' := Resolve(h, log, e.id, answer).log;
              && |log'| > |log| && log <= log'
              && var p := log'[|log|].event.payload;
                 && p.kind == ApprovalResolved && p.requiresApproval && p.riskLevel == e.payload.riskLevel
                 && p.approval.decisionId == e.payload.approval.decisionId
                 && p.evidence == 0 && p.content == answer.content
  {
    if Resolvable(h, log, e) && Resolve(h, log, e.id, answer).log != log {
      ResolvableReachesAppend(h, log, e, answer);
      AppendResolutionLogs(h, log, e, answer);
      ResolveGrows(h, log, e.id, answer);
      var p := ResolutionEvent(e, answer, ResolutionTime(ListRun(log, e.runId), answer.now));
      AppendExtends(h, log, e, answer);
      assert (log + [MakeRecord(h, log, p)])[|log|].event.payload == p;
    }
  }

  /** What the demo's continuation appends, one and two milliseconds after the approval; and what its failure does,
      one more later. */
  lemma DemoWritten(h: EventHash, log: Log, run: string, t: Time, suffix: string)
    ensures var (done, log2) := Continue(h, log, run, t);
            done ==>
              && |log2| == |log| + 2 && log <= log2
              && log2[|log|].event.payload ==
                 EventPayload("evt_triage_inbox_004", run, t + 1000, Action, Some(Medium), false,
                              Approval(NotRequired, None, None, None), 1, Some(OtherStep("resume_after_approval")), 0)
              && log2[|log| + 1].event.payload ==
                 EventPayload("evt_triage_inbox_005", run, t + 2000, Summary, Some(Low), false,
                              Approval(NotRequired, None, None, None), 1, Some(OtherStep("run_completed")), 0)
    ensures var log' := JournalFailure(h, log, run, t, suffix);
            log' != log ==>
              && |log'| == |log| + 1 && log <= log'
              && log'[|log|].event.payload ==
                 EventPayload("evt_triage_inbox_err_" + suffix, run, t + 3000, ErrorReport, Some(High), false,
                              Approval(NotRequired, None, None, None), 1, Some(RunStopped), 0)
  {
  }

  lemma ContinueExtends(h: EventHash, log: Log, run: string, t: Time, suffix: string)
    ensures var (done, log2) := Continue(h, log, run, t);
            log <= log2 && log <= JournalFailure(h, log2, run, t, suffix)
  {
  }

  lemma AppendExtends(h: EventHash, log: Log, e: StoredEvent, input: ResolveInput)
    requires ListRun(log, e.runId) != [] && AppendResolution(h, log, e, input).log != log
    ensures var p := ResolutionEvent(e, input, ResolutionTime(ListRun(log, e.runId), input.now));
            log + [MakeRecord(h, log, p)] <= AppendResolution(h, log, e, input).log
  {
    var p := ResolutionEvent(e, input, ResolutionTime(ListRun(log, e.runId), input.now));
    ContinueExtends(h, log + [MakeRecord(h, log, p)], e.runId, p.timestamp, input.errorSuffix);
    AppendResolutionLogs(h, log, e, input);
  }

  /** A registration is refused exactly when some event has asked or answered for the decision; and it makes the
      decision pending, on an event of its own in the given run. */
  lemma Registered(h: EventHash, log: Log, input: RegisterInput)
    requires Orderly(h, log)
    ensures var o := Register(h, log, input);
            var id := "evt_" + input.decisionId + "_pending_" + input.suffix;
            && (StateOf(log, input.decisionId).Some? <==> o.result.Err? && o.result.error.DuplicateDecision?)
            && (o.result.Err? ==> o.log == log)
            && (o.result == Err(StorageWriteFailed) <==>
                  StateOf(log, input.decisionId).None? && Logged(log, input.runId, id))
            && (o.result.Ok? ==>
                  && o.result.value == id
                  && exists at :: Stamped(log, input.runId, input.now, at)
                       && StateOf(o.log, input.decisionId) ==
                          Some(DecisionState(input.runId, Pending, Some(id), None, Some(at), None, None)))
  {
    var d := input.decisionId;
    if Lifecycle(log, d) == [] {
      assert DecisionOrder(log, d);
      NoLifecycle(log, d);
      RegisteredAt(h, log, input);
    }
  }

  /** An event of the decision's that asks or answers. */
  predicate InLifecycle(e: StoredEvent, d: string) {
    e.payload.approval.decisionId == Some(d) && (PendingSignal(e.payload) || ResolutionSignal(e.payload))
  }

  /** A duplicate is said to be pending or resolved by the last such event of the whole listing. */
  lemma DuplicateReason(h: EventHash, log: Log, input: RegisterInput, pending: bool)
    requires Register(h, log, input).result == Err(DuplicateDecision(pending))
    ensures var all := ListAll(log);
            exists i :: 0 <= i < |all| && InLifecycle(all[i], input.decisionId)
              && (forall j :: i < j < |all| ==> !InLifecycle(all[j], input.decisionId))
              && (pending <==> PendingSignal(all[i].payload))
  {
    var d := input.decisionId;
    var all := ListAll(log);
    FilterFilter((e: StoredEvent) => Carries(e, d), (e: StoredEvent) => Asks(e) || Answers(e),
                 (e: StoredEvent) => InLifecycle(e, d), all);
    FilterLast((e: StoredEvent) => InLifecycle(e, d), all);
    var i :| 0 <= i < |all| && LastPassing((e: StoredEvent) => InLifecycle(e, d), all, i)
             && all[i] == Lifecycle(log, d)[|Lifecycle(log, d)| - 1];
    assert InLifecycle(all[i], d);
  }

  lemma RegisteredAt(h: EventHash, log: Log, input: RegisterInput)
    requires DecisionOrder(log, input.decisionId) && Lifecycle(log, input.decisionId) == []
    ensures var o := Register(h, log, input);
            var at := RequestTime(ListRun(log, input.runId), input.now);
            o.result.Ok? ==>
              && Stamped(log, input.runId, input.now, at)
              && StateOf(o.log, input.decisionId) ==
                 Some(DecisionState(input.runId, Pending, Some(PendingEventId(input.decisionId, input.suffix)), None,
                                    Some(at), None, None))
  {
    var d := input.decisionId;
    var at := RequestTime(ListRun(log, input.runId), input.now);
    var p := RequestEvent(input, at);
    NoLifecycle(log, d);
    RequestStamped(log, input.runId, input.now);
    if !Logged(log, p.runId, p.id) {
      CarriersStep(log, MakeRecord(h, log, p), d);
      AskingRecord(log, MakeRecord(h, log, p), d);
      StateMeaning(log + [MakeRecord(h, log, p)], d);
    }
  }

  // ---------- Resolved ----------

  /** The decision stands as the verdict says: given by the approver, in the request's run, by this one event. */
  ghost predicate StandsAs(log: Log, log': Log, d: string, e: StoredEvent, input: ResolveInput) {
    var state := StateOf(log', d);
    && state.Some?
    && state.value.runId == e.runId
    && (state.value.status == Approved <==> input.verdict == Approve)
    && (state.value.status == Rejected <==> input.verdict == Reject)
    && state.value.resolvedBy == Some(input.approver)
    && state.value.requestedEventId == Some(e.id)
    && state.value.requestedAt == Some(e.timestamp)
    && state.value.resolvedEventId ==
       Some("apr_" + e.id + "_" + (if input.verdict == Approve then "approved" else "rejected") + "_" + input.suffix)
    && (exists at :: state.value.resolvedAt == Some(at) && Stamped(log, e.runId, input.now, at))
  }

  /** The events that carry the decision after a resolution of its request has been appended. */
  lemma AnsweredBy(h: EventHash, log: Log, id: string, input: ResolveInput, d: string)
    requires Built(h, log) && DecisionOrder(log, d)
    requires Resolve(h, log, id, input).log != log
    requires |WithId(log, id)| == 1 && Carries(WithId(log, id)[0], d)
    ensures var e := WithId(log, id)[0];
            var log' := Resolve(h, log, id, input).log;
            && e.id == id && ListRun(log, e.runId) != []
            && DecisionOrder(log', d) && AskedFor(log', d) == [e]
            && AnsweredFor(log', d) ==
               [EventFor(h, log, ResolutionEvent(e, input, ResolutionTime(ListRun(log, e.runId), input.now)))]
  {
    var e := WithId(log, id)[0];
    assert e in WithId(log, id) && e in ListAll(log);
    ListAllMembers(log, e);
    ListRunMembers(log, e.runId, e);
    ResolveLogs(h, log, id, input);
    UnansweredTarget(h, log, e, d);
    var p := ResolutionEvent(e, input, ResolutionTime(ListRun(log, e.runId), input.now));
    var log1 := log + [MakeRecord(h, log, p)];
    ResolutionRecordMoves(h, log, e, input, d);
    DemoEventsQuiet(h, log1, e.runId, p.timestamp, input.errorSuffix, d);
    AppendResolutionLogs(h, log, e, input);
    CarriersStep(log, MakeRecord(h, log, p), d);
    assert SameCarriers(log1, Resolve(h, log, id, input).log, d);
  }

  /** A resolution that appends anything to the ledger has decided the request's decision, as its verdict says,
      whatever else happens to the call. */
  lemma ResolvedAs(h: EventHash, log: Log, id: string, input: ResolveInput, d: string)
    requires Built(h, log) && DecisionOrder(log, d)
    requires Resolve(h, log, id, input).log != log
    requires |WithId(log, id)| == 1 && Carries(WithId(log, id)[0], d)
    ensures StandsAs(log, Resolve(h, log, id, input).log, d, WithId(log, id)[0], input)
  {
    AnsweredBy(h, log, id, input, d);
    StateMeaning(Resolve(h, log, id, input).log, d);
    ResolutionStamped(log, WithId(log, id)[0].runId, input.now);
  }

  /** By decision id, the request is the one that carries the decision. */
  lemma ResolvedByDecisionAs(h: EventHash, log: Log, d: string, input: ResolveInput)
    requires Built(h, log) && DecisionOrder(log, d)
    requires ResolveByDecision(h, log, d, input).log != log
    ensures |AskedFor(log, d)| == 1
    ensures StandsAs(log, ResolveByDecision(h, log, d, input).log, d, AskedFor(log, d)[0], input)
  {
    ByDecision(h, log, d, input);
    var e := AskedFor(log, d)[0];
    assert e in AskedFor(log, d);
    FoundAlone(h, log, e, input);
    ResolvedAs(h, log, e.id, input, d);
  }

  lemma FoundAlone(h: EventHash, log: Log, e: StoredEvent, input: ResolveInput)
    requires e in ListAll(log) && Resolve(h, log, e.id, input).log != log
    ensures WithId(log, e.id) == [e]
  {
    ResolveLogs(h, log, e.id, input);
    OnlyOne(log, e);
  }

  lemma OnlyOne(log: Log, e: StoredEvent)
    requires e in ListAll(log) && |WithId(log, e.id)| == 1
    ensures WithId(log, e.id) == [e]
  {
    assert e in WithId(log, e.id);
  }

  // ---------- Rejected for good ----------

  lemma {:induction false} RunMovesLedger(env: Gateway.Env, s: Enforcement.System, steps: seq<Enforcement.SystemStep>)
    requires Orderly(env.hash, s.log)
    ensures Enforcement.LedgerMoved(env, s.log, Enforcement.RunAll(env, s, steps).log)
    decreases |steps|
  {
    if steps == [] {
      Enforcement.NothingMoves(env, s.log);
    } else {
      var s' := Enforcement.Next(env, s, steps[0]);
      Enforcement.NextMovesLedger(env, s, steps[0]);
      RunMovesLedger(env, s', steps[1..]);
      Enforcement.MovesTransitive(env, s.log, s'.log, Enforcement.RunAll(env, s, steps).log);
    }
  }

  /** While a decision stands rejected, and that is for good, no token is minted for it, and of all the tokens ever
      signed for it none was signed because it had been approved. */
  lemma RejectedStays(env: Gateway.Env, s: Enforcement.System, d: string, steps: seq<Enforcement.SystemStep>)
    requires Enforcement.Enforced(env, s) && Enforcement.GoodEnv(env) && Enforcement.Runs(env, s, steps)
    requires StateOf(s.log, d).Some? && StateOf(s.log, d).value.status == Rejected
    ensures var s' := Enforcement.RunAll(env, s, steps);
            && StateOf(s'.log, d) == StateOf(s.log, d)
            && (forall purchase, now, jti, suffix ::
                  Gateway.MintFor(env, s'.log, d, purchase, now, jti, suffix) ==
                  Gateway.MintEffect(Gateway.NotApproved, s'.log, None))
            && (forall i :: 0 <= i < |s'.minted| && s'.minted[i].claims.decisionId == d ==>
                  !s'.minted[i].grounds.ResolvedApproval?)
  {
    Enforcement.RunIsEnforced(env, s, steps);
    RunMovesLedger(env, s, steps);
    var s' := Enforcement.RunAll(env, s, steps);
    assert Decided(StateOf(s.log, d));
    forall i | 0 <= i < |s'.minted| && s'.minted[i].claims.decisionId == d
      ensures !s'.minted[i].grounds.ResolvedApproval?
    {
      assert Enforcement.Justified(env, s'.log, s'.minted[i]);
    }
  }

  /** Rejecting a decision brings it there. */
  lemma RejectedForGood(
    env: Gateway.Env, s: Enforcement.System, d: string, input: ResolveInput, steps: seq<Enforcement.SystemStep>)
    requires Enforcement.Enforced(env, s) && Enforcement.GoodEnv(env)
    requires input.verdict == Reject && ResolveByDecision(env.hash, s.log, d, input).log != s.log
    requires var rejected := s.(log := ResolveByDecision(env.hash, s.log, d, input).log);
             Enforcement.Runs(env, rejected, steps)
    ensures var rejected := s.(log := ResolveByDecision(env.hash, s.log, d, input).log);
            var s' := Enforcement.RunAll(env, rejected, steps);
            && StateOf(s'.log, d).Some? && StateOf(s'.log, d).value.status == Rejected
            && StateOf(s'.log, d).value.resolvedBy == Some(input.approver)
            && (forall purchase, now, jti, suffix ::
                  Gateway.MintFor(env, s'.log, d, purchase, now, jti, suffix).reply == Gateway.NotApproved)
            && (forall i :: 0 <= i < |s'.minted| && s'.minted[i].claims.decisionId == d ==>
                  !s'.minted[i].grounds.ResolvedApproval?)
  {
    var step := Enforcement.LedgerAction(ResolveDecisionStep(d, input));
    assert Enforcement.Next(env, s, step) == s.(log := ResolveByDecision(env.hash, s.log, d, input).log);
    assert DecisionOrder(s.log, d);
    ResolvedByDecisionAs(env.hash, s.log, d, input);
    Enforcement.NextIsEnforced(env, s, step);
    RejectedStays(env, s.(log := ResolveByDecision(env.hash, s.log, d, input).log), d, steps);
  }

  // ---------- When a resolution is refused ----------

  /** What each refusal means, for an id that names one event. A resolution goes through to its append only for a
      request that its run is paused on and that has no answer. */
  lemma Refusals(h: EventHash, log: Log, e: StoredEvent, input: ResolveInput)
    requires Built(h, log) && WithId(log, e.id) == [e]
    ensures var o := Resolve(h, log, e.id, input);
            && (o.log != log ==> Resolvable(h, log, e))
            && (!PendingSignal(e.payload) ==> o == Outcome(Err(NotPending), log))
            && (PendingSignal(e.payload) && PausedOn(log, e.runId, e.id) && !Resolvable(h, log, e) ==>
                  o == Outcome(Err(DuplicateApproval), log))
  {
    if PausedOn(log, e.runId, e.id) {
      ScanOfPaused(h, log, e);
    }
  }

  /** A request that its run is not paused on: a duplicate if it has an answer, and otherwise the run's conflict, or
      not pending. */
  lemma NotPausedOn(h: EventHash, log: Log, e: StoredEvent, input: ResolveInput)
    requires WithId(log, e.id) == [e] && PendingSignal(e.payload) && !PausedOn(log, e.runId, e.id)
    ensures var es := ListRun(log, e.runId);
            Resolve(h, log, e.id, input) ==
            Outcome(Err(if exists k :: 0 <= k < |es| && AnswersAt(es, e.id, k) then DuplicateApproval
                        else if Project(es).Err? then InconsistentRun(Project(es).error) else NotPending), log)
  {
    ScanExactly(ListRun(log, e.runId), e.id);
  }

  lemma AppendingFinds(h: EventHash, log: Log, e: StoredEvent, input: ResolveInput)
    requires ListRun(log, e.runId) != []
    ensures var r := AppendResolution(h, log, e, input).result; r != Err(ApprovalNotFound) && r != Err(AmbiguousEventId)
  {
  }

  /** With one event found, what is left of a resolution. */
  lemma FoundOne(h: EventHash, log: Log, id: string, input: ResolveInput)
    requires |WithId(log, id)| == 1
    ensures var e := WithId(log, id)[0];
            var r := Resolve(h, log, id, input).result;
            || (r.Err? && (r.error == NotPending || r.error == DuplicateApproval || r.error.InconsistentRun?))
            || (ListRun(log, e.runId) != [] && r == AppendResolution(h, log, e, input).result)
  {
  }

  /** Not found and ambiguous are exactly no event and several. */
  lemma Unfound(h: EventHash, log: Log, id: string, input: ResolveInput)
    ensures Resolve(h, log, id, input).result == Err(ApprovalNotFound) <==> WithId(log, id) == []
    ensures Resolve(h, log, id, input).result == Err(AmbiguousEventId) <==> |WithId(log, id)| > 1
    ensures forall e :: e in WithId(log, id) <==> e in ListAll(log) && e.id == id
  {
    if |WithId(log, id)| == 1 {
      FoundOne(h, log, id, input);
      if ListRun(log, WithId(log, id)[0].runId) != [] {
        AppendingFinds(h, log, WithId(log, id)[0], input);
      }
    }
  }

  /** By decision id: not found if no event carries it, ambiguous if several requests do, and not pending if events do
      but no request. */
  lemma DecisionUnfound(h: EventHash, log: Log, d: string, input: ResolveInput)
    ensures var r := ResolveByDecision(h, log, d, input).result;
            var carried := exists e :: e in ListAll(log) && e.payload.approval.decisionId == Some(d);
            && (!carried ==> r == Err(ApprovalNotFound))
            && (|AskedFor(log, d)| > 1 ==> r == Err(AmbiguousEventId))
            && (carried && AskedFor(log, d) == [] ==> r == Err(NotPending))
            && (|AskedFor(log, d)| == 1 ==> r == Resolve(h, log, AskedFor(log, d)[0].id, input).result)
  {
    ByDecision(h, log, d, input);
    PendingOfDecision(log, d);
    SomeMember(AskedFor(log, d));
    SomeMember(Filter((e: StoredEvent) => Carries(e, d), ListAll(log)));
  }
}
