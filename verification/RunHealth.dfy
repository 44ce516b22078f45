/** Which of the system's own steps keep a run projectable, exactly; and that a broken run stays broken. */
module RunHealth {
  import opened Prelude
  import opened Events
  import opened EventLog
  import opened RunStatusProjection
  import opened Approvals
  import opened RuntimeReceipts
  import opened Resolution
  import opened Ledger
  import BusinessRules

  /** The run goes on: it has not ended and has not been rejected. */
  predicate Open(s: Projection) {
    !s.status.Terminal() && s.status != RunRejected
  }

  lemma AppendedToRun(h: EventHash, log: Log, p: EventPayload)
    requires Built(h, log) && !Logged(log, p.runId, p.id)
    requires ListRun(log, p.runId) != [] ==> MaxTime(ListRun(log, p.runId)) < p.timestamp
    ensures var e := EventFor(h, log, p);
            && e.payload == p
            && ListRun(log + [MakeRecord(h, log, p)], p.runId) == ListRun(log, p.runId) + [e]
  {
    LaterThanLatest(log, p);
    AppendInOrder(h, log, p);
  }

  lemma RegisterAppends(h: EventHash, log: Log, input: RegisterInput)
    requires Built(h, log) && Register(h, log, input).result.Ok?
    ensures var es := ListRun(log, input.runId);
            var p := RequestEvent(input, RequestTime(es, input.now));
            && Register(h, log, input).result == Ok(p.id)
            && ListRun(Register(h, log, input).log, input.runId) == es + [EventFor(h, log, p)]
  {
    AppendedToRun(h, log, RequestEvent(input, RequestTime(ListRun(log, input.runId), input.now)));
  }

  lemma ReceiptAppends(h: EventHash, log: Log, input: ReceiptInput)
    requires Built(h, log) && Record(h, log, input).Some?
    ensures var es := ListRun(log, input.runId);
            var p := ReceiptEvent(input, ReceiptTime(es, input.now));
            ListRun(Record(h, log, input).value, input.runId) == es + [EventFor(h, log, p)]
  {
    var es := ListRun(log, input.runId);
    if es != [] {
      LastIsNewest(h, log, input.runId);
    }
    AppendedToRun(h, log, ReceiptEvent(input, ReceiptTime(es, input.now)));
  }

  /** A registration keeps its run projectable if and only if the run is open and has nothing pending. The
      service checks only that the decision is new: it accepts a second request into a paused run. */
  lemma RegisterHealth(h: EventHash, log: Log, input: RegisterInput)
    requires Built(h, log) && Project(ListRun(log, input.runId)).Ok? && Register(h, log, input).result.Ok?
    ensures var s := Project(ListRun(log, input.runId)).value;
            var r := Project(ListRun(Register(h, log, input).log, input.runId));
            && (r.Ok? <==> Open(s) && s.pending.None?)
            && (r.Ok? ==> r.value.status == Paused && r.value.pending.Some?
                          && r.value.pending.value.eventId == Register(h, log, input).result.value)
            && (Open(s) && s.pending.Some? ==> r == Err(DuplicatePendingApproval))
  {
    var es := ListRun(log, input.runId);
    RegisterAppends(h, log, input);
    RequestAdvances(es, EventFor(h, log, RequestEvent(input, RequestTime(es, input.now))));
  }

  lemma RequestAdvances(es: seq<StoredEvent>, e: StoredEvent)
    requires Project(es).Ok? && e.payload.kind == ApprovalRequested
    requires e.payload.approval.status == Pending && TerminalStatus(e.payload).None?
    ensures var s := Project(es).value;
            Project(es + [e]) ==
            if s.status.Terminal() then Err(TerminalStateConflict)
            else if s.status == RunRejected then Err(RejectedStateConflict)
            else if s.pending.Some? then Err(DuplicatePendingApproval)
            else Ok(Projection(Paused, Some(ContextOf(e))))
  {
    ProjectAppend(es, e);
  }

  /** A receipt keeps its run projectable if and only if the run is open. In particular a receipt in a run
      that a rejection has stopped, such as for a blocked execution, breaks it. */
  lemma ReceiptHealth(h: EventHash, log: Log, input: ReceiptInput)
    requires Built(h, log) && Project(ListRun(log, input.runId)).Ok? && Record(h, log, input).Some?
    ensures var s := Project(ListRun(log, input.runId)).value;
            var r := Project(ListRun(Record(h, log, input).value, input.runId));
            && (r.Ok? <==> Open(s))
            && (r.Ok? ==> r.value.pending == s.pending)
            && (s.status.Terminal() ==> r == Err(TerminalStateConflict))
  {
    var es := ListRun(log, input.runId);
    ReceiptAppends(h, log, input);
    ReceiptAdvances(es, EventFor(h, log, ReceiptEvent(input, ReceiptTime(es, input.now))));
  }

  lemma ReceiptAdvances(es: seq<StoredEvent>, e: StoredEvent)
    requires Project(es).Ok?
    requires !PendingSignal(e.payload) && !ResolutionSignal(e.payload) && TerminalStatus(e.payload).None?
    ensures var s := Project(es).value;
            var r := Project(es + [e]);
            && (r.Ok? <==> Open(s))
            && (r.Ok? ==> r.value.pending == s.pending)
            && (s.status.Terminal() ==> r == Err(TerminalStateConflict))
  {
    ProjectAppend(es, e);
  }

  /** Nothing the system does repairs a run that does not project. */
  lemma BrokenStaysBroken(h: EventHash, log: Log, steps: seq<LedgerStep>, run: string)
    requires Built(h, log) && Project(ListRun(log, run)).Err?
    ensures Project(ListRun(ApplyAll(h, log, steps), run)) == Project(ListRun(log, run))
  {
    var log' := ApplyAll(h, log, steps);
    RunGrows(h, log, steps);
    GrowsKeeps(h, log, log');
    var es, es' := ListRun(log, run), ListRun(log', run);
    assert es <= es';
    assert es'[..|es|] == es;
    ErrorPersists(es', |es|);
  }

  /** In a broken run no request can be resolved any more: every attempt fails and appends nothing. */
  lemma BrokenRunCannotResolve(h: EventHash, log: Log, e: StoredEvent, input: ResolveInput)
    requires e in ListAll(log) && Project(ListRun(log, e.runId)).Err?
    ensures Resolve(h, log, e.id, input).result.Err? && Resolve(h, log, e.id, input).log == log
  {
    assert e in WithId(log, e.id);
    if |WithId(log, e.id)| == 1 {
      assert WithId(log, e.id) == [e];
    }
  }

  /** A second registration into a paused run, for a new decision and under a free event id, is accepted, and
      leaves both requests unresolvable for ever. */
  lemma SecondRegistrationDeadlocks(
    h: EventHash, log: Log, input: RegisterInput, steps: seq<LedgerStep>, e: StoredEvent, resolution: ResolveInput)
    requires Built(h, log) && Project(ListRun(log, input.runId)).Ok?
    requires Project(ListRun(log, input.runId)).value.pending.Some?
    requires Lifecycle(log, input.decisionId) == []
    requires !Logged(log, input.runId, PendingEventId(input.decisionId, input.suffix))
    requires var log' := ApplyAll(h, Register(h, log, input).log, steps); e in ListAll(log') && e.runId == input.runId
    ensures Register(h, log, input).result.Ok?
    ensures var log' := ApplyAll(h, Register(h, log, input).log, steps);
            Resolve(h, log', e.id, resolution).result.Err? && Resolve(h, log', e.id, resolution).log == log'
  {
    var registered := Register(h, log, input).log;
    RegisterHealth(h, log, input);
    PausedIffPending(ListRun(log, input.runId));
    StepGrows(h, log, RegisterStep(input));
    GrowsKeeps(h, log, registered);
    BrokenStaysBroken(h, registered, steps, input.runId);
    BrokenRunCannotResolve(h, ApplyAll(h, registered, steps), e, resolution);
  }

  /** In a run that the store lists, where ids are unique, waiting for a decision is having an open request that
      carries it. */
  lemma WaitsForOpen(h: EventHash, log: Log, run: string, decision: Option<string>)
    requires Built(h, log)
    ensures var es := ListRun(log, run);
            BusinessRules.WaitsFor(es, decision) <==>
            exists j :: OpenAt(es, j, |es|) && es[j].payload.approval.decisionId == decision
  {
    var es := ListRun(log, run);
    forall j | OpenAt(es, j, |es|) ensures BusinessRules.FirstWithId(es, es[j].id, j) {
      forall k | 0 <= k < j ensures es[k].id != es[j].id {
        ListRunIdsDistinct(h, log, run, k, j);
      }
    }
    if BusinessRules.WaitsFor(es, decision) {
      var j, i :| OpenAt(es, j, |es|) && BusinessRules.FirstWithId(es, es[j].id, i)
                  && es[i].payload.approval.decisionId == decision;
      BusinessRules.FirstOnce(es, es[j].id, i, j);
    }
  }

  // ---------- The scan's false positives ----------

  predicate IsRequest(p: EventPayload) {
    p.kind == ApprovalRequested && p.approval.status == Pending && TerminalStatus(p).None?
  }

  lemma LoggedIsFound(log: Log, run: string, id: string)
    ensures Logged(log, run, id) ==> WithId(log, id) != []
  {
    if Logged(log, run, id) {
      var r :| r in log && r.event.runId == run && r.event.id == id;
      ListAllMembers(log, r.event);
      assert r.event in WithId(log, id);
    }
  }

  /** One more record is found by its id, if no earlier one has it. */
  lemma FoundById(log: Log, r: StoredRecord, id: string)
    requires WithId(log, id) == []
    ensures WithId(log + [r], id) == if r.event.id == id then [r.event] else []
  {
    FilterListAll((e: StoredEvent) => e.id == id, log, r);
    SmallPermutation(WithId(log, id), WithId(log + [r], id), r.event, r.event.id == id);
  }

  /** A request under a new id, appended after an open run with nothing pending, pauses the run. */
  lemma RequestPauses(h: EventHash, log: Log, p: EventPayload)
    requires Built(h, log) && IsRequest(p) && WithId(log, p.id) == [] && Later(log, p)
    requires Project(ListRun(log, p.runId)).Ok?
    requires var s := Project(ListRun(log, p.runId)).value; Open(s) && s.pending.None?
    ensures var log' := log + [MakeRecord(h, log, p)];
            var e := EventFor(h, log, p);
            && Append(h, log, p) == Some(log') && Built(h, log')
            && WithId(log', p.id) == [e]
            && ListRun(log', p.runId) == ListRun(log, p.runId) + [e]
            && PausedOn(log', p.runId, p.id)
  {
    LoggedIsFound(log, p.runId, p.id);
    AppendInOrder(h, log, p);
    FoundById(log, MakeRecord(h, log, p), p.id);
    RequestAdvances(ListRun(log, p.runId), EventFor(h, log, p));
  }

  lemma PrefixOfLonger(target: string, rest: string, verdict: Verdict, suffix: string)
    ensures StartsWith(ResolutionEventId(target + "_" + rest, verdict, suffix), ResolutionPrefix(target))
    ensures ResolutionEventId(target + "_" + rest, verdict, suffix) != target
  {
    var id := ResolutionEventId(target + "_" + rest, verdict, suffix);
    assert id[..|ResolutionPrefix(target)|] == ResolutionPrefix(target);
  }

  /** Outside the demo, an approval by a named approver appends its one event. */
  lemma ApprovalAppends(h: EventHash, log: Log, e: StoredEvent, input: ResolveInput)
    requires Resolvable(h, log, e) && !TriggersDemo(e, input.verdict)
    requires input.verdict == Approve && !IsBlank(input.approver)
    requires !Logged(log, e.runId, ResolutionEventId(e.id, input.verdict, input.suffix))
    ensures ListRun(log, e.runId) != []
    ensures var p := ResolutionEvent(e, input, ResolutionTime(ListRun(log, e.runId), input.now));
            var o := Resolve(h, log, e.id, input);
            && o.result.Ok? && o.log == log + [MakeRecord(h, log, p)] && Built(h, o.log)
            && Projects(o.log, e.runId, RunApproved)
            && ListRun(o.log, e.runId) == ListRun(log, e.runId) + [EventFor(h, log, p)]
  {
    ResolvableReachesAppend(h, log, e, input);
    ResolutionAppended(h, log, e, input);
  }

  lemma AnswersShorter(h: EventHash, log: Log, e: StoredEvent, input: ResolveInput, at: Time,
                       target: string, rest: string)
    requires e.id == target + "_" + rest
    ensures var p := ResolutionEvent(e, input, at);
            p.id != target && PrefixAnswer(EventFor(h, log, p), target)
  {
    PrefixOfLonger(target, rest, input.verdict, input.suffix);
  }

  /** An approved request leaves its run open, with an event that answers every request whose id it extends. */
  lemma ApprovalLeaves(h: EventHash, log: Log, e: StoredEvent, input: ResolveInput, target: string, rest: string)
    requires Resolvable(h, log, e) && !TriggersDemo(e, input.verdict)
    requires input.verdict == Approve && !IsBlank(input.approver)
    requires !Logged(log, e.runId, ResolutionEventId(e.id, input.verdict, input.suffix))
    requires e.id == target + "_" + rest && WithId(log, target) == []
    ensures var o := Resolve(h, log, e.id, input);
            && o.result.Ok? && Built(h, o.log)
            && Projects(o.log, e.runId, RunApproved)
            && WithId(o.log, target) == []
            && exists x :: x in ListRun(o.log, e.runId) && PrefixAnswer(x, target)
  {
    ApprovalAppends(h, log, e, input);
    var at := ResolutionTime(ListRun(log, e.runId), input.now);
    var x := EventFor(h, log, ResolutionEvent(e, input, at));
    AnswersShorter(h, log, e, input, at, target, rest);
    FoundById(log, MakeRecord(h, log, ResolutionEvent(e, input, at)), target);
    assert x in ListRun(Resolve(h, log, e.id, input).log, e.runId);
  }

  lemma FoundIsRefused(h: EventHash, log: Log, e: StoredEvent, input: ResolveInput)
    requires WithId(log, e.id) == [e] && Asks(e) && ScanRun(ListRun(log, e.runId), e.id).Found?
    ensures Resolve(h, log, e.id, input) == Outcome(Err(DuplicateApproval), log)
  {
  }

  /** After a request is approved, a request whose id continues with an underscore to that one's id can be
      appended to the run, and the run is paused on it; but every attempt to resolve it is refused as a duplicate,
      although nothing has resolved it. */
  lemma PrefixCollision(h: EventHash, log: Log, e: StoredEvent, input: ResolveInput,
                        p: EventPayload, rest: string, again: ResolveInput)
    requires Resolvable(h, log, e) && !TriggersDemo(e, input.verdict)
    requires input.verdict == Approve && !IsBlank(input.approver)
    requires !Logged(log, e.runId, ResolutionEventId(e.id, input.verdict, input.suffix))
    requires IsRequest(p) && p.runId == e.runId && e.id == p.id + "_" + rest
    requires WithId(log, p.id) == [] && Later(Resolve(h, log, e.id, input).log, p)
    ensures var resolved := Resolve(h, log, e.id, input);
            var log' := resolved.log + [MakeRecord(h, resolved.log, p)];
            && resolved.result.Ok?
            && Append(h, resolved.log, p) == Some(log')
            && PausedOn(log', p.runId, p.id)
            && Resolve(h, log', p.id, again) == Outcome(Err(DuplicateApproval), log')
  {
    var resolved := Resolve(h, log, e.id, input).log;
    ApprovalLeaves(h, log, e, input, p.id, rest);
    RequestPauses(h, resolved, p);
    var log' := resolved + [MakeRecord(h, resolved, p)];
    var x :| x in ListRun(resolved, e.runId) && PrefixAnswer(x, p.id);
    assert x in ListRun(log', e.runId);
    ScanOfPaused(h, log', EventFor(h, resolved, p));
    FoundIsRefused(h, log', EventFor(h, resolved, p), again);
  }

  function SampleRequest(id: string, at: Time): EventPayload {
    EventPayload(id, "run", at, ApprovalRequested, None, true, Approval(Pending, None, None, None), 0, None, 0)
  }

  lemma FirstRequest(h: EventHash, id: string, at: Time)
    ensures var asked := [MakeRecord(h, [], SampleRequest(id, at))];
            var e := EventFor(h, [], SampleRequest(id, at));
            && Append(h, [], SampleRequest(id, at)) == Some(asked)
            && e.id == id && e.runId == "run" && Resolvable(h, asked, e)
            && (forall other :: other != id ==> WithId(asked, other) == [])
            && (forall other :: Logged(asked, "run", other) ==> other == id)
  {
    var r := MakeRecord(h, [], SampleRequest(id, at));
    assert [] + [r] == [r];
    RequestPauses(h, [], SampleRequest(id, at));
    forall other | other != id ensures WithId([r], other) == [] {
      FoundById([], r, other);
    }
  }

  /** Ingest accepts a request under a new id into a run that is empty or still open. */
  lemma RequestIngested(h: EventHash, log: Log, p: EventPayload)
    requires IsRequest(p) && p.requiresApproval && WithId(log, p.id) == []
    requires Project(ListRun(log, p.runId)).Ok? && Open(Project(ListRun(log, p.runId)).value)
    ensures BusinessRules.Ingest(h, log, p) ==
            BusinessRules.IngestOutcome(BusinessRules.Accepted(EventFor(h, log, p)), log + [MakeRecord(h, log, p)])
  {
    LoggedIsFound(log, p.runId, p.id);
    ProjectionMeaning(ListRun(log, p.runId));
  }

  lemma SampleIsNoDemo(e: StoredEvent, verdict: Verdict)
    requires e.runId == "run"
    ensures !TriggersDemo(e, verdict)
  {
    assert |DEMO_RUN| > 3;
  }

  /** Such a run, from an empty store: a request is ingested and approved, and one more request is ingested,
      which cannot be resolved. */
  lemma PrefixCollisionReached(h: EventHash, target: string, rest: string, input: ResolveInput, again: ResolveInput)
    requires input.verdict == Approve && !IsBlank(input.approver)
    ensures var id := target + "_" + rest;
            var asked := [MakeRecord(h, [], SampleRequest(id, 0))];
            var resolved := Resolve(h, asked, id, input);
            && BusinessRules.Ingest(h, [], SampleRequest(id, 0)).result.Accepted?
            && BusinessRules.Ingest(h, [], SampleRequest(id, 0)).log == asked
            && resolved.result.Ok?
            && exists at :: var p := SampleRequest(target, at);
                            var log' := resolved.log + [MakeRecord(h, resolved.log, p)];
                            && BusinessRules.Ingest(h, resolved.log, p).result.Accepted?
                            && BusinessRules.Ingest(h, resolved.log, p).log == log'
                            && PausedOn(log', "run", target)
                            && Resolve(h, log', target, again) == Outcome(Err(DuplicateApproval), log')
  {
    var id := target + "_" + rest;
    var asked := [MakeRecord(h, [], SampleRequest(id, 0))];
    var e := EventFor(h, [], SampleRequest(id, 0));
    FirstRequest(h, id, 0);
    SampleIsNoDemo(e, input.verdict);
    assert |ResolutionEventId(id, input.verdict, input.suffix)| > |id| > |target|;
    assert [] + asked == asked;
    RequestIngested(h, [], SampleRequest(id, 0));
    var resolved := Resolve(h, asked, id, input).log;
    var at := LaterTime(resolved, "run");
    ApprovalLeaves(h, asked, e, input, target, rest);
    RequestIngested(h, resolved, SampleRequest(target, at));
    PrefixCollision(h, asked, e, input, SampleRequest(target, at), rest, again);
  }

  lemma LaterTime(log: Log, run: string) returns (at: Time)
    ensures forall r | r in log && r.event.runId == run :: r.event.timestamp < at
  {
    at := if ListRun(log, run) == [] then 0 else MaxTime(ListRun(log, run)) + 1;
    LaterThanLatest(log, SampleRequest("", at).(runId := run));
  }
}
