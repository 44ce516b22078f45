/** Decisions are final: what the ledger's steps do to the state of a decision. */
module Decisions {
  import opened Prelude
  import opened Events
  import opened EventLog
  import opened Approvals
  import opened RuntimeReceipts
  import opened Resolution
  import opened Ledger

  // ---------- One append ----------

  ghost predicate SameCarriers(log: Log, log': Log, d: string) {
    AskedFor(log', d) == AskedFor(log, d) && AnsweredFor(log', d) == AnsweredFor(log, d)
  }

  /** What one step may do to the events that carry d: nothing, ask, or answer what was asked. */
  ghost predicate Moves(log: Log, log': Log, d: string) {
    || SameCarriers(log, log', d)
    || (AskedFor(log, d) == [] && |AskedFor(log', d)| == 1 && AnsweredFor(log', d) == AnsweredFor(log, d) == [])
    || (AskedFor(log', d) == AskedFor(log, d) && AnsweredFor(log, d) == [] && |AnsweredFor(log', d)| == 1)
  }

  /** A record that does not carry d, or neither asks nor answers, leaves d alone. */
  lemma QuietRecord(log: Log, r: StoredRecord, d: string)
    requires DecisionOrder(log, d)
    requires Carries(r.event, d) ==> !Asks(r.event) && !Answers(r.event)
    ensures SameCarriers(log, log + [r], d) && DecisionOrder(log + [r], d)
  {
    CarriersStep(log, r, d);
  }

  lemma AskingRecord(log: Log, r: StoredRecord, d: string)
    requires DecisionOrder(log, d) && AskedFor(log, d) == [] && AnsweredFor(log, d) == []
    requires Carries(r.event, d) && Asks(r.event) && !Answers(r.event) && r.event.payload.approval.status == Pending
    ensures Moves(log, log + [r], d) && DecisionOrder(log + [r], d)
  {
    CarriersStep(log, r, d);
  }

  lemma AnsweringRecord(log: Log, r: StoredRecord, d: string, p: StoredEvent)
    requires DecisionOrder(log, d) && AskedFor(log, d) == [p] && AnsweredFor(log, d) == []
    requires Carries(r.event, d) && ResolvesRequest(p, r.event)
    ensures Moves(log, log + [r], d) && DecisionOrder(log + [r], d)
  {
    CarriersStep(log, r, d);
  }

  lemma QuietAppend(h: EventHash, log: Log, p: EventPayload, d: string)
    requires DecisionOrder(log, d) && !PendingSignal(p) && !ResolutionSignal(p)
    ensures var log' := match Append(h, log, p) case None => log case Some(l) => l;
            SameCarriers(log, log', d) && DecisionOrder(log', d)
  {
    if !Logged(log, p.runId, p.id) {
      QuietRecord(log, MakeRecord(h, log, p), d);
    }
  }

  // ---------- Registration ----------

  lemma NoLifecycle(log: Log, d: string)
    ensures Lifecycle(log, d) == [] ==> AskedFor(log, d) == [] && AnsweredFor(log, d) == []
  {
    LifecycleMembers(log, d);
    assert AskedFor(log, d) == [] || AskedFor(log, d)[0] in AskedFor(log, d);
    assert AnsweredFor(log, d) == [] || AnsweredFor(log, d)[0] in AnsweredFor(log, d);
  }

  lemma RegisterMoves(h: EventHash, log: Log, input: RegisterInput, d: string)
    requires DecisionOrder(log, d)
    ensures Moves(log, Register(h, log, input).log, d) && DecisionOrder(Register(h, log, input).log, d)
  {
    NoLifecycle(log, input.decisionId);
    var p := RequestEvent(input, RequestTime(ListRun(log, input.runId), input.now));
    if Lifecycle(log, input.decisionId) == [] && !Logged(log, p.runId, p.id) {
      if d == input.decisionId {
        AskingRecord(log, MakeRecord(h, log, p), d);
      } else {
        QuietRecord(log, MakeRecord(h, log, p), d);
      }
    }
  }

  // ---------- Resolution ----------

  lemma PrefixIsFound(es: seq<StoredEvent>, x: StoredEvent, target: string)
    requires x in es && PrefixAnswer(x, target)
    ensures ScanRun(es, target).Found?
  {
    var k :| 0 <= k < |es| && es[k] == x;
    assert es[..k + 1][..k] == es[..k];
    FoundPersists(es, target, k + 1);
  }

  lemma WithIdMember(log: Log, e: StoredEvent)
    ensures e in WithId(log, e.id) <==> e in ListAll(log)
  {
  }

  /** A request that the service is about to answer has not been answered. */
  lemma UnansweredTarget(h: EventHash, log: Log, e: StoredEvent, d: string)
    requires Built(h, log) && DecisionOrder(log, d)
    requires e in ListAll(log) && Carries(e, d) && Asks(e) && !ScanRun(ListRun(log, e.runId), e.id).Found?
    ensures AskedFor(log, d) == [e] && AnsweredFor(log, d) == []
  {
    assert e in AskedFor(log, d);
    var answered := AnsweredFor(log, d);
    if answered != [] {
      var r := answered[0];
      assert r in answered && r in ListAll(log);
      ListAllMembers(log, r);
      ListRunMembers(log, e.runId, r);
      PrefixIsFound(ListRun(log, e.runId), r, e.id);
    }
  }

  lemma ResolutionResolves(h: EventHash, log: Log, e: StoredEvent, input: ResolveInput)
    requires e in ListRun(log, e.runId)
    ensures var p := ResolutionEvent(e, input, ResolutionTime(ListRun(log, e.runId), input.now));
            ResolvesRequest(e, EventFor(h, log, p))
  {
    var _ := MaxTimeIsGreatest(ListRun(log, e.runId));
    assert ResolutionEventId(e.id, input.verdict, input.suffix)[..|ResolutionPrefix(e.id)|] == ResolutionPrefix(e.id);
  }

  lemma DemoEventsQuiet(h: EventHash, log: Log, run: string, t: Time, suffix: string, d: string)
    requires DecisionOrder(log, d)
    ensures var (done, log2) := Continue(h, log, run, t);
            && SameCarriers(log, log2, d) && DecisionOrder(log2, d)
            && SameCarriers(log, JournalFailure(h, log2, run, t, suffix), d)
            && DecisionOrder(JournalFailure(h, log2, run, t, suffix), d)
  {
    QuietAppend(h, log, ResumeEvent(run, t), d);
    var (done, log2) := Continue(h, log, run, t);
    if !Logged(log, run, ResumeEvent(run, t).id) {
      var log1 := log + [MakeRecord(h, log, ResumeEvent(run, t))];
      QuietAppend(h, log1, CompleteEvent(run, t), d);
    }
    QuietAppend(h, log2, FailureEvent(run, t, suffix), d);
  }

  lemma ResolutionRecordMoves(h: EventHash, log: Log, e: StoredEvent, input: ResolveInput, d: string)
    requires Built(h, log) && DecisionOrder(log, d)
    requires e in ListAll(log) && e in ListRun(log, e.runId) && Asks(e) && !ScanRun(ListRun(log, e.runId), e.id).Found?
    ensures var p := ResolutionEvent(e, input, ResolutionTime(ListRun(log, e.runId), input.now));
            var log1 := log + [MakeRecord(h, log, p)];
            Moves(log, log1, d) && DecisionOrder(log1, d)
  {
    var p := ResolutionEvent(e, input, ResolutionTime(ListRun(log, e.runId), input.now));
    var r := MakeRecord(h, log, p);
    if Carries(e, d) {
      UnansweredTarget(h, log, e, d);
      ResolutionResolves(h, log, e, input);
      AnsweringRecord(log, r, d, e);
    } else {
      QuietRecord(log, r, d);
    }
  }

  lemma AppendResolutionMoves(h: EventHash, log: Log, e: StoredEvent, input: ResolveInput, d: string)
    requires Built(h, log) && DecisionOrder(log, d)
    requires e in ListAll(log) && e in ListRun(log, e.runId) && Asks(e) && !ScanRun(ListRun(log, e.runId), e.id).Found?
    ensures var log' := AppendResolution(h, log, e, input).log;
            Moves(log, log', d) && DecisionOrder(log', d)
  {
    var p := ResolutionEvent(e, input, ResolutionTime(ListRun(log, e.runId), input.now));
    var log1 := log + [MakeRecord(h, log, p)];
    ResolutionRecordMoves(h, log, e, input, d);
    DemoEventsQuiet(h, log1, e.runId, p.timestamp, input.errorSuffix, d);
    AppendResolutionLogs(h, log, e, input);
  }

  /** What Resolve does to the log: nothing, unless it finds one unanswered request with the id. */
  lemma ResolveLogs(h: EventHash, log: Log, eventId: string, input: ResolveInput)
    ensures var matches := WithId(log, eventId);
            || Resolve(h, log, eventId, input).log == log
            || (&& |matches| == 1 && Asks(matches[0])
                && ListRun(log, matches[0].runId) != []
                && !ScanRun(ListRun(log, matches[0].runId), eventId).Found?
                && Resolve(h, log, eventId, input) == AppendResolution(h, log, matches[0], input))
  {
  }

  lemma ResolveMoves(h: EventHash, log: Log, eventId: string, input: ResolveInput, d: string)
    requires Built(h, log) && DecisionOrder(log, d)
    ensures var log' := Resolve(h, log, eventId, input).log;
            Moves(log, log', d) && DecisionOrder(log', d)
  {
    ResolveLogs(h, log, eventId, input);
    if Resolve(h, log, eventId, input).log != log {
      var e := WithId(log, eventId)[0];
      assert e in WithId(log, eventId) && e in ListAll(log);
      ListAllMembers(log, e);
      ListRunMembers(log, e.runId, e);
      AppendResolutionMoves(h, log, e, input, d);
    }
  }

  // ---------- All steps ----------

  lemma StepMoves(h: EventHash, log: Log, s: LedgerStep, d: string)
    requires Built(h, log) && DecisionOrder(log, d)
    ensures Moves(log, Apply(h, log, s), d) && DecisionOrder(Apply(h, log, s), d)
  {
    match s {
      case RegisterStep(input) => RegisterMoves(h, log, input, d);
      case ResolveEventStep(eventId, input) => ResolveMoves(h, log, eventId, input, d);
      case ResolveDecisionStep(decisionId, input) =>
        forall id ensures var log' := Resolve(h, log, id, input).log; Moves(log, log', d) && DecisionOrder(log', d) {
          ResolveMoves(h, log, id, input, d);
        }
      case ReceiptStep(input) =>
        QuietAppend(h, log, ReceiptEvent(input, ReceiptTime(ListRun(log, input.runId), input.now)), d);
    }
  }

  lemma AskingIsProgress(asked: seq<StoredEvent>)
    requires |asked| == 1 && asked[0].payload.approval.status == Pending
    ensures Progress(None, StateOfCarriers(asked, []))
  {
  }

  lemma AnsweringIsProgress(asked: seq<StoredEvent>, answered: seq<StoredEvent>)
    requires |asked| == |answered| == 1
    requires asked[0].payload.approval.status == Pending && ResolvesRequest(asked[0], answered[0])
    ensures Progress(StateOfCarriers(asked, []), StateOfCarriers(asked, answered))
    ensures !Decided(StateOfCarriers(asked, []))
  {
  }

  /** What the order of a decision says of its first request and its first resolution. */
  lemma FirstCarriers(log: Log, d: string)
    requires DecisionOrder(log, d)
    ensures AskedFor(log, d) != [] ==> AskedFor(log, d)[0].payload.approval.status == Pending
    ensures AnsweredFor(log, d) != [] ==>
              AskedFor(log, d) != [] && ResolvesRequest(AskedFor(log, d)[0], AnsweredFor(log, d)[0])
  {
    assert AskedFor(log, d) != [] ==> AskedFor(log, d)[0] in AskedFor(log, d);
    assert AnsweredFor(log, d) != [] ==> AnsweredFor(log, d)[0] in AnsweredFor(log, d);
  }

  lemma MovesIsProgress(log: Log, log': Log, d: string)
    requires DecisionOrder(log, d) && DecisionOrder(log', d) && Moves(log, log', d)
    ensures Progress(StateOf(log, d), StateOf(log', d))
    ensures Decided(StateOf(log, d)) ==> StateOf(log', d) == StateOf(log, d)
  {
    StateMeaning(log, d);
    StateMeaning(log', d);
    FirstCarriers(log', d);
    if SameCarriers(log, log', d) {
    } else if AskedFor(log, d) == [] {
      AskingIsProgress(AskedFor(log', d));
    } else {
      AnsweringIsProgress(AskedFor(log', d), AnsweredFor(log', d));
    }
  }

  /** Every step keeps the order of every decision, and moves it, if at all, one step on: from not found
      to pending, or from pending to approved or rejected at a later time in the same run. */
  lemma StepKeepsOrder(h: EventHash, log: Log, s: LedgerStep)
    requires Orderly(h, log)
    ensures Orderly(h, Apply(h, log, s))
    ensures forall d :: Progress(StateOf(log, d), StateOf(Apply(h, log, s), d))
    ensures forall d :: Decided(StateOf(log, d)) ==> StateOf(Apply(h, log, s), d) == StateOf(log, d)
  {
    var log' := Apply(h, log, s);
    StepGrows(h, log, s);
    GrowsKeeps(h, log, log');
    forall d
      ensures DecisionOrder(log', d) && Progress(StateOf(log, d), StateOf(log', d))
      ensures Decided(StateOf(log, d)) ==> StateOf(log', d) == StateOf(log, d)
    {
      StepMoves(h, log, s, d);
      MovesIsProgress(log, log', d);
    }
  }

  lemma EmptyIsOrderly(h: EventHash)
    ensures Orderly(h, [])
  {
  }

  lemma {:induction false} RunIsOrderly(h: EventHash, log: Log, steps: seq<LedgerStep>)
    requires Orderly(h, log)
    ensures Orderly(h, ApplyAll(h, log, steps))
  {
    if steps != [] {
      RunIsOrderly(h, log, steps[..|steps| - 1]);
      StepKeepsOrder(h, ApplyAll(h, log, steps[..|steps| - 1]), steps[|steps| - 1]);
    }
  }

  /** Once a decision is approved or rejected, nothing that any run of steps does changes its state. */
  lemma {:induction false} DecisionsAreFinal(h: EventHash, log: Log, steps: seq<LedgerStep>, d: string)
    requires Orderly(h, log) && Decided(StateOf(log, d))
    ensures StateOf(ApplyAll(h, log, steps), d) == StateOf(log, d)
  {
    if steps != [] {
      var mid := ApplyAll(h, log, steps[..|steps| - 1]);
      DecisionsAreFinal(h, log, steps[..|steps| - 1], d);
      RunIsOrderly(h, log, steps[..|steps| - 1]);
      StepKeepsOrder(h, mid, steps[|steps| - 1]);
    }
  }

  /** In every state that the steps reach from the empty ledger, a decision has at most one request and at
      most one resolution, and the resolution belongs to the request and is stamped strictly later. */
  lemma ReachableOrder(h: EventHash, steps: seq<LedgerStep>, d: string)
    ensures var log := ApplyAll(h, [], steps);
            && |AskedFor(log, d)| <= 1
            && |AnsweredFor(log, d)| <= 1
            && forall r :: r in AnsweredFor(log, d) ==>
                 exists p :: p in AskedFor(log, d) && p.runId == r.runId && p.timestamp < r.timestamp
  {
    EmptyIsOrderly(h);
    RunIsOrderly(h, [], steps);
    var log := ApplyAll(h, [], steps);
    assert DecisionOrder(log, d);
    forall r | r in AnsweredFor(log, d)
      ensures exists p :: p in AskedFor(log, d) && p.runId == r.runId && p.timestamp < r.timestamp
    {
      assert AskedFor(log, d)[0] in AskedFor(log, d);
    }
  }

  // ---------- Once resolved, always refused ----------

  lemma ListedLater(log: Log, log': Log, e: StoredEvent)
    requires log <= log' && e in ListAll(log)
    ensures e in ListAll(log') && e in ListRun(log', e.runId)
  {
    ListAllMembers(log, e);
    ListAllMembers(log', e);
    ListRunMembers(log', e.runId, e);
  }

  /** Once a request has been resolved, every later attempt to resolve it fails and appends nothing: as a
      duplicate, or as ambiguous if its id has been used in another run meanwhile. */
  lemma ResolvedStaysResolved(h: EventHash, log: Log, log': Log, e: StoredEvent, r: StoredEvent, input: ResolveInput)
    requires log <= log'
    requires e in ListAll(log) && Asks(e) && r in ListAll(log) && r.runId == e.runId && PrefixAnswer(r, e.id)
    ensures Resolve(h, log', e.id, input) ==
            Outcome(Err(if |WithId(log', e.id)| == 1 then DuplicateApproval else AmbiguousEventId), log')
  {
    ListedLater(log, log', e);
    ListedLater(log, log', r);
    WithIdMember(log', e);
    PrefixIsFound(ListRun(log', e.runId), r, e.id);
  }

  /** A resolution that succeeds has found one request with the id, and appended to its run. */
  lemma SuccessTarget(h: EventHash, log: Log, id: string, input: ResolveInput)
    requires Resolve(h, log, id, input).result.Ok?
    ensures |WithId(log, id)| == 1
    ensures var e := WithId(log, id)[0];
            && e in ListAll(log) && e.id == id && Asks(e) && ListRun(log, e.runId) != []
            && Resolve(h, log, id, input) == AppendResolution(h, log, e, input)
  {
    assert WithId(log, id) != [] ==> WithId(log, id)[0] in WithId(log, id);
  }

  /** What a resolution that succeeds leaves behind: the event that answers the request. */
  lemma SuccessAnswers(h: EventHash, log: Log, id: string, input: ResolveInput) returns (e: StoredEvent, r: StoredEvent)
    requires Built(h, log) && Resolve(h, log, id, input).result.Ok?
    ensures var log' := Resolve(h, log, id, input).log;
            && log <= log' && WithId(log, id) == [e]
            && e in ListAll(log) && e.id == id && Asks(e)
            && r in ListAll(log') && r.runId == e.runId && PrefixAnswer(r, e.id)
  {
    e := WithId(log, id)[0];
    SuccessTarget(h, log, id, input);
    ListAllMembers(log, e);
    ListRunMembers(log, e.runId, e);
    var p := ResolutionEvent(e, input, ResolutionTime(ListRun(log, e.runId), input.now));
    r := EventFor(h, log, p);
    ResolutionResolves(h, log, e, input);
    ResolveGrows(h, log, id, input);
    var log' := Resolve(h, log, id, input).log;
    var log1 := log + [MakeRecord(h, log, p)];
    assert log1[|log|].event == r;
    SuccessExtends(h, log, e, input);
    ListAllMembers(log', r);
  }

  /** A successful resolution keeps the resolution's record, whatever the demo appends after it. */
  lemma SuccessExtends(h: EventHash, log: Log, e: StoredEvent, input: ResolveInput)
    requires ListRun(log, e.runId) != [] && AppendResolution(h, log, e, input).result.Ok?
    ensures var p := ResolutionEvent(e, input, ResolutionTime(ListRun(log, e.runId), input.now));
            log + [MakeRecord(h, log, p)] <= AppendResolution(h, log, e, input).log
  {
  }

  /** Once a resolution of a request has succeeded, every later one, in any later ledger, fails and appends
      nothing: as a duplicate, or as ambiguous if the request's id has been used in another run meanwhile. */
  lemma SuccessIsFinal(h: EventHash, log: Log, id: string, input: ResolveInput, log': Log, again: ResolveInput)
    requires Built(h, log) && Resolve(h, log, id, input).result.Ok? && Resolve(h, log, id, input).log <= log'
    ensures Resolve(h, log', id, again) ==
            Outcome(Err(if |WithId(log', id)| == 1 then DuplicateApproval else AmbiguousEventId), log')
  {
    var e, r := SuccessAnswers(h, log, id, input);
    ListedLater(log, Resolve(h, log, id, input).log, e);
    ResolvedStaysResolved(h, Resolve(h, log, id, input).log, log', e, r, again);
  }

  lemma PendingOfDecision(log: Log, d: string)
    ensures Filter((e: StoredEvent) => Asks(e), Filter((e: StoredEvent) => Carries(e, d), ListAll(log))) ==
            AskedFor(log, d)
  {
    FilterFilter((e: StoredEvent) => Carries(e, d), (e: StoredEvent) => Asks(e),
                 (e: StoredEvent) => Carries(e, d) && Asks(e), ListAll(log));
  }

  /** The same through the decision's own route: in every ledger that the steps reach from one in which the
      decision is approved or rejected, resolving it fails and appends nothing. */
  lemma DecidedStaysDecided(h: EventHash, log: Log, steps: seq<LedgerStep>, d: string, input: ResolveInput)
    requires Orderly(h, log) && Decided(StateOf(log, d))
    ensures var log' := ApplyAll(h, log, steps);
            var asked := AskedFor(log', d);
            && |asked| == 1
            && ResolveByDecision(h, log', d, input) ==
               Outcome(Err(if |WithId(log', asked[0].id)| == 1 then DuplicateApproval else AmbiguousEventId), log')
  {
    RunIsOrderly(h, log, steps);
    DecisionsAreFinal(h, log, steps, d);
    DecidedIsRefused(h, ApplyAll(h, log, steps), d, input);
  }

  lemma DecidedIsRefused(h: EventHash, log: Log, d: string, input: ResolveInput)
    requires Orderly(h, log) && Decided(StateOf(log, d))
    ensures var asked := AskedFor(log, d);
            && |asked| == 1
            && ResolveByDecision(h, log, d, input) ==
               Outcome(Err(if |WithId(log, asked[0].id)| == 1 then DuplicateApproval else AmbiguousEventId), log)
  {
    assert DecisionOrder(log, d);
    StateMeaning(log, d);
    FirstCarriers(log, d);
    var e, r := AskedFor(log, d)[0], AnsweredFor(log, d)[0];
    assert e in AskedFor(log, d) && r in AnsweredFor(log, d);
    PendingOfDecision(log, d);
    assert e in Filter((x: StoredEvent) => Carries(x, d), ListAll(log));
    ResolvedStaysResolved(h, log, log, e, r, input);
  }

  /** The route by decision goes through the decision's one request. */
  lemma ByDecision(h: EventHash, log: Log, d: string, input: ResolveInput)
    ensures var asked := AskedFor(log, d);
            var o := ResolveByDecision(h, log, d, input);
            && (|asked| == 1 ==> o == Resolve(h, log, asked[0].id, input))
            && (|asked| != 1 ==> o.result.Err? && o.log == log)
  {
    PendingOfDecision(log, d);
    if |AskedFor(log, d)| == 1 {
      assert AskedFor(log, d)[0] in AskedFor(log, d);
      assert AskedFor(log, d)[0] in Filter((e: StoredEvent) => Carries(e, d), ListAll(log));
    }
  }

  lemma AskedLater(log: Log, log': Log, d: string)
    requires log <= log' && |AskedFor(log, d)| == 1
    ensures AskedFor(log', d) != []
    ensures |AskedFor(log', d)| == 1 ==> AskedFor(log', d)[0] == AskedFor(log, d)[0]
  {
    var e := AskedFor(log, d)[0];
    assert e in AskedFor(log, d);
    ListedLater(log, log', e);
    assert e in AskedFor(log', d);
  }

  /** And for every ledger at all that extends a successful resolution by decision. */
  lemma DecisionSuccessIsFinal(
    h: EventHash, log: Log, d: string, input: ResolveInput, log': Log, again: ResolveInput)
    requires Built(h, log) && ResolveByDecision(h, log, d, input).result.Ok?
    requires ResolveByDecision(h, log, d, input).log <= log'
    ensures ResolveByDecision(h, log', d, again).result.Err? && ResolveByDecision(h, log', d, again).log == log'
  {
    ByDecision(h, log, d, input);
    ByDecision(h, log', d, again);
    var id := AskedFor(log, d)[0].id;
    ResolveGrows(h, log, id, input);
    AskedLater(log, log', d);
    SuccessIsFinal(h, log, id, input, log', again);
  }
}
