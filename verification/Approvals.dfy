/** The approval service: registering, resolving and querying approvals on one event store. Each method
    is proved equal to a function of the log; the functions' properties are in Resolution and Ledger. */
module Approvals {
  import opened Prelude
  import opened Events
  import opened EventLog
  import opened EventStore
  import opened RunStatusProjection

  const DEMO_RUN := "run_triage_inbox_demo_1"
  const DEMO_TARGET := "evt_triage_inbox_003"

  datatype Verdict = Approve | Reject

  datatype ApprovalError =
    | ApprovalNotFound
    | AmbiguousEventId
    | NotPending
    | DuplicateApproval
    | DuplicateDecision(pending: bool)
    | InconsistentRun(conflict: StateConflict)
    | StorageWriteFailed

  /** What a call returns or raises, and the log it leaves. */
  datatype Outcome<T> = Outcome(result: Result<T, ApprovalError>, log: Log)

  // ---------- Signals of a stored event ----------

  /** The service asks first whether an event is a request, and only then whether it is a resolution. */
  predicate Asks(e: StoredEvent) {
    PendingSignal(e.payload)
  }

  predicate Answers(e: StoredEvent) {
    ResolutionSignal(e.payload)
  }

  predicate Carries(e: StoredEvent, decisionId: string) {
    e.payload.approval.decisionId == Some(decisionId)
  }

  // ---------- Registration ----------

  datatype RegisterInput = RegisterInput(
    decisionId: string, runId: string, riskLevel: RiskLevel, content: int,
    now: Time, suffix: string)

  /** suffix is the compact timestamp followed by random hexadecimal digits. */
  function PendingEventId(decisionId: string, suffix: string): string {
    "evt_" + decisionId + "_pending_" + suffix
  }

  /** The clock, or one millisecond after the run's newest event when the clock is not past it. */
  function RequestTime(es: seq<StoredEvent>, now: Time): Time {
    if es != [] && now <= MaxTime(es) then MaxTime(es) + MILLISECOND else now
  }

  function RequestEvent(input: RegisterInput, at: Time): EventPayload {
    EventPayload(
      PendingEventId(input.decisionId, input.suffix), input.runId, at, ApprovalRequested,
      Some(input.riskLevel), true, Approval(Pending, Some(input.decisionId), None, None), 0,
      Some(OtherStep("approval_requested")), input.content)
  }

  function Lifecycle(log: Log, decisionId: string): seq<StoredEvent> {
    Filter((e: StoredEvent) => Asks(e) || Answers(e),
           Filter((e: StoredEvent) => Carries(e, decisionId), ListAll(log)))
  }

  function Register(h: EventHash, log: Log, input: RegisterInput): Outcome<string> {
    var lifecycle := Lifecycle(log, input.decisionId);
    if lifecycle != [] then Outcome(Err(DuplicateDecision(Asks(lifecycle[|lifecycle| - 1]))), log)
    else RegisterNew(h, log, input)
  }

  function RegisterNew(h: EventHash, log: Log, input: RegisterInput): Outcome<string> {
    var event := RequestEvent(input, RequestTime(ListRun(log, input.runId), input.now));
    match Append(h, log, event)
    case None => Outcome(Err(StorageWriteFailed), log)
    case Some(log') => Outcome(Ok(event.id), log')
  }

  method ListLifecycle(store: InMemoryEventStore, decisionId: string) returns (lifecycle: seq<StoredEvent>)
    requires store.Valid()
    ensures lifecycle == Lifecycle(store.log, decisionId)
    ensures forall e :: e in lifecycle ==> Asks(e) || Answers(e)
  {
    var all := store.ListAll();
    var existing := Filter((e: StoredEvent) => Carries(e, decisionId), all);
    lifecycle := Filter((e: StoredEvent) => Asks(e) || Answers(e), existing);
  }

  /** Why the decision cannot be registered again: its latest event still asks. */
  method LatestReason(lifecycle: seq<StoredEvent>) returns (pending: bool)
    requires lifecycle != [] && forall e :: e in lifecycle ==> Asks(e) || Answers(e)
    ensures pending == Asks(lifecycle[|lifecycle| - 1])
  {
    pending := false;
    for i := 0 to |lifecycle|
      invariant i > 0 ==> pending == Asks(lifecycle[i - 1])
    {
      assert lifecycle[i] in lifecycle;
      if Asks(lifecycle[i]) {
        pending := true;
      } else if Answers(lifecycle[i]) {
        pending := false;
      }
    }
  }

  method RegisterPendingApprovalRequest(store: InMemoryEventStore, input: RegisterInput)
    returns (r: Result<string, ApprovalError>)
    requires store.Valid()
    modifies store
    ensures store.Valid()
    ensures Outcome(r, store.log) == Register(store.buildHash, old(store.log), input)
  {
    var lifecycle := ListLifecycle(store, input.decisionId);
    if lifecycle != [] {
      var pending := LatestReason(lifecycle);
      return Err(DuplicateDecision(pending));
    }
    r := AppendRequest(store, input);
  }

  method AppendRequest(store: InMemoryEventStore, input: RegisterInput) returns (r: Result<string, ApprovalError>)
    requires store.Valid()
    modifies store
    ensures store.Valid()
    ensures Outcome(r, store.log) == RegisterNew(store.buildHash, old(store.log), input)
  {
    var now := input.now;
    var runEvents := store.ListByRunId(input.runId);
    if runEvents != [] {
      var latest := MaxTime(runEvents);
      if now <= latest {
        now := latest + MILLISECOND;
      }
    }
    assert now == RequestTime(ListRun(store.log, input.runId), input.now);
    var event := RequestEvent(input, now);
    var stored := store.Append(event);
    if stored.Duplicate? {
      return Err(StorageWriteFailed);
    }
    return Ok(event.id);
  }

  // ---------- Resolution ----------

  datatype ResolveInput = ResolveInput(
    verdict: Verdict, approver: string, content: int,
    now: Time, suffix: string, errorSuffix: string)

  datatype Resolved = Resolved(eventId: string, runStatus: RunStatus, orchestrated: bool)

  function ResolutionPrefix(target: string): string {
    "apr_" + target + "_"
  }

  function ResolutionEventId(target: string, verdict: Verdict, suffix: string): string {
    ResolutionPrefix(target) + (if verdict == Approve then "approved" else "rejected") + "_" + suffix
  }

  /** The clock, or one millisecond after the run's newest event, whichever is later. */
  function ResolutionTime(es: seq<StoredEvent>, now: Time): Time
    requires es != []
  {
    var least := MaxTime(es) + MILLISECOND;
    if now > least then now else least
  }

  function ResolutionEvent(target: StoredEvent, input: ResolveInput, at: Time): EventPayload {
    EventPayload(
      ResolutionEventId(target.id, input.verdict, input.suffix), target.runId, at, ApprovalResolved,
      target.payload.riskLevel, true,
      Approval(if input.verdict == Approve then Approved else Rejected,
               target.payload.approval.decisionId, Some(input.approver), Some(at)),
      0,
      Some(if input.verdict == Approve then OtherStep("approval_approved") else ApprovalRejected),
      input.content)
  }

  function DemoEvent(id: string, run: string, at: Time, kind: EventType, risk: RiskLevel, step: Step): EventPayload {
    EventPayload(id, run, at, kind, Some(risk), false, NoApproval(None), 1, Some(step), 0)
  }

  function ResumeEvent(run: string, resolvedAt: Time): EventPayload {
    DemoEvent("evt_triage_inbox_004", run, resolvedAt + MILLISECOND, Action, Medium, OtherStep("resume_after_approval"))
  }

  function CompleteEvent(run: string, resolvedAt: Time): EventPayload {
    DemoEvent("evt_triage_inbox_005", run, resolvedAt + 2 * MILLISECOND, Summary, Low, OtherStep("run_completed"))
  }

  function FailureEvent(run: string, resolvedAt: Time, suffix: string): EventPayload {
    DemoEvent("evt_triage_inbox_err_" + suffix, run, resolvedAt + 3 * MILLISECOND, ErrorReport, High, RunStopped)
  }

  /** A resolution triggers the demo's continuation. */
  predicate TriggersDemo(target: StoredEvent, verdict: Verdict) {
    verdict == Approve && target.runId == DEMO_RUN && target.id == DEMO_TARGET
  }

  /** The continuation's two appends: whether both succeeded, and the log they leave. */
  function Continue(h: EventHash, log: Log, run: string, resolvedAt: Time): (bool, Log) {
    match Append(h, log, ResumeEvent(run, resolvedAt))
    case None => (false, log)
    case Some(resumed) =>
      match Append(h, resumed, CompleteEvent(run, resolvedAt))
      case None => (false, resumed)
      case Some(completed) => (true, completed)
  }

  /** The failure event is best effort: if it cannot be appended, nothing more happens. */
  function JournalFailure(h: EventHash, log: Log, run: string, resolvedAt: Time, suffix: string): Log {
    match Append(h, log, FailureEvent(run, resolvedAt, suffix))
    case None => log
    case Some(log') => log'
  }

  function Report(log: Log, run: string, eventId: string, orchestrated: bool): Outcome<Resolved> {
    match Project(ListRun(log, run))
    case Err(c) => Outcome(Err(InconsistentRun(c)), log)
    case Ok(s) => Outcome(Ok(Resolved(eventId, s.status, orchestrated)), log)
  }

  function AppendResolution(h: EventHash, log: Log, target: StoredEvent, input: ResolveInput): Outcome<Resolved>
    requires ListRun(log, target.runId) != []
  {
    var run := target.runId;
    var event := ResolutionEvent(target, input, ResolutionTime(ListRun(log, run), input.now));
    match Append(h, log, event)
    case None => Outcome(Err(StorageWriteFailed), log)
    case Some(log1) =>
      if !TriggersDemo(target, input.verdict) then Report(log1, run, event.id, false)
      else
        var (done, log2) := Continue(h, log1, run, event.timestamp);
        if done then Report(log2, run, event.id, true)
        else Outcome(Err(StorageWriteFailed), JournalFailure(h, log2, run, event.timestamp, input.errorSuffix))
  }

  /** The scan of a run for the target's resolution: found, or the request it would resolve next. */
  datatype Scan = Found | Current(pending: Option<string>)

  function ScanStep(s: Scan, e: StoredEvent, target: string): Scan {
    if s.Found? then Found
    else if Asks(e) then Current(Some(e.id))
    else if Answers(e) then
      if StartsWith(e.id, ResolutionPrefix(target)) || s.pending == Some(target) then Found else Current(None)
    else s
  }

  function ScanRun(es: seq<StoredEvent>, target: string): Scan {
    if es == [] then Current(None) else ScanStep(ScanRun(es[..|es| - 1], target), es[|es| - 1], target)
  }

  lemma {:induction false} FoundPersists(es: seq<StoredEvent>, target: string, n: nat)
    requires n <= |es| && ScanRun(es[..n], target).Found?
    ensures ScanRun(es, target).Found?
  {
    if n < |es| {
      assert es[..|es| - 1][..n] == es[..n];
      FoundPersists(es[..|es| - 1], target, n);
    } else {
      assert es[..n] == es;
    }
  }

  method WasEventResolved(runEvents: seq<StoredEvent>, target: string) returns (found: bool)
    ensures found <==> ScanRun(runEvents, target).Found?
  {
    var currentPending: Option<string> := None;
    for i := 0 to |runEvents|
      invariant ScanRun(runEvents[..i], target) == Current(currentPending)
    {
      var e := runEvents[i];
      assert runEvents[..i + 1][..i] == runEvents[..i];
      if Asks(e) {
        currentPending := Some(e.id);
      } else if Answers(e) {
        if StartsWith(e.id, ResolutionPrefix(target)) || currentPending == Some(target) {
          FoundPersists(runEvents, target, i + 1);
          return true;
        }
        currentPending := None;
      }
    }
    assert runEvents[..|runEvents|] == runEvents;
    return false;
  }

  function WithId(log: Log, eventId: string): seq<StoredEvent> {
    Filter((e: StoredEvent) => e.id == eventId, ListAll(log))
  }

  function Resolve(h: EventHash, log: Log, eventId: string, input: ResolveInput): Outcome<Resolved> {
    var matches := WithId(log, eventId);
    if matches == [] then Outcome(Err(ApprovalNotFound), log)
    else if |matches| > 1 then Outcome(Err(AmbiguousEventId), log)
    else
      var target := matches[0];
      var runEvents := ListRun(log, target.runId);
      if !Asks(target) then Outcome(Err(NotPending), log)
      else if ScanRun(runEvents, eventId).Found? then Outcome(Err(DuplicateApproval), log)
      else
        match Project(runEvents)
        case Err(c) => Outcome(Err(InconsistentRun(c)), log)
        case Ok(s) =>
          // An empty run projects to no pending approval.
          if s.status == Paused && s.pending.Some? && s.pending.value.eventId == eventId && runEvents != [] then
            AppendResolution(h, log, target, input)
          else Outcome(Err(NotPending), log)
  }

  function ResolveByDecision(h: EventHash, log: Log, decisionId: string, input: ResolveInput): Outcome<Resolved> {
    var events := Filter((e: StoredEvent) => Carries(e, decisionId), ListAll(log));
    if events == [] then Outcome(Err(ApprovalNotFound), log)
    else
      var pending := Filter((e: StoredEvent) => Asks(e), events);
      if |pending| > 1 then Outcome(Err(AmbiguousEventId), log)
      else if pending == [] then Outcome(Err(NotPending), log)
      else Resolve(h, log, pending[0].id, input)
  }

  method AppendTriageCompletion(store: InMemoryEventStore, run: string, resolvedAt: Time) returns (done: bool)
    requires store.Valid()
    modifies store
    ensures store.Valid()
    ensures (done, store.log) == Continue(store.buildHash, old(store.log), run, resolvedAt)
  {
    var resumed := store.Append(ResumeEvent(run, resolvedAt));
    if resumed.Duplicate? {
      return false;
    }
    var completed := store.Append(CompleteEvent(run, resolvedAt));
    return completed.Stored?;
  }

  method AppendTriageFailure(store: InMemoryEventStore, run: string, resolvedAt: Time, suffix: string)
    requires store.Valid()
    modifies store
    ensures store.Valid()
    ensures store.log == JournalFailure(store.buildHash, old(store.log), run, resolvedAt, suffix)
  {
    var _ := store.Append(FailureEvent(run, resolvedAt, suffix));
  }

  method AppendResolutionEvent(store: InMemoryEventStore, target: StoredEvent, runEvents: seq<StoredEvent>,
                               input: ResolveInput)
    returns (r: Result<Resolved, ApprovalError>)
    requires store.Valid() && runEvents == ListRun(store.log, target.runId) && runEvents != []
    modifies store
    ensures store.Valid()
    ensures Outcome(r, store.log) == AppendResolution(store.buildHash, old(store.log), target, input)
  {
    var event := ResolutionEvent(target, input, ResolutionTime(runEvents, input.now));
    var stored := store.Append(event);
    if stored.Duplicate? {
      return Err(StorageWriteFailed);
    }
    var orchestrated := false;
    if TriggersDemo(target, input.verdict) {
      orchestrated := AppendTriageCompletion(store, target.runId, event.timestamp);
      if !orchestrated {
        AppendTriageFailure(store, target.runId, event.timestamp, input.errorSuffix);
        return Err(StorageWriteFailed);
      }
    }
    var after := store.ListByRunId(target.runId);
    var projection := ProjectRunStatus(after);
    if projection.Err? {
      return Err(InconsistentRun(projection.error));
    }
    return Ok(Resolved(event.id, projection.value.status, orchestrated));
  }

  method ResolvePendingApproval(store: InMemoryEventStore, eventId: string, input: ResolveInput)
    returns (r: Result<Resolved, ApprovalError>)
    requires store.Valid()
    modifies store
    ensures store.Valid()
    ensures Outcome(r, store.log) == Resolve(store.buildHash, old(store.log), eventId, input)
  {
    var all := store.ListAll();
    var matches := Filter((e: StoredEvent) => e.id == eventId, all);
    if matches == [] {
      return Err(ApprovalNotFound);
    }
    if |matches| > 1 {
      return Err(AmbiguousEventId);
    }
    var target := matches[0];
    var runEvents := store.ListByRunId(target.runId);
    if !Asks(target) {
      return Err(NotPending);
    }
    var resolved := WasEventResolved(runEvents, eventId);
    if resolved {
      return Err(DuplicateApproval);
    }
    var projection := ProjectRunStatus(runEvents);
    if projection.Err? {
      return Err(InconsistentRun(projection.error));
    }
    var s := projection.value;
    if s.status == Paused && s.pending.Some? && s.pending.value.eventId == eventId && runEvents != [] {
      r := AppendResolutionEvent(store, target, runEvents, input);
      return;
    }
    return Err(NotPending);
  }

  method ResolvePendingApprovalByDecisionId(store: InMemoryEventStore, decisionId: string, input: ResolveInput)
    returns (r: Result<Resolved, ApprovalError>)
    requires store.Valid()
    modifies store
    ensures store.Valid()
    ensures Outcome(r, store.log) == ResolveByDecision(store.buildHash, old(store.log), decisionId, input)
  {
    var all := store.ListAll();
    var events := Filter((e: StoredEvent) => Carries(e, decisionId), all);
    if events == [] {
      return Err(ApprovalNotFound);
    }
    var pending := Filter((e: StoredEvent) => Asks(e), events);
    if |pending| > 1 {
      return Err(AmbiguousEventId);
    }
    if pending == [] {
      return Err(NotPending);
    }
    r := ResolvePendingApproval(store, pending[0].id, input);
  }

  // ---------- The state of a decision ----------

  datatype DecisionState = DecisionState(
    runId: string,
    status: ApprovalStatus,
    requestedEventId: Option<string>,
    resolvedEventId: Option<string>,
    requestedAt: Option<Time>,
    resolvedAt: Option<Time>,
    resolvedBy: Option<string>)

  function FirstAsk(es: seq<StoredEvent>): Option<StoredEvent> {
    if es == [] then None
    else
      var first := FirstAsk(es[..|es| - 1]);
      if first.None? && Asks(es[|es| - 1]) then Some(es[|es| - 1]) else first
  }

  function LastAnswer(es: seq<StoredEvent>): Option<StoredEvent> {
    if es == [] then None
    else if Answers(es[|es| - 1]) then Some(es[|es| - 1])
    else LastAnswer(es[..|es| - 1])
  }

  function StateFrom(requested: Option<StoredEvent>, resolved: Option<StoredEvent>, last: StoredEvent): DecisionState {
    var anchor := if resolved.Some? then resolved.value else if requested.Some? then requested.value else last;
    DecisionState(
      anchor.runId, anchor.payload.approval.status,
      if requested.Some? then Some(requested.value.id) else None,
      if resolved.Some? then Some(resolved.value.id) else None,
      if requested.Some? then Some(requested.value.timestamp) else None,
      anchor.payload.approval.resolvedAt,
      anchor.payload.approval.resolvedBy)
  }

  /** None stands for ApprovalNotFound. */
  function StateOf(log: Log, decisionId: string): Option<DecisionState> {
    var es := Lifecycle(log, decisionId);
    if es == [] then None else Some(StateFrom(FirstAsk(es), LastAnswer(es), es[|es| - 1]))
  }

  method GetApprovalDecisionState(store: InMemoryEventStore, decisionId: string) returns (r: Option<DecisionState>)
    requires store.Valid()
    ensures r == StateOf(store.log, decisionId)
  {
    var lifecycle := ListLifecycle(store, decisionId);
    if lifecycle == [] {
      return None;
    }
    var requested: Option<StoredEvent> := None;
    var resolved: Option<StoredEvent> := None;
    for i := 0 to |lifecycle|
      invariant requested == FirstAsk(lifecycle[..i])
      invariant resolved == LastAnswer(lifecycle[..i])
    {
      var e := lifecycle[i];
      assert lifecycle[..i + 1][..i] == lifecycle[..i];
      if Asks(e) && requested.None? {
        requested := Some(e);
      }
      if Answers(e) {
        resolved := Some(e);
      }
    }
    assert lifecycle[..|lifecycle|] == lifecycle;
    return Some(StateFrom(requested, resolved, lifecycle[|lifecycle| - 1]));
  }
}
