/** The business rules that guard raw ingest, and what they do and do not guarantee about a run. */
module BusinessRules {
  import opened Prelude
  import opened Events
  import opened EventLog
  import opened EventStore
  import opened RunStatusProjection

  datatype Violation =
    | TerminalConflict
    | RequestMustRequireApproval
    | RequestMustBePending
    | NoApprovalPending
    | DecisionIdMismatch
    | ApproverMissing
    | ResolutionTimeMissing
    | SummaryRequiresApproval
    | SummaryHasApprovalStatus
    | ApprovalStillPending
    | RiskEvidenceMissing
    | RunAlreadyInconsistent(conflict: StateConflict)

  function FindById(es: seq<StoredEvent>, id: string): Option<StoredEvent> {
    if es == [] then None
    else if es[0].id == id then Some(es[0])
    else FindById(es[1..], id)
  }

  /** The decision that the pending request carries, if any. */
  function PendingDecision(existing: seq<StoredEvent>, pending: PendingContext): Option<string> {
    match FindById(existing, pending.eventId)
    case None => None
    case Some(e) => e.payload.approval.decisionId
  }

  /** One check: the violation is added when the condition holds. */
  function AddIf(found: seq<Violation>, condition: bool, v: Violation): seq<Violation> {
    if condition then found + [v] else found
  }

  predicate WrongDecision(p: EventPayload, existing: seq<StoredEvent>, pending: PendingContext) {
    var d := PendingDecision(existing, pending);
    d.Some? && p.approval.decisionId != d
  }

  function TerminalViolations(existing: seq<StoredEvent>): seq<Violation> {
    AddIf([], existing != [] && TerminalStatus(existing[|existing| - 1].payload).Some?, TerminalConflict)
  }

  function RequestViolations(found: seq<Violation>, p: EventPayload): seq<Violation> {
    AddIf(AddIf(found, !p.requiresApproval, RequestMustRequireApproval),
          p.approval.status != Pending, RequestMustBePending)
  }

  function ResolutionViolations(found: seq<Violation>, p: EventPayload, existing: seq<StoredEvent>,
                                pending: Option<PendingContext>): seq<Violation>
  {
    var unmatched :=
      if pending.None? then found + [NoApprovalPending]
      else AddIf(found, WrongDecision(p, existing, pending.value), DecisionIdMismatch);
    AddIf(AddIf(unmatched, !HasApprover(p), ApproverMissing), p.approval.resolvedAt.None?, ResolutionTimeMissing)
  }

  function SummaryViolations(found: seq<Violation>, p: EventPayload, pending: Option<PendingContext>): seq<Violation> {
    AddIf(AddIf(AddIf(found, p.requiresApproval, SummaryRequiresApproval),
                p.approval.status != NotRequired, SummaryHasApprovalStatus),
          pending.Some?, ApprovalStillPending)
  }

  function EvidenceViolations(found: seq<Violation>, p: EventPayload): seq<Violation> {
    AddIf(found, (p.riskLevel == Some(High) || p.requiresApproval) && p.evidence == 0, RiskEvidenceMissing)
  }

  /** All violations of an event against a run; none means that it is accepted. Where the run must be
      projected and cannot be, that conflict is reported alone. */
  function Violations(p: EventPayload, existing: seq<StoredEvent>): seq<Violation> {
    var terminal := TerminalViolations(existing);
    var projection := Project(existing);
    match p.kind
    case ApprovalRequested => RequestViolations(terminal, p)
    case ApprovalResolved =>
      if projection.Err? then [RunAlreadyInconsistent(projection.error)]
      else ResolutionViolations(terminal, p, existing, projection.value.pending)
    case Summary =>
      if projection.Err? then [RunAlreadyInconsistent(projection.error)]
      else SummaryViolations(terminal, p, projection.value.pending)
    case Action => EvidenceViolations(terminal, p)
    case _ => terminal
  }

  method ValidateEventBusinessRules(p: EventPayload, existing: seq<StoredEvent>) returns (violations: seq<Violation>)
    ensures violations == Violations(p, existing)
  {
    violations := [];
    if existing != [] {
      var terminal := TerminalStatus(existing[|existing| - 1].payload);
      if terminal.Some? {
        violations := violations + [TerminalConflict];
      }
    }
    assert violations == TerminalViolations(existing);
    if p.kind == ApprovalRequested {
      if !p.requiresApproval {
        violations := violations + [RequestMustRequireApproval];
      }
      if p.approval.status != Pending {
        violations := violations + [RequestMustBePending];
      }
    } else if p.kind == ApprovalResolved {
      // An empty run is not projected, and has nothing pending.
      var projection := ProjectRunStatus(existing);
      if projection.Err? {
        return [RunAlreadyInconsistent(projection.error)];
      }
      if projection.value.pending.None? {
        violations := violations + [NoApprovalPending];
      } else {
        var d := PendingDecision(existing, projection.value.pending.value);
        if d.Some? && p.approval.decisionId != d {
          violations := violations + [DecisionIdMismatch];
        }
      }
      if p.approval.resolvedBy.None? || IsBlank(p.approval.resolvedBy.value) {
        violations := violations + [ApproverMissing];
      }
      if p.approval.resolvedAt.None? {
        violations := violations + [ResolutionTimeMissing];
      }
    } else if p.kind == Summary {
      if p.requiresApproval {
        violations := violations + [SummaryRequiresApproval];
      }
      if p.approval.status != NotRequired {
        violations := violations + [SummaryHasApprovalStatus];
      }
      var projection := ProjectRunStatus(existing);
      if projection.Err? {
        return [RunAlreadyInconsistent(projection.error)];
      }
      if projection.value.pending.Some? {
        violations := violations + [ApprovalStillPending];
      }
    } else if p.kind == Action && (p.riskLevel == Some(High) || p.requiresApproval) {
      if p.evidence == 0 {
        violations := violations + [RiskEvidenceMissing];
      }
    }
  }

  // ---------- What is accepted, by the fields of the event and the positions of the run ----------

  ghost predicate AfterEnd(existing: seq<StoredEvent>) {
    existing != [] && EndsRun(existing[|existing| - 1].payload)
  }

  /** The first event with an id; in a run that the store lists, the only one. */
  ghost predicate FirstWithId(existing: seq<StoredEvent>, id: string, i: int) {
    && 0 <= i < |existing| && existing[i].id == id
    && forall k :: 0 <= k < i ==> existing[k].id != id
  }

  lemma {:induction false} FindByIdMeaning(existing: seq<StoredEvent>, id: string)
    ensures FindById(existing, id).None? ==> forall k :: 0 <= k < |existing| ==> existing[k].id != id
    ensures FindById(existing, id).Some? ==>
              exists i :: FirstWithId(existing, id, i) && existing[i] == FindById(existing, id).value
  {
    if existing != [] {
      if existing[0].id == id {
        assert FirstWithId(existing, id, 0);
      } else {
        FindByIdMeaning(existing[1..], id);
        if FindById(existing, id).Some? {
          var i :| FirstWithId(existing[1..], id, i) && existing[1..][i] == FindById(existing, id).value;
          assert FirstWithId(existing, id, i + 1);
        }
      }
    }
  }

  /** The run waits for this decision. */
  ghost predicate WaitsFor(existing: seq<StoredEvent>, decision: Option<string>) {
    exists j, i :: OpenAt(existing, j, |existing|) && FirstWithId(existing, existing[j].id, i)
                   && existing[i].payload.approval.decisionId == decision
  }

  lemma WaitsForPending(existing: seq<StoredEvent>)
    requires Project(existing).Ok?
    ensures Project(existing).value.pending.Some? ==>
              forall d :: WaitsFor(existing, d) <==>
                            d == PendingDecision(existing, Project(existing).value.pending.value)
    ensures Project(existing).value.pending.None? ==> forall d :: !WaitsFor(existing, d)
    ensures Project(existing).value.pending.Some? ==> !AfterEnd(existing)
  {
    ProjectionMeaning(existing);
    if Project(existing).value.pending.Some? {
      var j :| OpenAt(existing, j, |existing|) && Project(existing).value.pending == Some(ContextOf(existing[j]));
      FindByIdMeaning(existing, existing[j].id);
      var i :| FirstWithId(existing, existing[j].id, i) && existing[i] == FindById(existing, existing[j].id).value;
      forall d ensures WaitsFor(existing, d) <==> d == existing[i].payload.approval.decisionId {
        if WaitsFor(existing, d) {
          var k, l :| OpenAt(existing, k, |existing|) && FirstWithId(existing, existing[k].id, l)
                      && existing[l].payload.approval.decisionId == d;
          OpenOnce(existing, j, k);
          FirstOnce(existing, existing[j].id, i, l);
        }
      }
    }
  }

  lemma OpenOnce(existing: seq<StoredEvent>, j: int, k: int)
    requires OpenAt(existing, j, |existing|) && OpenAt(existing, k, |existing|)
    ensures j == k
  {
  }

  lemma FirstOnce(existing: seq<StoredEvent>, id: string, i: int, l: int)
    requires FirstWithId(existing, id, i) && FirstWithId(existing, id, l)
    ensures i == l
  {
  }

  /** A resolution: every violation it can have, and exactly when it has it. */
  lemma ResolutionVerdict(p: EventPayload, existing: seq<StoredEvent>)
    requires p.kind == ApprovalResolved
    ensures var v := Violations(p, existing);
            && (Project(existing).Err? ==> v == [RunAlreadyInconsistent(Project(existing).error)])
            && (Project(existing).Ok? ==>
                  && (TerminalConflict in v <==> AfterEnd(existing))
                  && (NoApprovalPending in v <==> forall d :: !WaitsFor(existing, d))
                  && (DecisionIdMismatch in v <==>
                        exists d :: WaitsFor(existing, d) && d.Some? && p.approval.decisionId != d)
                  && (ApproverMissing in v <==>
                        p.approval.resolvedBy.None? || forall c :: c in p.approval.resolvedBy.value ==> IsSpace(c))
                  && (ResolutionTimeMissing in v <==> p.approval.resolvedAt.None?)
                  && (forall x :: x in v ==>
                        x in {TerminalConflict, NoApprovalPending, DecisionIdMismatch, ApproverMissing,
                              ResolutionTimeMissing}))
  {
    if Project(existing).Ok? {
      var pending := Project(existing).value.pending;
      ResolutionMembers(p, existing, pending);
      WaitsForPending(existing);
      if pending.Some? {
        assert WaitsFor(existing, PendingDecision(existing, pending.value));
      }
    }
  }

  lemma ResolutionMembers(p: EventPayload, existing: seq<StoredEvent>, pending: Option<PendingContext>)
    ensures var v := ResolutionViolations(TerminalViolations(existing), p, existing, pending);
            && (TerminalConflict in v <==> AfterEnd(existing))
            && (NoApprovalPending in v <==> pending.None?)
            && (DecisionIdMismatch in v <==>
                  pending.Some? && PendingDecision(existing, pending.value).Some?
                  && p.approval.decisionId != PendingDecision(existing, pending.value))
            && (ApproverMissing in v <==>
                  p.approval.resolvedBy.None? || forall c :: c in p.approval.resolvedBy.value ==> IsSpace(c))
            && (ResolutionTimeMissing in v <==> p.approval.resolvedAt.None?)
            && (forall x :: x in v ==>
                  x in {TerminalConflict, NoApprovalPending, DecisionIdMismatch, ApproverMissing,
                        ResolutionTimeMissing})
  {
    LastEnds(existing);
    var start := TerminalViolations(existing);
    var mismatch := pending.Some? && WrongDecision(p, existing, pending.value);
    var unmatched := AddIf(AddIf(start, pending.None?, NoApprovalPending), mismatch, DecisionIdMismatch);
    assert ResolutionViolations(start, p, existing, pending) ==
      AddIf(AddIf(unmatched, !HasApprover(p), ApproverMissing), p.approval.resolvedAt.None?, ResolutionTimeMissing);
    forall x ensures x in ResolutionViolations(start, p, existing, pending) <==>
                     || x in start || (x == NoApprovalPending && pending.None?) || (x == DecisionIdMismatch && mismatch)
                     || (x == ApproverMissing && !HasApprover(p))
                     || (x == ResolutionTimeMissing && p.approval.resolvedAt.None?)
    {
      AddIfMember(start, pending.None?, NoApprovalPending, x);
      AddIfMember(AddIf(start, pending.None?, NoApprovalPending), mismatch, DecisionIdMismatch, x);
      AddIfMember(unmatched, !HasApprover(p), ApproverMissing, x);
      AddIfMember(AddIf(unmatched, !HasApprover(p), ApproverMissing), p.approval.resolvedAt.None?,
                  ResolutionTimeMissing, x);
    }
  }

  lemma AddIfMember(found: seq<Violation>, condition: bool, v: Violation, x: Violation)
    ensures x in AddIf(found, condition, v) <==> x in found || (condition && x == v)
  {
  }

  lemma LastEnds(existing: seq<StoredEvent>)
    ensures TerminalViolations(existing) == if AfterEnd(existing) then [TerminalConflict] else []
  {
  }

  /** A resolution is accepted if and only if the run projects and waits for this decision or for a request
      without one, and the approver and the time are given. */
  lemma ResolutionAccepted(p: EventPayload, existing: seq<StoredEvent>)
    requires p.kind == ApprovalResolved
    ensures Violations(p, existing) == [] <==>
            && Project(existing).Ok?
            && (WaitsFor(existing, None) || (p.approval.decisionId.Some? && WaitsFor(existing, p.approval.decisionId)))
            && p.approval.resolvedBy.Some? && (exists c :: c in p.approval.resolvedBy.value && !IsSpace(c))
            && p.approval.resolvedAt.Some?
  {
    ResolutionVerdict(p, existing);
    NothingFound(Violations(p, existing));
    if Project(existing).Ok? {
      WaitsForPending(existing);
      if Project(existing).value.pending.Some? {
        assert WaitsFor(existing, PendingDecision(existing, Project(existing).value.pending.value));
      }
    }
  }

  lemma NothingFound(v: seq<Violation>)
    ensures v == [] <==> forall x :: x !in v
  {
    SomeMember(v);
  }

  /** A request is accepted if and only if the run has not ended and the event is flagged as pending approval. */
  lemma RequestVerdict(p: EventPayload, existing: seq<StoredEvent>)
    requires p.kind == ApprovalRequested
    ensures var v := Violations(p, existing);
            && (TerminalConflict in v <==> AfterEnd(existing))
            && (RequestMustRequireApproval in v <==> !p.requiresApproval)
            && (RequestMustBePending in v <==> p.approval.status != Pending)
            && (v == [] <==> !AfterEnd(existing) && p.requiresApproval && p.approval.status == Pending)
  {
    LastEnds(existing);
  }

  /** A summary is accepted if and only if the run projects, has not ended and waits for nothing, and the summary
      itself asks for no approval. */
  lemma SummaryVerdict(p: EventPayload, existing: seq<StoredEvent>)
    requires p.kind == Summary
    ensures var v := Violations(p, existing);
            && (Project(existing).Err? ==> v == [RunAlreadyInconsistent(Project(existing).error)])
            && (Project(existing).Ok? ==>
                  && (TerminalConflict in v <==> AfterEnd(existing))
                  && (SummaryRequiresApproval in v <==> p.requiresApproval)
                  && (SummaryHasApprovalStatus in v <==> p.approval.status != NotRequired)
                  && (ApprovalStillPending in v <==> exists d :: WaitsFor(existing, d))
                  && (v == [] <==> !AfterEnd(existing) && !p.requiresApproval && p.approval.status == NotRequired
                                   && forall d :: !WaitsFor(existing, d)))
  {
    if Project(existing).Ok? {
      WaitsForPending(existing);
      LastEnds(existing);
      if Project(existing).value.pending.Some? {
        assert WaitsFor(existing, PendingDecision(existing, Project(existing).value.pending.value));
      }
    }
  }

  /** An action is accepted if and only if the run has not ended and, when it is high risk or requires approval, it
      has evidence. Anything else is accepted if and only if the run has not ended. */
  lemma OtherVerdict(p: EventPayload, existing: seq<StoredEvent>)
    requires p.kind != ApprovalRequested && p.kind != ApprovalResolved && p.kind != Summary
    ensures var v := Violations(p, existing);
            && (TerminalConflict in v <==> AfterEnd(existing))
            && (RiskEvidenceMissing in v <==>
                  p.kind == Action && (p.riskLevel == Some(High) || p.requiresApproval) && p.evidence == 0)
            && (v == [] <==>
                  && !AfterEnd(existing)
                  && (p.kind == Action ==> p.evidence > 0 || (p.riskLevel != Some(High) && !p.requiresApproval)))
  {
    LastEnds(existing);
  }

  // ---------- Ingest ----------

  datatype IngestResult = Accepted(event: StoredEvent) | Violates(violations: seq<Violation>) | DuplicateId

  datatype IngestOutcome = IngestOutcome(result: IngestResult, log: Log)

  function Ingest(h: EventHash, log: Log, p: EventPayload): IngestOutcome {
    var violations := Violations(p, ListRun(log, p.runId));
    if violations != [] then IngestOutcome(Violates(violations), log)
    else
      match Append(h, log, p)
      case None => IngestOutcome(DuplicateId, log)
      case Some(log') => IngestOutcome(Accepted(MakeRecord(h, log, p).event), log')
  }

  method IngestEvent(store: InMemoryEventStore, p: EventPayload) returns (r: IngestResult)
    requires store.Valid()
    modifies store
    ensures store.Valid()
    ensures IngestOutcome(r, store.log) == Ingest(store.buildHash, old(store.log), p)
  {
    var existing := store.ListByRunId(p.runId);
    var violations := ValidateEventBusinessRules(p, existing);
    if violations != [] {
      return Violates(violations);
    }
    var stored := store.Append(p);
    if stored.Duplicate? {
      return DuplicateId;
    }
    return Accepted(stored.event);
  }

  // ---------- What acceptance guarantees ----------

  /** The conflict that an accepted event causes in a run that projected to s, if any. The gate checks the
      event's declared type; the projection goes by its signals. Everything the gate lets through that
      breaks a run is in the gap between the two. */
  function Gap(s: Projection, p: EventPayload): Option<StateConflict> {
    if TerminalStatus(p).Some? then None
    else if s.status == RunRejected then Some(RejectedStateConflict)
    else if p.kind == ApprovalResolved then
      if p.approval.status == Approved || p.approval.status == Rejected then None else Some(InvalidApprovalTransition)
    else if p.requiresApproval && (p.approval.status == Approved || p.approval.status == Rejected) then
      if s.pending.None? then Some(NoPendingApproval)
      else if !HasApprover(p) then Some(MissingApproverId)
      else if p.approval.resolvedAt.None? then Some(MissingApprovalTimestamp)
      else None
    else if PendingSignal(p) && s.pending.Some? then Some(DuplicatePendingApproval)
    else None
  }

  /** An accepted event, appended at the end of a run that projects, breaks the run exactly when it is in
      the gap, and then with that conflict. It never continues a run past its end. */
  lemma AcceptedEvent(existing: seq<StoredEvent>, e: StoredEvent)
    requires Project(existing).Ok? && Violations(e.payload, existing) == []
    ensures var gap := Gap(Project(existing).value, e.payload);
            && (Project(existing + [e]).Ok? <==> gap.None?)
            && (gap.Some? ==> Project(existing + [e]) == Err(gap.value))
            && Project(existing + [e]) != Err(TerminalStateConflict)
  {
    ProjectAppend(existing, e);
    ProjectionMeaning(existing);
    NoTerminal(existing, e.payload);
    NoResolutionViolation(existing, e.payload);
  }

  lemma NoTerminal(existing: seq<StoredEvent>, p: EventPayload)
    requires Project(existing).Ok? && Violations(p, existing) == []
    ensures !Project(existing).value.status.Terminal()
  {
    ProjectionMeaning(existing);
  }

  lemma NoResolutionViolation(existing: seq<StoredEvent>, p: EventPayload)
    requires Project(existing).Ok? && Violations(p, existing) == []
    ensures p.kind == ApprovalResolved ==>
              Project(existing).value.pending.Some? && HasApprover(p) && p.approval.resolvedAt.Some?
    ensures p.kind == ApprovalRequested ==> p.requiresApproval && p.approval.status == Pending
    ensures p.kind == Summary ==> Project(existing).value.pending.None? && !p.requiresApproval
  {
  }

  /** The same through ingest itself, for an event stamped no earlier than its run. */
  lemma IngestKeepsRun(h: EventHash, log: Log, p: EventPayload)
    requires Built(h, log) && NotEarlier(log, p) && Project(ListRun(log, p.runId)).Ok?
    requires Ingest(h, log, p).result.Accepted?
    ensures var log' := Ingest(h, log, p).log;
            var r := Project(ListRun(log', p.runId));
            var gap := Gap(Project(ListRun(log, p.runId)).value, p);
            && (r.Ok? <==> gap.None?) && (gap.Some? ==> r == Err(gap.value))
            && (forall run :: run != p.runId ==> ListRun(log', run) == ListRun(log, run))
  {
    AppendInOrder(h, log, p);
    AcceptedEvent(ListRun(log, p.runId), MakeRecord(h, log, p).event);
  }

  /** Every accepted resolution with a verdict projects: approved, or rejected, or where its step says. */
  lemma AcceptedResolution(existing: seq<StoredEvent>, e: StoredEvent)
    requires Project(existing).Ok? && Violations(e.payload, existing) == []
    requires e.payload.kind == ApprovalResolved
    requires e.payload.approval.status == Approved || e.payload.approval.status == Rejected
    ensures Project(existing + [e]).Ok? && Project(existing + [e]).value.pending.None?
    ensures Project(existing + [e]).value.status ==
            if TerminalStatus(e.payload).Some? then TerminalStatus(e.payload).value
            else if e.payload.approval.status == Approved then RunApproved
            else RunRejected
  {
    ProjectAppend(existing, e);
    NoTerminal(existing, e.payload);
    NoResolutionViolation(existing, e.payload);
    ProjectionMeaning(existing);
  }

  /** Every accepted summary completes the run, and abandons no approval. */
  lemma AcceptedSummary(existing: seq<StoredEvent>, e: StoredEvent)
    requires Project(existing).Ok? && Violations(e.payload, existing) == [] && e.payload.kind == Summary
    ensures Project(existing).value.pending.None?
    ensures Project(existing + [e]) == Ok(Projection(Completed, None))
  {
    ProjectAppend(existing, e);
    NoTerminal(existing, e.payload);
    NoResolutionViolation(existing, e.payload);
  }

  /** The gap is not empty: a second request in a paused run is accepted, and no prefix-preserving append
      ever repairs the run again. */
  lemma SecondRequestBreaks(existing: seq<StoredEvent>, e: StoredEvent, more: seq<StoredEvent>)
    requires Project(existing).Ok? && Project(existing).value.pending.Some?
    requires e.payload.kind == ApprovalRequested && e.payload.requiresApproval && e.payload.approval.status == Pending
    requires TerminalStatus(e.payload).None?
    ensures Violations(e.payload, existing) == []
    ensures Project(existing + [e] + more) == Err(DuplicatePendingApproval)
  {
    ProjectionMeaning(existing);
    assert Violations(e.payload, existing) == [];
    AcceptedEvent(existing, e);
    assert (existing + [e] + more)[..|existing| + 1] == existing + [e];
    ErrorPersists(existing + [e] + more, |existing| + 1);
  }
}
