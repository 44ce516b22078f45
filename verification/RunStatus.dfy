/** The status of a run, projected from its events. */
module RunStatusProjection {
  import opened Prelude
  import opened Events

  datatype StateConflict =
    | TerminalStateConflict
    | RejectedStateConflict
    | InvalidApprovalTransition
    | NoPendingApproval
    | MissingApproverId
    | MissingApprovalTimestamp
    | DuplicatePendingApproval

  /** The pending approval that a projection reports. */
  datatype PendingContext = PendingContext(eventId: string, requestedAt: Time)

  datatype Projection = Projection(status: RunStatus, pending: Option<PendingContext>)

  const START := Projection(Running, None)

  predicate HasApprover(p: EventPayload) {
    p.approval.resolvedBy.Some? && !IsBlank(p.approval.resolvedBy.value)
  }

  function ContextOf(e: StoredEvent): PendingContext {
    PendingContext(e.id, e.timestamp)
  }

  /** One event's effect on the projection. */
  function Advance(s: Projection, e: StoredEvent): Result<Projection, StateConflict> {
    var p := e.payload;
    var terminal := TerminalStatus(p);
    if s.status.Terminal() then Err(TerminalStateConflict)
    else if s.status == RunRejected && terminal.None? then Err(RejectedStateConflict)
    else if terminal.Some? then Ok(Projection(terminal.value, None))
    else if ResolutionSignal(p) then
      if p.approval.status != Approved && p.approval.status != Rejected then Err(InvalidApprovalTransition)
      else if s.pending.None? then Err(NoPendingApproval)
      else if !HasApprover(p) then Err(MissingApproverId)
      else if p.approval.resolvedAt.None? then Err(MissingApprovalTimestamp)
      else Ok(Projection(if p.approval.status == Approved then RunApproved else RunRejected, None))
    else if PendingSignal(p) then
      if s.pending.Some? then Err(DuplicatePendingApproval)
      else Ok(Projection(Paused, Some(ContextOf(e))))
    else if s.pending.Some? then Ok(Projection(Paused, s.pending))
    else if s.status == RunApproved then Ok(Projection(Running, None))
    else Ok(s)
  }

  function Project(es: seq<StoredEvent>): Result<Projection, StateConflict> {
    if es == [] then Ok(START)
    else
      match Project(es[..|es| - 1])
      case Err(c) => Err(c)
      case Ok(s) => Advance(s, es[|es| - 1])
  }

  lemma ProjectAppend(es: seq<StoredEvent>, e: StoredEvent)
    ensures Project(es + [e]) == match Project(es) case Err(c) => Err(c) case Ok(s) => Advance(s, e)
  {
    assert (es + [e])[..|es|] == es;
  }

  method ProjectRunStatus(events: seq<StoredEvent>) returns (r: Result<Projection, StateConflict>)
    ensures r == Project(events)
  {
    var status := Running;
    var pendingApproval: Option<PendingContext> := None;
    var terminalStatus: Option<RunStatus> := None;
    for i := 0 to |events|
      invariant Project(events[..i]) == Ok(Projection(status, pendingApproval))
      invariant terminalStatus == if status.Terminal() then Some(status) else None
    {
      var p := events[i].payload;
      assert events[..i + 1][..i] == events[..i];
      var conflict: Option<StateConflict> := None;
      var next := TerminalStatus(p);
      if terminalStatus.Some? {
        conflict := Some(TerminalStateConflict);
      } else if status == RunRejected && next.None? {
        conflict := Some(RejectedStateConflict);
      } else if next.Some? {
        terminalStatus := next;
        status := next.value;
        pendingApproval := None;
      } else if ResolutionSignal(p) {
        if p.approval.status != Approved && p.approval.status != Rejected {
          conflict := Some(InvalidApprovalTransition);
        } else if pendingApproval.None? {
          conflict := Some(NoPendingApproval);
        } else if p.approval.resolvedBy.None? || IsBlank(p.approval.resolvedBy.value) {
          conflict := Some(MissingApproverId);
        } else if p.approval.resolvedAt.None? {
          conflict := Some(MissingApprovalTimestamp);
        } else {
          pendingApproval := None;
          status := if p.approval.status == Approved then RunApproved else RunRejected;
        }
      } else if PendingSignal(p) {
        if pendingApproval.Some? {
          conflict := Some(DuplicatePendingApproval);
        } else {
          pendingApproval := Some(ContextOf(events[i]));
          status := Paused;
        }
      } else if pendingApproval.Some? {
        status := Paused;
      } else if status == RunApproved {
        status := Running;
      }
      if conflict.Some? {
        ErrorPersists(events, i + 1);
        return Err(conflict.value);
      }
    }
    assert events[..|events|] == events;
    return Ok(Projection(status, pendingApproval));
  }

  /** A conflict in a prefix is the whole sequence's conflict: success is prefix-closed. */
  lemma {:induction false} ErrorPersists(es: seq<StoredEvent>, n: nat)
    requires n <= |es| && Project(es[..n]).Err?
    ensures Project(es) == Project(es[..n])
  {
    if n < |es| {
      assert es[..|es| - 1][..n] == es[..n];
      ErrorPersists(es[..|es| - 1], n);
    } else {
      assert es[..n] == es;
    }
  }

  // ---------- What a projection means, without the fold ----------

  /** The classification of an event inside a run: a terminal event counts as nothing else, and a
      resolution is not also a request. */
  predicate Ends(e: StoredEvent) {
    TerminalStatus(e.payload).Some?
  }

  predicate Resolves(e: StoredEvent) {
    !Ends(e) && ResolutionSignal(e.payload)
  }

  predicate Requests(e: StoredEvent) {
    !Ends(e) && !ResolutionSignal(e.payload) && PendingSignal(e.payload)
  }

  predicate Rejects(e: StoredEvent) {
    Resolves(e) && e.payload.approval.status == Rejected
  }

  /** Request i is open at n: nothing after it resolved it, asked again, or ended the run. */
  predicate OpenAt(es: seq<StoredEvent>, i: int, n: int)
    requires 0 <= n <= |es|
  {
    0 <= i < n && Requests(es[i]) && forall k | i < k < n :: !Resolves(es[k]) && !Requests(es[k]) && !Ends(es[k])
  }

  predicate WellFormedResolution(p: EventPayload) {
    (p.approval.status == Approved || p.approval.status == Rejected) && HasApprover(p) && p.approval.resolvedAt.Some?
  }

  /** Event i fits in where it stands: the run has not ended, only an ending may follow a rejection, a
      resolution is well formed and closes an open request, and a request finds none open. */
  ghost predicate Fits(es: seq<StoredEvent>, i: int)
    requires 0 <= i < |es|
  {
    && (i > 0 ==> !Ends(es[i - 1]))
    && (i > 0 && Rejects(es[i - 1]) ==> Ends(es[i]))
    && (Resolves(es[i]) ==> WellFormedResolution(es[i].payload) && exists j :: OpenAt(es, j, i))
    && (Requests(es[i]) ==> !exists j :: OpenAt(es, j, i))
  }

  ghost predicate Coherent(es: seq<StoredEvent>) {
    forall i :: 0 <= i < |es| ==> Fits(es, i)
  }

  /** The status, read off the open request and the last event alone. */
  ghost predicate StatusMeaning(es: seq<StoredEvent>, s: Projection) {
    && (s.pending.Some? ==>
          s.status == Paused && exists j :: OpenAt(es, j, |es|) && s.pending == Some(ContextOf(es[j])))
    && (s.pending.None? ==>
          && (forall j :: !OpenAt(es, j, |es|))
          && s.status == if es == [] then Running else
               var last := es[|es| - 1];
               if Ends(last) then TerminalStatus(last.payload).value
               else if Rejects(last) then RunRejected
               else if Resolves(last) then RunApproved
               else Running)
  }

  lemma OpenAtInit(es: seq<StoredEvent>, j: int, n: int)
    requires 0 <= n < |es|
    ensures OpenAt(es, j, n) <==> OpenAt(es[..|es| - 1], j, n)
  {
  }

  lemma OpenAtLast(es: seq<StoredEvent>, j: int)
    requires es != []
    ensures var n := |es| - 1;
            OpenAt(es, j, |es|) <==>
            if j == n then Requests(es[n])
            else OpenAt(es, j, n) && !Resolves(es[n]) && !Requests(es[n]) && !Ends(es[n])
  {
  }

  lemma FitsInit(es: seq<StoredEvent>, i: int)
    requires 0 <= i < |es| - 1
    ensures Fits(es, i) <==> Fits(es[..|es| - 1], i)
  {
    var init := es[..|es| - 1];
    forall j ensures OpenAt(es, j, i) <==> OpenAt(init, j, i) {
      OpenAtInit(es, j, i);
    }
    if j :| OpenAt(es, j, i) {
      assert OpenAt(init, j, i);
    }
    if j :| OpenAt(init, j, i) {
      assert OpenAt(es, j, i);
    }
    assert i > 0 ==> init[i - 1] == es[i - 1];
  }

  /** The projection succeeds exactly on the coherent runs, and then reports what StatusMeaning says.
      In particular, status is paused if and only if an approval is pending, that approval is the one
      open request, an ending can only be last, and after a rejection only an ending can follow. */
  lemma {:induction false} ProjectionMeaning(es: seq<StoredEvent>)
    ensures Project(es).Ok? <==> Coherent(es)
    ensures Project(es).Ok? ==> StatusMeaning(es, Project(es).value)
  {
    if es != [] {
      var n := |es| - 1;
      var init := es[..n];
      ProjectionMeaning(init);
      forall i | 0 <= i < n ensures Fits(es, i) <==> Fits(init, i) {
        FitsInit(es, i);
      }
      assert Coherent(es) <==> Coherent(init) && Fits(es, n);
      if Project(init).Ok? {
        LastFits(es, Project(init).value);
      }
    }
  }

  lemma LastFits(es: seq<StoredEvent>, s: Projection)
    requires es != [] && StatusMeaning(es[..|es| - 1], s)
    ensures var r := Advance(s, es[|es| - 1]);
            && (r.Ok? <==> Fits(es, |es| - 1))
            && (r.Ok? ==> StatusMeaning(es, r.value))
  {
    var n := |es| - 1;
    var init := es[..n];
    forall j ensures OpenAt(es, j, n) <==> OpenAt(init, j, n) {
      OpenAtInit(es, j, n);
    }
    forall j ensures OpenAt(es, j, |es|) <==>
                     if j == n then Requests(es[n])
                     else OpenAt(es, j, n) && !Resolves(es[n]) && !Requests(es[n]) && !Ends(es[n])
    {
      OpenAtLast(es, j);
    }
    if s.pending.Some? {
      var j :| OpenAt(init, j, n) && s.pending == Some(ContextOf(init[j]));
      assert OpenAt(es, j, n);
      assert n > 0 && !Ends(es[n - 1]) && !Rejects(es[n - 1]);
      OpenAtLast(es, j);
    }
  }

  /** Paused means pending, and pending means paused. */
  lemma PausedIffPending(es: seq<StoredEvent>)
    requires Project(es).Ok?
    ensures Project(es).value.status == Paused <==> Project(es).value.pending.Some?
  {
    ProjectionMeaning(es);
  }

  // ---------- What one more event does, by the fields of its payload ----------

  /** A summary, or one of four workflow steps, ends a run. */
  predicate EndsRun(p: EventPayload) {
    || p.kind == Summary
    || p.step == Some(RunExpired) || p.step == Some(ApprovalExpired)
    || p.step == Some(RunStopped) || p.step == Some(ApprovalRejected)
  }

  predicate Ended(s: RunStatus) {
    s == Stopped || s == Expired || s == Completed
  }

  lemma EndingByFields(p: EventPayload)
    ensures TerminalStatus(p) ==
            if p.kind == Summary then Some(Completed)
            else if p.step == Some(RunExpired) || p.step == Some(ApprovalExpired) then Some(Expired)
            else if p.step == Some(RunStopped) || p.step == Some(ApprovalRejected) then Some(Stopped)
            else None
  {
  }

  /** What ends a run, and how; and that nothing else does. */
  lemma NextEnding(es: seq<StoredEvent>, e: StoredEvent)
    requires Project(es).Ok? && !Ended(Project(es).value.status)
    ensures var p := e.payload;
            var r := Project(es + [e]);
            && (p.kind == Summary ==> r == Ok(Projection(Completed, None)))
            && (p.kind != Summary && (p.step == Some(RunExpired) || p.step == Some(ApprovalExpired)) ==>
                  r == Ok(Projection(Expired, None)))
            && (p.kind != Summary && (p.step == Some(RunStopped) || p.step == Some(ApprovalRejected)) ==>
                  r == Ok(Projection(Stopped, None)))
            && (r.Ok? && Ended(r.value.status) ==> EndsRun(p))
  {
    EndingByFields(e.payload);
    ProjectAppend(es, e);
    EndingOrNot(Project(es).value, e);
  }

  /** An event that ends a run takes it to its status, and any other leaves it open. */
  lemma EndingOrNot(s: Projection, e: StoredEvent)
    requires !Ended(s.status)
    ensures var ending := TerminalStatus(e.payload);
            && (ending.Some? ==> Advance(s, e) == Ok(Projection(ending.value, None)))
            && (ending.None? && Advance(s, e).Ok? ==> !Ended(Advance(s, e).value.status))
  {
  }

  /** Nothing follows an ending; and only an ending follows a rejection. */
  lemma NothingFollows(es: seq<StoredEvent>, e: StoredEvent)
    requires Project(es).Ok?
    ensures Ended(Project(es).value.status) ==> Project(es + [e]) == Err(TerminalStateConflict)
    ensures Project(es).value.status == RunRejected && !EndsRun(e.payload) ==>
              Project(es + [e]) == Err(RejectedStateConflict)
  {
    ProjectAppend(es, e);
  }

  /** A resolution, by type or by verdict, of the pending request: what it must say, and where it takes the run. */
  lemma NextResolution(es: seq<StoredEvent>, e: StoredEvent)
    requires Project(es).Ok? && !Ended(Project(es).value.status) && Project(es).value.status != RunRejected
    requires var p := e.payload;
             !EndsRun(p)
             && (p.kind == ApprovalResolved
                 || (p.requiresApproval && (p.approval.status == Approved || p.approval.status == Rejected)))
    ensures var a := e.payload.approval;
            Project(es + [e]) ==
            if a.status == NotRequired || a.status == Pending then Err(InvalidApprovalTransition)
            else if Project(es).value.pending.None? then Err(NoPendingApproval)
            else if a.resolvedBy.None? || forall c :: c in a.resolvedBy.value ==> IsSpace(c) then Err(MissingApproverId)
            else if a.resolvedAt.None? then Err(MissingApprovalTimestamp)
            else Ok(Projection(if a.status == Approved then RunApproved else RunRejected, None))
  {
    ProjectAppend(es, e);
  }

  /** A request, by type or by flag and status, pauses the run on itself unless one is pending. */
  lemma NextRequest(es: seq<StoredEvent>, e: StoredEvent)
    requires Project(es).Ok? && !Ended(Project(es).value.status) && Project(es).value.status != RunRejected
    requires var p := e.payload;
             !EndsRun(p)
             && p.kind != ApprovalResolved
             && (p.requiresApproval ==> p.approval.status != Approved && p.approval.status != Rejected)
             && (p.kind == ApprovalRequested || (p.requiresApproval && p.approval.status == Pending))
    ensures Project(es + [e]) ==
            if Project(es).value.pending.Some? then Err(DuplicatePendingApproval)
            else Ok(Projection(Paused, Some(PendingContext(e.id, e.timestamp))))
  {
    ProjectAppend(es, e);
  }

  /** Any other event leaves a pending approval pending, and otherwise finds or sets the run running. */
  lemma NextOther(es: seq<StoredEvent>, e: StoredEvent)
    requires Project(es).Ok? && !Ended(Project(es).value.status) && Project(es).value.status != RunRejected
    requires var p := e.payload;
             !EndsRun(p)
             && p.kind != ApprovalResolved && p.kind != ApprovalRequested
             && (p.requiresApproval ==> p.approval.status == NotRequired)
    ensures var s := Project(es).value;
            Project(es + [e]) ==
            Ok(if s.pending.Some? then Projection(Paused, s.pending) else Projection(Running, None))
  {
    ProjectAppend(es, e);
    PausedIffPending(es);
  }

  // ---------- Requests and resolutions balance ----------

  function CountRequests(es: seq<StoredEvent>): nat {
    if es == [] then 0 else CountRequests(es[..|es| - 1]) + if Requests(es[|es| - 1]) then 1 else 0
  }

  function CountResolutions(es: seq<StoredEvent>): nat {
    if es == [] then 0 else CountResolutions(es[..|es| - 1]) + if Resolves(es[|es| - 1]) then 1 else 0
  }

  /** Requests exceed resolutions by one while an approval is pending and by none otherwise; only an
      ending may leave the difference standing, by abandoning the request. */
  lemma {:induction false} RequestsBalance(es: seq<StoredEvent>)
    requires Project(es).Ok?
    ensures 0 <= CountRequests(es) - CountResolutions(es) <= 1
    ensures es == [] || !Ends(es[|es| - 1]) ==>
              CountRequests(es) - CountResolutions(es) == if Project(es).value.pending.Some? then 1 else 0
  {
    if es != [] {
      var init := es[..|es| - 1];
      RequestsBalance(init);
      ProjectionMeaning(init);
      assert init == [] || !Ends(init[|init| - 1]);
    }
  }
}
