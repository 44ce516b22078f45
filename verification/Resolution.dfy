/** What one resolution does to the run it resolves. */
module Resolution {
  import opened Prelude
  import opened Events
  import opened EventLog
  import opened RunStatusProjection
  import opened Approvals

  // ---------- Appends that follow everything in their run ----------

  ghost predicate RunUpTo(log: Log, run: string, t: Time) {
    forall r | r in log && r.event.runId == run :: r.event.timestamp <= t
  }

  /** The event that the store makes of a payload. */
  function EventFor(h: EventHash, log: Log, p: EventPayload): StoredEvent {
    MakeRecord(h, log, p).event
  }

  /** log' extends log by events of one run, in time order, the newest stamped at most t. */
  ghost predicate Follows(h: EventHash, log: Log, log': Log, run: string, t: Time) {
    && Grows(h, log, log')
    && Built(h, log')
    && RunUpTo(log', run, t)
    && forall other :: other != run ==> ListRun(log', other) == ListRun(log, other)
  }

  lemma FollowsTransitive(h: EventHash, a: Log, b: Log, c: Log, run: string, t: Time, u: Time)
    requires Follows(h, a, b, run, t) && Follows(h, b, c, run, u)
    ensures Follows(h, a, c, run, u)
  {
    GrowsTransitive(h, a, b, c);
  }

  lemma FollowsReflexive(h: EventHash, log: Log, run: string, t: Time)
    requires Built(h, log) && RunUpTo(log, run, t)
    ensures Follows(h, log, log, run, t)
  {
  }

  /** p becomes the newest event of its run, and the end of the run's listing. */
  lemma AppendAfter(h: EventHash, log: Log, p: EventPayload, t: Time)
    requires Built(h, log) && RunUpTo(log, p.runId, t) && t < p.timestamp
    requires !Logged(log, p.runId, p.id)
    ensures var log' := log + [MakeRecord(h, log, p)];
            && Append(h, log, p) == Some(log')
            && Follows(h, log, log', p.runId, p.timestamp)
            && ListRun(log', p.runId) == ListRun(log, p.runId) + [EventFor(h, log, p)]
            && forall run, id :: Logged(log', run, id) <==> Logged(log, run, id) || (run == p.runId && id == p.id)
  {
    AppendInOrder(h, log, p);
    GrowsByOne(h, log, p);
    forall run, id ensures Logged(log + [MakeRecord(h, log, p)], run, id) <==>
                           Logged(log, run, id) || (run == p.runId && id == p.id)
    {
      LoggedAfter(log, MakeRecord(h, log, p), run, id);
    }
  }

  lemma LoggedAfter(log: Log, r: StoredRecord, run: string, id: string)
    ensures Logged(log + [r], run, id) <==> Logged(log, run, id) || (r.event.runId == run && r.event.id == id)
  {
    assert (log + [r])[|log|] == r;
    if Logged(log, run, id) {
      var x :| x in log && x.event.runId == run && x.event.id == id;
      assert x in log + [r];
    }
  }

  lemma RunUpToLatest(log: Log, run: string)
    requires ListRun(log, run) != []
    ensures RunUpTo(log, run, MaxTime(ListRun(log, run)))
  {
    var _ := MaxTimeIsGreatest(ListRun(log, run));
    forall r | r in log && r.event.runId == run ensures r.event.timestamp <= MaxTime(ListRun(log, run)) {
      ListRunMembers(log, run, r.event);
    }
  }

  // ---------- The scan for an earlier resolution ----------

  lemma ListRunIdsDistinct(h: EventHash, log: Log, run: string, i: nat, j: nat)
    requires Built(h, log) && i < j < |ListRun(log, run)|
    ensures ListRun(log, run)[i].id != ListRun(log, run)[j].id
  {
    var t := Sorted(ForRun(log, run));
    BuiltFacts(h, log);
    ForRunIncreasing(log, run);
    SortedIsSorted(ForRun(log, run));
    SortedMembers(ForRun(log, run));
    ForRunMembers(log, run);
    assert t[i] in t && t[j] in t;
    var a :| 0 <= a < |log| && log[a] == t[i];
    var b :| 0 <= b < |log| && log[b] == t[j];
    assert Before(t[i], t[j]);
    if t[i].event.id == t[j].event.id {
      IdsUnique(h, log, a, b);
    }
  }

  /** An event that the scan takes for a resolution of the target because of its id. */
  predicate PrefixAnswer(e: StoredEvent, target: string) {
    !Asks(e) && Answers(e) && StartsWith(e.id, ResolutionPrefix(target))
  }

  lemma {:induction false} ScanMeaning(es: seq<StoredEvent>, target: string, j: nat, n: nat)
    requires j < |es| && n <= |es|
    requires forall k :: 0 <= k < |es| && es[k].id == target ==> k == j
    requires forall k :: j < k < |es| ==> !Asks(es[k]) && !Answers(es[k])
    ensures ScanRun(es[..n], target).Found? <==> exists k :: 0 <= k < n && PrefixAnswer(es[k], target)
    ensures ScanRun(es[..n], target) == Current(Some(target)) ==> j < n
  {
    if n > 0 {
      ScanMeaning(es, target, j, n - 1);
      assert es[..n][..n - 1] == es[..n - 1];
    }
  }

  /** A run waiting for the request with this id. */
  ghost predicate PausedOn(log: Log, run: string, id: string) {
    var s := Project(ListRun(log, run));
    s.Ok? && s.value.status == Paused && s.value.pending.Some? && s.value.pending.value.eventId == id
  }

  /** For the request a run is paused on, the scan answers by id prefix alone. So it wrongly refuses the
      request exactly when some other resolution's id starts with the request's prefix. */
  lemma ScanOfPaused(h: EventHash, log: Log, e: StoredEvent)
    requires Built(h, log) && WithId(log, e.id) == [e] && PausedOn(log, e.runId, e.id)
    ensures Asks(e)
    ensures ScanRun(ListRun(log, e.runId), e.id).Found? <==>
            exists x :: x in ListRun(log, e.runId) && PrefixAnswer(x, e.id)
  {
    var es := ListRun(log, e.runId);
    ProjectionMeaning(es);
    var j :| OpenAt(es, j, |es|) && Project(es).value.pending == Some(ContextOf(es[j]));
    assert es[j] in es;
    ListRunMembers(log, e.runId, es[j]);
    ListAllMembers(log, es[j]);
    assert es[j] in WithId(log, e.id);
    forall k | 0 <= k < |es| && es[k].id == e.id ensures k == j {
      if k < j { ListRunIdsDistinct(h, log, e.runId, k, j); }
      if j < k { ListRunIdsDistinct(h, log, e.runId, j, k); }
    }
    ScanMeaning(es, e.id, j, |es|);
    assert es[..|es|] == es;
    if x :| x in es && PrefixAnswer(x, e.id) {
      var k :| 0 <= k < |es| && es[k] == x;
      assert PrefixAnswer(es[k], e.id);
    }
  }

  // ---------- One resolution ----------

  ghost predicate Resolvable(h: EventHash, log: Log, e: StoredEvent) {
    && Built(h, log)
    && WithId(log, e.id) == [e]
    && PausedOn(log, e.runId, e.id)
    && !exists x :: x in ListRun(log, e.runId) && PrefixAnswer(x, e.id)
  }

  lemma ResolvableReachesAppend(h: EventHash, log: Log, e: StoredEvent, input: ResolveInput)
    requires Resolvable(h, log, e)
    ensures ListRun(log, e.runId) != []
    ensures Resolve(h, log, e.id, input) == AppendResolution(h, log, e, input)
  {
    ScanOfPaused(h, log, e);
  }

  /** The run projects to this status, with nothing pending. */
  ghost predicate Projects(log: Log, run: string, status: RunStatus) {
    Project(ListRun(log, run)) == Ok(Projection(status, None))
  }

  /** The resolution's own append, and the run it leaves: stopped after a rejection, approved after an
      approval by a named approver, and no longer projectable after an approval by a blank one. */
  lemma ResolutionAppended(h: EventHash, log: Log, e: StoredEvent, input: ResolveInput)
    requires Resolvable(h, log, e)
    requires ListRun(log, e.runId) != []
    requires var p := ResolutionEvent(e, input, ResolutionTime(ListRun(log, e.runId), input.now));
             !Logged(log, e.runId, p.id)
    ensures var run := e.runId;
            var p := ResolutionEvent(e, input, ResolutionTime(ListRun(log, run), input.now));
            var log1 := log + [MakeRecord(h, log, p)];
            && Append(h, log, p) == Some(log1)
            && Follows(h, log, log1, run, p.timestamp)
            && ListRun(log1, run) == ListRun(log, run) + [EventFor(h, log, p)]
            && (forall other, id :: Logged(log1, other, id) <==> Logged(log, other, id) || (other == run && id == p.id))
            && Project(ListRun(log1, run)) ==
               (if input.verdict == Reject then Ok(Projection(Stopped, None))
                else if IsBlank(input.approver) then Err(MissingApproverId)
                else Ok(Projection(RunApproved, None)))
  {
    var es := ListRun(log, e.runId);
    var p := ResolutionEvent(e, input, ResolutionTime(es, input.now));
    RunUpToLatest(log, e.runId);
    AppendAfter(h, log, p, MaxTime(es));
    ResolutionAdvances(es, EventFor(h, log, p), input);
  }

  lemma ResolutionAdvances(es: seq<StoredEvent>, x: StoredEvent, input: ResolveInput)
    requires Project(es).Ok? && Project(es).value.status == Paused && Project(es).value.pending.Some?
    requires x.payload.kind == ApprovalResolved
    requires x.payload.approval.status == if input.verdict == Approve then Approved else Rejected
    requires x.payload.approval.resolvedBy == Some(input.approver) && x.payload.approval.resolvedAt.Some?
    requires x.payload.step ==
             Some(if input.verdict == Approve then OtherStep("approval_approved") else ApprovalRejected)
    ensures Project(es + [x]) ==
            if input.verdict == Reject then Ok(Projection(Stopped, None))
            else if IsBlank(input.approver) then Err(MissingApproverId)
            else Ok(Projection(RunApproved, None))
  {
    ProjectAppend(es, x);
  }

  /** Outside the demo: a resolution whose append succeeds adds that one event, leaves the run with no
      pending approval, and reports the status it now projects to. It touches no other run. */
  lemma ResolveStep(h: EventHash, log: Log, e: StoredEvent, input: ResolveInput)
    requires Resolvable(h, log, e) && !TriggersDemo(e, input.verdict)
    ensures var run := e.runId;
            var o := Resolve(h, log, e.id, input);
            var id := ResolutionEventId(e.id, input.verdict, input.suffix);
            if Logged(log, run, id) then o == Outcome(Err(StorageWriteFailed), log)
            else
              && |o.log| == |log| + 1 && Grows(h, log, o.log)
              && (forall other :: other != run ==> ListRun(o.log, other) == ListRun(log, other))
              && (if input.verdict == Reject then
                    && o.result == Ok(Resolved(id, Stopped, false))
                    && Projects(o.log, run, Stopped)
                  else if IsBlank(input.approver) then
                    && o.result == Err(InconsistentRun(MissingApproverId))
                    && Project(ListRun(o.log, run)).Err?
                  else
                    && o.result == Ok(Resolved(id, RunApproved, false))
                    && Projects(o.log, run, RunApproved))
  {
    ResolvableReachesAppend(h, log, e, input);
    if !Logged(log, e.runId, ResolutionEventId(e.id, input.verdict, input.suffix)) {
      ResolutionAppended(h, log, e, input);
    }
  }

  /** A demo event appended to a run that is approved or running: the run goes on, or ends as its step says. */
  lemma DemoAppended(h: EventHash, log: Log, p: EventPayload, t: Time, status: RunStatus)
    requires Built(h, log) && RunUpTo(log, p.runId, t) && t < p.timestamp && !Logged(log, p.runId, p.id)
    requires (status == RunApproved || status == Running) && Projects(log, p.runId, status)
    requires !p.requiresApproval && p.kind != ApprovalRequested && p.kind != ApprovalResolved
    ensures var log' := log + [MakeRecord(h, log, p)];
            && Append(h, log, p) == Some(log')
            && Follows(h, log, log', p.runId, p.timestamp)
            && Projects(log', p.runId, if TerminalStatus(p).Some? then TerminalStatus(p).value else Running)
            && forall run, id :: Logged(log', run, id) <==> Logged(log, run, id) || (run == p.runId && id == p.id)
  {
    AppendAfter(h, log, p, t);
    DemoAdvances(ListRun(log, p.runId), EventFor(h, log, p), status);
  }

  lemma DemoAdvances(es: seq<StoredEvent>, e: StoredEvent, status: RunStatus)
    requires (status == RunApproved || status == Running) && Project(es) == Ok(Projection(status, None))
    requires var p := e.payload; !p.requiresApproval && p.kind != ApprovalRequested && p.kind != ApprovalResolved
    ensures var ending := TerminalStatus(e.payload);
            Project(es + [e]) == Ok(Projection(if ending.Some? then ending.value else Running, None))
  {
    ProjectAppend(es, e);
  }

  /** The demo's continuation, from the approved run: it completes the run if neither of its two ids is
      taken, and otherwise leaves it approved or running. */
  lemma Continued(h: EventHash, log: Log, run: string, t: Time)
    requires Built(h, log) && RunUpTo(log, run, t) && Projects(log, run, RunApproved)
    ensures var (done, log2) := Continue(h, log, run, t);
            && Follows(h, log, log2, run, t + 2 * MILLISECOND)
            && (done <==> !Logged(log, run, "evt_triage_inbox_004") && !Logged(log, run, "evt_triage_inbox_005"))
            && (done ==> Projects(log2, run, Completed))
            && (!done ==> Projects(log2, run, RunApproved) || Projects(log2, run, Running))
            && (!done ==> forall id :: Logged(log2, run, id) ==> Logged(log, run, id) || id == "evt_triage_inbox_004")
  {
    var resume, complete := ResumeEvent(run, t), CompleteEvent(run, t);
    assert resume.id[19] != complete.id[19];
    FollowsReflexive(h, log, run, t + 2 * MILLISECOND);
    if !Logged(log, run, resume.id) {
      DemoAppended(h, log, resume, t, RunApproved);
      var log1 := log + [MakeRecord(h, log, resume)];
      FollowsReflexive(h, log1, run, t + 2 * MILLISECOND);
      FollowsTransitive(h, log, log1, log1, run, resume.timestamp, t + 2 * MILLISECOND);
      if !Logged(log1, run, complete.id) {
        DemoAppended(h, log1, complete, resume.timestamp, Running);
        var log2 := log1 + [MakeRecord(h, log1, complete)];
        FollowsTransitive(h, log, log1, log2, run, resume.timestamp, complete.timestamp);
      }
    }
  }

  /** The failure event stops a run that the continuation left open. */
  lemma FailureJournaled(h: EventHash, log: Log, run: string, t: Time, suffix: string, status: RunStatus)
    requires Built(h, log) && RunUpTo(log, run, t + 2 * MILLISECOND)
    requires (status == RunApproved || status == Running) && Projects(log, run, status)
    ensures var log' := JournalFailure(h, log, run, t, suffix);
            && Follows(h, log, log', run, t + 3 * MILLISECOND)
            && (!Logged(log, run, "evt_triage_inbox_err_" + suffix) ==> Projects(log', run, Stopped))
  {
    StopsIfFree(h, log, FailureEvent(run, t, suffix), t + 2 * MILLISECOND, status);
  }

  lemma StopsIfFree(h: EventHash, log: Log, p: EventPayload, t: Time, status: RunStatus)
    requires Built(h, log) && RunUpTo(log, p.runId, t) && t < p.timestamp
    requires (status == RunApproved || status == Running) && Projects(log, p.runId, status)
    requires p.kind == ErrorReport && !p.requiresApproval && p.step == Some(RunStopped)
    ensures var log' := match Append(h, log, p) case None => log case Some(l) => l;
            && Follows(h, log, log', p.runId, p.timestamp)
            && (!Logged(log, p.runId, p.id) ==> Projects(log', p.runId, Stopped))
  {
    if Logged(log, p.runId, p.id) {
      FollowsReflexive(h, log, p.runId, p.timestamp);
    } else {
      assert TerminalStatus(p) == Some(Stopped);
      DemoAppended(h, log, p, t, status);
    }
  }

  /** The canonical demo target, approved by a named approver: the run completes if the two continuation
      events can be appended; if not, and the failure event can be, the run is stopped. */
  lemma ResolveDemo(h: EventHash, log: Log, e: StoredEvent, input: ResolveInput)
    requires Resolvable(h, log, e) && TriggersDemo(e, input.verdict) && !IsBlank(input.approver)
    requires !Logged(log, e.runId, ResolutionEventId(e.id, input.verdict, input.suffix))
    ensures var run := e.runId;
            var o := Resolve(h, log, e.id, input);
            var blocked := Logged(log, run, "evt_triage_inbox_004") || Logged(log, run, "evt_triage_inbox_005");
            && Grows(h, log, o.log)
            && (forall other :: other != run ==> ListRun(o.log, other) == ListRun(log, other))
            && (!blocked ==>
                  && o.result == Ok(Resolved(ResolutionEventId(e.id, input.verdict, input.suffix), Completed, true))
                  && Projects(o.log, run, Completed))
            && (blocked ==> o.result == Err(StorageWriteFailed))
            && (blocked && !Logged(log, run, "evt_triage_inbox_err_" + input.errorSuffix) ==>
                  Projects(o.log, run, Stopped))
  {
    var run := e.runId;
    ResolvableReachesAppend(h, log, e, input);
    ResolutionAppended(h, log, e, input);
    var p := ResolutionEvent(e, input, ResolutionTime(ListRun(log, run), input.now));
    var t := p.timestamp;
    var log1 := log + [MakeRecord(h, log, p)];
    DemoIdsDistinct(e.id, input);
    Continued(h, log1, run, t);
    var (done, log2) := Continue(h, log1, run, t);
    FollowsTransitive(h, log, log1, log2, run, t, t + 2 * MILLISECOND);
    if !done {
      var status := if Projects(log2, run, Running) then Running else RunApproved;
      FailureJournaled(h, log2, run, t, input.errorSuffix, status);
      FollowsTransitive(h, log, log2, JournalFailure(h, log2, run, t, input.errorSuffix), run,
                        t + 2 * MILLISECOND, t + 3 * MILLISECOND);
    }
  }

  lemma DemoIdsDistinct(target: string, input: ResolveInput)
    ensures var id := ResolutionEventId(target, input.verdict, input.suffix);
            var failure := "evt_triage_inbox_err_" + input.errorSuffix;
            && id != "evt_triage_inbox_004" && id != "evt_triage_inbox_005" && id != failure
            && failure != "evt_triage_inbox_004"
  {
    assert ResolutionEventId(target, input.verdict, input.suffix)[0] == 'a';
    assert ("evt_triage_inbox_err_" + input.errorSuffix)[17] == 'e';
    assert "evt_triage_inbox_004"[17] == '0';
  }
}
