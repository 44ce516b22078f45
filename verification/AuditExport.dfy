/** Verification of the hash chain, and the audit export that depends on it. */
module AuditExport {
  import opened Prelude
  import opened Events
  import opened EventLog
  import opened EventStore

  datatype AuditError = DecisionNotFound | CrossRunDecisionTrace | HashChainBroken

  // ---------- The chain ----------

  function HeadHash(es: seq<StoredEvent>): Option<string> {
    if es == [] then None else Some(es[|es| - 1].hash)
  }

  predicate Linked(h: EventHash, e: StoredEvent, previous: Option<string>) {
    e.prevHash == previous && e.hash != "" && e.hash == HashOf(h, e, previous)
  }

  /** Every event is linked to the one before it. */
  ghost predicate Chained(h: EventHash, es: seq<StoredEvent>) {
    forall i :: 0 <= i < |es| ==> Linked(h, es[i], HeadHash(es[..i]))
  }

  method VerifyHashChain(h: EventHash, events: seq<StoredEvent>) returns (ok: bool)
    ensures ok <==> Chained(h, events)
  {
    var previousHash: Option<string> := None;
    for i := 0 to |events|
      invariant previousHash == HeadHash(events[..i])
      invariant forall j :: 0 <= j < i ==> Linked(h, events[j], HeadHash(events[..j]))
    {
      var event := events[i];
      var expectedHash := HashOf(h, event, previousHash);
      if event.prevHash != previousHash || event.hash == "" || event.hash != expectedHash {
        return false;
      }
      previousHash := Some(event.hash);
    }
    return true;
  }

  lemma ChainedPrefix(h: EventHash, es: seq<StoredEvent>, n: nat)
    requires Chained(h, es) && n <= |es|
    ensures Chained(h, es[..n])
  {
    forall i | 0 <= i < n ensures Linked(h, es[..n][i], HeadHash(es[..n][..i])) {
      assert es[..n][..i] == es[..i];
      assert Linked(h, es[i], HeadHash(es[..i]));
    }
  }

  /** Equal hashes mean equal links, back to the predecessor's hash. */
  lemma LinkInjective(h: EventHash, a: StoredEvent, beforeA: Option<string>, b: StoredEvent, beforeB: Option<string>)
    requires CollisionFree(h) && Linked(h, a, beforeA) && Linked(h, b, beforeB)
    requires a.hash == b.hash
    ensures a == b && beforeA == beforeB
  {
    var inputA := HashInput(a.runId, a.id, a.timestamp, a.payload, a.integrityWarning, beforeA);
    var inputB := HashInput(b.runId, b.id, b.timestamp, b.payload, b.integrityWarning, beforeB);
    assert h(inputA) == h(inputB);
    assert inputA == inputB;
  }

  lemma SplitLast<T>(s: seq<T>)
    requires s != []
    ensures s == s[..|s| - 1] + [s[|s| - 1]]
  {
  }

  /** The head hash determines the whole history: two verified chains that end in the same hash are the
      same chain. Altering, dropping, inserting or reordering anything before the head changes the head. */
  lemma {:induction false} HeadDeterminesHistory(h: EventHash, a: seq<StoredEvent>, b: seq<StoredEvent>)
    requires CollisionFree(h) && Chained(h, a) && Chained(h, b)
    requires HeadHash(a) == HeadHash(b)
    ensures a == b
  {
    if a != [] && b != [] {
      var initA, initB := a[..|a| - 1], b[..|b| - 1];
      LinkInjective(h, a[|a| - 1], HeadHash(initA), b[|b| - 1], HeadHash(initB));
      ChainedPrefix(h, a, |a| - 1);
      ChainedPrefix(h, b, |b| - 1);
      HeadDeterminesHistory(h, initA, initB);
      SplitLast(a);
      SplitLast(b);
    }
  }

  // ---------- Chains that the store builds ----------

  ghost predicate RunUnflagged(log: Log, run: string) {
    forall r | r in ForRun(log, run) :: !r.event.integrityWarning
  }

  lemma ChainedAppend(h: EventHash, es: seq<StoredEvent>, e: StoredEvent)
    requires Chained(h, es) && Linked(h, e, HeadHash(es))
    ensures Chained(h, es + [e])
  {
    var es' := es + [e];
    forall i | 0 <= i < |es'| ensures Linked(h, es'[i], HeadHash(es'[..i])) {
      if i < |es| {
        assert es'[..i] == es[..i];
        assert Linked(h, es[i], HeadHash(es[..i]));
      } else {
        assert es'[..i] == es;
      }
    }
  }

  lemma BuiltStep(h: EventHash, log: Log)
    requires Built(h, log) && log != []
    ensures var init, last := log[..|log| - 1], log[|log| - 1];
            && Built(h, init)
            && last == MakeRecord(h, init, last.event.payload)
            && log == init + [last]
            && (forall run :: ForRun(log, run) ==
                  if last.event.runId == run then ForRun(init, run) + [last] else ForRun(init, run))
  {
    var init, last := log[..|log| - 1], log[|log| - 1];
    BuiltPrefix(h, log, |log| - 1);
    assert AppendedAt(h, log, |log| - 1);
    assert log == init + [last];
    forall run ensures ForRun(log, run) ==
                       if last.event.runId == run then ForRun(init, run) + [last] else ForRun(init, run)
    {
      ForRunAppend(init, last, run);
    }
  }

  /** In append order, every run is a chain. */
  lemma {:induction false} AppendOrderChained(h: EventHash, log: Log, run: string)
    requires Built(h, log) && NonEmpty(h)
    ensures Chained(h, EventsOf(ForRun(log, run)))
  {
    if log != [] {
      BuiltStep(h, log);
      var init, last := log[..|log| - 1], log[|log| - 1];
      AppendOrderChained(h, init, run);
      if last.event.runId == run {
        var es := EventsOf(ForRun(init, run));
        assert EventsOf(ForRun(init, run) + [last]) == es + [last.event];
        ChainedAppend(h, es, last.event);
      }
    }
  }

  /** A record goes unflagged exactly when it is not older than any record before it. */
  lemma FlagMeaning(h: EventHash, log: Log, p: EventPayload)
    ensures MakeRecord(h, log, p).event.integrityWarning
            <==> exists r :: r in ForRun(log, p.runId) && p.timestamp < r.event.timestamp
  {
    var rs := ForRun(log, p.runId);
    var es := EventsOf(rs);
    if es != [] {
      var e := MaxTimeIsGreatest(es);
      EventsOfMembers(rs, e);
      if r :| r in rs && p.timestamp < r.event.timestamp {
        EventsOfMembers(rs, r.event);
      }
    }
  }

  lemma SortedStep(rs: Log, r: StoredRecord)
    requires forall x | x in rs :: x.sequence < r.sequence
    ensures IsSorted(rs + [r]) <==> IsSorted(rs) && forall x | x in rs :: !(r.event.timestamp < x.event.timestamp)
  {
    var rs' := rs + [r];
    if IsSorted(rs') {
      forall i, j | 0 <= i < j < |rs| ensures Before(rs[i], rs[j]) {
        assert Before(rs'[i], rs'[j]);
      }
      forall x | x in rs ensures !(r.event.timestamp < x.event.timestamp) {
        var i :| 0 <= i < |rs| && rs[i] == x;
        assert Before(rs'[i], rs'[|rs|]);
      }
    }
  }

  /** A run is unflagged exactly when its append order is already its sorted order. */
  lemma {:induction false} UnflaggedMeansSorted(h: EventHash, log: Log, run: string)
    requires Built(h, log)
    ensures RunUnflagged(log, run) <==> IsSorted(ForRun(log, run))
  {
    if log != [] {
      BuiltStep(h, log);
      var init, last := log[..|log| - 1], log[|log| - 1];
      UnflaggedMeansSorted(h, init, run);
      if last.event.runId == run {
        FlagMeaning(h, init, last.event.payload);
        ForRunMembers(init, run);
        OlderSequences(h, log);
        SortedStep(ForRun(init, run), last);
        assert RunUnflagged(log, run) <==> RunUnflagged(init, run) && !last.event.integrityWarning;
      }
    }
  }

  lemma OlderSequences(h: EventHash, log: Log)
    requires Built(h, log) && log != []
    ensures forall x | x in log[..|log| - 1] :: x.sequence < log[|log| - 1].sequence
  {
    BuiltFacts(h, log);
  }

  lemma SortedTimes(h: EventHash, log: Log, run: string)
    requires Built(h, log)
    ensures var es := ListRun(log, run);
            forall i, j :: 0 <= i < j < |es| ==> es[i].timestamp <= es[j].timestamp
  {
    BuiltFacts(h, log);
    ForRunIncreasing(log, run);
    SortedIsSorted(ForRun(log, run));
    var t := Sorted(ForRun(log, run));
    forall i, j | 0 <= i < j < |t| ensures t[i].event.timestamp <= t[j].event.timestamp {
      assert Before(t[i], t[j]);
    }
  }

  lemma ListedWasAppended(log: Log, run: string, e: StoredEvent)
    requires e in ListRun(log, run)
    ensures e in EventsOf(ForRun(log, run))
  {
    EventsOfMembers(Sorted(ForRun(log, run)), e);
    SortedMembers(ForRun(log, run));
    EventsOfMembers(ForRun(log, run), e);
  }

  lemma TakeAll<T>(a: seq<T>, b: seq<T>, n: nat)
    requires n <= |b| && a == b[..n] && |a| == |b|
    ensures a == b
  {
  }

  /** A listing that verifies is the append order: otherwise its last event would head a shorter chain. */
  lemma VerifiedIsAppendOrder(h: EventHash, log: Log, run: string)
    requires Built(h, log) && CollisionFree(h) && NonEmpty(h) && Chained(h, ListRun(log, run))
    ensures ListRun(log, run) == EventsOf(ForRun(log, run))
  {
    var listed, appended := ListRun(log, run), EventsOf(ForRun(log, run));
    AppendOrderChained(h, log, run);
    if listed != [] {
      var last := listed[|listed| - 1];
      assert last in listed;
      ListedWasAppended(log, run, last);
    }
    SameHead(h, listed, appended);
  }

  /** Of two chains of the same length, one that ends in an event of the other is the other. */
  lemma SameHead(h: EventHash, a: seq<StoredEvent>, b: seq<StoredEvent>)
    requires CollisionFree(h) && Chained(h, a) && Chained(h, b)
    requires |a| == |b| && (a != [] ==> a[|a| - 1] in b)
    ensures a == b
  {
    if a != [] {
      var k :| 0 <= k < |b| && b[k] == a[|a| - 1];
      ChainedPrefix(h, b, k + 1);
      HeadDeterminesHistory(h, a, b[..k + 1]);
      TakeAll(a, b, k + 1);
    }
  }

  /** The chain is built in append order and verified in time order. So a run that the store built
      verifies if and only if no event of it was flagged, i.e. append order is time order. */
  lemma HonestRunVerifies(h: EventHash, log: Log, run: string)
    requires Built(h, log) && CollisionFree(h) && NonEmpty(h)
    ensures Chained(h, ListRun(log, run)) <==> RunUnflagged(log, run)
    ensures RunUnflagged(log, run) <==> ListRun(log, run) == EventsOf(ForRun(log, run))
  {
    var rs := ForRun(log, run);
    BuiltFacts(h, log);
    ForRunIncreasing(log, run);
    UnflaggedMeansSorted(h, log, run);
    if IsSorted(rs) {
      SortedIsSorted(rs);
      SortedPermutes(rs);
      SortedUnique(rs, Sorted(rs));
      AppendOrderChained(h, log, run);
    }
    if ListRun(log, run) == EventsOf(rs) {
      SortedTimes(h, log, run);
      forall i, j | 0 <= i < j < |rs| ensures Before(rs[i], rs[j]) {
        assert rs[i].event == EventsOf(rs)[i] && rs[j].event == EventsOf(rs)[j];
      }
    }
    if Chained(h, ListRun(log, run)) {
      VerifiedIsAppendOrder(h, log, run);
    }
  }

  /** Such runs are easily built: any event older than one of its run breaks the run's chain. */
  lemma LateEventBreaksChain(h: EventHash, log: Log, p: EventPayload)
    requires Built(h, log) && CollisionFree(h) && NonEmpty(h) && !Logged(log, p.runId, p.id)
    requires exists r :: r in ForRun(log, p.runId) && p.timestamp < r.event.timestamp
    ensures !Chained(h, ListRun(log + [MakeRecord(h, log, p)], p.runId))
  {
    var r := MakeRecord(h, log, p);
    FlagMeaning(h, log, p);
    AppendBuilt(h, log, p);
    ForRunAppend(log, r, p.runId);
    assert r in ForRun(log, p.runId) + [r];
    HonestRunVerifies(h, log + [r], p.runId);
  }

  /** Two appends to an empty store, the second one earlier, leave a run whose listing does not verify. */
  lemma TwoAppendsBreakChain(h: EventHash, p: EventPayload, q: EventPayload)
    requires CollisionFree(h) && NonEmpty(h)
    requires p.runId == q.runId && p.id != q.id && q.timestamp < p.timestamp
    ensures var first := [MakeRecord(h, [], p)];
            var both := first + [MakeRecord(h, first, q)];
            && Append(h, [], p) == Some(first)
            && Append(h, first, q) == Some(both)
            && !Chained(h, ListRun(both, p.runId))
  {
    var r := MakeRecord(h, [], p);
    AppendBuilt(h, [], p);
    ForRunAppend([], r, p.runId);
    assert [] + [r] == [r];
    assert r in ForRun([r], p.runId);
    LateEventBreaksChain(h, [r], q);
  }

  // ---------- The export ----------

  /** An empty decision id counts as none. */
  predicate Carries(e: StoredEvent, decisionId: string) {
    decisionId != "" && e.payload.approval.decisionId == Some(decisionId)
  }

  ghost function ExportSpec(h: EventHash, log: Log, decisionId: string): Result<seq<StoredEvent>, AuditError> {
    var matching := Filter((e: StoredEvent) => Carries(e, decisionId), ListAll(log));
    if matching == [] then Err(DecisionNotFound)
    else if exists e | e in matching :: e.runId != matching[0].runId then Err(CrossRunDecisionTrace)
    else
      var events := ListRun(log, matching[0].runId);
      if !Chained(h, events) then Err(HashChainBroken)
      else Ok(Filter((e: StoredEvent) => Carries(e, decisionId), events))
  }

  method ExportDecisionAudit(store: InMemoryEventStore, decisionId: string)
    returns (r: Result<seq<StoredEvent>, AuditError>)
    requires store.Valid()
    ensures r == ExportSpec(store.buildHash, store.log, decisionId)
  {
    var all := store.ListAll();
    var matching := Filter((e: StoredEvent) => Carries(e, decisionId), all);
    if matching == [] {
      return Err(DecisionNotFound);
    }
    if exists e | e in matching :: e.runId != matching[0].runId {
      return Err(CrossRunDecisionTrace);
    }
    var runEvents := store.ListByRunId(matching[0].runId);
    var ok := VerifyHashChain(store.buildHash, runEvents);
    if !ok {
      return Err(HashChainBroken);
    }
    return Ok(Filter((e: StoredEvent) => Carries(e, decisionId), runEvents));
  }

  /** Over a log that the store built, a successful export is exactly what the log holds for the
      decision, and the export breaks exactly when the decision's run has a flagged event. */
  lemma ExportIsComplete(h: EventHash, log: Log, decisionId: string)
    requires Built(h, log) && CollisionFree(h) && NonEmpty(h)
    ensures var r := ExportSpec(h, log, decisionId);
            && (r.Ok? ==> forall e :: e in r.value <==> e in ListAll(log) && Carries(e, decisionId))
            && (r == Err(HashChainBroken) ==>
                  exists e :: e in ListAll(log) && Carries(e, decisionId) && !RunUnflagged(log, e.runId))
            && (r.Ok? ==> forall e :: e in r.value ==> RunUnflagged(log, e.runId))
  {
    var p := (e: StoredEvent) => Carries(e, decisionId);
    var matching := Filter(p, ListAll(log));
    var r := ExportSpec(h, log, decisionId);
    if matching != [] {
      var run := matching[0].runId;
      assert matching[0] in matching;
      HonestRunVerifies(h, log, run);
      if r.Ok? {
        forall e ensures e in r.value <==> e in ListAll(log) && Carries(e, decisionId) {
          assert e in ListAll(log) && p(e) <==> e in matching;
          ListAllMembers(log, e);
          ListRunMembers(log, run, e);
        }
      }
    }
  }

  /** Some event of the run carries the decision. */
  ghost predicate CarriedIn(log: Log, decisionId: string, run: string) {
    decisionId != ""
    && exists r :: r in log && r.event.runId == run && r.event.payload.approval.decisionId == Some(decisionId)
  }

  ghost predicate OnlyIn(log: Log, decisionId: string, run: string) {
    CarriedIn(log, decisionId, run) && forall other :: CarriedIn(log, decisionId, other) ==> other == run
  }

  lemma MatchingRuns(log: Log, decisionId: string)
    ensures var matching := Filter((e: StoredEvent) => Carries(e, decisionId), ListAll(log));
            && (forall e :: e in matching ==> CarriedIn(log, decisionId, e.runId))
            && (forall run :: CarriedIn(log, decisionId, run) ==> exists e :: e in matching && e.runId == run)
  {
    var matching := Filter((e: StoredEvent) => Carries(e, decisionId), ListAll(log));
    forall e | e in matching ensures CarriedIn(log, decisionId, e.runId) {
      ListAllMembers(log, e);
    }
    forall run | CarriedIn(log, decisionId, run) ensures exists e :: e in matching && e.runId == run {
      var r :| r in log && r.event.runId == run && r.event.payload.approval.decisionId == Some(decisionId);
      ListAllMembers(log, r.event);
      assert r.event in matching;
    }
  }

  /** Which answer an export gives: not found if no event carries the decision, cross-run if events of two runs do,
      and otherwise, of the one run, a broken chain if and only if the run has a flagged event. */
  lemma ExportExactly(h: EventHash, log: Log, decisionId: string)
    requires Built(h, log) && CollisionFree(h) && NonEmpty(h)
    ensures var r := ExportSpec(h, log, decisionId);
            && (r == Err(DecisionNotFound) <==> forall run :: !CarriedIn(log, decisionId, run))
            && (r == Err(CrossRunDecisionTrace) <==>
                  exists a, b :: a != b && CarriedIn(log, decisionId, a) && CarriedIn(log, decisionId, b))
            && (r == Err(HashChainBroken) <==>
                  exists run :: OnlyIn(log, decisionId, run) && !RunUnflagged(log, run))
            && (r.Ok? <==> exists run :: OnlyIn(log, decisionId, run) && RunUnflagged(log, run))
  {
    MatchingRuns(log, decisionId);
    var matching := Filter((e: StoredEvent) => Carries(e, decisionId), ListAll(log));
    if matching != [] {
      var run := matching[0].runId;
      assert matching[0] in matching;
      HonestRunVerifies(h, log, run);
      if e :| e in matching && e.runId != run {
        assert CarriedIn(log, decisionId, run) && CarriedIn(log, decisionId, e.runId);
      } else {
        assert OnlyIn(log, decisionId, run);
      }
    }
  }

  /** What an export returns is what was appended to the run for the decision, in the order of appending. */
  lemma ExportInOrder(h: EventHash, log: Log, decisionId: string, run: string)
    requires Built(h, log) && CollisionFree(h) && NonEmpty(h)
    requires OnlyIn(log, decisionId, run) && RunUnflagged(log, run)
    ensures ExportSpec(h, log, decisionId) ==
            Ok(Filter((e: StoredEvent) => Carries(e, decisionId), EventsOf(ForRun(log, run))))
  {
    MatchingRuns(log, decisionId);
    HonestRunVerifies(h, log, run);
    var matching := Filter((e: StoredEvent) => Carries(e, decisionId), ListAll(log));
    assert matching[0] in matching;
  }
}
