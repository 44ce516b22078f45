/** The specification of the event store: one append-only log, and the listings read from it. */
module EventLog {
  import opened Prelude
  import opened Events

  datatype StoredRecord = StoredRecord(sequence: nat, event: StoredEvent)

  type Log = seq<StoredRecord>

  /** What an event's hash is computed from. */
  datatype HashInput = HashInput(
    runId: string,
    eventId: string,
    timestamp: Time,
    payload: EventPayload,
    integrityWarning: bool,
    prevHash: Option<string>)

  type EventHash = HashInput -> string

  ghost predicate NonEmpty(h: EventHash) {
    forall a :: h(a) != ""
  }

  ghost predicate CollisionFree(h: EventHash) {
    forall a, b :: h(a) == h(b) ==> a == b
  }

  /** The hash of an event whose predecessor's hash is prev. */
  function HashOf(h: EventHash, e: StoredEvent, prev: Option<string>): string {
    h(HashInput(e.runId, e.id, e.timestamp, e.payload, e.integrityWarning, prev))
  }

  // ---------- Sorting by (timestamp, sequence) ----------

  predicate Before(a: StoredRecord, b: StoredRecord) {
    a.event.timestamp < b.event.timestamp
    || (a.event.timestamp == b.event.timestamp && a.sequence < b.sequence)
  }

  ghost predicate IsSorted(s: Log) {
    forall i, j :: 0 <= i < j < |s| ==> Before(s[i], s[j])
  }

  ghost predicate DistinctSequences(s: Log) {
    forall i, j :: 0 <= i < j < |s| ==> s[i].sequence != s[j].sequence
  }

  function Insert(r: StoredRecord, s: Log): (t: Log)
    ensures |t| == |s| + 1
  {
    if s == [] then [r]
    else if Before(r, s[|s| - 1]) then Insert(r, s[..|s| - 1]) + [s[|s| - 1]]
    else s + [r]
  }

  /** Python's sorted, with key (timestamp, sequence). */
  function Sorted(rs: Log): (t: Log)
    ensures |t| == |rs|
  {
    if rs == [] then [] else Insert(rs[|rs| - 1], Sorted(rs[..|rs| - 1]))
  }

  lemma {:induction false} InsertPermutes(r: StoredRecord, s: Log)
    ensures multiset(Insert(r, s)) == multiset(s) + multiset{r}
  {
    if s != [] {
      assert s == s[..|s| - 1] + [s[|s| - 1]];
      if Before(r, s[|s| - 1]) {
        InsertPermutes(r, s[..|s| - 1]);
      }
    }
  }

  lemma {:induction false} SortedPermutes(rs: Log)
    ensures multiset(Sorted(rs)) == multiset(rs)
  {
    if rs != [] {
      assert rs == rs[..|rs| - 1] + [rs[|rs| - 1]];
      SortedPermutes(rs[..|rs| - 1]);
      InsertPermutes(rs[|rs| - 1], Sorted(rs[..|rs| - 1]));
    }
  }

  lemma {:induction false} InsertMembers(r: StoredRecord, s: Log)
    ensures forall x :: x in Insert(r, s) <==> x in s || x == r
  {
    if s != [] {
      assert s == s[..|s| - 1] + [s[|s| - 1]];
      if Before(r, s[|s| - 1]) {
        InsertMembers(r, s[..|s| - 1]);
      }
    }
  }

  lemma SortedMembers(rs: Log)
    ensures forall x :: x in Sorted(rs) <==> x in rs
  {
    SortedPermutes(rs);
    forall x: StoredRecord ensures x in Sorted(rs) <==> x in rs {
      assert x in Sorted(rs) <==> x in multiset(Sorted(rs));
      assert x in rs <==> x in multiset(rs);
    }
  }

  lemma {:induction false} InsertSorted(r: StoredRecord, s: Log)
    requires IsSorted(s) && forall i :: 0 <= i < |s| ==> s[i].sequence != r.sequence
    ensures IsSorted(Insert(r, s))
  {
    if s != [] && Before(r, s[|s| - 1]) {
      var init, last := s[..|s| - 1], s[|s| - 1];
      InsertSorted(r, init);
      var t := Insert(r, init);
      InsertMembers(r, init);
      forall i | 0 <= i < |t| ensures Before(t[i], last) {
        assert t[i] in t;
      }
    }
  }

  lemma {:induction false} SortedIsSorted(rs: Log)
    requires DistinctSequences(rs)
    ensures IsSorted(Sorted(rs))
  {
    if rs != [] {
      var init, last := rs[..|rs| - 1], rs[|rs| - 1];
      SortedIsSorted(init);
      var t := Sorted(init);
      SortedMembers(init);
      forall i | 0 <= i < |t| ensures t[i].sequence != last.sequence {
        assert t[i] in init;
      }
      InsertSorted(last, t);
    }
  }

  lemma LastIsGreatest(a: Log, b: Log)
    requires IsSorted(a) && IsSorted(b) && multiset(a) == multiset(b)
    requires a != [] && b != []
    ensures a[|a| - 1] == b[|b| - 1]
  {
    var x, y := a[|a| - 1], b[|b| - 1];
    assert x in multiset(b) && y in multiset(a);
    var i :| 0 <= i < |b| && b[i] == x;
    var j :| 0 <= j < |a| && a[j] == y;
    assert i < |b| - 1 ==> Before(x, y);
    assert j < |a| - 1 ==> Before(y, x);
  }

  lemma MultisetInit(a: Log)
    requires a != []
    ensures multiset(a[..|a| - 1]) == multiset(a) - multiset{a[|a| - 1]}
  {
    assert a == a[..|a| - 1] + [a[|a| - 1]];
  }

  /** A sorted sequence is determined by its elements. */
  lemma {:induction false} SortedUnique(a: Log, b: Log)
    requires IsSorted(a) && IsSorted(b) && multiset(a) == multiset(b)
    ensures a == b
  {
    SameSize(a, b);
    if a != [] {
      LastIsGreatest(a, b);
      MultisetInit(a);
      MultisetInit(b);
      SortedUnique(a[..|a| - 1], b[..|b| - 1]);
      assert a == a[..|a| - 1] + [a[|a| - 1]];
      assert b == b[..|b| - 1] + [b[|b| - 1]];
    }
  }

  // ---------- Runs ----------

  /** The records of one run, in append order. */
  function ForRun(log: Log, run: string): Log {
    if log == [] then [] else
      var last := log[|log| - 1];
      var rest := ForRun(log[..|log| - 1], run);
      if last.event.runId == run then rest + [last] else rest
  }

  lemma {:induction false} ForRunMembers(log: Log, run: string)
    ensures forall r :: r in ForRun(log, run) <==> r in log && r.event.runId == run
  {
    if log != [] {
      ForRunMembers(log[..|log| - 1], run);
      assert log == log[..|log| - 1] + [log[|log| - 1]];
    }
  }

  lemma {:induction false} ForRunCount(log: Log, run: string, x: StoredRecord)
    ensures multiset(ForRun(log, run))[x] == if x.event.runId == run then multiset(log)[x] else 0
  {
    if log != [] {
      ForRunCount(log[..|log| - 1], run, x);
      assert log == log[..|log| - 1] + [log[|log| - 1]];
    }
  }

  /** Python's max over the timestamps of a non-empty sequence of events. */
  function MaxTime(es: seq<StoredEvent>): Time
    requires es != []
  {
    var n := |es| - 1;
    if n == 0 then es[n].timestamp else
      var m := MaxTime(es[..n]);
      if m < es[n].timestamp then es[n].timestamp else m
  }

  /** Some event attains the maximum and none exceeds it. */
  lemma {:induction false} MaxTimeIsGreatest(es: seq<StoredEvent>) returns (e: StoredEvent)
    requires es != []
    ensures e in es && e.timestamp == MaxTime(es)
    ensures forall x | x in es :: x.timestamp <= MaxTime(es)
  {
    var n := |es| - 1;
    e := es[n];
    assert es == es[..n] + [es[n]];
    if n > 0 {
      var x := MaxTimeIsGreatest(es[..n]);
      if e.timestamp <= x.timestamp {
        e := x;
      }
    }
  }

  function EventsOf(rs: Log): (es: seq<StoredEvent>)
    ensures |es| == |rs|
    ensures forall i :: 0 <= i < |es| ==> es[i] == rs[i].event
  {
    seq(|rs|, i requires 0 <= i < |rs| => rs[i].event)
  }

  /** The events of one run, by time. */
  function ListRun(log: Log, run: string): seq<StoredEvent> {
    EventsOf(Sorted(ForRun(log, run)))
  }

  /** The events of all runs, by time. */
  function ListAll(log: Log): seq<StoredEvent> {
    EventsOf(Sorted(log))
  }

  // ---------- Appending ----------

  predicate Logged(log: Log, run: string, id: string) {
    exists r | r in log :: r.event.runId == run && r.event.id == id
  }

  /** The record the store makes of an event: flagged when it is older than the newest of its run,
      and linked to the last appended one of its run. */
  function MakeRecord(h: EventHash, log: Log, p: EventPayload): StoredRecord {
    var run := ForRun(log, p.runId);
    var warning := run != [] && p.timestamp < MaxTime(EventsOf(run));
    var prev := if run == [] then None else Some(run[|run| - 1].event.hash);
    StoredRecord(
      |log| + 1,
      StoredEvent(p.id, p.timestamp, p.runId, p, warning, prev,
                  h(HashInput(p.runId, p.id, p.timestamp, p, warning, prev))))
  }

  function Append(h: EventHash, log: Log, p: EventPayload): Option<Log> {
    if Logged(log, p.runId, p.id) then None else Some(log + [MakeRecord(h, log, p)])
  }

  /** Record i is what appending its payload to the records before it made. */
  ghost predicate AppendedAt(h: EventHash, log: Log, i: nat)
    requires i < |log|
  {
    var p := log[i].event.payload;
    log[i] == MakeRecord(h, log[..i], p) && !Logged(log[..i], p.runId, p.id)
  }

  /** The logs that appending can build. */
  ghost predicate Built(h: EventHash, log: Log) {
    forall i :: 0 <= i < |log| ==> AppendedAt(h, log, i)
  }

  // ---------- Built logs ----------

  ghost predicate Increasing(log: Log) {
    forall i, j :: 0 <= i < j < |log| ==> log[i].sequence < log[j].sequence
  }

  ghost predicate FieldsMatch(e: StoredEvent) {
    e.id == e.payload.id && e.runId == e.payload.runId && e.timestamp == e.payload.timestamp
  }

  lemma BuiltFacts(h: EventHash, log: Log)
    requires Built(h, log)
    ensures Increasing(log)
    ensures forall r | r in log :: FieldsMatch(r.event)
    ensures forall i :: 0 <= i < |log| ==> log[i].sequence == i + 1
  {
    forall i | 0 <= i < |log| ensures log[i].sequence == i + 1 && FieldsMatch(log[i].event) {
      assert AppendedAt(h, log, i);
    }
  }

  lemma BuiltPrefix(h: EventHash, log: Log, n: nat)
    requires Built(h, log) && n <= |log|
    ensures Built(h, log[..n])
  {
    forall i | 0 <= i < n ensures AppendedAt(h, log[..n], i) {
      assert AppendedAt(h, log, i);
      assert log[..n][..i] == log[..i];
    }
  }

  lemma AppendBuilt(h: EventHash, log: Log, p: EventPayload)
    requires Built(h, log) && !Logged(log, p.runId, p.id)
    ensures Built(h, log + [MakeRecord(h, log, p)])
  {
    var log' := log + [MakeRecord(h, log, p)];
    forall i | 0 <= i < |log'| ensures AppendedAt(h, log', i) {
      if i < |log| {
        assert AppendedAt(h, log, i);
        assert log'[..i] == log[..i];
      } else {
        assert log'[..i] == log;
      }
    }
  }

  /** A run and an id name at most one record of a built log. */
  lemma IdsUnique(h: EventHash, log: Log, i: nat, j: nat)
    requires Built(h, log) && i < |log| && j < |log|
    requires log[i].event.runId == log[j].event.runId && log[i].event.id == log[j].event.id
    ensures i == j
  {
    BuiltFacts(h, log);
    assert AppendedAt(h, log, i) && AppendedAt(h, log, j);
  }

  lemma ForRunAppend(log: Log, r: StoredRecord, run: string)
    ensures ForRun(log + [r], run) == if r.event.runId == run then ForRun(log, run) + [r] else ForRun(log, run)
  {
    assert (log + [r])[..|log|] == log;
  }

  lemma {:induction false} ForRunIncreasing(log: Log, run: string)
    requires Increasing(log)
    ensures Increasing(ForRun(log, run))
  {
    if log != [] {
      var init, last := log[..|log| - 1], log[|log| - 1];
      ForRunIncreasing(init, run);
      assert log == init + [last];
      ForRunAppend(init, last, run);
      var t := ForRun(init, run);
      ForRunMembers(init, run);
      forall i | 0 <= i < |t| ensures t[i].sequence < last.sequence {
        assert t[i] in init;
      }
    }
  }

  lemma SortedAppendLater(rs: Log, r: StoredRecord)
    requires forall x | x in rs :: !Before(r, x)
    ensures Sorted(rs + [r]) == Sorted(rs) + [r]
  {
    assert (rs + [r])[..|rs|] == rs;
    var t := Sorted(rs);
    SortedMembers(rs);
    if t != [] {
      assert t[|t| - 1] in t;
    }
  }

  lemma InsertStep(r: StoredRecord, s: Log, last: StoredRecord)
    ensures Insert(r, s + [last]) == if Before(r, last) then Insert(r, s) + [last] else s + [last] + [r]
  {
    assert (s + [last])[..|s|] == s;
  }

  lemma InsertAtEnd(r: StoredRecord, s: Log)
    requires forall x | x in s :: !Before(r, x)
    ensures Insert(r, s) == s + [r]
  {
  }

  /** A record that comes after all of s is filtered like an appended one. */
  lemma FilterInsertLast(r: StoredRecord, s: Log, run: string)
    requires forall x | x in s :: !Before(r, x)
    ensures ForRun(Insert(r, s), run) == if r.event.runId == run then Insert(r, ForRun(s, run)) else ForRun(s, run)
  {
    InsertAtEnd(r, s);
    ForRunAppend(s, r, run);
    ForRunMembers(s, run);
    InsertAtEnd(r, ForRun(s, run));
  }

  lemma FilterInsertBefore(r: StoredRecord, s: Log, last: StoredRecord, run: string)
    requires Before(r, last)
    requires ForRun(Insert(r, s), run) == if r.event.runId == run then Insert(r, ForRun(s, run)) else ForRun(s, run)
    ensures ForRun(Insert(r, s + [last]), run) ==
            if r.event.runId == run then Insert(r, ForRun(s + [last], run)) else ForRun(s + [last], run)
  {
    InsertStep(r, s, last);
    ForRunAppend(s, last, run);
    ForRunAppend(Insert(r, s), last, run);
    InsertStep(r, ForRun(s, run), last);
  }

  lemma {:induction false} FilterInsert(r: StoredRecord, s: Log, run: string)
    requires IsSorted(s)
    ensures ForRun(Insert(r, s), run) == if r.event.runId == run then Insert(r, ForRun(s, run)) else ForRun(s, run)
  {
    if s != [] && Before(r, s[|s| - 1]) {
      var init, last := s[..|s| - 1], s[|s| - 1];
      FilterInsert(r, init, run);
      FilterInsertBefore(r, init, last, run);
      assert s == init + [last];
    } else {
      forall x | x in s ensures !Before(r, x) {
        var i :| 0 <= i < |s| && s[i] == x;
        assert i < |s| - 1 ==> Before(s[i], s[|s| - 1]);
      }
      FilterInsertLast(r, s, run);
    }
  }

  lemma {:induction false} FilterSorted(log: Log, run: string)
    requires Increasing(log)
    ensures ForRun(Sorted(log), run) == Sorted(ForRun(log, run))
  {
    if log != [] {
      var init, last := log[..|log| - 1], log[|log| - 1];
      assert log == init + [last];
      FilterSorted(init, run);
      ForRunAppend(init, last, run);
      SortedIsSorted(init);
      FilterInsert(last, Sorted(init), run);
      assert (ForRun(init, run) + [last])[..|ForRun(init, run)|] == ForRun(init, run);
    }
  }

  lemma {:induction false} FilterEventsOf(rs: Log, run: string)
    ensures Filter((e: StoredEvent) => e.runId == run, EventsOf(rs)) == EventsOf(ForRun(rs, run))
  {
    var p := (e: StoredEvent) => e.runId == run;
    if rs != [] {
      var init, last := rs[..|rs| - 1], rs[|rs| - 1];
      assert rs == init + [last];
      FilterEventsOf(init, run);
      ForRunAppend(init, last, run);
      assert EventsOf(rs) == EventsOf(init) + [last.event];
      FilterAppend(p, EventsOf(init), last.event);
    }
  }

  /** Keeping one run's events of the global listing gives that run's listing. */
  lemma ListAllOfRun(h: EventHash, log: Log, run: string)
    requires Built(h, log)
    ensures Filter((e: StoredEvent) => e.runId == run, ListAll(log)) == ListRun(log, run)
  {
    BuiltFacts(h, log);
    FilterSorted(log, run);
    FilterEventsOf(Sorted(log), run);
  }

  /** By timestamp, and by sequence where timestamps are equal. */
  ghost predicate StablyOrdered(s: Log) {
    forall i, j :: 0 <= i < j < |s| ==>
      && s[i].event.timestamp <= s[j].event.timestamp
      && (s[i].event.timestamp == s[j].event.timestamp ==> s[i].sequence < s[j].sequence)
  }

  lemma StablyOrderedIsSorted(s: Log)
    ensures StablyOrdered(s) <==> IsSorted(s)
  {
    if StablyOrdered(s) {
      forall i, j | 0 <= i < j < |s| ensures Before(s[i], s[j]) {
      }
    }
    if IsSorted(s) {
      forall i, j | 0 <= i < j < |s|
        ensures s[i].event.timestamp <= s[j].event.timestamp
        ensures s[i].event.timestamp == s[j].event.timestamp ==> s[i].sequence < s[j].sequence
      {
        assert Before(s[i], s[j]);
      }
    }
  }

  /** A run's listing is the stable timestamp sort of what was appended to it: of all arrangements of
      those records exactly one is by timestamp and keeps append order among equals, and it is listed. */
  lemma ListRunIsStableSort(h: EventHash, log: Log, run: string, s: Log)
    requires Built(h, log)
    requires multiset(s) == multiset(ForRun(log, run))
    ensures StablyOrdered(s) <==> s == Sorted(ForRun(log, run))
    ensures StablyOrdered(s) ==> ListRun(log, run) == EventsOf(s)
  {
    BuiltFacts(h, log);
    ForRunIncreasing(log, run);
    SortedIsSorted(ForRun(log, run));
    SortedPermutes(ForRun(log, run));
    StablyOrderedIsSorted(s);
    if StablyOrdered(s) {
      SortedUnique(s, Sorted(ForRun(log, run)));
    }
  }

  lemma EventsOfMembers(rs: Log, e: StoredEvent)
    ensures e in EventsOf(rs) <==> exists r :: r in rs && r.event == e
  {
    if e in EventsOf(rs) {
      var i :| 0 <= i < |rs| && EventsOf(rs)[i] == e;
      assert rs[i] in rs;
    }
    if r :| r in rs && r.event == e {
      var i :| 0 <= i < |rs| && rs[i] == r;
      assert EventsOf(rs)[i] == e;
    }
  }

  lemma ListAllMembers(log: Log, e: StoredEvent)
    ensures e in ListAll(log) <==> exists r :: r in log && r.event == e
  {
    EventsOfMembers(Sorted(log), e);
    SortedMembers(log);
  }

  lemma ListRunMembers(log: Log, run: string, e: StoredEvent)
    ensures e in ListRun(log, run) <==> exists r :: r in log && r.event == e && e.runId == run
  {
    EventsOfMembers(Sorted(ForRun(log, run)), e);
    SortedMembers(ForRun(log, run));
    ForRunMembers(log, run);
  }

  // ---------- Appending in time order ----------

  ghost predicate NoWarnings(log: Log) {
    forall r | r in log :: !r.event.integrityWarning
  }

  /** p is stamped strictly after every event of its run. */
  predicate Later(log: Log, p: EventPayload) {
    forall r | r in log && r.event.runId == p.runId :: r.event.timestamp < p.timestamp
  }

  lemma LaterThanLatest(log: Log, p: EventPayload)
    requires var es := ListRun(log, p.runId); es != [] ==> MaxTime(es) < p.timestamp
    ensures Later(log, p)
  {
    forall r | r in log && r.event.runId == p.runId ensures r.event.timestamp < p.timestamp {
      ListRunMembers(log, p.runId, r.event);
      var _ := MaxTimeIsGreatest(ListRun(log, p.runId));
    }
  }

  /** The listing's last event is its newest. */
  lemma LastIsNewest(h: EventHash, log: Log, run: string)
    requires Built(h, log) && ListRun(log, run) != []
    ensures var es := ListRun(log, run); es[|es| - 1].timestamp == MaxTime(es)
  {
    BuiltFacts(h, log);
    ForRunIncreasing(log, run);
    SortedIsSorted(ForRun(log, run));
    var t := Sorted(ForRun(log, run));
    var es := ListRun(log, run);
    var e := MaxTimeIsGreatest(es);
    var i :| 0 <= i < |es| && es[i] == e;
    assert i < |es| - 1 ==> Before(t[i], t[|es| - 1]);
  }

  /** p is stamped no earlier than any event of its run. */
  ghost predicate NotEarlier(log: Log, p: EventPayload) {
    forall r | r in log && r.event.runId == p.runId :: r.event.timestamp <= p.timestamp
  }

  lemma UnflaggedWhenInOrder(h: EventHash, log: Log, p: EventPayload)
    requires NotEarlier(log, p)
    ensures !MakeRecord(h, log, p).event.integrityWarning
  {
    var es := EventsOf(ForRun(log, p.runId));
    if es != [] {
      var e := MaxTimeIsGreatest(es);
      var i :| 0 <= i < |es| && es[i] == e;
      ForRunMembers(log, p.runId);
      assert ForRun(log, p.runId)[i] in ForRun(log, p.runId);
    }
  }

  /** Appending an event that is not older than its run extends the run's listing at its end. */
  lemma ListedAtEnd(log: Log, r: StoredRecord)
    requires forall x | x in log && x.event.runId == r.event.runId :: !Before(r, x)
    ensures ListRun(log + [r], r.event.runId) == ListRun(log, r.event.runId) + [r.event]
  {
    var run := r.event.runId;
    ForRunAppend(log, r, run);
    ForRunMembers(log, run);
    SortedAppendLater(ForRun(log, run), r);
    assert EventsOf(Sorted(ForRun(log, run)) + [r]) == EventsOf(Sorted(ForRun(log, run))) + [r.event];
  }

  /** ... unflagged, and touches no other run. */
  lemma AppendInOrder(h: EventHash, log: Log, p: EventPayload)
    requires Built(h, log) && !Logged(log, p.runId, p.id) && NotEarlier(log, p)
    ensures var r := MakeRecord(h, log, p);
            && Built(h, log + [r])
            && !r.event.integrityWarning
            && ListRun(log + [r], p.runId) == ListRun(log, p.runId) + [r.event]
            && forall run :: run != p.runId ==> ListRun(log + [r], run) == ListRun(log, run)
  {
    var r := MakeRecord(h, log, p);
    AppendBuilt(h, log, p);
    BuiltFacts(h, log);
    UnflaggedWhenInOrder(h, log, p);
    ListedAtEnd(log, r);
    forall run | run != p.runId ensures ListRun(log + [r], run) == ListRun(log, run) {
      ForRunAppend(log, r, run);
    }
  }

  ghost predicate GrownAt(h: EventHash, log: Log, i: nat)
    requires i < |log|
  {
    AppendedAt(h, log, i) && Later(log[..i], log[i].event.payload)
  }

  /** log' extends log by events that were each stamped after their run. */
  ghost predicate Grows(h: EventHash, log: Log, log': Log) {
    && log <= log'
    && forall i :: |log| <= i < |log'| ==> GrownAt(h, log', i)
  }

  lemma GrowsByOne(h: EventHash, log: Log, p: EventPayload)
    requires !Logged(log, p.runId, p.id) && Later(log, p)
    ensures Grows(h, log, log + [MakeRecord(h, log, p)])
  {
    var log' := log + [MakeRecord(h, log, p)];
    assert log'[..|log|] == log;
    assert GrownAt(h, log', |log|);
  }

  lemma GrowsTransitive(h: EventHash, a: Log, b: Log, c: Log)
    requires Grows(h, a, b) && Grows(h, b, c)
    ensures Grows(h, a, c)
  {
    forall i | |a| <= i < |c| ensures GrownAt(h, c, i) {
      if i < |b| {
        assert GrownAt(h, b, i);
        assert c[..i] == b[..i] && c[i] == b[i];
      }
    }
  }

  lemma StepKeeps(h: EventHash, log: Log, p: EventPayload)
    requires Built(h, log) && !Logged(log, p.runId, p.id) && NotEarlier(log, p)
    ensures var log' := log + [MakeRecord(h, log, p)];
            && Built(h, log')
            && (NoWarnings(log) ==> NoWarnings(log'))
            && forall run :: ListRun(log, run) <= ListRun(log', run)
  {
    AppendInOrder(h, log, p);
    var log' := log + [MakeRecord(h, log, p)];
    forall run ensures ListRun(log, run) <= ListRun(log', run) {
    }
  }

  /** Growing keeps the chain built and unflagged, and only extends the listing of any run. */
  lemma {:induction false} GrowsKeeps(h: EventHash, log: Log, log': Log)
    requires Grows(h, log, log') && Built(h, log)
    ensures Built(h, log')
    ensures NoWarnings(log) ==> NoWarnings(log')
    ensures forall run :: ListRun(log, run) <= ListRun(log', run)
    decreases |log'|
  {
    if |log'| == |log| {
      assert log' == log;
    } else {
      var mid := log'[..|log'| - 1];
      GrowsInit(h, log, log');
      GrowsKeeps(h, log, mid);
      StepKeeps(h, mid, log'[|log'| - 1].event.payload);
      forall run ensures ListRun(log, run) <= ListRun(log', run) {
        PrefixTransitive(ListRun(log, run), ListRun(mid, run), ListRun(log', run));
      }
    }
  }

  lemma PrefixTransitive<T>(a: seq<T>, b: seq<T>, c: seq<T>)
    requires a <= b <= c
    ensures a <= c
  {
  }

  lemma GrowsInit(h: EventHash, log: Log, log': Log)
    requires Grows(h, log, log') && |log| < |log'|
    ensures var mid := log'[..|log'| - 1];
            var p := log'[|log'| - 1].event.payload;
            && Grows(h, log, mid)
            && log' == mid + [MakeRecord(h, mid, p)]
            && !Logged(mid, p.runId, p.id)
            && Later(mid, p)
  {
    var n := |log'| - 1;
    var mid := log'[..n];
    assert GrownAt(h, log', n);
    forall i | |log| <= i < |mid| ensures GrownAt(h, mid, i) {
      assert GrownAt(h, log', i);
      assert mid[..i] == log'[..i];
    }
  }

  // ---------- Counting in the global listing ----------

  lemma EventsOfAppend(rs: Log, r: StoredRecord)
    ensures EventsOf(rs + [r]) == EventsOf(rs) + [r.event]
  {
  }

  lemma {:induction false} InsertEvents(r: StoredRecord, s: Log)
    ensures multiset(EventsOf(Insert(r, s))) == multiset(EventsOf(s)) + multiset{r.event}
  {
    if s != [] && Before(r, s[|s| - 1]) {
      var init, last := s[..|s| - 1], s[|s| - 1];
      assert s == init + [last];
      InsertEvents(r, init);
      EventsOfAppend(init, last);
      EventsOfAppend(Insert(r, init), last);
    } else {
      EventsOfAppend(s, r);
      assert s == [] ==> Insert(r, s) == s + [r];
    }
  }

  /** One append adds one event to the global listing, somewhere. */
  lemma ListAllAppend(log: Log, r: StoredRecord)
    ensures multiset(ListAll(log + [r])) == multiset(ListAll(log)) + multiset{r.event}
  {
    assert (log + [r])[..|log|] == log;
    InsertEvents(r, Sorted(log));
  }
}
