/** The SQLite event store: flags by the last appended event, sorts by text; and how far it agrees with the
    in-memory store. */
module SqliteStore {
  import opened Prelude
  import opened Events
  import opened EventLog
  import opened EventStore
  import IsoTime
  import AuditExport

  /** An event whose timestamp a datetime can hold. */
  predicate Datable(t: Time) {
    IsoTime.InRange(t)
  }

  ghost predicate AllDatable(rows: Log) {
    forall r | r in rows :: Datable(r.event.timestamp)
  }

  /** The text of the timestamp column. */
  function Text(t: Time): string {
    if Datable(t) then IsoTime.IsoText(IsoTime.FromInstant(t)) else ""
  }

  // ---------- ORDER BY timestamp, sequence ----------

  predicate TextBefore(a: StoredRecord, b: StoredRecord) {
    IsoTime.TextBefore(Text(a.event.timestamp), Text(b.event.timestamp))
    || (Text(a.event.timestamp) == Text(b.event.timestamp) && a.sequence < b.sequence)
  }

  function InsertByText(r: StoredRecord, s: Log): Log {
    if s == [] then [r]
    else if TextBefore(r, s[|s| - 1]) then InsertByText(r, s[..|s| - 1]) + [s[|s| - 1]]
    else s + [r]
  }

  function OrderByText(rs: Log): Log {
    if rs == [] then [] else InsertByText(rs[|rs| - 1], OrderByText(rs[..|rs| - 1]))
  }

  lemma TextBeforeIsBefore(a: StoredRecord, b: StoredRecord)
    requires Datable(a.event.timestamp) && Datable(b.event.timestamp)
    ensures TextBefore(a, b) <==> Before(a, b)
  {
    IsoTime.TextOrderIsTimeOrder(IsoTime.FromInstant(a.event.timestamp), IsoTime.FromInstant(b.event.timestamp));
  }

  lemma {:induction false} InsertByTextSame(r: StoredRecord, s: Log)
    requires AllDatable(s) && Datable(r.event.timestamp)
    ensures InsertByText(r, s) == Insert(r, s)
  {
    if s != [] {
      var last := s[|s| - 1];
      assert last in s;
      TextBeforeIsBefore(r, last);
      assert forall x | x in s[..|s| - 1] :: x in s;
      InsertByTextSame(r, s[..|s| - 1]);
    }
  }

  /** Ordering rows by their timestamps' text is ordering them by time. */
  lemma {:induction false} OrderByTextIsSorted(rs: Log)
    requires AllDatable(rs)
    ensures OrderByText(rs) == Sorted(rs)
  {
    if rs != [] {
      var init := rs[..|rs| - 1];
      assert rs[|rs| - 1] in rs;
      assert forall x | x in init :: x in rs;
      OrderByTextIsSorted(init);
      SortedMembers(init);
      InsertByTextSame(rs[|rs| - 1], Sorted(init));
    }
  }

  lemma OneMoreEach(t: Log, s: Log, last: StoredRecord, x: StoredEvent)
    requires multiset(EventsOf(t)) == multiset(EventsOf(s)) + multiset{x}
    ensures multiset(EventsOf(t + [last])) == multiset(EventsOf(s + [last])) + multiset{x}
  {
    EventsOfAppend(t, last);
    EventsOfAppend(s, last);
  }

  lemma {:induction false} InsertByTextKeeps(r: StoredRecord, s: Log)
    ensures multiset(EventsOf(InsertByText(r, s))) == multiset(EventsOf(s)) + multiset{r.event}
  {
    if s != [] && TextBefore(r, s[|s| - 1]) {
      var init, last := s[..|s| - 1], s[|s| - 1];
      assert s == init + [last];
      assert InsertByText(r, s) == InsertByText(r, init) + [last];
      InsertByTextKeeps(r, init);
      OneMoreEach(InsertByText(r, init), init, last, r.event);
    } else {
      assert InsertByText(r, s) == s + [r];
      EventsOfAppend(s, r);
    }
  }

  lemma {:induction false} OrderByTextKeeps(rs: Log)
    ensures multiset(EventsOf(OrderByText(rs))) == multiset(EventsOf(rs))
  {
    if rs != [] {
      var init, last := rs[..|rs| - 1], rs[|rs| - 1];
      assert rs == init + [last];
      OrderByTextKeeps(init);
      InsertByTextKeeps(last, OrderByText(init));
      EventsOfAppend(init, last);
    }
  }

  // ---------- The store ----------

  /** The row of an event: flagged when it is older than the last one appended to its run. */
  function MakeRow(h: EventHash, rows: Log, p: EventPayload): StoredRecord {
    var run := ForRun(rows, p.runId);
    var warning := run != [] && p.timestamp < run[|run| - 1].event.timestamp;
    var prev := if run == [] then None else Some(run[|run| - 1].event.hash);
    StoredRecord(
      |rows| + 1,
      StoredEvent(p.id, p.timestamp, p.runId, p, warning, prev,
                  h(HashInput(p.runId, p.id, p.timestamp, p, warning, prev))))
  }

  function InsertRow(h: EventHash, rows: Log, p: EventPayload): Option<Log> {
    if Logged(rows, p.runId, p.id) then None else Some(rows + [MakeRow(h, rows, p)])
  }

  function LastOf(rows: Log, run: string): Option<StoredRecord> {
    var rs := ForRun(rows, run);
    if rs == [] then None else Some(rs[|rs| - 1])
  }

  /** Row i is the last one of its run. */
  ghost predicate LastAt(rows: Log, run: string, i: int)
    requires 0 <= i < |rows|
  {
    rows[i].event.runId == run && forall j :: i < j < |rows| ==> rows[j].event.runId != run
  }

  /** The flag says that the event is older than the last one appended to its run; not, as in memory, than the
      newest. */
  lemma FlagMeaning(h: EventHash, rows: Log, p: EventPayload)
    ensures MakeRow(h, rows, p).event.integrityWarning <==>
            exists i :: 0 <= i < |rows| && LastAt(rows, p.runId, i) && p.timestamp < rows[i].event.timestamp
  {
    LastPosition(rows, p.runId);
    if ForRun(rows, p.runId) != [] {
      var rs := ForRun(rows, p.runId);
      var i :| 0 <= i < |rows| && LastAt(rows, p.runId, i) && rows[i] == rs[|rs| - 1];
      forall k | 0 <= k < |rows| && LastAt(rows, p.runId, k) ensures k == i {
      }
    }
  }

  lemma {:induction false} LastPosition(rows: Log, run: string)
    ensures var rs := ForRun(rows, run);
            && (rs == [] ==> forall i :: 0 <= i < |rows| ==> rows[i].event.runId != run)
            && (rs != [] ==> exists i :: 0 <= i < |rows| && LastAt(rows, run, i) && rows[i] == rs[|rs| - 1])
  {
    if rows != [] {
      var n := |rows| - 1;
      LastPosition(rows[..n], run);
      assert forall i :: 0 <= i < n ==> rows[i] == rows[..n][i];
      if rows[n].event.runId == run {
        assert LastAt(rows, run, n);
      } else if ForRun(rows, run) != [] {
        var rs := ForRun(rows, run);
        var i :| 0 <= i < n && LastAt(rows[..n], run, i) && rows[..n][i] == rs[|rs| - 1];
        assert LastAt(rows, run, i);
      }
    }
  }

  /** So the two differ on three events of one run, of which the third is between the first two in time. */
  lemma FlagsDiffer(h: EventHash, p: EventPayload, q: EventPayload, r: EventPayload)
    requires p.runId == q.runId == r.runId && q.timestamp <= r.timestamp < p.timestamp
    ensures var a := [MakeRecord(h, [], p)];
            var b := [MakeRow(h, [], p)];
            var a2, b2 := a + [MakeRecord(h, a, q)], b + [MakeRow(h, b, q)];
            MakeRecord(h, a2, r).event.integrityWarning && !MakeRow(h, b2, r).event.integrityWarning
  {
    var a := [MakeRecord(h, [], p)];
    var b := [MakeRow(h, [], p)];
    var a2, b2 := a + [MakeRecord(h, a, q)], b + [MakeRow(h, b, q)];
    ForRunMembers(a2, p.runId);
    assert a2[0] in a2;
    AuditExport.FlagMeaning(h, a2, r);
    FlagMeaning(h, b2, r);
    assert LastAt(b2, r.runId, 1);
  }

  class SQLiteAppendOnlyEventStore {
    const buildHash: EventHash
    var rows: Log

    constructor (h: EventHash)
      ensures buildHash == h && rows == []
    {
      buildHash := h;
      rows := [];
    }

    /** The newest row of a run by sequence. */
    method SelectLast(run: string) returns (last: Option<StoredRecord>)
      ensures last == LastOf(rows, run)
    {
      var i := |rows|;
      assert rows[..|rows|] == rows;
      while i > 0
        invariant 0 <= i <= |rows|
        invariant LastOf(rows[..i], run) == LastOf(rows, run)
      {
        assert rows[..i][..i - 1] == rows[..i - 1];
        i := i - 1;
        if rows[i].event.runId == run {
          return Some(rows[i]);
        }
      }
      assert rows[..0] == [];
      return None;
    }

    method Append(event: EventPayload) returns (r: AppendResult)
      modifies this
      ensures r.Duplicate? <==> Logged(old(rows), event.runId, event.id)
      ensures r.Duplicate? ==> rows == old(rows)
      ensures r.Stored? ==> InsertRow(buildHash, old(rows), event) == Some(rows) && r.event == rows[|old(rows)|].event
    {
      var integrityWarning := false;
      var lastRow := SelectLast(event.runId);
      var prevHash: Option<string> := None;
      if lastRow.Some? {
        if event.timestamp < lastRow.value.event.timestamp {
          integrityWarning := true;
        }
        prevHash := Some(lastRow.value.event.hash);
      }
      var currentHash := buildHash(
        HashInput(event.runId, event.id, event.timestamp, event, integrityWarning, prevHash));
      // The UNIQUE(run_id, event_id) constraint.
      if Logged(rows, event.runId, event.id) {
        return Duplicate;
      }
      var row := StoredRecord(
        |rows| + 1,
        StoredEvent(event.id, event.timestamp, event.runId, event, integrityWarning, prevHash, currentHash));
      assert row == MakeRow(buildHash, rows, event);
      rows := rows + [row];
      r := Stored(row.event);
    }

    /** The query orders by text; over timestamps that a datetime can hold, the answer is in order of time. */
    method ListByRunId(run: string) returns (es: seq<StoredEvent>)
      ensures multiset(es) == multiset(EventsOf(ForRun(rows, run)))
      ensures AllDatable(rows) ==> es == EventLog.ListRun(rows, run)
    {
      OrderByTextKeeps(ForRun(rows, run));
      if AllDatable(rows) {
        ForRunMembers(rows, run);
        OrderByTextIsSorted(ForRun(rows, run));
      }
      es := EventsOf(OrderByText(ForRun(rows, run)));
    }

    method ListAll() returns (es: seq<StoredEvent>)
      ensures multiset(es) == multiset(EventsOf(rows))
      ensures AllDatable(rows) ==> es == EventLog.ListAll(rows)
    {
      OrderByTextKeeps(rows);
      if AllDatable(rows) {
        OrderByTextIsSorted(rows);
      }
      es := EventsOf(OrderByText(rows));
    }
  }

  // ---------- The two backends side by side ----------

  /** The logs after offering the same events to each store; refused ones are skipped. */
  function MemoryAfter(h: EventHash, ps: seq<EventPayload>): Log {
    if ps == [] then []
    else
      var log := MemoryAfter(h, ps[..|ps| - 1]);
      match Append(h, log, ps[|ps| - 1]) case None => log case Some(log') => log'
  }

  function SqliteAfter(h: EventHash, ps: seq<EventPayload>): Log {
    if ps == [] then []
    else
      var rows := SqliteAfter(h, ps[..|ps| - 1]);
      match InsertRow(h, rows, ps[|ps| - 1]) case None => rows case Some(rows') => rows'
  }

  /** The same event, whatever its flag and hashes. */
  predicate SameEvent(a: StoredRecord, b: StoredRecord) {
    && a.sequence == b.sequence
    && a.event.id == b.event.id && a.event.timestamp == b.event.timestamp
    && a.event.runId == b.event.runId && a.event.payload == b.event.payload
  }

  ghost predicate SameEvents(a: Log, b: Log) {
    |a| == |b| && forall i :: 0 <= i < |a| ==> SameEvent(a[i], b[i])
  }

  /** No record of the run before i is flagged. */
  ghost predicate CleanBefore(a: Log, i: int)
    requires 0 <= i < |a|
  {
    forall j :: 0 <= j < i && a[j].event.runId == a[i].event.runId ==> !a[j].event.integrityWarning
  }

  /** A flag in SQLite is a flag in memory, and up to a run's first flag in memory the records are identical. */
  ghost predicate FlagsAgree(a: Log, b: Log)
    requires |a| == |b|
  {
    && (forall i :: 0 <= i < |a| && b[i].event.integrityWarning ==> a[i].event.integrityWarning)
    && (forall i :: 0 <= i < |a| && CleanBefore(a, i) ==> a[i] == b[i])
  }

  lemma {:induction false} RunsCorrespond(a: Log, b: Log, run: string)
    requires SameEvents(a, b)
    ensures SameEvents(ForRun(a, run), ForRun(b, run))
    ensures (forall i :: 0 <= i < |a| && a[i].event.runId == run ==> a[i] == b[i]) ==> ForRun(a, run) == ForRun(b, run)
  {
    if a != [] {
      RunsCorrespond(a[..|a| - 1], b[..|b| - 1], run);
    }
  }

  lemma SameLogged(a: Log, b: Log, run: string, id: string)
    requires SameEvents(a, b)
    ensures Logged(a, run, id) <==> Logged(b, run, id)
  {
    if Logged(a, run, id) {
      var r :| r in a && r.event.runId == run && r.event.id == id;
      var i :| 0 <= i < |a| && a[i] == r;
      assert b[i] in b;
    }
    if Logged(b, run, id) {
      var r :| r in b && r.event.runId == run && r.event.id == id;
      var i :| 0 <= i < |b| && b[i] == r;
      assert a[i] in a;
    }
  }

  /** In an unflagged run the last event is the newest. */
  lemma LastIsMax(h: EventHash, log: Log, run: string)
    requires Built(h, log) && ForRun(log, run) != []
    ensures var rs := ForRun(log, run);
            && rs[|rs| - 1].event.timestamp <= MaxTime(EventsOf(rs))
            && (AuditExport.RunUnflagged(log, run) ==> rs[|rs| - 1].event.timestamp == MaxTime(EventsOf(rs)))
  {
    var rs := ForRun(log, run);
    var es := EventsOf(rs);
    var e := MaxTimeIsGreatest(es);
    assert es[|es| - 1] in es;
    if AuditExport.RunUnflagged(log, run) {
      AuditExport.UnflaggedMeansSorted(h, log, run);
      var i :| 0 <= i < |es| && es[i] == e;
      assert i < |rs| - 1 ==> Before(rs[i], rs[|rs| - 1]);
    }
  }

  /** The two records of one accepted event. */
  lemma RowsCorrespond(h: EventHash, a: Log, b: Log, p: EventPayload)
    requires Built(h, a) && SameEvents(a, b)
    ensures var ra, rb := MakeRecord(h, a, p), MakeRow(h, b, p);
            && SameEvent(ra, rb)
            && (rb.event.integrityWarning ==> ra.event.integrityWarning)
            && (AuditExport.RunUnflagged(a, p.runId) && ForRun(a, p.runId) == ForRun(b, p.runId) ==> ra == rb)
  {
    RunsCorrespond(a, b, p.runId);
    var ra, rb := ForRun(a, p.runId), ForRun(b, p.runId);
    if ra != [] {
      LastIsMax(h, a, p.runId);
      assert SameEvent(ra[|ra| - 1], rb[|rb| - 1]);
    }
  }

  lemma CleanRun(a: Log, b: Log, run: string)
    requires SameEvents(a, b) && FlagsAgree(a, b) && AuditExport.RunUnflagged(a, run)
    ensures ForRun(a, run) == ForRun(b, run)
  {
    ForRunMembers(a, run);
    forall i | 0 <= i < |a| && a[i].event.runId == run ensures a[i] == b[i] {
      forall j | 0 <= j < i && a[j].event.runId == run ensures !a[j].event.integrityWarning {
        assert a[j] in a;
      }
      assert CleanBefore(a, i);
    }
    RunsCorrespond(a, b, run);
  }

  lemma FlagsStep(h: EventHash, a: Log, b: Log, p: EventPayload)
    requires Built(h, a) && SameEvents(a, b) && FlagsAgree(a, b)
    ensures var a', b' := a + [MakeRecord(h, a, p)], b + [MakeRow(h, b, p)];
            SameEvents(a', b') && FlagsAgree(a', b')
  {
    var a', b' := a + [MakeRecord(h, a, p)], b + [MakeRow(h, b, p)];
    RowsCorrespond(h, a, b, p);
    forall i | 0 <= i < |a'| && CleanBefore(a', i) ensures a'[i] == b'[i] {
      if i < |a| {
        forall j | 0 <= j < i && a[j].event.runId == a[i].event.runId ensures !a[j].event.integrityWarning {
          assert a'[j] == a[j] && a'[i] == a[i];
        }
        assert CleanBefore(a, i);
      } else {
        ForRunMembers(a, p.runId);
        forall r | r in ForRun(a, p.runId) ensures !r.event.integrityWarning {
          var j :| 0 <= j < |a| && a[j] == r;
          assert a'[j] == r;
        }
        CleanRun(a, b, p.runId);
      }
    }
  }

  /** Offered the same events, the two stores accept the same ones in the same order; a flag in SQLite is a
      flag in memory; and up to and including a run's first flagged record they hold identical records, so
      the first flag and every hash up to it agree. */
  lemma {:induction false} BackendsAgree(h: EventHash, ps: seq<EventPayload>)
    ensures Built(h, MemoryAfter(h, ps))
    ensures SameEvents(MemoryAfter(h, ps), SqliteAfter(h, ps))
    ensures FlagsAgree(MemoryAfter(h, ps), SqliteAfter(h, ps))
  {
    if ps != [] {
      var init, p := ps[..|ps| - 1], ps[|ps| - 1];
      BackendsAgree(h, init);
      var a, b := MemoryAfter(h, init), SqliteAfter(h, init);
      SameLogged(a, b, p.runId, p.id);
      if !Logged(a, p.runId, p.id) {
        AppendBuilt(h, a, p);
        FlagsStep(h, a, b, p);
      }
    }
  }

  lemma {:induction false} InsertCorresponds(x: StoredRecord, y: StoredRecord, s: Log, t: Log)
    requires SameEvent(x, y) && SameEvents(s, t)
    ensures SameEvents(Insert(x, s), Insert(y, t))
  {
    if s != [] && Before(x, s[|s| - 1]) {
      InsertCorresponds(x, y, s[..|s| - 1], t[..|t| - 1]);
    }
  }

  lemma {:induction false} SortsCorrespond(a: Log, b: Log)
    requires SameEvents(a, b)
    ensures SameEvents(Sorted(a), Sorted(b))
  {
    if a != [] {
      SortsCorrespond(a[..|a| - 1], b[..|b| - 1]);
      InsertCorresponds(a[|a| - 1], b[|b| - 1], Sorted(a[..|a| - 1]), Sorted(b[..|b| - 1]));
    }
  }

  /** The same id, timestamp, run and payload at every position. */
  ghost predicate SameListing(es: seq<StoredEvent>, fs: seq<StoredEvent>) {
    |es| == |fs| && forall i :: 0 <= i < |es| ==>
      && es[i].id == fs[i].id && es[i].timestamp == fs[i].timestamp
      && es[i].runId == fs[i].runId && es[i].payload == fs[i].payload
  }

  lemma ListingCorresponds(a: Log, b: Log)
    requires SameEvents(a, b) && AllDatable(b)
    ensures SameListing(EventsOf(Sorted(a)), EventsOf(OrderByText(b)))
  {
    OrderByTextIsSorted(b);
    SortsCorrespond(a, b);
  }

  lemma RunIsDatable(rows: Log, run: string)
    requires AllDatable(rows)
    ensures AllDatable(ForRun(rows, run))
  {
    ForRunMembers(rows, run);
  }

  lemma UnflaggedListsSame(a: Log, b: Log, run: string)
    requires SameEvents(a, b) && FlagsAgree(a, b) && AllDatable(b) && AuditExport.RunUnflagged(a, run)
    ensures ListRun(a, run) == EventsOf(OrderByText(ForRun(b, run)))
  {
    CleanRun(a, b, run);
    RunIsDatable(b, run);
    OrderByTextIsSorted(ForRun(b, run));
  }

  /** Both stores list the same events in the same order, per run and globally; and a run that no store
      flagged has the same hashes in both. */
  lemma ListingsAgree(h: EventHash, ps: seq<EventPayload>, run: string)
    requires AllDatable(SqliteAfter(h, ps))
    ensures var a, b := MemoryAfter(h, ps), SqliteAfter(h, ps);
            && SameListing(ListRun(a, run), EventsOf(OrderByText(ForRun(b, run))))
            && SameListing(ListAll(a), EventsOf(OrderByText(b)))
            && (AuditExport.RunUnflagged(a, run) ==> ListRun(a, run) == EventsOf(OrderByText(ForRun(b, run))))
  {
    var a, b := MemoryAfter(h, ps), SqliteAfter(h, ps);
    BackendsAgree(h, ps);
    RunsCorrespond(a, b, run);
    RunIsDatable(b, run);
    ListingCorresponds(ForRun(a, run), ForRun(b, run));
    ListingCorresponds(a, b);
    if AuditExport.RunUnflagged(a, run) {
      UnflaggedListsSame(a, b, run);
    }
  }
}
