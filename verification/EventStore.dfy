/** The in-memory event store: five structures that agree with one append-only log. */
module EventStore {
  import opened Prelude
  import opened Events
  import opened EventLog

  datatype AppendResult = Stored(event: StoredEvent) | Duplicate

  /** The id index holds exactly the logged pairs. */
  ghost predicate IdsAgree(log: Log, index: map<string, set<string>>) {
    forall run, id :: (run in index && id in index[run]) <==> Logged(log, run, id)
  }

  /** Each run's list is what was appended to it, in order. */
  ghost predicate RunsAgree(log: Log, index: map<string, Log>) {
    forall run ::
      && (run in index <==> ForRun(log, run) != [])
      && (run in index ==> index[run] == ForRun(log, run))
  }

  /** The last-timestamp map is the running maximum. */
  ghost predicate TimesAgree(log: Log, index: map<string, Time>) {
    forall run :: TimeAgrees(log, index, run)
  }

  ghost predicate TimeAgrees(log: Log, index: map<string, Time>, run: string) {
    && (run in index <==> ForRun(log, run) != [])
    && (run in index ==> index[run] == MaxTime(EventsOf(ForRun(log, run))))
  }

  /** The last-hash map holds the hash of the last append. */
  ghost predicate HashesAgree(log: Log, index: map<string, string>) {
    forall run ::
      && (run in index <==> ForRun(log, run) != [])
      && (run in index ==> index[run] == ForRun(log, run)[|ForRun(log, run)| - 1].event.hash)
  }

  lemma IdsStep(log: Log, index: map<string, set<string>>, r: StoredRecord)
    requires IdsAgree(log, index)
    ensures var run := r.event.runId;
            IdsAgree(log + [r], index[run := (if run in index then index[run] else {}) + {r.event.id}])
  {
    var run := r.event.runId;
    var index' := index[run := (if run in index then index[run] else {}) + {r.event.id}];
    assert (log + [r])[|log|] == r;
    forall run, id ensures (run in index' && id in index'[run]) <==> Logged(log + [r], run, id) {
      if Logged(log, run, id) {
        var x :| x in log && x.event.runId == run && x.event.id == id;
        assert x in log + [r];
      }
    }
  }

  lemma RunsAfter(log: Log, r: StoredRecord)
    ensures forall run ::
              ForRun(log + [r], run) == if r.event.runId == run then ForRun(log, run) + [r] else ForRun(log, run)
  {
    forall run
      ensures ForRun(log + [r], run) == if r.event.runId == run then ForRun(log, run) + [r] else ForRun(log, run)
    {
      ForRunAppend(log, r, run);
    }
  }

  lemma RunsStep(log: Log, index: map<string, Log>, r: StoredRecord)
    requires RunsAgree(log, index)
    ensures var run := r.event.runId;
            RunsAgree(log + [r], index[run := (if run in index then index[run] else []) + [r]])
  {
    RunsAfter(log, r);
  }

  lemma TimesStep(log: Log, index: map<string, Time>, r: StoredRecord)
    requires TimesAgree(log, index)
    ensures var run := r.event.runId;
            var t := r.event.timestamp;
            TimesAgree(log + [r], if run in index && t < index[run] then index else index[run := t])
  {
    var t := r.event.timestamp;
    var index' := if r.event.runId in index && t < index[r.event.runId] then index else index[r.event.runId := t];
    forall run ensures TimeAgrees(log + [r], index', run) {
      assert TimeAgrees(log, index, run);
      ForRunAppend(log, r, run);
      MaxTimeStep(ForRun(log, run), r);
    }
  }

  lemma MaxTimeStep(rs: Log, r: StoredRecord)
    ensures MaxTime(EventsOf(rs + [r])) ==
            if rs == [] || MaxTime(EventsOf(rs)) < r.event.timestamp then r.event.timestamp else MaxTime(EventsOf(rs))
  {
    assert EventsOf(rs + [r])[..|rs|] == EventsOf(rs);
  }

  lemma HashesStep(log: Log, index: map<string, string>, r: StoredRecord)
    requires HashesAgree(log, index)
    ensures HashesAgree(log + [r], index[r.event.runId := r.event.hash])
  {
    RunsAfter(log, r);
  }

  /** The record can be made from the indexes alone, without scanning the log. */
  lemma RecordFromIndexes(h: EventHash, log: Log, times: map<string, Time>, hashes: map<string, string>,
                          p: EventPayload)
    requires TimesAgree(log, times) && HashesAgree(log, hashes)
    ensures var warning := p.runId in times && p.timestamp < times[p.runId];
            var prev := if p.runId in hashes then Some(hashes[p.runId]) else None;
            MakeRecord(h, log, p) ==
            StoredRecord(|log| + 1,
                         StoredEvent(p.id, p.timestamp, p.runId, p, warning, prev,
                                     h(HashInput(p.runId, p.id, p.timestamp, p, warning, prev))))
  {
    assert TimeAgrees(log, times, p.runId);
  }

  ghost predicate IndexesAgree(h: EventHash, log: Log, ids: map<string, set<string>>, runs: map<string, Log>,
                               times: map<string, Time>, hashes: map<string, string>)
  {
    Built(h, log) && IdsAgree(log, ids) && RunsAgree(log, runs) && TimesAgree(log, times) && HashesAgree(log, hashes)
  }

  /** One append, seen on the indexes: they agree again with the longer log. */
  lemma IndexesStep(h: EventHash, log: Log, ids: map<string, set<string>>, runs: map<string, Log>,
                    times: map<string, Time>, hashes: map<string, string>, p: EventPayload)
    requires IndexesAgree(h, log, ids, runs, times, hashes)
    requires !(p.runId in ids && p.id in ids[p.runId])
    ensures var run, t := p.runId, p.timestamp;
            var late := run in times && t < times[run];
            var prev := if run in hashes then Some(hashes[run]) else None;
            var hash := h(HashInput(run, p.id, t, p, late, prev));
            var r := StoredRecord(|log| + 1, StoredEvent(p.id, t, run, p, late, prev, hash));
            && r == MakeRecord(h, log, p)
            && !Logged(log, run, p.id)
            && IndexesAgree(h, log + [r],
                            ids[run := (if run in ids then ids[run] else {}) + {p.id}],
                            runs[run := (if run in runs then runs[run] else []) + [r]],
                            if late then times else times[run := t],
                            hashes[run := hash])
  {
    RecordFromIndexes(h, log, times, hashes, p);
    var r := MakeRecord(h, log, p);
    AppendBuilt(h, log, p);
    IdsStep(log, ids, r);
    RunsStep(log, runs, r);
    TimesStep(log, times, r);
    HashesStep(log, hashes, r);
  }

  class InMemoryEventStore {
    const buildHash: EventHash
    var sequence: nat
    var eventIdIndex: map<string, set<string>>
    var runRecordsIndex: map<string, seq<StoredRecord>>
    var lastTimestampByRun: map<string, Time>
    var lastHashByRun: map<string, string>

    /** Everything ever appended, in order. */
    ghost var log: Log

    /** Each structure is a function of the log. */
    ghost predicate Valid()
      reads this
    {
      sequence == |log|
      && IndexesAgree(buildHash, log, eventIdIndex, runRecordsIndex, lastTimestampByRun, lastHashByRun)
    }

    constructor (h: EventHash)
      ensures Valid() && log == [] && buildHash == h
    {
      buildHash := h;
      sequence := 0;
      eventIdIndex := map[];
      runRecordsIndex := map[];
      lastTimestampByRun := map[];
      lastHashByRun := map[];
      log := [];
    }

    /** Refuses exactly the (run, id) pairs already logged, and then leaves every structure as it was;
        otherwise appends one record and returns its event. */
    method Append(event: EventPayload) returns (r: AppendResult)
      requires Valid()
      modifies this
      ensures Valid()
      ensures r.Duplicate? <==> Logged(old(log), event.runId, event.id)
      ensures r.Duplicate? ==>
        && log == old(log) && sequence == old(sequence) && eventIdIndex == old(eventIdIndex)
        && runRecordsIndex == old(runRecordsIndex)
        && lastTimestampByRun == old(lastTimestampByRun) && lastHashByRun == old(lastHashByRun)
      ensures r.Stored? ==>
        && EventLog.Append(buildHash, old(log), event) == Some(log)
        && log == old(log) + [MakeRecord(buildHash, old(log), event)]
        && r.event == log[|old(log)|].event
    {
      var run := event.runId;
      if run in eventIdIndex && event.id in eventIdIndex[run] {
        return Duplicate;
      }
      // The lookup in a defaultdict has created the run's entry.
      var ids := eventIdIndex[run := (if run in eventIdIndex then eventIdIndex[run] else {}) + {event.id}];

      var integrityWarning := false;
      var times := lastTimestampByRun;
      if run in lastTimestampByRun {
        if event.timestamp < lastTimestampByRun[run] {
          integrityWarning := true;
        } else {
          times := times[run := event.timestamp];
        }
      } else {
        times := times[run := event.timestamp];
      }

      var prevHash := if run in lastHashByRun then Some(lastHashByRun[run]) else None;
      var currentHash := buildHash(HashInput(run, event.id, event.timestamp, event, integrityWarning, prevHash));
      var record := StoredRecord(
        sequence + 1,
        StoredEvent(event.id, event.timestamp, run, event, integrityWarning, prevHash, currentHash));
      IndexesStep(buildHash, log, eventIdIndex, runRecordsIndex, lastTimestampByRun, lastHashByRun, event);

      var runs := runRecordsIndex[run := (if run in runRecordsIndex then runRecordsIndex[run] else []) + [record]];
      Commit(record, ids, runs, times, lastHashByRun[run := currentHash]);
      r := Stored(record.event);
    }

    /** The writes of one append. */
    method Commit(record: StoredRecord, ids: map<string, set<string>>, runs: map<string, Log>,
                  times: map<string, Time>, hashes: map<string, string>)
      requires sequence == |log|
      requires IndexesAgree(buildHash, log + [record], ids, runs, times, hashes)
      modifies this
      ensures Valid() && log == old(log) + [record]
    {
      sequence := sequence + 1;
      eventIdIndex, runRecordsIndex, lastTimestampByRun, lastHashByRun := ids, runs, times, hashes;
      log := log + [record];
    }

    method ListByRunId(run: string) returns (es: seq<StoredEvent>)
      requires Valid()
      ensures es == ListRun(log, run)
    {
      var records := if run in runRecordsIndex then runRecordsIndex[run] else [];
      es := EventsOf(Sorted(records));
    }

    /** Collects the runs in whatever order the dictionary holds them; sorting makes the order irrelevant. */
    method ListAll() returns (es: seq<StoredEvent>)
      requires Valid()
      ensures es == EventLog.ListAll(log)
    {
      var records: Log := [];
      var todo := runRecordsIndex.Keys;
      while todo != {}
        invariant todo <= runRecordsIndex.Keys
        invariant HoldsRuns(log, runRecordsIndex.Keys - todo, records)
        decreases todo
      {
        var run :| run in todo;
        HoldsOneMore(log, runRecordsIndex.Keys - todo, records, run);
        assert runRecordsIndex.Keys - (todo - {run}) == runRecordsIndex.Keys - todo + {run};
        todo := todo - {run};
        records := records + runRecordsIndex[run];
      }
      assert runRecordsIndex.Keys - todo == runRecordsIndex.Keys;
      HoldsEverything(log, runRecordsIndex.Keys, records);
      PermutationSorts(buildHash, log, records);
      es := EventsOf(Sorted(records));
    }
  }

  /** records holds the log's records of the given runs, each as often as the log does. */
  ghost predicate HoldsRuns(log: Log, runs: set<string>, records: Log) {
    forall x: StoredRecord ::
      multiset(records)[x] == if x.event.runId in runs then multiset(log)[x] else 0
  }

  lemma HoldsOneMore(log: Log, runs: set<string>, records: Log, run: string)
    requires HoldsRuns(log, runs, records) && run !in runs
    ensures HoldsRuns(log, runs + {run}, records + ForRun(log, run))
  {
    forall x: StoredRecord
      ensures multiset(records + ForRun(log, run))[x] == if x.event.runId in runs + {run} then multiset(log)[x] else 0
    {
      ForRunCount(log, run, x);
    }
  }

  lemma HoldsEverything(log: Log, runs: set<string>, records: Log)
    requires HoldsRuns(log, runs, records) && forall run :: run in runs <==> ForRun(log, run) != []
    ensures multiset(records) == multiset(log)
  {
    forall x: StoredRecord ensures multiset(records)[x] == multiset(log)[x] {
      ForRunMembers(log, x.event.runId);
      if x in log {
        assert x in ForRun(log, x.event.runId);
      }
    }
  }

  /** Any arrangement of a built log's records sorts to the same listing. */
  lemma PermutationSorts(h: EventHash, log: Log, records: Log)
    requires Built(h, log) && multiset(records) == multiset(log)
    ensures Sorted(records) == Sorted(log)
  {
    BuiltFacts(h, log);
    DistinctPermutation(log, records);
    SortedIsSorted(log);
    SortedIsSorted(records);
    SortedPermutes(log);
    SortedPermutes(records);
    SortedUnique(Sorted(log), Sorted(records));
  }

  lemma DistinctPermutation(log: Log, records: Log)
    requires Increasing(log) && multiset(records) == multiset(log)
    ensures DistinctSequences(records)
  {
    forall i, j | 0 <= i < j < |records| ensures records[i].sequence != records[j].sequence {
      assert records[i] in multiset(log) && records[j] in multiset(log);
      var a :| 0 <= a < |log| && log[a] == records[i];
      var b :| 0 <= b < |log| && log[b] == records[j];
      if records[i] == records[j] {
        CountTwice(records, i, j);
        CountOnce(log, a);
      }
      assert a != b;
    }
  }

  lemma CountOnce(rs: Log, i: nat)
    requires Increasing(rs) && i < |rs|
    ensures multiset(rs)[rs[i]] == 1
  {
    assert rs == rs[..i] + [rs[i]] + rs[i + 1..];
    assert rs[i] !in rs[..i] && rs[i] !in rs[i + 1..];
  }
}
