/** The list of pending approvals over all runs: what it holds, in which order, and exactly when it fails. */
module PendingList {
  import opened Prelude
  import opened Events
  import opened EventLog
  import opened EventStore
  import opened RunStatusProjection
  import BusinessRules
  import IsoTime
  import Ledger
  import Resolution
  import RunHealth
  import RuntimeReceipts
  import ExecutionTokens
  import Gateway

  datatype PendingItem = PendingItem(
    eventId: string, decisionId: Option<string>, runId: string, requestedAt: Time,
    riskLevel: Option<RiskLevel>, content: int)

  datatype ListError = InconsistentRun(conflict: StateConflict) | MissingPendingEvent

  /** What one run contributes: an error, nothing, or its one pending approval. */
  function RunItem(es: seq<StoredEvent>): Result<Option<PendingItem>, ListError> {
    match Project(es)
    case Err(c) => Err(InconsistentRun(c))
    case Ok(s) =>
      if s.status != Paused || s.pending.None? then Ok(None)
      else
        match BusinessRules.FindById(es, s.pending.value.eventId)
        case None => Err(MissingPendingEvent)
        case Some(e) =>
          Ok(Some(PendingItem(e.id, e.payload.approval.decisionId, e.runId, s.pending.value.requestedAt,
                              e.payload.riskLevel, e.payload.content)))
  }

  function RunIds(log: Log): set<string> {
    set r | r in log :: r.event.runId
  }

  // ---------- The order of text ----------

  lemma {:induction false} TextTotal(a: string, b: string)
    ensures IsoTime.TextBefore(a, b) || a == b || IsoTime.TextBefore(b, a)
  {
    if a != "" && b != "" && a[0] == b[0] {
      TextTotal(a[1..], b[1..]);
      assert a == [a[0]] + a[1..] && b == [b[0]] + b[1..];
    }
  }

  lemma {:induction false} TextTransitive(a: string, b: string, c: string)
    requires IsoTime.TextBefore(a, b) && IsoTime.TextBefore(b, c)
    ensures IsoTime.TextBefore(a, c)
  {
    if a != "" && a[0] == b[0] == c[0] {
      TextTransitive(a[1..], b[1..], c[1..]);
    }
  }

  ghost predicate Least(run: string, runs: set<string>) {
    run in runs && forall other | other in runs :: other == run || IsoTime.TextBefore(run, other)
  }

  lemma {:induction false} LeastExists(runs: set<string>)
    requires runs != {}
    ensures exists run :: Least(run, runs)
    decreases |runs|
  {
    var run :| run in runs;
    if runs == {run} {
      assert Least(run, runs);
    } else {
      LeastExists(runs - {run});
      var other :| Least(other, runs - {run});
      TextTotal(run, other);
      if IsoTime.TextBefore(run, other) {
        forall x | x in runs ensures x == run || IsoTime.TextBefore(run, x) {
          if x != run && x != other {
            TextTransitive(run, other, x);
          }
        }
        assert Least(run, runs);
      } else {
        assert Least(other, runs);
      }
    }
  }

  // ---------- The order of the list ----------

  function ReportedTime(t: Time): string {
    if IsoTime.InRange(t) then IsoTime.ZuluText(IsoTime.FromInstant(t)) else ""
  }

  /** By the reported text of the time, and by event id where the texts are equal. */
  predicate ItemBefore(a: PendingItem, b: PendingItem) {
    var s, t := ReportedTime(a.requestedAt), ReportedTime(b.requestedAt);
    IsoTime.TextBefore(s, t) || (s == t && IsoTime.TextBefore(a.eventId, b.eventId))
  }

  lemma BeforeOrNotAfter(a: PendingItem, b: PendingItem, c: PendingItem)
    requires ItemBefore(a, b) && !ItemBefore(c, b)
    ensures !ItemBefore(c, a)
  {
    var s, t, u := ReportedTime(a.requestedAt), ReportedTime(b.requestedAt), ReportedTime(c.requestedAt);
    if ItemBefore(c, a) {
      if IsoTime.TextBefore(u, s) && IsoTime.TextBefore(s, t) {
        TextTransitive(u, s, t);
      } else if u == s == t {
        TextTransitive(c.eventId, a.eventId, b.eventId);
      }
    }
  }

  lemma NotBoth(a: PendingItem, b: PendingItem)
    requires ItemBefore(a, b)
    ensures !ItemBefore(b, a)
  {
    var s, t := ReportedTime(a.requestedAt), ReportedTime(b.requestedAt);
    IsoTime.Irreflexive(s);
    IsoTime.Irreflexive(a.eventId);
    if IsoTime.TextBefore(s, t) && IsoTime.TextBefore(t, s) {
      TextTransitive(s, t, s);
    } else if s == t && IsoTime.TextBefore(b.eventId, a.eventId) {
      TextTransitive(a.eventId, b.eventId, a.eventId);
    }
  }

  ghost predicate Ordered(items: seq<PendingItem>) {
    forall i, j :: 0 <= i < j < |items| ==> !ItemBefore(items[j], items[i])
  }

  /** In order of the reported text, and of ids under the same text. */
  lemma OrderedMeaning(items: seq<PendingItem>, i: nat, j: nat)
    requires Ordered(items) && i < j < |items|
    requires IsoTime.InRange(items[i].requestedAt) && IsoTime.InRange(items[j].requestedAt)
    ensures var s := IsoTime.ZuluText(IsoTime.FromInstant(items[i].requestedAt));
            var t := IsoTime.ZuluText(IsoTime.FromInstant(items[j].requestedAt));
            && (s == t || IsoTime.TextBefore(s, t))
            && (s == t ==>
                  items[i].eventId == items[j].eventId || IsoTime.TextBefore(items[i].eventId, items[j].eventId))
  {
    assert !ItemBefore(items[j], items[i]);
    TextTotal(ReportedTime(items[i].requestedAt), ReportedTime(items[j].requestedAt));
    TextTotal(items[i].eventId, items[j].eventId);
  }

  ghost predicate OnePerRun(items: seq<PendingItem>) {
    forall i, j :: 0 <= i < j < |items| ==> items[i].runId != items[j].runId
  }

  function InsertItem(x: PendingItem, items: seq<PendingItem>): seq<PendingItem> {
    if items == [] then [x]
    else if ItemBefore(x, items[|items| - 1]) then InsertItem(x, items[..|items| - 1]) + [items[|items| - 1]]
    else items + [x]
  }

  /** Python's list.sort, with key (requested_at, event_id). */
  function SortItems(items: seq<PendingItem>): seq<PendingItem> {
    if items == [] then [] else InsertItem(items[|items| - 1], SortItems(items[..|items| - 1]))
  }

  lemma {:induction false} InsertItemKeeps(x: PendingItem, items: seq<PendingItem>)
    ensures multiset(InsertItem(x, items)) == multiset(items) + multiset{x}
  {
    if items != [] {
      assert items == items[..|items| - 1] + [items[|items| - 1]];
      if ItemBefore(x, items[|items| - 1]) {
        InsertItemKeeps(x, items[..|items| - 1]);
      }
    }
  }

  lemma {:induction false} SortItemsKeeps(items: seq<PendingItem>)
    ensures multiset(SortItems(items)) == multiset(items)
  {
    if items != [] {
      assert items == items[..|items| - 1] + [items[|items| - 1]];
      SortItemsKeeps(items[..|items| - 1]);
      InsertItemKeeps(items[|items| - 1], SortItems(items[..|items| - 1]));
    }
  }

  lemma {:induction false} InsertItemOrdered(x: PendingItem, items: seq<PendingItem>)
    requires Ordered(items)
    ensures Ordered(InsertItem(x, items))
  {
    if items != [] {
      var init, last := items[..|items| - 1], items[|items| - 1];
      assert items == init + [last];
      if ItemBefore(x, last) {
        InsertItemOrdered(x, init);
        InsertedBefore(x, init, last);
      } else {
        forall i | 0 <= i < |items| ensures !ItemBefore(x, items[i]) {
          NotAfterLast(x, items, i);
        }
      }
    }
  }

  lemma InsertedBefore(x: PendingItem, init: seq<PendingItem>, last: PendingItem)
    requires Ordered(init + [last]) && ItemBefore(x, last)
    ensures forall i :: 0 <= i < |InsertItem(x, init)| ==> !ItemBefore(last, InsertItem(x, init)[i])
  {
    var t := InsertItem(x, init);
    InsertItemKeeps(x, init);
    NotBoth(x, last);
    forall i | 0 <= i < |t| ensures !ItemBefore(last, t[i]) {
      assert t[i] in multiset(t);
      if t[i] in init {
        var k :| 0 <= k < |init| && init[k] == t[i];
        assert (init + [last])[k] == init[k] && (init + [last])[|init|] == last;
      }
    }
  }

  lemma NotAfterLast(x: PendingItem, items: seq<PendingItem>, i: nat)
    requires Ordered(items) && i < |items| && !ItemBefore(x, items[|items| - 1])
    ensures !ItemBefore(x, items[i])
  {
    var last := items[|items| - 1];
    if ItemBefore(x, items[i]) && i < |items| - 1 {
      assert !ItemBefore(last, items[i]);
      BeforeOrNotAfter(x, items[i], last);
      SameKey(x, last);
      KeyDecides(x, last, items[i]);
    }
  }

  /** Neither comes before the other: they have the same key. */
  lemma SameKey(a: PendingItem, b: PendingItem)
    requires !ItemBefore(a, b) && !ItemBefore(b, a)
    ensures ReportedTime(a.requestedAt) == ReportedTime(b.requestedAt) && a.eventId == b.eventId
  {
    TextTotal(ReportedTime(a.requestedAt), ReportedTime(b.requestedAt));
    TextTotal(a.eventId, b.eventId);
  }

  lemma KeyDecides(a: PendingItem, b: PendingItem, c: PendingItem)
    requires ReportedTime(a.requestedAt) == ReportedTime(b.requestedAt) && a.eventId == b.eventId
    ensures ItemBefore(a, c) <==> ItemBefore(b, c)
  {
  }

  lemma {:induction false} SortItemsOrdered(items: seq<PendingItem>)
    ensures Ordered(SortItems(items))
  {
    if items != [] {
      SortItemsOrdered(items[..|items| - 1]);
      InsertItemOrdered(items[|items| - 1], SortItems(items[..|items| - 1]));
    }
  }

  // ---------- Listing ----------

  /** The items of these runs, each once. */
  ghost predicate Holds(log: Log, runs: set<string>, items: seq<PendingItem>) {
    && OnePerRun(items)
    && (forall x :: x in items <==> exists run :: run in runs && RunItem(ListRun(log, run)) == Ok(Some(x)))
  }

  /** The projection of a run that is paused names an event of the run; and an item names its run. */
  lemma ItemFound(log: Log, run: string)
    ensures RunItem(ListRun(log, run)).Err? <==> Project(ListRun(log, run)).Err?
    ensures RunItem(ListRun(log, run)).Ok? && RunItem(ListRun(log, run)).value.Some? ==>
              RunItem(ListRun(log, run)).value.value.runId == run
  {
    var es := ListRun(log, run);
    if Project(es).Ok? && Project(es).value.pending.Some? {
      ProjectionMeaning(es);
      var j :| OpenAt(es, j, |es|) && Project(es).value.pending == Some(ContextOf(es[j]));
      FindsOne(es, es[j].id, j);
      var e := BusinessRules.FindById(es, es[j].id).value;
      ListRunMembers(log, run, e);
    }
  }

  /** A run contributes an item if and only if it projects and has an open request, and the item is that request. */
  lemma ItemMeaning(h: EventHash, log: Log, run: string, x: PendingItem)
    requires Built(h, log)
    ensures var es := ListRun(log, run);
            RunItem(es) == Ok(Some(x)) <==>
            && Project(es).Ok?
            && exists j :: OpenAt(es, j, |es|)
                 && x == PendingItem(es[j].id, es[j].payload.approval.decisionId, run, es[j].timestamp,
                                     es[j].payload.riskLevel, es[j].payload.content)
  {
    var es := ListRun(log, run);
    if Project(es).Ok? {
      ProjectionMeaning(es);
      if Project(es).value.pending.Some? {
        var j :| OpenAt(es, j, |es|) && Project(es).value.pending == Some(ContextOf(es[j]));
        forall k | 0 <= k < j ensures es[k].id != es[j].id {
          Resolution.ListRunIdsDistinct(h, log, run, k, j);
        }
        FindsThis(es, es[j].id, j);
        assert es[j] in es;
        ListRunMembers(log, run, es[j]);
        forall k | OpenAt(es, k, |es|) ensures k == j {
          BusinessRules.OpenOnce(es, j, k);
        }
      }
    }
  }

  lemma {:induction false} FindsThis(es: seq<StoredEvent>, id: string, j: nat)
    requires j < |es| && es[j].id == id && forall k :: 0 <= k < j ==> es[k].id != id
    ensures BusinessRules.FindById(es, id) == Some(es[j])
  {
    if j > 0 {
      assert es[1..][j - 1] == es[j];
      FindsThis(es[1..], id, j - 1);
    }
  }

  lemma {:induction false} FindsOne(es: seq<StoredEvent>, id: string, j: nat)
    requires j < |es| && es[j].id == id
    ensures BusinessRules.FindById(es, id).Some? && BusinessRules.FindById(es, id).value in es
  {
    if es[0].id != id {
      FindsOne(es[1..], id, j - 1);
    }
  }

  lemma OtherRuns(log: Log, runs: set<string>, items: seq<PendingItem>, run: string)
    requires Holds(log, runs, items) && run !in runs
    ensures forall i :: 0 <= i < |items| ==> items[i].runId != run
  {
    forall i | 0 <= i < |items| ensures items[i].runId != run {
      assert items[i] in items;
      var other :| other in runs && RunItem(ListRun(log, other)) == Ok(Some(items[i]));
      ItemFound(log, other);
    }
  }

  lemma HoldsMore(log: Log, runs: set<string>, items: seq<PendingItem>, run: string)
    requires Holds(log, runs, items) && run !in runs && RunItem(ListRun(log, run)).Ok?
    ensures var item := RunItem(ListRun(log, run)).value;
            Holds(log, runs + {run}, if item.Some? then items + [item.value] else items)
  {
    var item := RunItem(ListRun(log, run)).value;
    var items' := if item.Some? then items + [item.value] else items;
    ItemFound(log, run);
    OtherRuns(log, runs, items, run);
    forall x
      ensures x in items' <==> exists other :: other in runs + {run} && RunItem(ListRun(log, other)) == Ok(Some(x))
    {
      if x in items {
        var other :| other in runs && RunItem(ListRun(log, other)) == Ok(Some(x));
        assert other in runs + {run};
      }
      if item == Some(x) {
        assert run in runs + {run};
      }
    }
  }

  lemma HoldsSorted(log: Log, runs: set<string>, items: seq<PendingItem>)
    requires Holds(log, runs, items)
    ensures Holds(log, runs, SortItems(items))
  {
    var sorted := SortItems(items);
    SortItemsKeeps(items);
    forall x ensures x in sorted <==> x in items {
      assert x in sorted <==> x in multiset(sorted);
      assert x in items <==> x in multiset(items);
    }
    forall i, j | 0 <= i < j < |sorted| ensures sorted[i].runId != sorted[j].runId {
      PermutedStaysDistinct(items, sorted, i, j);
    }
  }

  lemma PermutedStaysDistinct(a: seq<PendingItem>, b: seq<PendingItem>, i: nat, j: nat)
    requires OnePerRun(a) && multiset(a) == multiset(b) && i < j < |b|
    ensures b[i].runId != b[j].runId
  {
    assert b[i] in multiset(a) && b[j] in multiset(a);
    var k :| 0 <= k < |a| && a[k] == b[i];
    var l :| 0 <= l < |a| && a[l] == b[j];
    if b[i] == b[j] {
      CountTwice(b, i, j);
      CountOne(a, k);
    }
    assert k != l;
  }

  lemma CountOne(items: seq<PendingItem>, k: nat)
    requires OnePerRun(items) && k < |items|
    ensures multiset(items)[items[k]] == 1
  {
    assert items == items[..k] + [items[k]] + items[k + 1..];
    assert items[k] !in items[..k] && items[k] !in items[k + 1..];
  }

  /** The first run in text order that does not project, and its error. */
  ghost predicate FirstBroken(log: Log, run: string, error: ListError) {
    && run in RunIds(log) && RunItem(ListRun(log, run)) == Err(error)
    && forall other :: other in RunIds(log) && IsoTime.TextBefore(other, run) ==> Project(ListRun(log, other)).Ok?
  }

  lemma FailsFirst(log: Log, todo: set<string>, run: string)
    requires todo <= RunIds(log) && Least(run, todo) && RunItem(ListRun(log, run)).Err?
    requires forall other :: other in RunIds(log) - todo ==> Project(ListRun(log, other)).Ok?
    ensures Project(ListRun(log, run)).Err? && FirstBroken(log, run, RunItem(ListRun(log, run)).error)
  {
    ItemFound(log, run);
    forall other | other in RunIds(log) && IsoTime.TextBefore(other, run) ensures Project(ListRun(log, other)).Ok? {
      NotBefore(run, other);
    }
  }

  /** Lists the pending approval of every run that is paused, each once, in the order of reported time and id; or
      fails, with the error of the first run in text order that does not project. It fails if and only if there
      is such a run. */
  method ListPendingApprovals(store: InMemoryEventStore) returns (r: Result<seq<PendingItem>, ListError>)
    requires store.Valid()
    ensures r.Err? <==> exists run :: Project(ListRun(store.log, run)).Err?
    ensures r.Ok? ==> Holds(store.log, RunIds(store.log), r.value) && Ordered(r.value)
    ensures r.Err? ==> exists run :: FirstBroken(store.log, run, r.error)
  {
    ghost var log := store.log;
    var all := store.ListAll();
    var runs := set e | e in all :: e.runId;
    RunsListed(log, runs);
    var todo := runs;
    var items: seq<PendingItem> := [];
    while todo != {}
      invariant todo <= runs
      invariant Holds(log, runs - todo, items)
      invariant forall run :: run in runs - todo ==> Project(ListRun(log, run)).Ok?
      decreases todo
    {
      LeastExists(todo);
      var run :| run in todo && forall other | other in todo :: other == run || IsoTime.TextBefore(run, other);
      var es := store.ListByRunId(run);
      var item := RunItem(es);
      if item.Err? {
        FailsFirst(log, todo, run);
        return Err(item.error);
      }
      ItemFound(log, run);
      HoldsMore(log, runs - todo, items, run);
      assert runs - (todo - {run}) == runs - todo + {run};
      todo := todo - {run};
      if item.value.Some? {
        items := items + [item.value.value];
      }
    }
    assert runs - todo == runs;
    EveryRunProjects(log);
    HoldsSorted(log, runs, items);
    SortItemsOrdered(items);
    return Ok(SortItems(items));
  }

  lemma NotBefore(a: string, b: string)
    requires IsoTime.TextBefore(b, a)
    ensures a != b && !IsoTime.TextBefore(a, b)
  {
    IsoTime.Irreflexive(a);
    if IsoTime.TextBefore(a, b) {
      TextTransitive(a, b, a);
    }
  }

  lemma RunsListed(log: Log, runs: set<string>)
    requires runs == set e | e in ListAll(log) :: e.runId
    ensures runs == RunIds(log)
  {
    forall run ensures run in runs <==> run in RunIds(log) {
      if run in runs {
        var e :| e in ListAll(log) && e.runId == run;
        ListAllMembers(log, e);
      }
      if run in RunIds(log) {
        var r :| r in log && r.event.runId == run;
        ListAllMembers(log, r.event);
      }
    }
  }

  /** A run without events projects, so only the runs with events can fail. */
  lemma EveryRunProjects(log: Log)
    ensures (forall run :: run in RunIds(log) ==> Project(ListRun(log, run)).Ok?)
            ==> forall run :: Project(ListRun(log, run)).Ok?
  {
    forall run | run !in RunIds(log) ensures Project(ListRun(log, run)).Ok? {
      ForRunMembers(log, run);
      SomeMember(ForRun(log, run));
    }
  }

  // ---------- One receipt disables the list ----------

  /** One receipt written into a run that has ended makes the list fail, after whatever steps may follow. */
  lemma ReceiptDisablesList(h: EventHash, log: Log, input: RuntimeReceipts.ReceiptInput, steps: seq<Ledger.LedgerStep>)
    requires Built(h, log) && RuntimeReceipts.Record(h, log, input).Some?
    requires var s := Project(ListRun(log, input.runId)); s.Ok? && s.value.status.Terminal()
    ensures var log' := Ledger.ApplyAll(h, RuntimeReceipts.Record(h, log, input).value, steps);
            exists run :: Project(ListRun(log', run)).Err?
  {
    RunHealth.ReceiptHealth(h, log, input);
    Ledger.StepGrows(h, log, Ledger.ReceiptStep(input));
    GrowsKeeps(h, log, RuntimeReceipts.Record(h, log, input).value);
    RunHealth.BrokenStaysBroken(h, RuntimeReceipts.Record(h, log, input).value, steps, input.runId);
  }

  /** A blocked execution that names the run writes such a receipt. */
  lemma BlockedExecutionDisablesList(
    env: Gateway.Env, log: Log, used: map<string, int>, token: string, purchase: Gateway.Purchase, run: string,
    now: Time, suffix: string, steps: seq<Ledger.LedgerStep>)
    requires Built(env.hash, log) && run != ""
    requires var s := Project(ListRun(log, run)); s.Ok? && s.value.status.Terminal()
    requires var v := ExecutionTokens.Verify(env.crypto, env.keys, token, Gateway.PURCHASE,
                                             Some(env.purchaseHash(purchase)), now);
             v.Err? && v.error != ExecutionTokens.Unforeseen
    requires !Logged(log, run, "evt_runtime_" + suffix)
    ensures var e := Gateway.Execute(env, log, used, Some(token), purchase, Some(run), now, suffix);
            && e.reply.Blocked?
            && exists broken :: Project(ListRun(Ledger.ApplyAll(env.hash, e.log, steps), broken)).Err?
  {
    ReceiptDisablesList(
      env.hash, log, RuntimeReceipts.ReceiptInput(run, RuntimeReceipts.ExecutionBlocked, None, 0, now, suffix), steps);
  }
}
