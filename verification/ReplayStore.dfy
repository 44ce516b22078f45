/** The replay store: single use of execution tokens, with its own garbage collection. */
module ReplayStore {
  import opened Events
  import opened ExecutionTokens

  /** Deletes the rows that expired before now, in seconds. */
  function Purged(table: map<string, int>, now: int): map<string, int> {
    map jti | jti in table && table[jti] >= now :: table[jti]
  }

  /** The used_execution_tokens table: each used token's id, with its expiry. */
  class SQLiteExecutionReplayStore {
    var used: map<string, int>

    constructor ()
      ensures used == map[]
    {
      used := map[];
    }

    method PurgeExpired(now: Time)
      modifies this
      ensures used == Purged(old(used), Seconds(now))
    {
      used := map jti | jti in used && used[jti] >= Seconds(now) :: used[jti];
    }

    /** Consumes a token unless its id is still on record after purging. */
    method ConsumeOnce(jti: string, exp: int, now: Time) returns (consumed: bool)
      modifies this
      ensures consumed <==> !(jti in old(used) && old(used)[jti] >= Seconds(now))
      ensures var kept := Purged(old(used), Seconds(now));
              used == if consumed then kept[jti := exp] else kept
    {
      PurgeExpired(now);
      consumed := jti !in used;
      if consumed {
        used := used[jti := exp];
      }
    }
  }

  // ---------- Concurrent requests ----------

  /** A request's steps interleave with those of others: it verifies its token, reads the clock for the
      purge, deletes, and inserts; a deletion may use a reading of the clock that is no longer current. */
  datatype RequestStep =
    | Tick(seconds: nat)
    | VerifyToken(request: nat, jti: string)
    | ReadClock(request: nat)
    | Delete(request: nat)
    | InsertToken(request: nat)

  /** expiry gives each minted token's exp; consumed counts the successful insertions of each token. */
  datatype Race = Race(
    now: int,
    verified: map<nat, string>,
    readings: map<nat, int>,
    used: map<string, int>,
    consumed: map<string, nat>)

  const IDLE := Race(0, map[], map[], map[], map[])

  function Consumptions(r: Race, jti: string): nat {
    if jti in r.consumed then r.consumed[jti] else 0
  }

  /** One step; a step that is not enabled changes nothing. */
  function Step(expiry: map<string, int>, r: Race, s: RequestStep): Race {
    match s
    case Tick(n) => r.(now := r.now + n)
    case VerifyToken(q, jti) =>
      if jti in expiry && r.now < expiry[jti] then r.(verified := r.verified[q := jti]) else r
    case ReadClock(q) => r.(readings := r.readings[q := r.now])
    case Delete(q) => if q in r.readings then r.(used := Purged(r.used, r.readings[q])) else r
    case InsertToken(q) =>
      if q !in r.verified || r.verified[q] !in expiry then r
      else
        var jti := r.verified[q];
        var idle := r.(verified := map p | p in r.verified && p != q :: r.verified[p]);
        if jti in r.used then idle
        else idle.(used := r.used[jti := expiry[jti]], consumed := r.consumed[jti := Consumptions(r, jti) + 1])
  }

  function Steps(expiry: map<string, int>, ss: seq<RequestStep>): Race {
    if ss == [] then IDLE else Step(expiry, Steps(expiry, ss[..|ss| - 1]), ss[|ss| - 1])
  }

  /** The insertion happens no later than the token's last second. */
  ghost predicate Timely(expiry: map<string, int>, r: Race, s: RequestStep) {
    s.InsertToken? && s.request in r.verified && r.verified[s.request] in expiry ==>
      r.now <= expiry[r.verified[s.request]]
  }

  ghost predicate AllTimely(expiry: map<string, int>, ss: seq<RequestStep>) {
    forall i :: 0 <= i < |ss| ==> Timely(expiry, Steps(expiry, ss[..i]), ss[i])
  }

  /** A consumed token is on record until the clock has passed its expiry, and no request holds a reading
      of the clock from the future. */
  ghost predicate OnRecord(expiry: map<string, int>, r: Race) {
    && (forall q | q in r.readings :: r.readings[q] <= r.now)
    && (forall jti | Consumptions(r, jti) > 0 ::
          jti in expiry && ((jti in r.used && r.used[jti] == expiry[jti]) || expiry[jti] < r.now))
  }

  lemma {:induction false} StepsOnRecord(expiry: map<string, int>, ss: seq<RequestStep>)
    ensures OnRecord(expiry, Steps(expiry, ss))
  {
    if ss != [] {
      StepsOnRecord(expiry, ss[..|ss| - 1]);
    }
  }

  /** A second consumption is possible only after the token's last second. */
  lemma SecondUseIsLate(expiry: map<string, int>, ss: seq<RequestStep>, s: RequestStep, jti: string)
    requires var r := Steps(expiry, ss);
             Consumptions(r, jti) > 0 && Consumptions(Step(expiry, r, s), jti) > Consumptions(r, jti)
    ensures jti in expiry && expiry[jti] < Steps(expiry, ss).now
  {
    StepsOnRecord(expiry, ss);
  }

  /** Single use under every interleaving whose insertions are timely. */
  lemma {:induction false} SingleUse(expiry: map<string, int>, ss: seq<RequestStep>, jti: string)
    requires AllTimely(expiry, ss)
    ensures Consumptions(Steps(expiry, ss), jti) <= 1
  {
    if ss != [] {
      var init, last := ss[..|ss| - 1], ss[|ss| - 1];
      forall i | 0 <= i < |init| ensures Timely(expiry, Steps(expiry, init[..i]), init[i]) {
        assert init[..i] == ss[..i];
        assert Timely(expiry, Steps(expiry, ss[..i]), ss[i]);
      }
      SingleUse(expiry, init, jti);
      assert Timely(expiry, Steps(expiry, init), last);
      var r := Steps(expiry, init);
      if Consumptions(r, jti) > 0 && Consumptions(Step(expiry, r, last), jti) > Consumptions(r, jti) {
        SecondUseIsLate(expiry, init, last, jti);
      }
    }
  }

  // ---------- Exactly when a token is used again ----------

  /** A deletion that uses a reading of the clock past the token's last second. */
  ghost predicate Forgets(expiry: map<string, int>, r: Race, s: RequestStep, jti: string) {
    jti in expiry && s.Delete? && s.request in r.readings && expiry[jti] < r.readings[s.request]
  }

  /** Step k forgets the token when it has been consumed count times. */
  ghost predicate ForgetsAt(expiry: map<string, int>, ss: seq<RequestStep>, jti: string, count: nat, k: int)
    requires 0 <= k < |ss|
  {
    var r := Steps(expiry, ss[..k]);
    Consumptions(r, jti) == count && Forgets(expiry, r, ss[k], jti)
  }

  ghost predicate ForgottenAfter(expiry: map<string, int>, ss: seq<RequestStep>, jti: string, count: nat) {
    exists k :: 0 <= k < |ss| && ForgetsAt(expiry, ss, jti, count, k)
  }

  /** Some deletion since the token's last consumption has forgotten it. */
  ghost predicate ForgottenSinceUse(expiry: map<string, int>, ss: seq<RequestStep>, jti: string) {
    ForgottenAfter(expiry, ss, jti, Consumptions(Steps(expiry, ss), jti))
  }

  lemma {:induction false} CountsNeverFall(expiry: map<string, int>, ss: seq<RequestStep>, jti: string, k: int)
    requires 0 <= k <= |ss|
    ensures Consumptions(Steps(expiry, ss[..k]), jti) <= Consumptions(Steps(expiry, ss), jti)
  {
    if k < |ss| {
      assert ss[..|ss| - 1][..k] == ss[..k];
      CountsNeverFall(expiry, ss[..|ss| - 1], jti, k);
    } else {
      assert ss[..k] == ss;
    }
  }

  lemma ForgottenStep(expiry: map<string, int>, ss: seq<RequestStep>, jti: string, count: nat)
    requires ss != []
    ensures var init, last := ss[..|ss| - 1], ss[|ss| - 1];
            var r := Steps(expiry, init);
            ForgottenAfter(expiry, ss, jti, count)
            <==> ForgottenAfter(expiry, init, jti, count)
                 || (Consumptions(r, jti) == count && Forgets(expiry, r, last, jti))
  {
    var n := |ss| - 1;
    var init := ss[..n];
    forall k | 0 <= k < n ensures ForgetsAt(expiry, ss, jti, count, k) <==> ForgetsAt(expiry, init, jti, count, k) {
      assert init[..k] == ss[..k];
    }
    if k :| 0 <= k < n && ForgetsAt(expiry, init, jti, count, k) {
      assert ForgetsAt(expiry, ss, jti, count, k);
    }
    assert ForgetsAt(expiry, ss, jti, count, n) <==>
      Consumptions(Steps(expiry, init), jti) == count && Forgets(expiry, Steps(expiry, init), ss[n], jti);
  }

  /** A consumption makes the token remembered: none is later than the last. */
  lemma RememberedWhenUsed(expiry: map<string, int>, ss: seq<RequestStep>, jti: string)
    requires ss != []
    requires Consumptions(Steps(expiry, ss), jti) > Consumptions(Steps(expiry, ss[..|ss| - 1]), jti)
    ensures !ForgottenSinceUse(expiry, ss, jti)
  {
    var count := Consumptions(Steps(expiry, ss), jti);
    forall k | 0 <= k < |ss| ensures !ForgetsAt(expiry, ss, jti, count, k) {
      assert ss[..|ss| - 1][..k] == ss[..k];
      CountsNeverFall(expiry, ss[..|ss| - 1], jti, k);
    }
  }

  /** A consumed token is on record, with its expiry, if and only if it has not been forgotten since. */
  lemma {:induction false} RecordExactly(expiry: map<string, int>, ss: seq<RequestStep>, jti: string)
    requires Consumptions(Steps(expiry, ss), jti) > 0
    ensures var r := Steps(expiry, ss);
            && jti in expiry
            && (jti in r.used <==> !ForgottenSinceUse(expiry, ss, jti))
            && (jti in r.used ==> r.used[jti] == expiry[jti])
  {
    if ss != [] {
      var init := ss[..|ss| - 1];
      if Consumptions(Steps(expiry, init), jti) == Consumptions(Steps(expiry, ss), jti) {
        RecordExactly(expiry, init, jti);
        ForgottenStep(expiry, ss, jti, Consumptions(Steps(expiry, ss), jti));
      } else {
        CountsNeverFall(expiry, ss, jti, |init|);
        RememberedWhenUsed(expiry, ss, jti);
      }
    }
  }

  /** Inserting a token that has been consumed consumes it again if and only if some deletion since its
      last consumption used a reading of the clock past its last second. */
  lemma SecondUseExactly(expiry: map<string, int>, ss: seq<RequestStep>, q: nat, jti: string)
    requires var r := Steps(expiry, ss); q in r.verified && r.verified[q] == jti && Consumptions(r, jti) > 0
    ensures var r := Steps(expiry, ss);
            Consumptions(Step(expiry, r, InsertToken(q)), jti) > Consumptions(r, jti)
            <==> ForgottenSinceUse(expiry, ss, jti)
  {
    RecordExactly(expiry, ss, jti);
  }

  /** Step i inserts a token that has been consumed, and forgotten since. */
  ghost predicate ReusesAt(expiry: map<string, int>, ss: seq<RequestStep>, jti: string, i: int)
    requires 0 <= i < |ss|
  {
    var r := Steps(expiry, ss[..i]);
    && ss[i].InsertToken? && ss[i].request in r.verified && r.verified[ss[i].request] == jti
    && Consumptions(r, jti) > 0
    && ForgottenSinceUse(expiry, ss[..i], jti)
  }

  /** A run uses a token more than once if and only if one of its steps inserts it after it has been
      consumed and then forgotten. */
  lemma {:induction false} ReuseExactly(expiry: map<string, int>, ss: seq<RequestStep>, jti: string)
    ensures Consumptions(Steps(expiry, ss), jti) > 1 <==> exists i :: 0 <= i < |ss| && ReusesAt(expiry, ss, jti, i)
  {
    if ss != [] {
      var n := |ss| - 1;
      var init := ss[..n];
      ReuseExactly(expiry, init, jti);
      ReuseStep(expiry, ss, jti);
      forall i | 0 <= i < n ensures ReusesAt(expiry, ss, jti, i) <==> ReusesAt(expiry, init, jti, i) {
        assert init[..i] == ss[..i];
      }
      if i :| 0 <= i < n && ReusesAt(expiry, init, jti, i) {
        assert ReusesAt(expiry, ss, jti, i);
      }
    }
  }

  lemma ReuseStep(expiry: map<string, int>, ss: seq<RequestStep>, jti: string)
    requires ss != []
    ensures Consumptions(Steps(expiry, ss), jti) > 1
            <==> Consumptions(Steps(expiry, ss[..|ss| - 1]), jti) > 1 || ReusesAt(expiry, ss, jti, |ss| - 1)
  {
    var init, last := ss[..|ss| - 1], ss[|ss| - 1];
    var r := Steps(expiry, init);
    CountsNeverFall(expiry, ss, jti, |init|);
    if Consumptions(r, jti) > 0 && last.InsertToken? && last.request in r.verified && r.verified[last.request] == jti {
      SecondUseExactly(expiry, init, last.request, jti);
    }
  }

  lemma StepsAfter(expiry: map<string, int>, ss: seq<RequestStep>, s: RequestStep)
    ensures Steps(expiry, ss + [s]) == Step(expiry, Steps(expiry, ss), s)
  {
    assert (ss + [s])[..|ss|] == ss;
  }

  /** Any request that still holds a consumed token, and is overtaken by the clock, consumes it again. */
  lemma Overtaken(expiry: map<string, int>, ss: seq<RequestStep>, q: nat, jti: string, n: nat)
    requires var r := Steps(expiry, ss);
             && q in r.verified && r.verified[q] == jti && Consumptions(r, jti) > 0
             && jti in expiry && expiry[jti] < r.now + n
    ensures Consumptions(Steps(expiry, ss + [Tick(n), ReadClock(q), Delete(q), InsertToken(q)]), jti) ==
            Consumptions(Steps(expiry, ss), jti) + 1
  {
    var ticked := ss + [Tick(n)];
    var read := ticked + [ReadClock(q)];
    var deleted := read + [Delete(q)];
    StepsAfter(expiry, ss, Tick(n));
    StepsAfter(expiry, ticked, ReadClock(q));
    StepsAfter(expiry, read, Delete(q));
    assert deleted[..|read|] == read && deleted[|read|] == Delete(q);
    assert ForgetsAt(expiry, deleted, jti, Consumptions(Steps(expiry, ss), jti), |read|);
    SecondUseExactly(expiry, deleted, q, jti);
    StepsAfter(expiry, deleted, InsertToken(q));
    FourSteps(ss, Tick(n), ReadClock(q), Delete(q), InsertToken(q));
  }

  /** Two requests verify the same token, and the first goes on to consume it. */
  function FirstUse(jti: string): seq<RequestStep> {
    [VerifyToken(1, jti), VerifyToken(2, jti)] + [ReadClock(1)] + [Delete(1)] + [InsertToken(1)]
  }

  lemma AfterFirstUse(expiry: map<string, int>, jti: string)
    requires jti in expiry && 0 < expiry[jti]
    ensures var r := Steps(expiry, FirstUse(jti));
            r.now == 0 && 2 in r.verified && r.verified[2] == jti && Consumptions(r, jti) == 1
  {
    var both := [VerifyToken(1, jti), VerifyToken(2, jti)];
    StepsAfter(expiry, [], VerifyToken(1, jti));
    StepsAfter(expiry, [VerifyToken(1, jti)], VerifyToken(2, jti));
    assert [] + [VerifyToken(1, jti)] == [VerifyToken(1, jti)];
    assert [VerifyToken(1, jti)] + [VerifyToken(2, jti)] == both;
    assert Steps(expiry, both) == IDLE.(verified := map[1 := jti, 2 := jti]);
    StepsAfter(expiry, both, ReadClock(1));
    StepsAfter(expiry, both + [ReadClock(1)], Delete(1));
    StepsAfter(expiry, both + [ReadClock(1)] + [Delete(1)], InsertToken(1));
  }

  /** It happens to every token that lives: two requests verify it in time, one purges the table and consumes it,
      and a second after its expiry the other purges the table and consumes it too. */
  lemma LateInsertionReuses(expiry: map<string, int>, jti: string)
    requires jti in expiry && 0 < expiry[jti]
    ensures var ss := [VerifyToken(1, jti), VerifyToken(2, jti), ReadClock(1), Delete(1), InsertToken(1),
                       Tick(expiry[jti] + 1), ReadClock(2), Delete(2), InsertToken(2)];
            Consumptions(Steps(expiry, ss), jti) == 2
  {
    AfterFirstUse(expiry, jti);
    Overtaken(expiry, FirstUse(jti), 2, jti, expiry[jti] + 1);
    assert [VerifyToken(1, jti), VerifyToken(2, jti), ReadClock(1), Delete(1), InsertToken(1),
            Tick(expiry[jti] + 1), ReadClock(2), Delete(2), InsertToken(2)] ==
           FirstUse(jti) + [Tick(expiry[jti] + 1), ReadClock(2), Delete(2), InsertToken(2)];
  }

  // ---------- Atomic requests ----------

  /** Requests that run to their end before the next one starts, with time passing only between them. */
  datatype AtomicStep = Wait(seconds: nat) | Request(jti: string)

  function Expand(a: AtomicStep): seq<RequestStep> {
    match a
    case Wait(n) => [Tick(n)]
    case Request(jti) => [VerifyToken(0, jti), ReadClock(0), Delete(0), InsertToken(0)]
  }

  function ExpandAll(requests: seq<AtomicStep>): seq<RequestStep> {
    if requests == [] then [] else ExpandAll(requests[..|requests| - 1]) + Expand(requests[|requests| - 1])
  }

  lemma TimelyStep(expiry: map<string, int>, ss: seq<RequestStep>, s: RequestStep)
    requires AllTimely(expiry, ss) && Timely(expiry, Steps(expiry, ss), s)
    ensures AllTimely(expiry, ss + [s]) && Steps(expiry, ss + [s]) == Step(expiry, Steps(expiry, ss), s)
  {
    var ss' := ss + [s];
    assert ss'[..|ss|] == ss;
    forall i | 0 <= i < |ss'| ensures Timely(expiry, Steps(expiry, ss'[..i]), ss'[i]) {
      if i < |ss| {
        assert ss'[..i] == ss[..i];
        assert Timely(expiry, Steps(expiry, ss[..i]), ss[i]);
      }
    }
  }

  /** Request 0 either holds a token that has not expired, or none. */
  ghost predicate HoldsGood(expiry: map<string, int>, r: Race) {
    0 in r.verified ==> r.verified[0] in expiry && r.now < expiry[r.verified[0]]
  }

  lemma QuickStep(expiry: map<string, int>, ss: seq<RequestStep>, s: RequestStep)
    requires AllTimely(expiry, ss) && HoldsGood(expiry, Steps(expiry, ss))
    requires s == ReadClock(0) || s == Delete(0)
    ensures AllTimely(expiry, ss + [s]) && HoldsGood(expiry, Steps(expiry, ss + [s]))
  {
    TimelyStep(expiry, ss, s);
  }

  lemma FirstStep(expiry: map<string, int>, ss: seq<RequestStep>, jti: string)
    requires AllTimely(expiry, ss) && 0 !in Steps(expiry, ss).verified
    ensures var ss' := ss + [VerifyToken(0, jti)]; AllTimely(expiry, ss') && HoldsGood(expiry, Steps(expiry, ss'))
  {
    TimelyStep(expiry, ss, VerifyToken(0, jti));
  }

  lemma LastStep(expiry: map<string, int>, ss: seq<RequestStep>)
    requires AllTimely(expiry, ss) && HoldsGood(expiry, Steps(expiry, ss))
    ensures AllTimely(expiry, ss + [InsertToken(0)]) && 0 !in Steps(expiry, ss + [InsertToken(0)]).verified
  {
    TimelyStep(expiry, ss, InsertToken(0));
  }

  lemma RequestIsTimely(expiry: map<string, int>, ss: seq<RequestStep>, jti: string)
    requires AllTimely(expiry, ss) && 0 !in Steps(expiry, ss).verified
    ensures AllTimely(expiry, ss + Expand(Request(jti)))
    ensures 0 !in Steps(expiry, ss + Expand(Request(jti))).verified
  {
    FirstStep(expiry, ss, jti);
    var s1 := ss + [VerifyToken(0, jti)];
    QuickStep(expiry, s1, ReadClock(0));
    var s2 := s1 + [ReadClock(0)];
    QuickStep(expiry, s2, Delete(0));
    var s3 := s2 + [Delete(0)];
    LastStep(expiry, s3);
    FourSteps(ss, VerifyToken(0, jti), ReadClock(0), Delete(0), InsertToken(0));
  }

  lemma FourSteps<T>(s: seq<T>, a: T, b: T, c: T, d: T)
    ensures s + [a] + [b] + [c] + [d] == s + [a, b, c, d]
  {
  }

  lemma {:induction false} AtomicIsTimely(expiry: map<string, int>, requests: seq<AtomicStep>)
    ensures AllTimely(expiry, ExpandAll(requests))
    ensures 0 !in Steps(expiry, ExpandAll(requests)).verified
  {
    if requests != [] {
      var before, last := ExpandAll(requests[..|requests| - 1]), requests[|requests| - 1];
      AtomicIsTimely(expiry, requests[..|requests| - 1]);
      match last {
        case Wait(n) => TimelyStep(expiry, before, Tick(n));
        case Request(jti) => RequestIsTimely(expiry, before, jti);
      }
    }
  }

  /** Single use needs no hypothesis when each request verifies and consumes at one instant. */
  lemma AtomicSingleUse(expiry: map<string, int>, requests: seq<AtomicStep>, jti: string)
    ensures Consumptions(Steps(expiry, ExpandAll(requests)), jti) <= 1
  {
    AtomicIsTimely(expiry, requests);
    SingleUse(expiry, ExpandAll(requests), jti);
  }
}
