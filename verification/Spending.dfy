/** How much one approval buys: as many purchases as one cares to mint tokens for. */
module Spending {
  import opened Prelude
  import opened EventLog
  import opened ExecutionTokens
  import opened ReplayStore
  import opened Gateway
  import opened Enforcement
  import Approvals

  // ---------- Two tokens, two purchases ----------

  function Present(env: Env, c: Claims, purchase: Purchase, runId: Option<string>, suffix: string): SystemStep
    requires env.kid in env.keys
  {
    ExecuteCall(Some(Mint(env.crypto, env.keys[env.kid], c)), purchase, runId, suffix)
  }

  /** Executing a purchase spends its token and no other. */
  lemma SpendsOne(env: Env, s: System, i: nat, p: Purchase, runId: Option<string>, suffix: string)
    requires MintsJustified(env, s) && GoodEnv(env) && i < |s.minted|
    requires Executable(env, s, s.minted[i].claims, p, runId, suffix)
    ensures var c := s.minted[i].claims;
            var step := Present(env, c, p, runId, suffix);
            var s' := Next(env, s, step);
            && Allowed(env, s, step)
            && s'.executed == s.executed + [Execution(c, p, s.now)]
            && s'.used == Purged(s.used, Seconds(s.now))[c.jti := c.exp]
            && s'.minted == s.minted && s'.now == s.now
  {
    var c := s.minted[i].claims;
    MintedExecutes(env, s, i, p, runId, suffix);
    ExecutedMeans(env, s, Present(env, c, p, runId, suffix));
    MintedVerifies(env.crypto, env.keys, c, PURCHASE, Some(env.purchaseHash(p)), s.now);
  }

  lemma OtherStaysGood(env: Env, s: System, s': System, spent: Claims, c: Claims, q: Purchase,
                       runId: Option<string>, suffix: string)
    requires Executable(env, s, c, q, runId, suffix) && spent.jti != c.jti
    requires s'.used == Purged(s.used, Seconds(s.now))[spent.jti := spent.exp] && s'.now == s.now
    requires !Logged(s'.log, ClaimRunId(c, runId), "evt_runtime_" + suffix)
    ensures Executable(env, s', c, q, runId, suffix)
  {
  }

  lemma FirstAndSecond(env: Env, s: System, i: nat, j: nat, p: Purchase, q: Purchase,
                       runP: Option<string>, runQ: Option<string>, suffixP: string, suffixQ: string)
    requires Enforced(env, s) && GoodEnv(env) && i < |s.minted| && j < |s.minted| && i != j
    requires Executable(env, s, s.minted[i].claims, p, runP, suffixP)
    requires Executable(env, s, s.minted[j].claims, q, runQ, suffixQ)
    requires var c := s.minted[j].claims;
             !Logged(Next(env, s, Present(env, s.minted[i].claims, p, runP, suffixP)).log, ClaimRunId(c, runQ),
                     "evt_runtime_" + suffixQ)
    ensures var c, d := s.minted[i].claims, s.minted[j].claims;
            var first, second := Present(env, c, p, runP, suffixP), Present(env, d, q, runQ, suffixQ);
            var s' := Next(env, s, first);
            && Allowed(env, s, first) && s'.executed == s.executed + [Execution(c, p, s.now)]
            && Allowed(env, s', second) && Next(env, s', second).executed == s'.executed + [Execution(d, q, s.now)]
  {
    var c, d := s.minted[i].claims, s.minted[j].claims;
    var first := Present(env, c, p, runP, suffixP);
    SpendsOne(env, s, i, p, runP, suffixP);
    MintedOnce(s, i, j);
    OtherStaysGood(env, s, Next(env, s, first), c, d, q, runQ, suffixQ);
    MintsStayJustified(env, s, first);
    SpendsOne(env, Next(env, s, first), j, q, runQ, suffixQ);
  }

  /** Two minted tokens that could each execute a purchase execute both, one after the other; nothing depends on
      their being for different decisions. */
  lemma BothExecute(env: Env, s: System, i: nat, j: nat, p: Purchase, q: Purchase,
                    runP: Option<string>, runQ: Option<string>, suffixP: string, suffixQ: string)
    requires Enforced(env, s) && GoodEnv(env) && i < |s.minted| && j < |s.minted| && i != j
    requires Executable(env, s, s.minted[i].claims, p, runP, suffixP)
    requires Executable(env, s, s.minted[j].claims, q, runQ, suffixQ)
    requires var c := s.minted[j].claims;
             !Logged(Next(env, s, Present(env, s.minted[i].claims, p, runP, suffixP)).log, ClaimRunId(c, runQ),
                     "evt_runtime_" + suffixQ)
    ensures var c, d := s.minted[i].claims, s.minted[j].claims;
            var steps := [Present(env, c, p, runP, suffixP), Present(env, d, q, runQ, suffixQ)];
            && Runs(env, s, steps)
            && RunAll(env, s, steps).executed == s.executed + [Execution(c, p, s.now), Execution(d, q, s.now)]
  {
    var c, d := s.minted[i].claims, s.minted[j].claims;
    var first, second := Present(env, c, p, runP, suffixP), Present(env, d, q, runQ, suffixQ);
    FirstAndSecond(env, s, i, j, p, q, runP, runQ, suffixP, suffixQ);
    TwoSteps(env, s, first, second);
    assert s.executed + [Execution(c, p, s.now)] + [Execution(d, q, s.now)] ==
           s.executed + [Execution(c, p, s.now), Execution(d, q, s.now)];
  }

  // ---------- Minting again ----------

  /** A decision that stands approved can be minted for again, for any purchase, under ids that are new. */
  lemma MintsAgain(env: Env, s: System, d: string, purchase: Purchase, jti: string, suffix: string)
    requires GoodEnv(env) && 0 < env.ttl && 0 <= s.now
    requires Approved(s.log, d) && FreshId(s.minted, jti)
    requires !Logged(s.log, Approvals.StateOf(s.log, d).value.runId, "evt_runtime_" + suffix)
    ensures var step := MintCall(d, purchase, jti, suffix);
            var c := MintClaims(env, Approvals.StateOf(s.log, d).value, d, purchase, s.now, jti);
            var s' := Next(env, s, step);
            && Allowed(env, s, step)
            && MintFor(env, s.log, d, purchase, s.now, jti, suffix).reply ==
               MintedToken(Mint(env.crypto, env.keys[env.kid], c))
            && |s'.minted| == |s.minted| + 1 && s'.minted[|s.minted|].claims == c
            && s'.used == s.used && s'.executed == s.executed && s'.now == s.now
            && c.decisionId == d && c.jti == jti
            && c.action == PURCHASE && c.payloadHash == Some(env.purchaseHash(purchase))
            && c.nbf == Seconds(s.now) && c.exp == Seconds(s.now) + env.ttl
  {
    assert (s.now + env.ttl * SECOND) / SECOND == s.now / SECOND + env.ttl;
  }

  lemma MintThenExecute(env: Env, s: System, d: string, purchase: Purchase, jti: string, mintSuffix: string,
                        suffix: string)
    requires Enforced(env, s) && GoodEnv(env) && 0 < env.ttl && 0 <= s.now
    requires Approved(s.log, d) && FreshId(s.minted, jti) && jti !in s.used
    requires !Logged(s.log, Approvals.StateOf(s.log, d).value.runId, "evt_runtime_" + mintSuffix)
    requires var log' := Next(env, s, MintCall(d, purchase, jti, mintSuffix)).log;
             forall run :: !Logged(log', run, "evt_runtime_" + suffix)
    ensures var c := MintClaims(env, Approvals.StateOf(s.log, d).value, d, purchase, s.now, jti);
            var steps := [MintCall(d, purchase, jti, mintSuffix), Present(env, c, purchase, None, suffix)];
            && Runs(env, s, steps)
            && RunAll(env, s, steps).executed == s.executed + [Execution(c, purchase, s.now)]
            && RunAll(env, s, steps).now == s.now
            && Approved(RunAll(env, s, steps).log, d)
  {
    var c := MintClaims(env, Approvals.StateOf(s.log, d).value, d, purchase, s.now, jti);
    var first, second := MintCall(d, purchase, jti, mintSuffix), Present(env, c, purchase, None, suffix);
    var s' := Next(env, s, first);
    MintsAgain(env, s, d, purchase, jti, mintSuffix);
    NextMovesLedger(env, s, first);
    NextIsEnforced(env, s, first);
    SpendsOne(env, s', |s.minted|, purchase, None, suffix);
    NextMovesLedger(env, s', second);
    TwoSteps(env, s, first, second);
  }

  // ---------- New ids ----------

  lemma Text(n: nat) returns (t: string)
    ensures |t| == n
  {
    t := seq(n, _ => 'a');
  }

  lemma {:induction false} LongerThanIds(log: Log) returns (n: nat)
    ensures forall r | r in log :: |r.event.id| < n
  {
    if log == [] {
      n := 0;
    } else {
      var last := log[|log| - 1];
      var m := LongerThanIds(log[..|log| - 1]);
      assert log == log[..|log| - 1] + [last];
      n := m + |last.event.id| + 1;
    }
  }

  lemma NewSuffix(log: Log) returns (suffix: string)
    ensures forall run :: !Logged(log, run, "evt_runtime_" + suffix)
  {
    var n := LongerThanIds(log);
    suffix := Text(n);
  }

  lemma {:induction false} LongerThanTokens(minted: seq<Minted>) returns (n: nat)
    ensures forall i :: 0 <= i < |minted| ==> |minted[i].claims.jti| < n
  {
    if minted == [] {
      n := 0;
    } else {
      var m := LongerThanTokens(minted[..|minted| - 1]);
      n := m + |minted[|minted| - 1].claims.jti| + 1;
    }
  }

  lemma {:induction false} LongerThanKeys(keys: set<string>) returns (n: nat)
    ensures forall k | k in keys :: |k| < n
    decreases |keys|
  {
    if keys == {} {
      n := 0;
    } else {
      var k :| k in keys;
      var m := LongerThanKeys(keys - {k});
      n := m + |k| + 1;
    }
  }

  lemma NewToken(s: System) returns (jti: string)
    ensures FreshId(s.minted, jti) && jti !in s.used
  {
    var m := LongerThanTokens(s.minted);
    var n := LongerThanKeys(s.used.Keys);
    jti := Text(m + n);
  }

  // ---------- One approval, any number of purchases ----------

  lemma {:induction false} RunsAppend(env: Env, s: System, a: seq<SystemStep>, b: seq<SystemStep>)
    ensures Runs(env, s, a + b) <==> Runs(env, s, a) && Runs(env, RunAll(env, s, a), b)
    ensures RunAll(env, s, a + b) == RunAll(env, RunAll(env, s, a), b)
    decreases |a|
  {
    if a == [] {
      assert a + b == b;
    } else {
      assert (a + b)[0] == a[0] && (a + b)[1..] == a[1..] + b;
      RunsAppend(env, Next(env, s, a[0]), a[1..], b);
    }
  }

  lemma BuysOne(env: Env, s: System, d: string, purchase: Purchase) returns (steps: seq<SystemStep>, x: Execution)
    requires Enforced(env, s) && GoodEnv(env) && 0 < env.ttl && 0 <= s.now && Approved(s.log, d)
    ensures Runs(env, s, steps)
    ensures RunAll(env, s, steps).executed == s.executed + [x]
    ensures x.claims.decisionId == d && x.purchase == purchase
    ensures RunAll(env, s, steps).now == s.now && Approved(RunAll(env, s, steps).log, d)
    ensures Enforced(env, RunAll(env, s, steps))
  {
    var jti := NewToken(s);
    var mintSuffix := NewSuffix(s.log);
    var suffix := NewSuffix(Next(env, s, MintCall(d, purchase, jti, mintSuffix)).log);
    MintThenExecute(env, s, d, purchase, jti, mintSuffix, suffix);
    var c := MintClaims(env, Approvals.StateOf(s.log, d).value, d, purchase, s.now, jti);
    steps := [MintCall(d, purchase, jti, mintSuffix), Present(env, c, purchase, None, suffix)];
    x := Execution(c, purchase, s.now);
    RunIsEnforced(env, s, steps);
  }

  /** The executions are of these purchases, in this order, all for the decision. */
  ghost predicate Buys(bought: seq<Execution>, d: string, purchases: seq<Purchase>) {
    && |bought| == |purchases|
    && forall k :: 0 <= k < |bought| ==> bought[k].claims.decisionId == d && bought[k].purchase == purchases[k]
  }

  lemma BuysMore(x: Execution, more: seq<Execution>, d: string, purchases: seq<Purchase>)
    requires purchases != [] && x.claims.decisionId == d && x.purchase == purchases[0] && Buys(more, d, purchases[1..])
    ensures Buys([x] + more, d, purchases)
  {
  }

  /** From any state in which a decision stands approved, some run executes any list of purchases whatever on that
      one approval. So nothing limits an approval to one purchase, or to the purchase that was approved. */
  lemma {:induction false} ApprovalBuysAny(env: Env, s: System, d: string, purchases: seq<Purchase>)
    returns (steps: seq<SystemStep>, bought: seq<Execution>)
    requires Enforced(env, s) && GoodEnv(env) && 0 < env.ttl && 0 <= s.now && Approved(s.log, d)
    ensures Runs(env, s, steps)
    ensures RunAll(env, s, steps).executed == s.executed + bought && Buys(bought, d, purchases)
    decreases |purchases|
  {
    if purchases == [] {
      steps, bought := [], [];
    } else {
      var first, x := BuysOne(env, s, d, purchases[0]);
      var rest, more := ApprovalBuysAny(env, RunAll(env, s, first), d, purchases[1..]);
      RunsAppend(env, s, first, rest);
      BuysMore(x, more, d, purchases);
      steps, bought := first + rest, [x] + more;
      assert s.executed + [x] + more == s.executed + bought;
    }
  }
}
