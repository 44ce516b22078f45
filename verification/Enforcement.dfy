/** End-to-end enforcement: every run of authorizing, registering, resolving, minting, executing and the
    passing of time, for an adversary who chooses every input but cannot forge a signature. */
module Enforcement {
  import opened Prelude
  import opened Events
  import opened EventLog
  import opened ExecutionTokens
  import opened ReplayStore
  import opened Gateway
  import Base64Url
  import Approvals
  import Ledger
  import Decisions
  import RuntimeReceipts
  import Policy

  /** Why a token was signed. */
  datatype Grounds = EvaluatedAllow(request: AuthorizeRequest, loaded: LoadedRules) | ResolvedApproval

  /** A signed token: its claims, why and when it was signed, and how much of the ledger there was. */
  datatype Minted = Minted(claims: Claims, grounds: Grounds, at: Time, length: nat)

  datatype Execution = Execution(claims: Claims, purchase: Purchase, at: Time)

  datatype System = System(
    log: Log,
    minted: seq<Minted>,
    used: map<string, int>,
    executed: seq<Execution>,
    now: Time)

  datatype SystemStep =
    | TimePasses(micros: nat)
    | LedgerAction(action: Ledger.LedgerStep)
    | AuthorizeCall(request: AuthorizeRequest, loaded: LoadedRules, jti: string, suffixes: Suffixes)
    | MintCall(decisionId: string, purchase: Purchase, jti: string, suffix: string)
    | ExecuteCall(token: Option<string>, purchase: Purchase, runId: Option<string>, suffix: string)

  function Next(env: Env, s: System, step: SystemStep): System {
    match step
    case TimePasses(n) => s.(now := s.now + n)
    case LedgerAction(action) => s.(log := Ledger.Apply(env.hash, s.log, action))
    case AuthorizeCall(request, loaded, jti, suffixes) =>
      var e := Authorize(env, s.log, request, loaded, s.now, jti, suffixes);
      s.(log := e.log,
         minted := if e.signed.None? then s.minted
                   else s.minted + [Minted(e.signed.value, EvaluatedAllow(request, loaded), s.now, |s.log|)])
    case MintCall(decisionId, purchase, jti, suffix) =>
      var e := MintFor(env, s.log, decisionId, purchase, s.now, jti, suffix);
      s.(log := e.log,
         minted := if e.signed.None? then s.minted
                   else s.minted + [Minted(e.signed.value, ResolvedApproval, s.now, |s.log|)])
    case ExecuteCall(token, purchase, runId, suffix) =>
      var e := Execute(env, s.log, s.used, token, purchase, runId, s.now, suffix);
      s.(log := e.log, used := e.used,
         executed := if e.reply.Executed? then s.executed + [Execution(e.reply.claims, purchase, s.now)]
                     else s.executed)
  }

  // ---------- The adversary ----------

  /** Nobody else can sign: a payload that carries a valid signature under a configured key is one that was minted. */
  ghost predicate Unforgeable(env: Env, minted: seq<Minted>, token: string) {
    forall payload, kid ::
      kid in env.keys && SplitDots(token) == [payload, Sign(env.crypto, env.keys[kid], payload)] ==>
      exists i :: 0 <= i < |minted| && payload == Base64Url.Encode(env.crypto.dump(FieldsOf(minted[i].claims)))
  }

  /** Token ids are drawn fresh. */
  ghost predicate FreshId(minted: seq<Minted>, jti: string) {
    forall i :: 0 <= i < |minted| ==> minted[i].claims.jti != jti
  }

  ghost predicate Allowed(env: Env, s: System, step: SystemStep) {
    match step
    case AuthorizeCall(_, _, jti, _) => FreshId(s.minted, jti)
    case MintCall(_, _, jti, _) => FreshId(s.minted, jti)
    case ExecuteCall(token, _, _, _) => token.Some? ==> Unforgeable(env, s.minted, token.value)
    case _ => true
  }

  ghost predicate Runs(env: Env, s: System, steps: seq<SystemStep>)
    decreases |steps|
  {
    steps == [] || (Allowed(env, s, steps[0]) && Runs(env, Next(env, s, steps[0]), steps[1..]))
  }

  function RunAll(env: Env, s: System, steps: seq<SystemStep>): System
    decreases |steps|
  {
    if steps == [] then s else RunAll(env, Next(env, s, steps[0]), steps[1..])
  }

  // ---------- The invariant ----------

  ghost predicate Approved(log: Log, decisionId: string) {
    var state := Approvals.StateOf(log, decisionId);
    state.Some? && state.value.status == ApprovalStatus.Approved
  }

  /** A token was signed on grounds that held when it was signed: its request was evaluated to allow over
      the ledger of that time, or its decision stood approved, as it still does. */
  ghost predicate Justified(env: Env, log: Log, m: Minted)
    requires m.length <= |log|
  {
    var atSigning := log[..m.length];
    match m.grounds
    case EvaluatedAllow(request, loaded) =>
      && Evaluation(env, atSigning, request, loaded).Ok?
      && Evaluation(env, atSigning, request, loaded).value.state == Policy.Allow
      && m.claims.decisionId == env.decisionIdOf(request)
      && m.claims.action == request.action
      && m.claims.payloadHash == Some(env.purchaseHash(request.purchase))
    case ResolvedApproval =>
      && Approved(atSigning, m.claims.decisionId)
      && Approved(log, m.claims.decisionId)
      && m.claims.action == PURCHASE
  }

  ghost predicate MintsJustified(env: Env, s: System) {
    forall i :: 0 <= i < |s.minted| ==>
      && s.minted[i].length <= |s.log|
      && s.minted[i].at <= s.now
      && s.minted[i].claims.nbf == Seconds(s.minted[i].at)
      && s.minted[i].claims.kid == env.kid
      && Justified(env, s.log, s.minted[i])
  }

  ghost predicate IdsDistinct(minted: seq<Minted>) {
    forall i, j :: 0 <= i < j < |minted| ==> minted[i].claims.jti != minted[j].claims.jti
  }

  /** An execution spent a token minted for its decision and its purchase, while the token was good. */
  ghost predicate Covered(env: Env, s: System, x: Execution) {
    && (exists i :: 0 <= i < |s.minted| && s.minted[i].claims == x.claims && s.minted[i].at <= x.at)
    && x.claims.action == PURCHASE
    && x.claims.payloadHash == Some(env.purchaseHash(x.purchase))
    && x.claims.nbf <= Seconds(x.at) < x.claims.exp
    && x.at <= s.now
  }

  /** An execution's token is on record as used, or has expired. */
  ghost predicate Spent(s: System, x: Execution) {
    (x.claims.jti in s.used && s.used[x.claims.jti] == x.claims.exp) || x.claims.exp < Seconds(s.now)
  }

  ghost predicate ExecutionsCovered(env: Env, s: System) {
    forall k :: 0 <= k < |s.executed| ==> Covered(env, s, s.executed[k]) && Spent(s, s.executed[k])
  }

  ghost predicate ExecutionsDistinct(executed: seq<Execution>) {
    forall k, l :: 0 <= k < l < |executed| ==> executed[k].claims.jti != executed[l].claims.jti
  }

  ghost predicate Enforced(env: Env, s: System) {
    && Ledger.Orderly(env.hash, s.log)
    && MintsJustified(env, s)
    && IdsDistinct(s.minted)
    && ExecutionsCovered(env, s)
    && ExecutionsDistinct(s.executed)
  }

  ghost predicate GoodEnv(env: Env) {
    Sound(env.crypto) && env.kid in env.keys && !IsBlank(env.kid)
  }

  // ---------- How the ledger moves ----------

  /** The ledger grew, stayed orderly, and kept every decision that had been made, either way. */
  ghost predicate LedgerMoved(env: Env, log: Log, log': Log) {
    && log <= log'
    && Ledger.Orderly(env.hash, log')
    && forall d :: Ledger.Decided(Approvals.StateOf(log, d)) ==>
                     Approvals.StateOf(log', d) == Approvals.StateOf(log, d)
  }

  lemma LedgerStepMoves(env: Env, log: Log, a: Ledger.LedgerStep)
    requires Ledger.Orderly(env.hash, log)
    ensures LedgerMoved(env, log, Ledger.Apply(env.hash, log, a))
  {
    Decisions.StepKeepsOrder(env.hash, log, a);
    Ledger.StepGrows(env.hash, log, a);
  }

  lemma ReceiptMoves(env: Env, log: Log, input: RuntimeReceipts.ReceiptInput)
    requires Ledger.Orderly(env.hash, log)
    ensures var r := RuntimeReceipts.Record(env.hash, log, input);
            r.Some? ==> LedgerMoved(env, log, r.value)
  {
    LedgerStepMoves(env, log, Ledger.ReceiptStep(input));
  }

  lemma NothingMoves(env: Env, log: Log)
    requires Ledger.Orderly(env.hash, log)
    ensures LedgerMoved(env, log, log)
  {
  }

  lemma MovesTransitive(env: Env, a: Log, b: Log, c: Log)
    requires LedgerMoved(env, a, b) && LedgerMoved(env, b, c)
    ensures LedgerMoved(env, a, c)
  {
  }

  lemma AuthorizeMoves(env: Env, log: Log, request: AuthorizeRequest, loaded: LoadedRules, now: Time, jti: string,
                       suffixes: Suffixes)
    requires Ledger.Orderly(env.hash, log)
    ensures LedgerMoved(env, log, Authorize(env, log, request, loaded, now, jti, suffixes).log)
  {
    var id := env.decisionIdOf(request);
    var run := ContextRunId(request, id);
    var first := RuntimeReceipts.ReceiptInput(run, RuntimeReceipts.DecisionRecorded, Some(id), 0, now, suffixes.first);
    var second := RuntimeReceipts.ReceiptInput(run, RuntimeReceipts.TokenMinted, Some(id), 0, now, suffixes.second);
    NothingMoves(env, log);
    ReceiptMoves(env, log, first);
    var r1 := RuntimeReceipts.Record(env.hash, log, first);
    if r1.Some? {
      ReceiptMoves(env, r1.value, second);
      var r2 := RuntimeReceipts.Record(env.hash, r1.value, second);
      if r2.Some? {
        MovesTransitive(env, log, r1.value, r2.value);
      }
    }
  }

  lemma MintMoves(env: Env, log: Log, decisionId: string, purchase: Purchase, now: Time, jti: string, suffix: string)
    requires Ledger.Orderly(env.hash, log)
    ensures LedgerMoved(env, log, MintFor(env, log, decisionId, purchase, now, jti, suffix).log)
  {
    NothingMoves(env, log);
    forall input
      ensures var r := RuntimeReceipts.Record(env.hash, log, input); r.Some? ==> LedgerMoved(env, log, r.value)
    {
      ReceiptMoves(env, log, input);
    }
  }

  lemma ExecuteMoves(env: Env, log: Log, used: map<string, int>, token: Option<string>, purchase: Purchase,
                     runId: Option<string>, now: Time, suffix: string)
    requires Ledger.Orderly(env.hash, log)
    ensures LedgerMoved(env, log, Execute(env, log, used, token, purchase, runId, now, suffix).log)
  {
    NothingMoves(env, log);
    forall input
      ensures var r := RuntimeReceipts.Record(env.hash, log, input); r.Some? ==> LedgerMoved(env, log, r.value)
    {
      ReceiptMoves(env, log, input);
    }
  }

  lemma NextMovesLedger(env: Env, s: System, step: SystemStep)
    requires Ledger.Orderly(env.hash, s.log)
    ensures LedgerMoved(env, s.log, Next(env, s, step).log)
  {
    match step {
      case TimePasses(_) => NothingMoves(env, s.log);
      case LedgerAction(a) => LedgerStepMoves(env, s.log, a);
      case AuthorizeCall(request, loaded, jti, suffixes) =>
        AuthorizeMoves(env, s.log, request, loaded, s.now, jti, suffixes);
      case MintCall(decisionId, purchase, jti, suffix) =>
        MintMoves(env, s.log, decisionId, purchase, s.now, jti, suffix);
      case ExecuteCall(token, purchase, runId, suffix) =>
        ExecuteMoves(env, s.log, s.used, token, purchase, runId, s.now, suffix);
    }
  }

  // ---------- Minting ----------

  lemma JustifiedLater(env: Env, log: Log, log': Log, m: Minted)
    requires m.length <= |log| && Justified(env, log, m) && LedgerMoved(env, log, log')
    ensures m.length <= |log'| && Justified(env, log', m)
  {
    assert log'[..m.length] == log[..m.length];
    assert Approved(log, m.claims.decisionId) ==> Ledger.Decided(Approvals.StateOf(log, m.claims.decisionId));
  }

  /** A granted request was evaluated to allow over the ledger it found. */
  lemma AuthorizeSigns(env: Env, log: Log, request: AuthorizeRequest, loaded: LoadedRules, now: Time, jti: string,
                       suffixes: Suffixes)
    ensures var e := Authorize(env, log, request, loaded, now, jti, suffixes);
            e.signed.Some? ==>
              && e.signed.value == AuthorizeClaims(env, request, now, jti)
              && Evaluation(env, log, request, loaded).Ok?
              && Evaluation(env, log, request, loaded).value.state == Policy.Allow
  {
  }

  /** A token minted for a decision finds it approved. */
  lemma MintSigns(env: Env, log: Log, decisionId: string, purchase: Purchase, now: Time, jti: string, suffix: string)
    ensures var e := MintFor(env, log, decisionId, purchase, now, jti, suffix);
            e.signed.Some? ==>
              && Approved(log, decisionId)
              && e.signed.value ==
                 MintClaims(env, Approvals.StateOf(log, decisionId).value, decisionId, purchase, now, jti)
  {
  }

  /** A newly signed token, and its grounds over the ledger before and after. */
  ghost predicate SignedWell(env: Env, log: Log, log': Log, m: Minted, now: Time) {
    && m.length == |log| && m.length <= |log'|
    && m.at == now && m.claims.nbf == Seconds(now) && m.claims.kid == env.kid
    && Justified(env, log', m)
  }

  lemma AuthorizeSignsWell(env: Env, s: System, step: SystemStep)
    requires step.AuthorizeCall? && Ledger.Orderly(env.hash, s.log)
    ensures var e := Authorize(env, s.log, step.request, step.loaded, s.now, step.jti, step.suffixes);
            e.signed.Some? ==>
              SignedWell(env, s.log, e.log,
                         Minted(e.signed.value, EvaluatedAllow(step.request, step.loaded), s.now, |s.log|), s.now)
  {
    AuthorizeSigns(env, s.log, step.request, step.loaded, s.now, step.jti, step.suffixes);
    AuthorizeMoves(env, s.log, step.request, step.loaded, s.now, step.jti, step.suffixes);
    var log' := Authorize(env, s.log, step.request, step.loaded, s.now, step.jti, step.suffixes).log;
    assert log'[..|s.log|] == s.log;
  }

  lemma MintSignsWell(env: Env, s: System, step: SystemStep)
    requires step.MintCall? && Ledger.Orderly(env.hash, s.log)
    ensures var e := MintFor(env, s.log, step.decisionId, step.purchase, s.now, step.jti, step.suffix);
            e.signed.Some? ==>
              SignedWell(env, s.log, e.log, Minted(e.signed.value, ResolvedApproval, s.now, |s.log|), s.now)
  {
    MintSigns(env, s.log, step.decisionId, step.purchase, s.now, step.jti, step.suffix);
    MintMoves(env, s.log, step.decisionId, step.purchase, s.now, step.jti, step.suffix);
    var log' := MintFor(env, s.log, step.decisionId, step.purchase, s.now, step.jti, step.suffix).log;
    assert log'[..|s.log|] == s.log;
  }

  /** What a step signs, it signs on good grounds. */
  lemma SignedIsJustified(env: Env, s: System, step: SystemStep)
    requires Ledger.Orderly(env.hash, s.log)
    ensures var s' := Next(env, s, step);
            || s'.minted == s.minted
            || (|s'.minted| == |s.minted| + 1 && s'.minted == s.minted + [s'.minted[|s.minted|]]
                && SignedWell(env, s.log, s'.log, s'.minted[|s.minted|], s.now))
  {
    if step.AuthorizeCall? {
      AuthorizeSignsWell(env, s, step);
    } else if step.MintCall? {
      MintSignsWell(env, s, step);
    }
  }

  lemma MintsStayJustified(env: Env, s: System, step: SystemStep)
    requires Ledger.Orderly(env.hash, s.log) && MintsJustified(env, s)
    ensures MintsJustified(env, Next(env, s, step))
  {
    var s' := Next(env, s, step);
    NextMovesLedger(env, s, step);
    NextKeeps(env, s, step);
    SignedIsJustified(env, s, step);
    forall i | 0 <= i < |s'.minted|
      ensures s'.minted[i].length <= |s'.log| && s'.minted[i].at <= s'.now
      ensures s'.minted[i].claims.nbf == Seconds(s'.minted[i].at) && s'.minted[i].claims.kid == env.kid
      ensures Justified(env, s'.log, s'.minted[i])
    {
      if i < |s.minted| {
        assert s'.minted[i] == s.minted[i];
        JustifiedLater(env, s.log, s'.log, s.minted[i]);
      }
    }
  }

  lemma IdsStayDistinct(env: Env, s: System, step: SystemStep)
    requires IdsDistinct(s.minted) && Allowed(env, s, step)
    ensures IdsDistinct(Next(env, s, step).minted)
  {
  }

  // ---------- Executing ----------

  /** What verifies carries the claims of a minted token. */
  lemma VerifiedIsMinted(env: Env, minted: seq<Minted>, token: string, action: string, hash: Option<string>, now: Time)
    returns (i: nat)
    requires Sound(env.crypto) && Unforgeable(env, minted, token)
    requires Verify(env.crypto, env.keys, token, action, hash, now).Ok?
    ensures i < |minted| && minted[i].claims == Verify(env.crypto, env.keys, token, action, hash, now).value
  {
    var c := Verify(env.crypto, env.keys, token, action, hash, now).value;
    var parts := SplitDots(token);
    assert parts == [parts[0], Sign(env.crypto, env.keys[c.kid], parts[0])];
    i :| 0 <= i < |minted| && parts[0] == Base64Url.Encode(env.crypto.dump(FieldsOf(minted[i].claims)));
    Base64Url.RoundTrip(env.crypto.dump(FieldsOf(minted[i].claims)));
    FieldsGiveClaims(minted[i].claims);
  }

  lemma MintedOnce(s: System, i: nat, j: nat)
    requires IdsDistinct(s.minted) && i < |s.minted| && j < |s.minted|
    ensures s.minted[i].claims.jti == s.minted[j].claims.jti ==> i == j
  {
  }

  /** What an execution took: a token that verifies, and whose id was not on record after purging. */
  lemma ExecutedMeans(env: Env, s: System, step: SystemStep)
    requires step.ExecuteCall? && Next(env, s, step).executed != s.executed
    ensures step.token.Some?
    ensures var s' := Next(env, s, step);
            var hash := Some(env.purchaseHash(step.purchase));
            var v := Verify(env.crypto, env.keys, step.token.value, PURCHASE, hash, s.now);
            && v.Ok?
            && v.value.jti !in Purged(s.used, Seconds(s.now))
            && s'.executed == s.executed + [Execution(v.value, step.purchase, s.now)]
            && s'.used == Purged(s.used, Seconds(s.now))[v.value.jti := v.value.exp]
            && s'.minted == s.minted && s'.now == s.now
  {
  }

  /** Before it is executed, no execution has spent a token that verifies and is not on record. */
  lemma NotSpentBefore(env: Env, s: System, c: Claims, i: nat)
    requires ExecutionsCovered(env, s) && IdsDistinct(s.minted)
    requires i < |s.minted| && s.minted[i].claims == c
    requires Seconds(s.now) < c.exp && c.jti !in Purged(s.used, Seconds(s.now))
    ensures forall k :: 0 <= k < |s.executed| ==> s.executed[k].claims.jti != c.jti
  {
    forall k | 0 <= k < |s.executed| ensures s.executed[k].claims.jti != c.jti {
      var y := s.executed[k];
      assert Covered(env, s, y) && Spent(s, y);
      var j :| 0 <= j < |s.minted| && s.minted[j].claims == y.claims;
      MintedOnce(s, i, j);
    }
  }

  /** A purchase that executes spends a minted token that no earlier execution has spent. */
  lemma ExecutedIsCovered(env: Env, s: System, step: SystemStep)
    requires ExecutionsCovered(env, s) && IdsDistinct(s.minted) && MintsJustified(env, s)
    requires GoodEnv(env) && Allowed(env, s, step)
    requires step.ExecuteCall? && Next(env, s, step).executed != s.executed
    ensures var s' := Next(env, s, step);
            |s'.executed| == |s.executed| + 1 &&
            var x := s'.executed[|s.executed|];
            && s'.executed == s.executed + [x]
            && Covered(env, s', x)
            && Spent(s', x)
            && forall k :: 0 <= k < |s.executed| ==> s.executed[k].claims.jti != x.claims.jti
  {
    ExecutedMeans(env, s, step);
    var s' := Next(env, s, step);
    var hash := Some(env.purchaseHash(step.purchase));
    var c := Verify(env.crypto, env.keys, step.token.value, PURCHASE, hash, s.now).value;
    VerifiedIsSigned(env.crypto, env.keys, step.token.value, PURCHASE, hash, s.now);
    var i := VerifiedIsMinted(env, s.minted, step.token.value, PURCHASE, hash, s.now);
    NotSpentBefore(env, s, c, i);
    var x := s'.executed[|s.executed|];
    assert x == Execution(c, step.purchase, s.now);
    assert s'.minted[i].claims == x.claims && s'.minted[i].at <= x.at;
  }

  /** Minted tokens are never forgotten, and time does not run backwards. */
  lemma NextKeeps(env: Env, s: System, step: SystemStep)
    ensures s.minted <= Next(env, s, step).minted
    ensures s.now <= Next(env, s, step).now
  {
  }

  /** Time and purging do not make an execution's token usable again. */
  lemma SpentStaysSpent(env: Env, s: System, step: SystemStep, x: Execution)
    requires Covered(env, s, x) && Spent(s, x)
    ensures Covered(env, Next(env, s, step), x) && Spent(Next(env, s, step), x)
  {
    var s' := Next(env, s, step);
    NextKeeps(env, s, step);
    var i :| 0 <= i < |s.minted| && s.minted[i].claims == x.claims && s.minted[i].at <= x.at;
    assert s'.minted[i] == s.minted[i];
    SecondsMonotone(s.now, s'.now);
    if x.claims.jti in s.used && s.used[x.claims.jti] == x.claims.exp {
      UsedMoves(env, s, step, x.claims.jti);
    }
  }

  lemma ActKeepsUsed(env: Env, log: Log, used: map<string, int>, verified: Result<Claims, TokenError>,
                     runId: Option<string>, now: Time, suffix: string, jti: string)
    requires jti in used
    ensures var used' := Act(env, log, used, verified, runId, now, suffix).used;
            (jti in used' && used'[jti] == used[jti]) || used[jti] < Seconds(now)
  {
  }

  /** How a step changes one row of the used tokens: it keeps it, purges it when expired, or adds it. */
  lemma UsedMoves(env: Env, s: System, step: SystemStep, jti: string)
    requires jti in s.used
    ensures var s' := Next(env, s, step);
            (jti in s'.used && s'.used[jti] == s.used[jti]) || s.used[jti] < Seconds(s.now)
  {
    if step.ExecuteCall? && step.token.Some? {
      var hash := Some(env.purchaseHash(step.purchase));
      var verified := Verify(env.crypto, env.keys, step.token.value, PURCHASE, hash, s.now);
      ActKeepsUsed(env, s.log, s.used, verified, step.runId, s.now, step.suffix, jti);
    }
  }

  // ---------- Every step, every run ----------

  /** A step executes nothing, or one purchase more. */
  lemma ExecutedGrows(env: Env, s: System, step: SystemStep)
    ensures Next(env, s, step).executed != s.executed ==> step.ExecuteCall?
    ensures s.executed <= Next(env, s, step).executed
    ensures |Next(env, s, step).executed| <= |s.executed| + 1
  {
  }

  lemma ExecutionsStayCovered(env: Env, s: System, step: SystemStep)
    requires Enforced(env, s) && GoodEnv(env) && Allowed(env, s, step)
    ensures ExecutionsCovered(env, Next(env, s, step))
  {
    var s' := Next(env, s, step);
    ExecutedGrows(env, s, step);
    if s'.executed != s.executed {
      ExecutedIsCovered(env, s, step);
    }
    forall k | 0 <= k < |s'.executed| ensures Covered(env, s', s'.executed[k]) && Spent(s', s'.executed[k]) {
      if k < |s.executed| {
        SpentStaysSpent(env, s, step, s.executed[k]);
      }
    }
  }

  lemma ExecutionsStayDistinct(env: Env, s: System, step: SystemStep)
    requires Enforced(env, s) && GoodEnv(env) && Allowed(env, s, step)
    ensures ExecutionsDistinct(Next(env, s, step).executed)
  {
    ExecutedGrows(env, s, step);
    if Next(env, s, step).executed != s.executed {
      ExecutedIsCovered(env, s, step);
    }
  }

  lemma NextIsEnforced(env: Env, s: System, step: SystemStep)
    requires Enforced(env, s) && GoodEnv(env) && Allowed(env, s, step)
    ensures Enforced(env, Next(env, s, step))
  {
    NextMovesLedger(env, s, step);
    MintsStayJustified(env, s, step);
    IdsStayDistinct(env, s, step);
    ExecutionsStayCovered(env, s, step);
    ExecutionsStayDistinct(env, s, step);
  }

  function Start(now: Time): System {
    System([], [], map[], [], now)
  }

  lemma StartIsEnforced(env: Env, now: Time)
    ensures Enforced(env, Start(now))
  {
    Decisions.EmptyIsOrderly(env.hash);
  }

  lemma {:induction false} RunIsEnforced(env: Env, s: System, steps: seq<SystemStep>)
    requires Enforced(env, s) && GoodEnv(env) && Runs(env, s, steps)
    ensures Enforced(env, RunAll(env, s, steps))
    decreases |steps|
  {
    if steps != [] {
      NextIsEnforced(env, s, steps[0]);
      RunIsEnforced(env, Next(env, s, steps[0]), steps[1..]);
    }
  }

  /** In every run from the empty system, every executed purchase spent, while it was good, a token minted
      earlier for the same decision and the same payload hash; and when that token was minted its request
      had just been evaluated to allow, or its decision stood approved. */
  lemma EndToEnd(env: Env, start: Time, steps: seq<SystemStep>, k: nat)
    requires GoodEnv(env) && Runs(env, Start(start), steps)
    requires k < |RunAll(env, Start(start), steps).executed|
    ensures var s := RunAll(env, Start(start), steps);
            var x := s.executed[k];
            exists i :: 0 <= i < |s.minted|
              && s.minted[i].claims == x.claims && s.minted[i].at <= x.at
              && x.claims.action == PURCHASE
              && x.claims.payloadHash == Some(env.purchaseHash(x.purchase))
              && x.claims.nbf <= Seconds(x.at) < x.claims.exp
              && s.minted[i].length <= |s.log| && Justified(env, s.log, s.minted[i])
  {
    StartIsEnforced(env, start);
    RunIsEnforced(env, Start(start), steps);
    var s := RunAll(env, Start(start), steps);
    assert Covered(env, s, s.executed[k]);
  }

  /** No token is executed twice in any run. */
  lemma ExecutedOnce(env: Env, start: Time, steps: seq<SystemStep>, k: nat, l: nat)
    requires GoodEnv(env) && Runs(env, Start(start), steps)
    requires var executed := RunAll(env, Start(start), steps).executed;
             k < |executed| && l < |executed| && executed[k].claims.jti == executed[l].claims.jti
    ensures k == l
  {
    StartIsEnforced(env, start);
    RunIsEnforced(env, Start(start), steps);
  }

  /** A decision that is pending, rejected or unknown at the end of a run never got anything executed through
      the mint endpoint: whatever was executed for it had been allowed by the policy outright. */
  lemma UnapprovedNeverExecutes(env: Env, start: Time, steps: seq<SystemStep>, k: nat)
    requires GoodEnv(env) && Runs(env, Start(start), steps)
    requires var s := RunAll(env, Start(start), steps);
             k < |s.executed| && !Approved(s.log, s.executed[k].claims.decisionId)
    ensures var s := RunAll(env, Start(start), steps);
            exists i :: 0 <= i < |s.minted|
              && s.minted[i].claims == s.executed[k].claims && s.minted[i].grounds.EvaluatedAllow?
  {
    EndToEnd(env, start, steps, k);
  }

  /** Two purchases that the payload hash cannot tell apart. */
  predicate Collide(env: Env, p: Purchase, q: Purchase) {
    p != q && env.purchaseHash(p) == env.purchaseHash(q)
  }

  /** In every run, a purchase executed with the token of an allowed request has the payload hash of the purchase
      that the request described; so it is that purchase, unless the hashes of just these two collide. */
  lemma ExecutedAsRequested(env: Env, start: Time, steps: seq<SystemStep>, k: nat, i: nat)
    requires GoodEnv(env) && Runs(env, Start(start), steps)
    requires var s := RunAll(env, Start(start), steps);
             && k < |s.executed| && i < |s.minted|
             && s.minted[i].claims == s.executed[k].claims && s.minted[i].grounds.EvaluatedAllow?
    ensures var s := RunAll(env, Start(start), steps);
            var executed, requested := s.executed[k].purchase, s.minted[i].grounds.request.purchase;
            && env.purchaseHash(executed) == env.purchaseHash(requested)
            && (executed == requested || Collide(env, executed, requested))
  {
    StartIsEnforced(env, start);
    RunIsEnforced(env, Start(start), steps);
    var s := RunAll(env, Start(start), steps);
    assert Covered(env, s, s.executed[k]) && Justified(env, s.log, s.minted[i]);
  }

  // ---------- Purchases do execute ----------

  /** What it takes to execute a purchase with a minted token: it was minted for this purchase, it is good now,
      it is not on record as used, and the receipt's id is free. */
  predicate Executable(env: Env, s: System, c: Claims, purchase: Purchase, runId: Option<string>, suffix: string) {
    && c.action == PURCHASE && c.payloadHash == Some(env.purchaseHash(purchase))
    && c.nbf <= Seconds(s.now) < c.exp
    && c.jti !in Purged(s.used, Seconds(s.now))
    && !Logged(s.log, ClaimRunId(c, runId), "evt_runtime_" + suffix)
  }

  /** The text of a minted token is nobody's forgery. */
  lemma MintedIsUnforged(env: Env, minted: seq<Minted>, i: nat)
    requires Sound(env.crypto) && i < |minted| && minted[i].claims.kid in env.keys
    ensures Unforgeable(env, minted, Mint(env.crypto, env.keys[minted[i].claims.kid], minted[i].claims))
  {
    var c := minted[i].claims;
    var payload := Base64Url.Encode(env.crypto.dump(FieldsOf(c)));
    Base64Url.StripIsUndone(env.crypto.dump(FieldsOf(c)));
    Base64Url.StripIsUndone(env.crypto.mac(env.keys[c.kid], payload));
    SplitAtDot(payload, Sign(env.crypto, env.keys[c.kid], payload));
    assert SplitDots(Mint(env.crypto, env.keys[c.kid], c))[0] == payload;
  }

  lemma ExecutesWhenVerified(
    env: Env, s: System, token: string, purchase: Purchase, runId: Option<string>, suffix: string)
    ensures var v := Verify(env.crypto, env.keys, token, PURCHASE, Some(env.purchaseHash(purchase)), s.now);
            Next(env, s, ExecuteCall(Some(token), purchase, runId, suffix)).executed ==
            if && v.Ok? && v.value.jti !in Purged(s.used, Seconds(s.now))
               && !Logged(s.log, ClaimRunId(v.value, runId), "evt_runtime_" + suffix)
            then s.executed + [Execution(v.value, purchase, s.now)]
            else s.executed
  {
  }

  lemma ClaimsExecute(env: Env, s: System, c: Claims, purchase: Purchase, runId: Option<string>, suffix: string)
    requires GoodEnv(env) && c.kid == env.kid
    ensures Next(env, s, ExecuteCall(Some(Mint(env.crypto, env.keys[env.kid], c)), purchase, runId, suffix)).executed ==
            if Executable(env, s, c, purchase, runId, suffix) then s.executed + [Execution(c, purchase, s.now)]
            else s.executed
  {
    MintedVerifies(env.crypto, env.keys, c, PURCHASE, Some(env.purchaseHash(purchase)), s.now);
    ExecutesWhenVerified(env, s, Mint(env.crypto, env.keys[env.kid], c), purchase, runId, suffix);
    assert Executable(env, s, c, purchase, runId, suffix) <==>
      && CheckClaims(c, PURCHASE, Some(env.purchaseHash(purchase)), Seconds(s.now)).None?
      && c.jti !in Purged(s.used, Seconds(s.now))
      && !Logged(s.log, ClaimRunId(c, runId), "evt_runtime_" + suffix);
  }

  /** Presenting a minted token is always possible, and executes the purchase if and only if it is executable. */
  lemma MintedExecutes(
    env: Env, s: System, i: nat, purchase: Purchase, runId: Option<string>, suffix: string)
    requires MintsJustified(env, s) && GoodEnv(env) && i < |s.minted|
    ensures var c := s.minted[i].claims;
            var step := ExecuteCall(Some(Mint(env.crypto, env.keys[env.kid], c)), purchase, runId, suffix);
            && Allowed(env, s, step)
            && Next(env, s, step).executed ==
               if Executable(env, s, c, purchase, runId, suffix) then s.executed + [Execution(c, purchase, s.now)]
               else s.executed
  {
    assert s.minted[i].claims.kid == env.kid;
    MintedIsUnforged(env, s.minted, i);
    ClaimsExecute(env, s, s.minted[i].claims, purchase, runId, suffix);
  }

  /** An allowed purchase executes: a request evaluated to allow answers with a token, and presenting it at once
      executes the purchase, provided that the ids drawn for the token and for the receipt are new. */
  lemma AllowedPurchaseExecutes(env: Env, s: System, request: AuthorizeRequest, loaded: LoadedRules, jti: string,
                                suffixes: Suffixes, runId: Option<string>, suffix: string)
    requires Enforced(env, s) && GoodEnv(env) && 0 < env.ttl && 0 <= s.now
    requires FreshId(s.minted, jti) && jti !in s.used && request.action == PURCHASE
    requires var e := Authorize(env, s.log, request, loaded, s.now, jti, suffixes);
             && e.reply.Answered? && e.reply.decision.state == Policy.Allow
             && !Logged(e.log, ClaimRunId(AuthorizeClaims(env, request, s.now, jti), runId), "evt_runtime_" + suffix)
    ensures var e := Authorize(env, s.log, request, loaded, s.now, jti, suffixes);
            && e.reply.token.Some?
            && var steps := [AuthorizeCall(request, loaded, jti, suffixes),
                             ExecuteCall(e.reply.token, request.purchase, runId, suffix)];
               && Runs(env, s, steps)
               && RunAll(env, s, steps).executed ==
                  s.executed + [Execution(AuthorizeClaims(env, request, s.now, jti), request.purchase, s.now)]
  {
    var e := Authorize(env, s.log, request, loaded, s.now, jti, suffixes);
    var first := AuthorizeCall(request, loaded, jti, suffixes);
    var s' := Next(env, s, first);
    AllowedAnswer(env, s, request, loaded, jti, suffixes);
    NextIsEnforced(env, s, first);
    MintedExecutes(env, s', |s.minted|, request.purchase, runId, suffix);
    TwoSteps(env, s, first, ExecuteCall(e.reply.token, request.purchase, runId, suffix));
  }

  /** The claims of an allowed request are good at once. */
  lemma FreshClaims(env: Env, request: AuthorizeRequest, now: Time, jti: string)
    requires 0 < env.ttl && 0 <= now
    ensures var c := AuthorizeClaims(env, request, now, jti);
            && c.action == request.action && c.payloadHash == Some(env.purchaseHash(request.purchase))
            && c.jti == jti && c.kid == env.kid
            && c.nbf == Seconds(now) && c.exp == Seconds(now) + env.ttl
  {
    assert (now + env.ttl * SECOND) / SECOND == now / SECOND + env.ttl;
  }

  lemma AllowedReply(env: Env, log: Log, request: AuthorizeRequest, loaded: LoadedRules, now: Time, jti: string,
                     suffixes: Suffixes)
    requires env.kid in env.keys
    ensures var e := Authorize(env, log, request, loaded, now, jti, suffixes);
            var c := AuthorizeClaims(env, request, now, jti);
            e.reply.Answered? && e.reply.decision.state == Policy.Allow ==>
              e.signed == Some(c) && e.reply.token == Some(Mint(env.crypto, env.keys[env.kid], c))
  {
  }

  /** The answer to an allowed request: a token of those claims. */
  lemma AllowedAnswer(env: Env, s: System, request: AuthorizeRequest, loaded: LoadedRules, jti: string,
                      suffixes: Suffixes)
    requires 0 < env.ttl && 0 <= s.now && env.kid in env.keys
    requires var e := Authorize(env, s.log, request, loaded, s.now, jti, suffixes);
             e.reply.Answered? && e.reply.decision.state == Policy.Allow
    ensures var e := Authorize(env, s.log, request, loaded, s.now, jti, suffixes);
            var c := AuthorizeClaims(env, request, s.now, jti);
            var s' := Next(env, s, AuthorizeCall(request, loaded, jti, suffixes));
            && e.reply.token == Some(Mint(env.crypto, env.keys[env.kid], c))
            && |s'.minted| == |s.minted| + 1 && s'.minted[|s.minted|].claims == c
            && s'.log == e.log && s'.used == s.used && s'.executed == s.executed && s'.now == s.now
            && c.action == request.action && c.payloadHash == Some(env.purchaseHash(request.purchase)) && c.jti == jti
            && c.nbf <= Seconds(s.now) < c.exp
  {
    FreshClaims(env, request, s.now, jti);
    AllowedReply(env, s.log, request, loaded, s.now, jti, suffixes);
  }

  lemma TwoSteps(env: Env, s: System, first: SystemStep, second: SystemStep)
    ensures Runs(env, s, [first, second]) <==> Allowed(env, s, first) && Allowed(env, Next(env, s, first), second)
    ensures RunAll(env, s, [first, second]) == Next(env, Next(env, s, first), second)
  {
    var s1 := Next(env, s, first);
    assert [first, second][1..] == [second] && [second][1..] == [];
    assert Runs(env, s1, [second]) <==> Allowed(env, s1, second);
    assert RunAll(env, s1, [second]) == Next(env, s1, second);
  }
}
