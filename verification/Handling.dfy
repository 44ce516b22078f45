/** What the request handlers answer and write, by the request, the rules and the ledger alone. */
module Handling {
  import opened Prelude
  import opened Events
  import opened EventLog
  import opened RunStatusProjection
  import opened ExecutionTokens
  import opened Gateway
  import Approvals
  import Policy
  import Resolution
  import RuleLanguage
  import RuntimeReceipts

  // ---------- What a request is evaluated against ----------

  /** The rule is one of the requesting user's. */
  predicate InForce(rule: Policy.Rule, request: AuthorizeRequest, loaded: LoadedRules) {
    request.userId in loaded.rulesByUser && rule in loaded.rulesByUser[request.userId]
  }

  /** The run that the request names: how many events it has, and whether one of them is an open request. */
  ghost predicate RunLooks(log: Log, runId: Option<string>, events: nat, waiting: bool) {
    match runId
    case None => events == 0 && !waiting
    case Some(run) =>
      var es := ListRun(log, run);
      events == |es| && (waiting <==> exists j :: OpenAt(es, j, |es|))
  }

  function Seen(request: AuthorizeRequest, events: nat, waiting: bool): RuleLanguage.Scope {
    RuleLanguage.Scope(
      request.context,
      map["event_count" := RuleLanguage.Number(events as real), "has_pending_approval" := RuleLanguage.Bool(waiting)])
  }

  lemma FactsLook(log: Log, runId: Option<string>)
    ensures FactsOf(log, runId).Err? <==> runId.Some? && Project(ListRun(log, runId.value)).Err?
    ensures FactsOf(log, runId).Err? ==> Project(ListRun(log, runId.value)) == Err(FactsOf(log, runId).error)
    ensures FactsOf(log, runId).Ok? ==>
              RunLooks(log, runId, FactsOf(log, runId).value.eventCount, FactsOf(log, runId).value.hasPendingApproval)
  {
    if runId.Some? {
      ProjectionMeaning(ListRun(log, runId.value));
    }
  }

  lemma OneLook(log: Log, runId: Option<string>, m: nat, a: bool, n: nat, b: bool)
    requires RunLooks(log, runId, m, a) && RunLooks(log, runId, n, b)
    ensures m == n && a == b
  {
  }

  /** The version that the request insists on is not the one loaded. */
  predicate WrongVersion(request: AuthorizeRequest, loaded: LoadedRules) {
    request.catalogVersion.Some? && request.catalogVersion.value != loaded.version
    && exists c :: c in request.catalogVersion.value && !IsSpace(c)
  }

  /** Which error comes first: a run that does not project, the catalog's version, a rule of the user's that fails. */
  lemma EvaluationErrors(env: Env, log: Log, request: AuthorizeRequest, loaded: LoadedRules, events: nat, waiting: bool)
    requires RunLooks(log, request.runId, events, waiting)
    ensures var r := Evaluation(env, log, request, loaded);
            var broken := request.runId.Some? && Project(ListRun(log, request.runId.value)).Err?;
            && (forall c :: r == Err(RunInconsistent(c)) <==>
                  request.runId.Some? && Project(ListRun(log, request.runId.value)) == Err(c))
            && (r == Err(CatalogVersionMismatch) <==> !broken && WrongVersion(request, loaded))
            && (r.Err? && r.error.RuleFailed? <==>
                  && !broken && !WrongVersion(request, loaded)
                  && exists rule :: InForce(rule, request, loaded)
                                    && Policy.Fails(env.py, rule, request.action, Seen(request, events, waiting)))
            && (r.Err? && r.error.RuleFailed? ==>
                  exists rule :: InForce(rule, request, loaded)
                                 && Policy.Evaluate(env.py, rule, Seen(request, events, waiting)) == Err(r.error.error))
  {
    FactsLook(log, request.runId);
    if FactsOf(log, request.runId).Ok? {
      var facts := FactsOf(log, request.runId).value;
      OneLook(log, request.runId, events, waiting, facts.eventCount, facts.hasPendingApproval);
      Policy.MatchingMeaning(env.py, RulesFor(loaded, request.userId), request.action, Seen(request, events, waiting));
      forall rule ensures InForce(rule, request, loaded) <==> rule in RulesFor(loaded, request.userId) {
      }
    }
  }

  /** Without an error: denied if and only if some rule of the user's counts and denies, allowed if and only if all
      that count allow, and to be approved otherwise; over the request's own context and the run it names. */
  lemma EvaluationMeaning(env: Env, log: Log, request: AuthorizeRequest, loaded: LoadedRules, events: nat,
                          waiting: bool)
    requires RunLooks(log, request.runId, events, waiting)
    requires Evaluation(env, log, request, loaded).Ok?
    ensures var d := Evaluation(env, log, request, loaded).value;
            var s := Seen(request, events, waiting);
            && (d.state == Policy.Deny <==>
                  exists rule :: InForce(rule, request, loaded) && Policy.Counts(env.py, rule, request.action, s)
                                 && rule.action == Policy.DenyAction)
            && (d.state == Policy.Allow <==>
                  forall rule :: InForce(rule, request, loaded) && Policy.Counts(env.py, rule, request.action, s) ==>
                                   rule.action == Policy.AllowAction)
            && (d.reason == Policy.PolicyAllowNoMatch <==>
                  forall rule :: InForce(rule, request, loaded) ==> !Policy.Counts(env.py, rule, request.action, s))
            && (d.reason == Policy.RuleDeny <==> d.state == Policy.Deny)
            && (d.reason == Policy.RuleRequireApproval <==> d.state == Policy.RequiresApproval)
            && (forall rule :: rule in d.matched <==>
                  InForce(rule, request, loaded) && Policy.Counts(env.py, rule, request.action, s))
  {
    FactsLook(log, request.runId);
    var facts := FactsOf(log, request.runId).value;
    OneLook(log, request.runId, events, waiting, facts.eventCount, facts.hasPendingApproval);
    var rules, s := RulesFor(loaded, request.userId), Seen(request, events, waiting);
    Policy.AuthorizeMeaning(env.py, rules, request.action, s);
    Policy.MatchingMeaning(env.py, rules, request.action, s);
    Policy.DecisionMeaning(env.py, rules, request.action, s);
    forall rule ensures InForce(rule, request, loaded) <==> rule in rules {
    }
  }

  // ---------- Receipts ----------

  /** e is the handlers' receipt for a step, for a decision if there is one: it asks and answers nothing. */
  predicate IsReceipt(e: StoredEvent, run: string, kind: EventType, step: string, decisionId: Option<string>) {
    && e.runId == run && e.payload.runId == run && e.payload.kind == kind
    && e.payload.step == Some(OtherStep(step))
    && !e.payload.requiresApproval && e.payload.approval == Approval(NotRequired, decisionId, None, None)
  }

  predicate Free(log: Log, run: string, suffix: string) {
    !Logged(log, run, "evt_runtime_" + suffix)
  }

  /** log' is log and one such receipt, with the id drawn for it. */
  predicate Adds(log: Log, log': Log, run: string, kind: EventType, step: string, decisionId: Option<string>,
                 suffix: string)
  {
    && |log'| == |log| + 1 && log <= log'
    && IsReceipt(log'[|log|].event, run, kind, step, decisionId)
    && log'[|log|].event.id == "evt_runtime_" + suffix
  }

  lemma RecordAdds(h: EventHash, log: Log, run: string, kind: RuntimeReceipts.ReceiptKind, decisionId: Option<string>,
                   now: Time, suffix: string)
    ensures var input := RuntimeReceipts.ReceiptInput(run, kind, decisionId, 0, now, suffix);
            var r := RuntimeReceipts.Record(h, log, input);
            && (r.Some? <==> Free(log, run, suffix))
            && (r.Some? && kind == RuntimeReceipts.DecisionRecorded ==>
                  Adds(log, r.value, run, Decision, "authorize_action_decision", decisionId, suffix))
            && (r.Some? && kind == RuntimeReceipts.TokenMinted ==>
                  Adds(log, r.value, run, Decision, "execution_token_minted", decisionId, suffix))
            && (r.Some? && kind == RuntimeReceipts.ExecutionBlocked ==>
                  Adds(log, r.value, run, ErrorReport, "execution_blocked", decisionId, suffix))
            && (r.Some? && kind == RuntimeReceipts.PurchaseExecuted ==>
                  Adds(log, r.value, run, Action, "purchase_executed", decisionId, suffix))
  {
  }

  lemma FreeAfter(log: Log, log': Log, run: string, kind: EventType, step: string, decisionId: Option<string>,
                  suffix: string, next: string)
    requires Adds(log, log', run, kind, step, decisionId, suffix)
    ensures Free(log', run, next) <==> Free(log, run, next) && next != suffix
  {
    var id := "evt_runtime_" + next;
    assert log' == log + [log'[|log|]];
    Resolution.LoggedAfter(log, log'[|log|], run, id);
    assert id == "evt_runtime_" + suffix <==> next == suffix by {
      assert ("evt_runtime_" + next)[12..] == next && ("evt_runtime_" + suffix)[12..] == suffix;
    }
  }

  // ---------- Authorizing ----------

  /** The run that a request's receipts go to. */
  predicate ForRequest(run: string, request: AuthorizeRequest, decisionId: string) {
    && (request.runId.Some? ==> run == request.runId.value)
    && (request.runId.None? && request.requestId.Some? ==> run == "run_" + request.requestId.value)
    && (request.runId.None? && request.requestId.None? ==> run == "run_" + decisionId)
  }

  /** A refused evaluation leaves nothing behind; any other leaves a receipt, and an allowed one a token and a second
      receipt. Each receipt can fail for its id, and then what was signed is not handed out. */
  lemma AuthorizeReplies(env: Env, log: Log, request: AuthorizeRequest, loaded: LoadedRules, now: Time, jti: string,
                         suffixes: Suffixes, run: string)
    requires env.kid in env.keys && ForRequest(run, request, env.decisionIdOf(request))
    ensures var v := Evaluation(env, log, request, loaded);
            var e := Authorize(env, log, request, loaded, now, jti, suffixes);
            var d := Some(env.decisionIdOf(request));
            var c := AuthorizeClaims(env, request, now, jti);
            && (v.Err? ==> e == AuthorizeEffect(Refused(v.error), log, None))
            && (v.Ok? && !Free(log, run, suffixes.first) ==> e == AuthorizeEffect(ReceiptRefused, log, None))
            && (v.Ok? && Free(log, run, suffixes.first) && v.value.state != Policy.Allow ==>
                  && e.reply == Answered(v.value, None) && e.signed == None
                  && Adds(log, e.log, run, Decision, "authorize_action_decision", d, suffixes.first))
            && (v.Ok? && Free(log, run, suffixes.first) && v.value.state == Policy.Allow ==>
                  && e.signed == Some(c) && |e.log| > |log|
                  && Adds(log, e.log[..|log| + 1], run, Decision, "authorize_action_decision", d, suffixes.first)
                  && (if Free(log, run, suffixes.second) && suffixes.first != suffixes.second then
                        && e.reply == Answered(v.value, Some(Mint(env.crypto, env.keys[env.kid], c)))
                        && Adds(e.log[..|log| + 1], e.log, run, Decision, "execution_token_minted", d, suffixes.second)
                      else e.reply == ReceiptRefused && |e.log| == |log| + 1))
  {
    var v := Evaluation(env, log, request, loaded);
    var id := env.decisionIdOf(request);
    assert run == ContextRunId(request, id);
    RecordAdds(env.hash, log, run, RuntimeReceipts.DecisionRecorded, Some(id), now, suffixes.first);
    var input := RuntimeReceipts.ReceiptInput(run, RuntimeReceipts.DecisionRecorded, Some(id), 0, now, suffixes.first);
    var r1 := RuntimeReceipts.Record(env.hash, log, input);
    if v.Ok? && r1.Some? && v.value.state == Policy.Allow {
      FreeAfter(log, r1.value, run, Decision, "authorize_action_decision", Some(id), suffixes.first, suffixes.second);
      RecordAdds(env.hash, r1.value, run, RuntimeReceipts.TokenMinted, Some(id), now, suffixes.second);
      assert Authorize(env, log, request, loaded, now, jti, suffixes).log[..|log| + 1] == r1.value;
    }
  }

  // ---------- Minting for a decision ----------

  lemma MintReplies(env: Env, log: Log, d: string, purchase: Purchase, now: Time, jti: string, suffix: string)
    requires env.kid in env.keys
    ensures var state := Approvals.StateOf(log, d);
            var e := MintFor(env, log, d, purchase, now, jti, suffix);
            && (state.None? ==> e == MintEffect(DecisionNotFound, log, None))
            && (state.Some? && state.value.status != Approved ==> e == MintEffect(NotApproved, log, None))
            && (state.Some? && state.value.status == Approved ==>
                  var c := MintClaims(env, state.value, d, purchase, now, jti);
                  && e.signed == Some(c)
                  && (if Free(log, state.value.runId, suffix) then
                        && e.reply == MintedToken(Mint(env.crypto, env.keys[env.kid], c))
                        && Adds(log, e.log, state.value.runId, Decision, "execution_token_minted", Some(d), suffix)
                      else e.reply == MintReceiptRefused && e.log == log))
  {
    var state := Approvals.StateOf(log, d);
    if state.Some? {
      RecordAdds(env.hash, log, state.value.runId, RuntimeReceipts.TokenMinted, Some(d), now, suffix);
    }
  }

  // ---------- Executing ----------

  /** The run that an execution's receipt goes to: the token's, the request's, or the decision's own. */
  predicate ForClaims(run: string, c: Claims, fallback: Option<string>) {
    var named := c.runId.Some? && exists x :: x in c.runId.value && !IsSpace(x);
    var given := fallback.Some? && exists x :: x in fallback.value && !IsSpace(x);
    && (named ==> run == c.runId.value)
    && (!named && given ==> run == Strip(fallback.value))
    && (!named && !given ==> run == "run_" + c.decisionId)
  }

  lemma UnverifiedReplies(env: Env, log: Log, used: map<string, int>, v: Result<Claims, TokenError>,
                          runId: Option<string>, now: Time, suffix: string, run: string)
    requires v.Err?
    requires run == if runId.Some? && runId.value != "" then runId.value else "run_execution_gate_unscoped"
    ensures var e := Act(env, log, used, v, runId, now, suffix);
            && e.used == used
            && (v.error == Unforeseen ==> e == ExecuteEffect(ServerError, log, used))
            && (v.error != Unforeseen && !Free(log, run, suffix) ==> e == ExecuteEffect(BlockReceiptRefused, log, used))
            && (v.error != Unforeseen && Free(log, run, suffix) ==>
                  e.reply == Blocked(v.error) && Adds(log, e.log, run, ErrorReport, "execution_blocked", None, suffix))
  {
    RecordAdds(env.hash, log, run, RuntimeReceipts.ExecutionBlocked, None, now, suffix);
  }

  /** What a verified token brings about: replayed if its id has an unexpired row, and otherwise executed; with a
      receipt that says so, for its decision. Its row is written in any case, and the expired rows are gone. */
  lemma VerifiedReplies(env: Env, log: Log, used: map<string, int>, c: Claims,
                        runId: Option<string>, now: Time, suffix: string, run: string)
    requires ForClaims(run, c, runId)
    ensures var e := Act(env, log, used, Ok(c), runId, now, suffix);
            var replayed := c.jti in used && used[c.jti] >= Seconds(now);
            && (!Free(log, run, suffix) ==>
                  e.log == log && e.reply == if replayed then BlockReceiptRefused else ExecutionReceiptRefused)
            && (Free(log, run, suffix) && replayed ==>
                  && e.reply == TokenReplayed
                  && Adds(log, e.log, run, ErrorReport, "execution_blocked", Some(c.decisionId), suffix))
            && (Free(log, run, suffix) && !replayed ==>
                  && e.reply == Executed(c)
                  && Adds(log, e.log, run, Action, "purchase_executed", Some(c.decisionId), suffix))
            && (forall jti :: jti in e.used <==> jti == c.jti || (jti in used && used[jti] >= Seconds(now)))
            && (forall jti :: jti in e.used ==>
                  e.used[jti] == if jti in used && used[jti] >= Seconds(now) then used[jti] else c.exp)
  {
    ForClaimsExactly(run, c, runId);
    RecordAdds(env.hash, log, run, RuntimeReceipts.ExecutionBlocked, Some(c.decisionId), now, suffix);
    RecordAdds(env.hash, log, run, RuntimeReceipts.PurchaseExecuted, Some(c.decisionId), now, suffix);
  }

  lemma ForClaimsExactly(run: string, c: Claims, fallback: Option<string>)
    ensures ForClaims(run, c, fallback) <==> run == ClaimRunId(c, fallback)
  {
  }

  /** Nothing is looked at without a token; with one, all depends on how it verifies for this purchase. */
  lemma ExecuteReplies(env: Env, log: Log, used: map<string, int>, token: Option<string>, purchase: Purchase,
                       runId: Option<string>, now: Time, suffix: string)
    ensures var e := Execute(env, log, used, token, purchase, runId, now, suffix);
            && (token.None? ==> e == ExecuteEffect(TokenMissing, log, used))
            && (token.Some? ==>
                  var hash := Some(env.purchaseHash(purchase));
                  var v := Verify(env.crypto, env.keys, token.value, "purchase.create", hash, now);
                  e == Act(env, log, used, v, runId, now, suffix))
  {
  }
}
