/** The request handlers that gate execution: authorizing, minting for an approved decision, executing. */
module Gateway {
  import opened Prelude
  import opened Events
  import opened EventLog
  import opened EventStore
  import opened RunStatusProjection
  import opened RuntimeReceipts
  import opened ReplayStore
  import opened ExecutionTokens
  import Approvals
  import Policy
  import RuleLanguage

  datatype Purchase = Purchase(amount: real, currency: string, merchant: Option<string>)

  /** A validated request: its dumped context, and what the handlers read from it. Blank run and request
      ids count as absent. */
  datatype AuthorizeRequest = AuthorizeRequest(
    action: string,
    userId: string,
    context: map<string, RuleLanguage.Value>,
    purchase: Purchase,
    runId: Option<string>,
    requestId: Option<string>,
    catalogVersion: Option<string>)

  datatype LoadedRules = LoadedRules(rulesByUser: map<string, seq<Policy.Rule>>, version: string)

  /** Configuration, and the foreign code behind it. */
  datatype Env = Env(
    hash: EventHash,
    crypto: Crypto,
    keys: map<string, string>,
    kid: string,
    ttl: int,
    py: RuleLanguage.Operators,
    purchaseHash: Purchase -> string,
    decisionIdOf: AuthorizeRequest -> string)

  const PURCHASE := "purchase.create"

  // ---------- Authorizing ----------

  datatype AuthorizeError =
    | RunInconsistent(conflict: StateConflict)
    | CatalogVersionMismatch
    | RuleFailed(error: Policy.RuleError)

  datatype RunFacts = RunFacts(eventCount: nat, hasPendingApproval: bool)

  function FactsOf(log: Log, runId: Option<string>): Result<RunFacts, StateConflict> {
    if runId.None? || ListRun(log, runId.value) == [] then Ok(RunFacts(0, false))
    else
      match Project(ListRun(log, runId.value))
      case Err(c) => Err(c)
      case Ok(s) => Ok(RunFacts(|ListRun(log, runId.value)|, s.pending.Some?))
  }

  function ScopeOf(request: AuthorizeRequest, facts: RunFacts): RuleLanguage.Scope {
    RuleLanguage.Scope(
      request.context,
      map["event_count" := RuleLanguage.Number(facts.eventCount as real),
          "has_pending_approval" := RuleLanguage.Bool(facts.hasPendingApproval)])
  }

  function RulesFor(loaded: LoadedRules, userId: string): seq<Policy.Rule> {
    if userId in loaded.rulesByUser then loaded.rulesByUser[userId] else []
  }

  /** The policy's decision on a request, over the ledger as it stands. */
  function Evaluation(
    env: Env, log: Log, request: AuthorizeRequest, loaded: LoadedRules): Result<Policy.Decision, AuthorizeError>
  {
    match FactsOf(log, request.runId)
    case Err(c) => Err(RunInconsistent(c))
    case Ok(facts) =>
      if request.catalogVersion.Some? && !IsBlank(request.catalogVersion.value)
         && request.catalogVersion.value != loaded.version
      then Err(CatalogVersionMismatch)
      else
        match Policy.Authorize(env.py, RulesFor(loaded, request.userId), request.action, ScopeOf(request, facts))
        case Err(e) => Err(RuleFailed(e))
        case Ok(d) => Ok(d)
  }

  function ContextRunId(request: AuthorizeRequest, decisionId: string): string {
    if request.runId.Some? then request.runId.value
    else if request.requestId.Some? then "run_" + request.requestId.value
    else "run_" + decisionId
  }

  datatype AuthorizeReply =
    | Refused(error: AuthorizeError)
    | ReceiptRefused
    | Answered(decision: Policy.Decision, token: Option<string>)

  /** A handler's reply, the log it leaves, and the claims it signed, if any. */
  datatype AuthorizeEffect = AuthorizeEffect(reply: AuthorizeReply, log: Log, signed: Option<Claims>)

  function AuthorizeClaims(env: Env, request: AuthorizeRequest, now: Time, jti: string): Claims {
    var id := env.decisionIdOf(request);
    ClaimsOf(id, request.action, now, env.ttl, jti, env.kid,
             Some(env.purchaseHash(request.purchase)), Some(ContextRunId(request, id)))
  }

  function SigningKey(env: Env): string {
    if env.kid in env.keys then env.keys[env.kid] else ""
  }

  datatype Suffixes = Suffixes(first: string, second: string)

  function Authorize(env: Env, log: Log, request: AuthorizeRequest, loaded: LoadedRules, now: Time, jti: string,
                     suffixes: Suffixes): AuthorizeEffect
  {
    match Evaluation(env, log, request, loaded)
    case Err(e) => AuthorizeEffect(Refused(e), log, None)
    case Ok(decision) =>
      var id := env.decisionIdOf(request);
      var run := ContextRunId(request, id);
      match Record(env.hash, log, ReceiptInput(run, DecisionRecorded, Some(id), 0, now, suffixes.first))
      case None => AuthorizeEffect(ReceiptRefused, log, None)
      case Some(log1) =>
        if decision.state != Policy.Allow then AuthorizeEffect(Answered(decision, None), log1, None)
        else
          var claims := AuthorizeClaims(env, request, now, jti);
          match Record(env.hash, log1, ReceiptInput(run, TokenMinted, Some(id), 0, now, suffixes.second))
          case None => AuthorizeEffect(ReceiptRefused, log1, Some(claims))
          case Some(log2) =>
            AuthorizeEffect(Answered(decision, Some(Mint(env.crypto, SigningKey(env), claims))), log2, Some(claims))
  }

  method BuildRunFacts(store: InMemoryEventStore, runId: Option<string>) returns (r: Result<RunFacts, StateConflict>)
    requires store.Valid()
    ensures r == FactsOf(store.log, runId)
  {
    if runId.None? {
      return Ok(RunFacts(0, false));
    }
    var events := store.ListByRunId(runId.value);
    if events == [] {
      return Ok(RunFacts(0, false));
    }
    var status := ProjectRunStatus(events);
    if status.Err? {
      return Err(status.error);
    }
    return Ok(RunFacts(|events|, status.value.pending.Some?));
  }

  method EvaluateRequest(env: Env, store: InMemoryEventStore, request: AuthorizeRequest, loaded: LoadedRules)
    returns (r: Result<Policy.Decision, AuthorizeError>)
    requires store.Valid()
    ensures r == Evaluation(env, store.log, request, loaded)
  {
    var facts := BuildRunFacts(store, request.runId);
    if facts.Err? {
      return Err(RunInconsistent(facts.error));
    }
    if request.catalogVersion.Some? && !IsBlank(request.catalogVersion.value)
       && request.catalogVersion.value != loaded.version
    {
      return Err(CatalogVersionMismatch);
    }
    var decision := Policy.EvaluateAuthorizeAction(
      env.py, RulesFor(loaded, request.userId), request.action, ScopeOf(request, facts.value));
    if decision.Err? {
      return Err(RuleFailed(decision.error));
    }
    return Ok(decision.value);
  }

  method AuthorizeAction(env: Env, store: InMemoryEventStore, request: AuthorizeRequest, loaded: LoadedRules,
                         now: Time, jti: string, suffixes: Suffixes)
    returns (reply: AuthorizeReply, ghost signed: Option<Claims>)
    requires store.Valid() && store.buildHash == env.hash
    modifies store
    ensures store.Valid()
    ensures AuthorizeEffect(reply, store.log, signed) ==
            Authorize(env, old(store.log), request, loaded, now, jti, suffixes)
  {
    signed := None;
    var evaluation := EvaluateRequest(env, store, request, loaded);
    if evaluation.Err? {
      reply := Refused(evaluation.error);
      return;
    }
    var decision := evaluation.value;
    var id := env.decisionIdOf(request);
    var run := ContextRunId(request, id);
    var recorded := AppendRuntimeReceipt(store, ReceiptInput(run, DecisionRecorded, Some(id), 0, now, suffixes.first));
    if !recorded {
      reply := ReceiptRefused;
      return;
    }
    if decision.state != Policy.Allow {
      reply := Answered(decision, None);
      return;
    }
    var claims := AuthorizeClaims(env, request, now, jti);
    var token := Mint(env.crypto, SigningKey(env), claims);
    signed := Some(claims);
    recorded := AppendRuntimeReceipt(store, ReceiptInput(run, TokenMinted, Some(id), 0, now, suffixes.second));
    if !recorded {
      reply := ReceiptRefused;
      return;
    }
    reply := Answered(decision, Some(token));
  }

  // ---------- Minting for a decision ----------

  datatype MintReply = DecisionNotFound | NotApproved | MintReceiptRefused | MintedToken(token: string)

  datatype MintEffect = MintEffect(reply: MintReply, log: Log, signed: Option<Claims>)

  function MintClaims(env: Env, state: Approvals.DecisionState, decisionId: string, purchase: Purchase,
                      now: Time, jti: string): Claims
  {
    ClaimsOf(decisionId, PURCHASE, now, env.ttl, jti, env.kid, Some(env.purchaseHash(purchase)), Some(state.runId))
  }

  function MintFor(env: Env, log: Log, decisionId: string, purchase: Purchase, now: Time, jti: string,
                   suffix: string): MintEffect
  {
    match Approvals.StateOf(log, decisionId)
    case None => MintEffect(DecisionNotFound, log, None)
    case Some(state) =>
      if state.status != Approved then MintEffect(NotApproved, log, None)
      else
        var claims := MintClaims(env, state, decisionId, purchase, now, jti);
        match Record(env.hash, log, ReceiptInput(state.runId, TokenMinted, Some(decisionId), 0, now, suffix))
        case None => MintEffect(MintReceiptRefused, log, Some(claims))
        case Some(log') => MintEffect(MintedToken(Mint(env.crypto, SigningKey(env), claims)), log', Some(claims))
  }

  method MintExecutionTokenForDecision(env: Env, store: InMemoryEventStore, decisionId: string, purchase: Purchase,
                                       now: Time, jti: string, suffix: string)
    returns (reply: MintReply, ghost signed: Option<Claims>)
    requires store.Valid() && store.buildHash == env.hash
    modifies store
    ensures store.Valid()
    ensures MintEffect(reply, store.log, signed) == MintFor(env, old(store.log), decisionId, purchase, now, jti, suffix)
  {
    signed := None;
    var state := Approvals.GetApprovalDecisionState(store, decisionId);
    if state.None? {
      reply := DecisionNotFound;
      return;
    }
    if state.value.status != Approved {
      reply := NotApproved;
      return;
    }
    var claims := MintClaims(env, state.value, decisionId, purchase, now, jti);
    var token := Mint(env.crypto, SigningKey(env), claims);
    signed := Some(claims);
    var recorded := AppendRuntimeReceipt(
      store, ReceiptInput(state.value.runId, TokenMinted, Some(decisionId), 0, now, suffix));
    reply := if recorded then MintedToken(token) else MintReceiptRefused;
  }

  // ---------- Executing ----------

  datatype ExecuteReply =
    | TokenMissing
    | Blocked(error: TokenError)
    | ServerError
    | BlockReceiptRefused
    | TokenReplayed
    | ExecutionReceiptRefused
    | Executed(claims: Claims)

  datatype ExecuteEffect = ExecuteEffect(reply: ExecuteReply, log: Log, used: map<string, int>)

  function UnverifiedRunId(runId: Option<string>): string {
    if runId.Some? && runId.value != "" then runId.value else "run_execution_gate_unscoped"
  }

  function ClaimRunId(c: Claims, fallback: Option<string>): string {
    if c.runId.Some? && !IsBlank(c.runId.value) then c.runId.value
    else if fallback.Some? && !IsBlank(fallback.value) then Strip(fallback.value)
    else "run_" + c.decisionId
  }

  function Execute(env: Env, log: Log, used: map<string, int>, token: Option<string>, purchase: Purchase,
                   runId: Option<string>, now: Time, suffix: string): ExecuteEffect
  {
    if token.None? then ExecuteEffect(TokenMissing, log, used)
    else
      Act(env, log, used, Verify(env.crypto, env.keys, token.value, PURCHASE, Some(env.purchaseHash(purchase)), now),
          runId, now, suffix)
  }

  function Act(env: Env, log: Log, used: map<string, int>, verified: Result<Claims, TokenError>,
               runId: Option<string>, now: Time, suffix: string): ExecuteEffect
  {
    match verified
    case Err(Unforeseen) => ExecuteEffect(ServerError, log, used)
    case Err(e) =>
      (match Record(env.hash, log, ReceiptInput(UnverifiedRunId(runId), ExecutionBlocked, None, 0, now, suffix))
       case None => ExecuteEffect(BlockReceiptRefused, log, used)
       case Some(log') => ExecuteEffect(Blocked(e), log', used))
    case Ok(c) => Spend(env, log, used, c, runId, now, suffix)
  }

  /** What follows verification: the token is consumed before the receipt is written. */
  function Spend(env: Env, log: Log, used: map<string, int>, c: Claims,
                 runId: Option<string>, now: Time, suffix: string): ExecuteEffect
  {
    var run := ClaimRunId(c, runId);
    var kept := Purged(used, Seconds(now));
    if c.jti in kept then
      match Record(env.hash, log, ReceiptInput(run, ExecutionBlocked, Some(c.decisionId), 0, now, suffix))
      case None => ExecuteEffect(BlockReceiptRefused, log, kept)
      case Some(log') => ExecuteEffect(TokenReplayed, log', kept)
    else
      var spent := kept[c.jti := c.exp];
      match Record(env.hash, log, ReceiptInput(run, PurchaseExecuted, Some(c.decisionId), 0, now, suffix))
      case None => ExecuteEffect(ExecutionReceiptRefused, log, spent)
      case Some(log') => ExecuteEffect(Executed(c), log', spent)
  }

  method ExecutePurchaseCreate(env: Env, store: InMemoryEventStore, replay: SQLiteExecutionReplayStore,
                               token: Option<string>, purchase: Purchase, runId: Option<string>, now: Time,
                               suffix: string)
    returns (reply: ExecuteReply)
    requires store.Valid() && store.buildHash == env.hash
    modifies store, replay
    ensures store.Valid()
    ensures ExecuteEffect(reply, store.log, replay.used) ==
            Execute(env, old(store.log), old(replay.used), token, purchase, runId, now, suffix)
  {
    if token.None? {
      return TokenMissing;
    }
    var verified := Verify(env.crypto, env.keys, token.value, PURCHASE, Some(env.purchaseHash(purchase)), now);
    reply := ActOn(env, store, replay, verified, runId, now, suffix);
  }

  method ActOn(env: Env, store: InMemoryEventStore, replay: SQLiteExecutionReplayStore,
               verified: Result<Claims, TokenError>, runId: Option<string>, now: Time, suffix: string)
    returns (reply: ExecuteReply)
    requires store.Valid() && store.buildHash == env.hash
    modifies store, replay
    ensures store.Valid()
    ensures ExecuteEffect(reply, store.log, replay.used) ==
            Act(env, old(store.log), old(replay.used), verified, runId, now, suffix)
  {
    match verified {
      case Err(Unforeseen) =>
        reply := ServerError;
      case Err(e) =>
        var receipt := ReceiptInput(UnverifiedRunId(runId), ExecutionBlocked, None, 0, now, suffix);
        var noted := AppendRuntimeReceipt(store, receipt);
        reply := if noted then Blocked(e) else BlockReceiptRefused;
      case Ok(c) =>
        reply := SpendToken(env, store, replay, c, runId, now, suffix);
    }
  }

  method SpendToken(env: Env, store: InMemoryEventStore, replay: SQLiteExecutionReplayStore, c: Claims,
                    runId: Option<string>, now: Time, suffix: string)
    returns (reply: ExecuteReply)
    requires store.Valid() && store.buildHash == env.hash
    modifies store, replay
    ensures store.Valid()
    ensures ExecuteEffect(reply, store.log, replay.used) ==
            Spend(env, old(store.log), old(replay.used), c, runId, now, suffix)
  {
    var run := ClaimRunId(c, runId);
    var consumed := replay.ConsumeOnce(c.jti, c.exp, now);
    if !consumed {
      var noted := AppendRuntimeReceipt(
        store, ReceiptInput(run, ExecutionBlocked, Some(c.decisionId), 0, now, suffix));
      return if noted then TokenReplayed else BlockReceiptRefused;
    }
    var recorded := AppendRuntimeReceipt(
      store, ReceiptInput(run, PurchaseExecuted, Some(c.decisionId), 0, now, suffix));
    return if recorded then Executed(c) else ExecutionReceiptRefused;
  }
}
