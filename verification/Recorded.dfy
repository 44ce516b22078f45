/** Every executed purchase has left its own receipt in the ledger. */
module Recorded {
  import opened Prelude
  import opened Events
  import opened EventLog
  import opened ExecutionTokens
  import opened Gateway
  import opened Enforcement
  import Handling

  /** The event says that a purchase was executed for the decision. */
  predicate SaysExecuted(e: StoredEvent, d: string) {
    && e.payload.kind == Action && e.payload.step == Some(OtherStep("purchase_executed"))
    && e.payload.approval.decisionId == Some(d)
  }

  function Receipts(log: Log, d: string): nat {
    if log == [] then 0
    else Receipts(log[..|log| - 1], d) + if SaysExecuted(log[|log| - 1].event, d) then 1 else 0
  }

  function Executions(executed: seq<Execution>, d: string): nat {
    if executed == [] then 0
    else Executions(executed[..|executed| - 1], d) + if executed[|executed| - 1].claims.decisionId == d then 1 else 0
  }

  lemma {:induction false} ReceiptsNeverFall(log: Log, log': Log, d: string)
    requires log <= log'
    ensures Receipts(log, d) <= Receipts(log', d)
    decreases |log'|
  {
    if |log| < |log'| {
      assert log <= log'[..|log'| - 1];
      ReceiptsNeverFall(log, log'[..|log'| - 1], d);
    } else {
      assert log == log';
    }
  }

  /** An execution writes one more receipt for its decision. */
  lemma ExecutionRecorded(env: Env, s: System, step: SystemStep)
    requires step.ExecuteCall? && Next(env, s, step).executed != s.executed
    ensures var s' := Next(env, s, step);
            && |s'.executed| == |s.executed| + 1 && s.executed <= s'.executed
            && |s'.log| == |s.log| + 1 && s.log <= s'.log
            && SaysExecuted(s'.log[|s.log|].event, s'.executed[|s.executed|].claims.decisionId)
  {
    ExecutedMeans(env, s, step);
    var hash := Some(env.purchaseHash(step.purchase));
    var c := Verify(env.crypto, env.keys, step.token.value, PURCHASE, hash, s.now).value;
    var run := ClaimRunId(c, step.runId);
    Handling.ForClaimsExactly(run, c, step.runId);
    Handling.ExecuteReplies(env, s.log, s.used, step.token, step.purchase, step.runId, s.now, step.suffix);
    Handling.VerifiedReplies(env, s.log, s.used, c, step.runId, s.now, step.suffix, run);
    assert Execute(env, s.log, s.used, step.token, step.purchase, step.runId, s.now, step.suffix).reply == Executed(c);
  }

  lemma StepRecorded(env: Env, s: System, step: SystemStep, d: string)
    requires Ledger.Orderly(env.hash, s.log) && Executions(s.executed, d) <= Receipts(s.log, d)
    ensures var s' := Next(env, s, step); Executions(s'.executed, d) <= Receipts(s'.log, d)
  {
    var s' := Next(env, s, step);
    NextMovesLedger(env, s, step);
    ReceiptsNeverFall(s.log, s'.log, d);
    ExecutedGrows(env, s, step);
    if s'.executed != s.executed {
      ExecutionRecorded(env, s, step);
      assert s'.log[..|s'.log| - 1] == s.log && s'.executed[..|s'.executed| - 1] == s.executed;
    }
  }

  lemma {:induction false} RunRecorded(env: Env, s: System, steps: seq<SystemStep>, d: string)
    requires Ledger.Orderly(env.hash, s.log) && Executions(s.executed, d) <= Receipts(s.log, d)
    ensures var s' := RunAll(env, s, steps); Executions(s'.executed, d) <= Receipts(s'.log, d)
    decreases |steps|
  {
    if steps != [] {
      StepRecorded(env, s, steps[0], d);
      NextMovesLedger(env, s, steps[0]);
      RunRecorded(env, Next(env, s, steps[0]), steps[1..], d);
    }
  }

  /** In every run, for every decision, the ledger holds at least as many receipts of executed purchases as
      purchases have been executed: no execution goes unrecorded. */
  lemma EveryExecutionIsRecorded(env: Env, start: Time, steps: seq<SystemStep>, d: string)
    ensures var s := RunAll(env, Start(start), steps); Executions(s.executed, d) <= Receipts(s.log, d)
  {
    Decisions.EmptyIsOrderly(env.hash);
    RunRecorded(env, Start(start), steps, d);
  }
}
