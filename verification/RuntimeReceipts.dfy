/** The receipts that the request handlers write into the ledger. */
module RuntimeReceipts {
  import opened Prelude
  import opened Events
  import opened EventLog
  import opened EventStore

  datatype ReceiptKind = DecisionRecorded | TokenMinted | ExecutionBlocked | PurchaseExecuted

  datatype ReceiptInput = ReceiptInput(
    runId: string, kind: ReceiptKind, decisionId: Option<string>, content: int,
    now: Time, suffix: string)

  function ReceiptType(k: ReceiptKind): EventType {
    match k
    case DecisionRecorded => Decision
    case TokenMinted => Decision
    case ExecutionBlocked => ErrorReport
    case PurchaseExecuted => Action
  }

  function ReceiptStepName(k: ReceiptKind): string {
    match k
    case DecisionRecorded => "authorize_action_decision"
    case TokenMinted => "execution_token_minted"
    case ExecutionBlocked => "execution_blocked"
    case PurchaseExecuted => "purchase_executed"
  }

  /** The clock, or one millisecond after the listing's last event when the clock is not past it. */
  function ReceiptTime(existing: seq<StoredEvent>, now: Time): Time {
    if existing != [] && now <= existing[|existing| - 1].timestamp
    then existing[|existing| - 1].timestamp + MILLISECOND
    else now
  }

  function ReceiptEvent(input: ReceiptInput, at: Time): EventPayload {
    EventPayload(
      "evt_runtime_" + input.suffix, input.runId, at, ReceiptType(input.kind), Some(Low), false,
      NoApproval(input.decisionId), 0, Some(OtherStep(ReceiptStepName(input.kind))), input.content)
  }

  /** None stands for DuplicateEventError, which the handlers let through. */
  function Record(h: EventHash, log: Log, input: ReceiptInput): Option<Log> {
    Append(h, log, ReceiptEvent(input, ReceiptTime(ListRun(log, input.runId), input.now)))
  }

  method AppendRuntimeReceipt(store: InMemoryEventStore, input: ReceiptInput) returns (ok: bool)
    requires store.Valid()
    modifies store
    ensures store.Valid()
    ensures Record(store.buildHash, old(store.log), input) == if ok then Some(store.log) else None
    ensures !ok ==> store.log == old(store.log)
  {
    var now := input.now;
    var existing := store.ListByRunId(input.runId);
    if existing != [] && now <= existing[|existing| - 1].timestamp {
      now := existing[|existing| - 1].timestamp + MILLISECOND;
    }
    assert now == ReceiptTime(existing, input.now);
    var event := ReceiptEvent(input, now);
    var stored := store.Append(event);
    ok := stored.Stored?;
  }
}
