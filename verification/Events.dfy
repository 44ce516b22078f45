/** The event schema, and the classification of events that the services share. */
module Events {
  import opened Prelude

  /** Microseconds of UTC. */
  type Time = int

  const MILLISECOND: int := 1000

  datatype EventType =
    | Intent | Action | Observation | Decision
    | ApprovalRequested | ApprovalResolved | ErrorReport | Summary

  datatype RiskLevel = Low | Medium | High

  datatype ApprovalStatus = NotRequired | Pending | Approved | Rejected

  datatype Approval = Approval(
    status: ApprovalStatus,
    decisionId: Option<string>,
    resolvedBy: Option<string>,
    resolvedAt: Option<Time>)

  /** The workflow step named in an event's metadata. Only the first four names mean anything to the services. */
  datatype Step = RunExpired | ApprovalExpired | RunStopped | ApprovalRejected | OtherStep(name: string)

  /** An event that the schema has accepted. Evidence is its number of items; content stands for
      everything that no service branches on (actor, title, details, confidence, requester, reason,
      workflow, the evidence items themselves). */
  datatype EventPayload = EventPayload(
    id: string,
    runId: string,
    timestamp: Time,
    kind: EventType,
    riskLevel: Option<RiskLevel>,
    requiresApproval: bool,
    approval: Approval,
    evidence: nat,
    step: Option<Step>,
    content: int)

  /** An event as the store returns it. Nothing ties the outer fields of an arbitrary value to its payload. */
  datatype StoredEvent = StoredEvent(
    id: string,
    timestamp: Time,
    runId: string,
    payload: EventPayload,
    integrityWarning: bool,
    prevHash: Option<string>,
    hash: string)

  datatype RunStatus = Running | Paused | RunApproved | RunRejected | Stopped | Expired | Completed {
    predicate Terminal() {
      Stopped? || Expired? || Completed?
    }
  }

  predicate PendingSignal(p: EventPayload) {
    p.kind == ApprovalRequested || (p.requiresApproval && p.approval.status == Pending)
  }

  predicate ResolutionSignal(p: EventPayload) {
    p.kind == ApprovalResolved
    || (p.requiresApproval && (p.approval.status == Approved || p.approval.status == Rejected))
  }

  /** The terminal status that an event puts its run in, if any. */
  function TerminalStatus(p: EventPayload): Option<RunStatus> {
    if p.kind == Summary then Some(Completed) else
      match p.step
      case Some(RunExpired) => Some(Expired)
      case Some(ApprovalExpired) => Some(Expired)
      case Some(RunStopped) => Some(Stopped)
      case Some(ApprovalRejected) => Some(Stopped)
      case _ => None
  }

  function NoApproval(decisionId: Option<string>): Approval {
    Approval(NotRequired, decisionId, None, None)
  }
}
