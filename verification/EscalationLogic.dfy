/** The pure decisions of alert acknowledgement and escalation. */
module EscalationLogic {
  import opened SharedTypes

  datatype AlertStatus = OPEN | ACKNOWLEDGED | ESCALATED | CLOSED

  function AllowedTargets(from: AlertStatus): set<AlertStatus> {
    match from
    case OPEN => {ACKNOWLEDGED, ESCALATED, CLOSED}
    case ESCALATED => {ACKNOWLEDGED, CLOSED}
    case ACKNOWLEDGED => {CLOSED}
    case CLOSED => {}
  }

  predicate LegalTransition(from: AlertStatus, to: AlertStatus) {
    from == to || to in AllowedTargets(from)
  }

  datatype AckDecision = AckApply(nextStatus: AlertStatus) | AckNoop | AckIllegal

  function DecideAcknowledge(status: AlertStatus): AckDecision {
    if status == ACKNOWLEDGED then AckNoop
    else if LegalTransition(status, ACKNOWLEDGED) then AckApply(ACKNOWLEDGED)
    else AckIllegal
  }

  datatype TickDecision =
    | Skip(cancelTimer: bool)
    | Escalate(contactIndex: nat, nextLevel: nat, nextStatus: AlertStatus, nextDueAt: Option<int>, terminal: bool)
    | Exhausted(nextStatus: AlertStatus)

  function DecideTick(
    status: AlertStatus, escalationLevel: nat, currentDueAt: int, chainLength: nat, intervalMs: int, now: int
  ): TickDecision
  {
    if status != OPEN then Skip(true)
    else if now < currentDueAt then Skip(false)
    else if escalationLevel >= chainLength then Exhausted(ESCALATED)
    else
      var nextLevel := escalationLevel + 1;
      var terminal := nextLevel >= chainLength;
      Escalate(
        escalationLevel,
        nextLevel,
        if terminal then ESCALATED else OPEN,
        if terminal then None else Some(currentDueAt + intervalMs),
        terminal)
  }
}
