/** The escalation engine: alerts, their timers, and who has been notified. */
module EscalationService {
  import opened SharedTypes
  import opened EscalationLogic
  import opened EscalationTimer

  datatype Severity = Info | Warning | Critical

  /** Only the parts of a rule that escalation reads. */
  datatype Rule = Rule(escalationChain: seq<string>, escalationIntervalMin: int)

  datatype Alert = Alert(
    ruleId: string,
    severity: Severity,
    status: AlertStatus,
    escalationLevel: nat,
    createdAt: int,
    acknowledgedAt: Option<int>,
    acknowledgedBy: Option<string>)

  datatype EscalationAction = EscalationAction(
    alertId: string,
    fromLevel: nat,
    toLevel: nat,
    contactId: Option<string>,
    status: AlertStatus,
    nextDueAt: Option<int>,
    dispatched: bool,
    terminal: bool)

  datatype ServiceError = NotFound | Conflict

  type Rules = map<string, Rule>

  const MS_PER_MINUTE := 60_000

  function IntervalMsOf(escalationIntervalMin: Option<int>): (ms: int)
    ensures ms > 0
  {
    var minutes := match escalationIntervalMin
                   case Some(m) => if m > 0 then m else 1
                   case None => 1;
    minutes * MS_PER_MINUTE
  }

  /** A deleted rule has an empty chain and the default interval. */
  function ChainOf(rules: Rules, ruleId: string): seq<string> {
    if ruleId in rules then rules[ruleId].escalationChain else []
  }

  function RuleIntervalMs(rules: Rules, ruleId: string): (ms: int)
    ensures ms > 0
  {
    IntervalMsOf(if ruleId in rules then Some(rules[ruleId].escalationIntervalMin) else None)
  }

  // ----- what happens to one alert -----

  /** Everything recorded about one alert id: its row, its timer, the contacts notified so far in order,
      the statuses it has had in order, and the due time its first timer was armed for. */
  datatype Slot = Slot(
    alert: Option<Alert>, due: Option<int>, notified: seq<string>, history: seq<AlertStatus>, armed: int)

  const EMPTY_SLOT := Slot(None, None, [], [], 0)

  function WithStatus(slot: Slot, alert: Alert): Slot {
    slot.(alert := Some(alert), history := slot.history + [alert.status])
  }

  function AfterCreate(slot: Slot, ruleId: string, severity: Severity, intervalMin: int, now: int): Slot {
    var due := now + IntervalMsOf(Some(intervalMin));
    Slot(Some(Alert(ruleId, severity, OPEN, 0, now, None, None)), Some(due), [], [OPEN], due)
  }

  function AfterAcknowledge(slot: Slot, userId: string, now: int): Slot {
    match slot.alert
    case None => slot
    case Some(a) =>
      match DecideAcknowledge(a.status)
      case AckApply(next) =>
        WithStatus(slot, a.(status := next, acknowledgedAt := Some(now), acknowledgedBy := Some(userId))).(due := None)
      case _ => slot
  }

  /** One sweep at `now`, seen from one alert id. */
  function AfterTick(rules: Rules, slot: Slot, now: int): Slot {
    match slot.due
    case Some(dueAt) => if dueAt <= now then AfterDue(rules, slot, dueAt, now) else slot
    case None => slot
  }

  function AfterDue(rules: Rules, slot: Slot, dueAt: int, now: int): Slot {
    match slot.alert
    case None => slot.(due := None)
    case Some(a) =>
      var chain := ChainOf(rules, a.ruleId);
      match DecideTick(a.status, a.escalationLevel, dueAt, |chain|, RuleIntervalMs(rules, a.ruleId), now)
      case Skip(cancelTimer) => if cancelTimer then slot.(due := None) else slot
      case Exhausted(next) =>
        (if a.status != next then WithStatus(slot, a.(status := next)) else slot).(due := None)
      case Escalate(index, level, next, nextDue, terminal) =>
        WithStatus(slot, a.(status := next, escalationLevel := level))
          .(due := nextDue,
            notified := slot.notified + if index < |chain| then [chain[index]] else [])
  }

  /** The record returned for one due alert, if any. */
  function ActionFor(rules: Rules, id: string, slot: Slot, dueAt: int, now: int): Option<EscalationAction> {
    match slot.alert
    case None => None
    case Some(a) =>
      var chain := ChainOf(rules, a.ruleId);
      match DecideTick(a.status, a.escalationLevel, dueAt, |chain|, RuleIntervalMs(rules, a.ruleId), now)
      case Skip(_) => None
      case Exhausted(next) =>
        Some(EscalationAction(id, a.escalationLevel, a.escalationLevel, None, next, None, false, true))
      case Escalate(index, level, next, nextDue, terminal) =>
        Some(EscalationAction(id, a.escalationLevel, level, if index < |chain| then Some(chain[index]) else None,
                              next, nextDue, true, terminal))
  }

  lemma TickTransitionsAreLegal(
    status: AlertStatus, escalationLevel: nat, currentDueAt: int, chainLength: nat, intervalMs: int, now: int)
    ensures match DecideTick(status, escalationLevel, currentDueAt, chainLength, intervalMs, now)
            case Skip(_) => true
            case Exhausted(next) => LegalTransition(status, next)
            case Escalate(_, _, next, _, _) => LegalTransition(status, next)
  {
  }

  class EscalationService {
    const rules: Rules
    const timer: Timer
    var alerts: map<string, Alert>

    ghost var notified: map<string, seq<string>>
    ghost var history: map<string, seq<AlertStatus>>
    ghost var armed: map<string, int>

    constructor (rules: Rules)
      ensures this.rules == rules && fresh(timer)
      ensures forall id :: View(id) == EMPTY_SLOT
    {
      this.rules := rules;
      timer := new Timer();
      alerts, notified, history, armed := map[], map[], map[], map[];
    }

    /** Everything recorded about one alert id. */
    ghost function View(id: string): Slot
      reads this, timer
    {
      Slot(
        if id in alerts then Some(alerts[id]) else None,
        if id in timer.due then Some(timer.due[id]) else None,
        if id in notified then notified[id] else [],
        if id in history then history[id] else [],
        if id in armed then armed[id] else 0)
    }

    /** The store generates `id`; it is new. */
    method CreateAlert(id: string, ruleId: string, severity: Severity, escalationIntervalMin: int, now: int)
      returns (alert: Alert)
      requires View(id) == EMPTY_SLOT
      modifies this, timer
      ensures View(id) == AfterCreate(old(View(id)), ruleId, severity, escalationIntervalMin, now)
      ensures View(id).alert == Some(alert)
      ensures forall other :: other != id ==> View(other) == old(View(other))
    {
      alert := Alert(ruleId, severity, OPEN, 0, now, None, None);
      alerts := alerts[id := alert];
      var intervalMs := IntervalMsOf(Some(escalationIntervalMin));
      timer.Schedule(id, now + intervalMs);
      notified, history, armed := notified[id := []], history[id := [OPEN]], armed[id := now + intervalMs];
    }

    /** The single place where a status changes. */
    method ApplyTransition(alert: Alert, to: AlertStatus) returns (r: Result<Alert, ServiceError>)
      ensures r == if LegalTransition(alert.status, to) then Ok(alert.(status := to)) else Err(Conflict)
    {
      if !LegalTransition(alert.status, to) {
        return Err(Conflict);
      }
      return Ok(alert.(status := to));
    }

    method Save(alertId: string, alert: Alert)
      modifies this
      ensures View(alertId) == WithStatus(old(View(alertId)), alert)
      ensures forall id :: id != alertId ==> View(id) == old(View(id))
      ensures alerts == old(alerts)[alertId := alert]
    {
      history := history[alertId := View(alertId).history + [alert.status]];
      alerts := alerts[alertId := alert];
    }

    method CancelTimer(alertId: string)
      modifies timer
      ensures View(alertId) == old(View(alertId)).(due := None)
      ensures forall id :: id != alertId ==> View(id) == old(View(id))
    {
      timer.Cancel(alertId);
    }

    method Reschedule(alertId: string, dueAt: Option<int>)
      modifies timer
      ensures View(alertId) == old(View(alertId)).(due := dueAt)
      ensures forall id :: id != alertId ==> View(id) == old(View(id))
    {
      match dueAt {
        case None => timer.Cancel(alertId);
        case Some(t) => timer.Schedule(alertId, t);
      }
    }

    /** Hands the alert to the dispatcher; a failing dispatch is swallowed. The dispatcher is not told the contact:
        the log keeps the one that the returned action names. */
    method Dispatch(alertId: string, contactId: string)
      modifies this`notified
      ensures View(alertId) == old(View(alertId)).(notified := old(View(alertId)).notified + [contactId])
      ensures forall id :: id != alertId ==> View(id) == old(View(id))
    {
      notified := notified[alertId := View(alertId).notified + [contactId]];
    }

    /** Saves the alert, notifies its next contact if there is one, and moves or cancels its timer. */
    method SaveAndNotify(alertId: string, alert: Alert, contactId: Option<string>, dueAt: Option<int>)
      modifies this, timer
      ensures View(alertId) == WithStatus(old(View(alertId)), alert).(due := dueAt,
        notified := old(View(alertId)).notified + if contactId.Some? then [contactId.value] else [])
      ensures forall id :: id != alertId ==> View(id) == old(View(id))
    {
      hide View;
      Save(alertId, alert);
      if contactId.Some? {
        Dispatch(alertId, contactId.value);
      }
      Reschedule(alertId, dueAt);
    }

    method Acknowledge(alertId: string, userId: string, now: int) returns (r: Result<Alert, ServiceError>)
      modifies this, timer
      ensures View(alertId) == AfterAcknowledge(old(View(alertId)), userId, now)
      ensures forall id :: id != alertId ==> View(id) == old(View(id))
      ensures old(View(alertId)).alert.None? ==> r == Err(NotFound)
      ensures old(View(alertId)).alert.Some? ==>
        r == if old(View(alertId)).alert.value.status == CLOSED then Err(Conflict) else Ok(View(alertId).alert.value)
    {
      if alertId !in alerts {
        return Err(NotFound);
      }
      var alert := alerts[alertId];
      assert View(alertId).alert == Some(alert);
      hide View;
      var decision := DecideAcknowledge(alert.status);
      match decision {
        case AckNoop => return Ok(alert);
        case AckIllegal => return Err(Conflict);
        case AckApply(nextStatus) =>
          var changed := ApplyTransition(alert, nextStatus);
          alert := changed.value.(acknowledgedAt := Some(now), acknowledgedBy := Some(userId));
          Save(alertId, alert);
          CancelTimer(alertId);
          return Ok(alert);
      }
    }

    method ProcessDueAlert(alertId: string, currentDueAt: int, nowMs: int) returns (action: Option<EscalationAction>)
      modifies this, timer
      ensures View(alertId) == AfterDue(rules, old(View(alertId)), currentDueAt, nowMs)
      ensures forall id :: id != alertId ==> View(id) == old(View(id))
      ensures action == ActionFor(rules, alertId, old(View(alertId)), currentDueAt, nowMs)
    {
      if alertId !in alerts {
        CancelTimer(alertId);
        return None;
      }
      var alert := alerts[alertId];
      assert View(alertId).alert == Some(alert);
      hide View;
      var chain := ChainOf(rules, alert.ruleId);
      var intervalMs := RuleIntervalMs(rules, alert.ruleId);
      var decision := DecideTick(alert.status, alert.escalationLevel, currentDueAt, |chain|, intervalMs, nowMs);
      TickTransitionsAreLegal(alert.status, alert.escalationLevel, currentDueAt, |chain|, intervalMs, nowMs);
      var fromLevel := alert.escalationLevel;
      match decision {
        case Skip(cancelTimer) =>
          if cancelTimer {
            CancelTimer(alertId);
          }
          return None;
        case Exhausted(nextStatus) =>
          if alert.status != nextStatus {
            var changed := ApplyTransition(alert, nextStatus);
            alert := changed.value;
            Save(alertId, alert);
          }
          CancelTimer(alertId);
          return Some(EscalationAction(alertId, fromLevel, fromLevel, None, alert.status, None, false, true));
        case Escalate(contactIndex, nextLevel, nextStatus, nextDueAt, terminal) =>
          var contactId := if contactIndex < |chain| then Some(chain[contactIndex]) else None;
          var changed := ApplyTransition(alert, nextStatus);
          alert := changed.value.(escalationLevel := nextLevel);
          SaveAndNotify(alertId, alert, contactId, if terminal then None else nextDueAt);
          return Some(
            EscalationAction(alertId, fromLevel, nextLevel, contactId, alert.status, nextDueAt, true, terminal));
      }
    }

    /** The sweep's loop over the due entries; `slots` are the records they refer to. */
    method ProcessAll(due: seq<DueTimer>, ghost slots: seq<Slot>, nowMs: int) returns (actions: seq<EscalationAction>)
      requires |slots| == |due| && forall k :: 0 <= k < |due| ==> View(due[k].alertId) == slots[k]
      requires forall i, j :: 0 <= i < j < |due| ==> due[i].alertId != due[j].alertId
      modifies this, timer
      ensures actions == ActionsFor(rules, due, slots, nowMs)
      ensures forall k :: 0 <= k < |due| ==> View(due[k].alertId) == AfterDue(rules, slots[k], due[k].dueAt, nowMs)
      ensures forall id :: Processed(due, |due|, id) || View(id) == old(View(id))
    {
      hide View, AfterDue, ActionFor;
      actions := [];
      for i := 0 to |due|
        invariant actions == ActionsFor(rules, due[..i], slots[..i], nowMs)
        invariant forall k :: 0 <= k < i ==> View(due[k].alertId) == AfterDue(rules, slots[k], due[k].dueAt, nowMs)
        invariant forall k :: i <= k < |due| ==> View(due[k].alertId) == slots[k]
        invariant forall id :: Processed(due, i, id) || View(id) == old(View(id))
      {
        var entry := due[i];
        var action := ProcessDueAlert(entry.alertId, entry.dueAt, nowMs);
        if action.Some? {
          actions := actions + [action.value];
        }
        ActionsStep(rules, due, slots, i, nowMs);
      }
      assert due[..|due|] == due && slots[..|due|] == slots;
    }

    /** One sweep: every alert due at nowMs takes one step, and nothing else changes. The actions are those of
        the due alerts, in due order; `slots` are the records of the due alerts before the sweep. */
    method TickEscalations(nowMs: int)
      returns (actions: seq<EscalationAction>, ghost entries: seq<DueTimer>, ghost slots: seq<Slot>)
      modifies this, timer
      ensures forall id :: View(id) == AfterTick(rules, old(View(id)), nowMs)
      ensures IsDueList(entries, old(timer.due), nowMs) && |slots| == |entries|
      ensures forall i :: 0 <= i < |entries| ==> slots[i] == old(View(entries[i].alertId))
      ensures actions == ActionsFor(rules, entries, slots, nowMs)
    {
      var due;
      due, slots := LoadDue(nowMs);
      entries := due;
      hide *;
      actions := ProcessAll(due, slots, nowMs);
      forall id ensures View(id) == AfterTick(rules, old(View(id)), nowMs) {
        TickIsDueStep(rules, old(View(id)), nowMs);
        if Processed(due, |due|, id) {
          var k := ProcessedAt(due, id);
          assert slots[k] == old(View(id));
        }
      }
    }

    /** The due list, with the records it refers to. */
    method LoadDue(nowMs: int) returns (due: seq<DueTimer>, ghost slots: seq<Slot>)
      ensures IsDueList(due, timer.due, nowMs) && |slots| == |due|
      ensures forall k :: 0 <= k < |due| ==> slots[k] == View(due[k].alertId)
      ensures forall k :: 0 <= k < |due| ==> slots[k].due == Some(due[k].dueAt) && due[k].dueAt <= nowMs
      ensures forall i, j :: 0 <= i < j < |due| ==> due[i].alertId != due[j].alertId
      ensures forall id :: Processed(due, |due|, id) <==> View(id).due.Some? && View(id).due.value <= nowMs
    {
      due := timer.DueEntries(nowMs);
      slots := seq(|due|, i requires 0 <= i < |due| reads this, timer => View(due[i].alertId));
      EntriesMatchSlots(due, slots, timer.due, nowMs);
      forall id ensures Processed(due, |due|, id) <==> View(id).due.Some? && View(id).due.value <= nowMs {
        DueIffListed(due, timer.due, nowMs, id);
      }
    }
  }

  lemma TickIsDueStep(rules: Rules, slot: Slot, now: int)
    ensures AfterTick(rules, slot, now)
         == if slot.due.Some? && slot.due.value <= now then AfterDue(rules, slot, slot.due.value, now) else slot
  {
  }

  lemma ProcessedAt(due: seq<DueTimer>, id: string) returns (k: nat)
    requires Processed(due, |due|, id)
    ensures k < |due| && due[k].alertId == id
  {
    k :| 0 <= k < |due| && due[k].alertId == id;
  }

  lemma ActionsStep(rules: Rules, entries: seq<DueTimer>, slots: seq<Slot>, i: nat, now: int)
    requires |slots| == |entries| && i < |entries|
    ensures ActionsFor(rules, entries[..i + 1], slots[..i + 1], now)
         == ActionsFor(rules, entries[..i], slots[..i], now)
            + match ActionFor(rules, entries[i].alertId, slots[i], entries[i].dueAt, now)
              case Some(a) => [a]
              case None => []
  {
    assert entries[..i + 1][..i] == entries[..i] && slots[..i + 1][..i] == slots[..i];
  }

  lemma EntriesMatchSlots(entries: seq<DueTimer>, slots: seq<Slot>, due: map<string, int>, now: int)
    requires IsDueList(entries, due, now) && |slots| == |entries|
    requires forall i :: 0 <= i < |slots| && entries[i].alertId in due ==> slots[i].due == Some(due[entries[i].alertId])
    ensures forall i :: 0 <= i < |slots| ==> slots[i].due == Some(entries[i].dueAt) && entries[i].dueAt <= now
    ensures forall i, j :: 0 <= i < j < |entries| ==> entries[i].alertId != entries[j].alertId
  {
    forall i | 0 <= i < |slots| ensures slots[i].due == Some(entries[i].dueAt) && entries[i].dueAt <= now {
      assert entries[i] in entries;
    }
  }

  /** A sweep leaves alone the ids that are not on its due list. */
  lemma DueIffListed(entries: seq<DueTimer>, due: map<string, int>, now: int, id: string)
    requires IsDueList(entries, due, now)
    ensures Processed(entries, |entries|, id) <==> id in due && due[id] <= now
  {
    if id in due && due[id] <= now {
      assert DueTimer(id, due[id]) in entries;
    }
  }

  ghost predicate Processed(due: seq<DueTimer>, n: nat, id: string)
    requires n <= |due|
  {
    exists k :: 0 <= k < n && due[k].alertId == id
  }

  /** The actions of the due alerts, in order. */
  function ActionsFor(rules: Rules, entries: seq<DueTimer>, slots: seq<Slot>, now: int): seq<EscalationAction>
    requires |entries| == |slots|
  {
    if entries == [] then []
    else
      var n := |entries| - 1;
      ActionsFor(rules, entries[..n], slots[..n], now)
      + match ActionFor(rules, entries[n].alertId, slots[n], entries[n].dueAt, now)
        case Some(a) => [a]
        case None => []
  }
}
