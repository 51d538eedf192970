/** Properties of an alert over every run of the escalation engine. Each call of the service is one event
    and acts on each alert id separately, so a run is followed one id at a time. */
module EscalationRuns {
  import opened SharedTypes
  import opened EscalationLogic
  import opened EscalationService
  import opened EscalationTimer

  datatype Event =
    | Created(id: string, ruleId: string, severity: Severity, intervalMin: int, now: int)
    | AckRequested(id: string, userId: string, now: int)
    | Swept(now: int)

  /** What a call does to the slot of one id: the contracts of the service's methods. */
  function After(rules: Rules, slot: Slot, id: string, e: Event): Slot {
    match e
    case Created(other, ruleId, severity, intervalMin, now) =>
      if other == id then AfterCreate(slot, ruleId, severity, intervalMin, now) else slot
    case AckRequested(other, userId, now) =>
      if other == id then AfterAcknowledge(slot, userId, now) else slot
    case Swept(now) => AfterTick(rules, slot, now)
  }

  /** Every call of the service is such an event, for every alert id at once. */
  method Perform(service: EscalationService, e: Event)
    requires e.Created? ==> service.View(e.id) == EMPTY_SLOT
    modifies service, service.timer
    ensures forall id :: service.View(id) == After(service.rules, old(service.View(id)), id, e)
  {
    match e {
      case Created(id, ruleId, severity, intervalMin, now) =>
        var _ := service.CreateAlert(id, ruleId, severity, intervalMin, now);
      case AckRequested(id, userId, now) =>
        var _ := service.Acknowledge(id, userId, now);
      case Swept(now) =>
        var _, _, _ := service.TickEscalations(now);
    }
  }

  function Run(rules: Rules, id: string, events: seq<Event>): Slot {
    if events == [] then EMPTY_SLOT
    else After(rules, Run(rules, id, events[..|events| - 1]), id, events[|events| - 1])
  }

  /** Ids are generated once: no id is created twice. */
  ghost predicate IdsFresh(events: seq<Event>) {
    forall i, j :: 0 <= i < j < |events| && events[i].Created? && events[j].Created? ==> events[i].id != events[j].id
  }

  ghost predicate CreatedIn(events: seq<Event>, id: string) {
    exists i :: 0 <= i < |events| && events[i].Created? && events[i].id == id
  }

  // ----- the invariant -----

  ghost predicate LegalHistory(history: seq<AlertStatus>) {
    && |history| > 0 && history[0] == OPEN
    && forall i :: 0 <= i && i + 1 < |history| ==> LegalTransition(history[i], history[i + 1])
  }

  ghost predicate AlertInvariant(rules: Rules, slot: Slot) {
    match slot.alert
    case None => slot == EMPTY_SLOT
    case Some(a) =>
      var chain := ChainOf(rules, a.ruleId);
      && a.escalationLevel <= |chain|
      && slot.notified == chain[..a.escalationLevel]
      && (slot.due.Some? <==> a.status == OPEN)
      && (a.status == OPEN ==>
            && slot.due == Some(slot.armed + a.escalationLevel * RuleIntervalMs(rules, a.ruleId))
            && (a.escalationLevel < |chain| || |chain| == 0))
      && (a.status == ESCALATED ==> a.escalationLevel == |chain|)
      && a.status != CLOSED
      && LegalHistory(slot.history) && slot.history[|slot.history| - 1] == a.status
  }

  lemma NextInterval(armed: int, level: nat, interval: int)
    ensures armed + level * interval + interval == armed + (level + 1) * interval
  {
  }

  lemma HistoryGrows(history: seq<AlertStatus>, next: AlertStatus)
    requires LegalHistory(history) && LegalTransition(history[|history| - 1], next)
    ensures LegalHistory(history + [next])
  {
  }

  lemma DueKeepsInvariant(rules: Rules, slot: Slot, dueAt: int, now: int)
    requires AlertInvariant(rules, slot) && slot.due == Some(dueAt) && dueAt <= now
    ensures AlertInvariant(rules, AfterDue(rules, slot, dueAt, now))
  {
    var a := slot.alert.value;
    var chain := ChainOf(rules, a.ruleId);
    assert a.status == OPEN;
    if a.escalationLevel < |chain| {
      NextInterval(slot.armed, a.escalationLevel, RuleIntervalMs(rules, a.ruleId));
      var next := if a.escalationLevel + 1 >= |chain| then ESCALATED else OPEN;
      HistoryGrows(slot.history, next);
      assert chain[..a.escalationLevel] + [chain[a.escalationLevel]] == chain[..a.escalationLevel + 1];
    } else {
      HistoryGrows(slot.history, ESCALATED);
    }
  }

  lemma StepKeepsInvariant(rules: Rules, slot: Slot, id: string, e: Event)
    requires AlertInvariant(rules, slot)
    requires e.Created? && e.id == id ==> slot == EMPTY_SLOT
    ensures AlertInvariant(rules, After(rules, slot, id, e))
  {
    match e
    case Created(_, _, _, _, _) =>
    case AckRequested(_, _, _) =>
      if slot.alert.Some? && slot.alert.value.status != ACKNOWLEDGED {
        HistoryGrows(slot.history, ACKNOWLEDGED);
      }
    case Swept(now) =>
      if slot.due.Some? && slot.due.value <= now {
        DueKeepsInvariant(rules, slot, slot.due.value, now);
      }
  }

  lemma {:induction false} NothingBeforeCreation(rules: Rules, id: string, events: seq<Event>)
    requires !CreatedIn(events, id)
    ensures Run(rules, id, events) == EMPTY_SLOT
  {
    if events != [] {
      var front := events[..|events| - 1];
      assert !CreatedIn(front, id);
      NothingBeforeCreation(rules, id, front);
    }
  }

  lemma FreshPrefix(events: seq<Event>, id: string)
    requires IdsFresh(events) && events != []
    ensures var front, last := events[..|events| - 1], events[|events| - 1];
            IdsFresh(front) && (last.Created? && last.id == id ==> !CreatedIn(front, id))
  {
  }

  /** In every reachable state: the timer holds exactly the open alerts, due one rule interval per level after
      the first due time; the level stays within the chain; the contacts notified are the chain's first
      `level` entries in order; and the statuses had so far follow only legal transitions. */
  lemma {:induction false} InvariantHolds(rules: Rules, id: string, events: seq<Event>)
    requires IdsFresh(events)
    ensures AlertInvariant(rules, Run(rules, id, events))
  {
    if events != [] {
      var front, last := events[..|events| - 1], events[|events| - 1];
      FreshPrefix(events, id);
      InvariantHolds(rules, id, front);
      if last.Created? && last.id == id {
        NothingBeforeCreation(rules, id, front);
      }
      StepKeepsInvariant(rules, Run(rules, id, front), id, last);
    }
  }

  // ----- who is named in the returned actions -----

  function ContactOf(action: Option<EscalationAction>): seq<string> {
    match action
    case Some(a) => if a.contactId.Some? then [a.contactId.value] else []
    case None => []
  }

  /** The contacts in the actions that the sweeps of the run return for the alert, in order. */
  function ActionContacts(rules: Rules, id: string, events: seq<Event>): seq<string> {
    if events == [] then []
    else
      var front, last := events[..|events| - 1], events[|events| - 1];
      var slot := Run(rules, id, front);
      ActionContacts(rules, id, front)
      + if last.Swept? && slot.due.Some? && slot.due.value <= last.now
        then ContactOf(ActionFor(rules, id, slot, slot.due.value, last.now)) else []
  }

  /** What one event adds to the notified contacts is what its action names. */
  lemma NotifiedStep(rules: Rules, slot: Slot, id: string, e: Event)
    requires e.Created? && e.id == id ==> slot == EMPTY_SLOT
    ensures After(rules, slot, id, e).notified
         == slot.notified + if e.Swept? && slot.due.Some? && slot.due.value <= e.now
                            then ContactOf(ActionFor(rules, id, slot, slot.due.value, e.now)) else []
  {
    hide RuleIntervalMs;
  }

  lemma {:induction false} ActionsNameTheNotified(rules: Rules, id: string, events: seq<Event>)
    requires IdsFresh(events)
    ensures ActionContacts(rules, id, events) == Run(rules, id, events).notified
  {
    hide ContactOf, After, ActionFor;
    if events != [] {
      var front, last := events[..|events| - 1], events[|events| - 1];
      FreshPrefix(events, id);
      ActionsNameTheNotified(rules, id, front);
      if last.Created? && last.id == id {
        NothingBeforeCreation(rules, id, front);
      }
      NotifiedStep(rules, Run(rules, id, front), id, last);
    }
  }

  /** Over every run the actions returned for an alert name exactly its chain's first `level` contacts, in order. */
  lemma ActionsNameTheChain(rules: Rules, id: string, events: seq<Event>)
    requires IdsFresh(events)
    ensures var slot := Run(rules, id, events);
            if slot.alert.None? then ActionContacts(rules, id, events) == []
            else
              var a, chain := slot.alert.value, ChainOf(rules, slot.alert.value.ruleId);
              a.escalationLevel <= |chain| && ActionContacts(rules, id, events) == chain[..a.escalationLevel]
  {
    InvariantHolds(rules, id, events);
    ActionsNameTheNotified(rules, id, events);
  }

  /** The contacts that a sweep's list of actions names for the alert. */
  function ContactsFor(actions: seq<EscalationAction>, id: string): seq<string> {
    if actions == [] then []
    else
      var last := actions[|actions| - 1];
      ContactsFor(actions[..|actions| - 1], id) + if last.alertId == id then ContactOf(Some(last)) else []
  }

  lemma ContactsSnoc(actions: seq<EscalationAction>, a: EscalationAction, id: string)
    ensures ContactsFor(actions + [a], id)
         == ContactsFor(actions, id) + if a.alertId == id then ContactOf(Some(a)) else []
  {
    assert (actions + [a])[..|actions|] == actions;
  }

  lemma ContactsStep(rules: Rules, entries: seq<DueTimer>, slots: seq<Slot>, now: int, id: string)
    requires |slots| == |entries| && entries != []
    ensures var n := |entries| - 1;
            ContactsFor(ActionsFor(rules, entries, slots, now), id)
            == ContactsFor(ActionsFor(rules, entries[..n], slots[..n], now), id)
               + if entries[n].alertId == id
                 then ContactOf(ActionFor(rules, id, slots[n], entries[n].dueAt, now)) else []
  {
    hide ContactOf, ContactsFor;
    var n := |entries| - 1;
    var action := ActionFor(rules, entries[n].alertId, slots[n], entries[n].dueAt, now);
    var before := ActionsFor(rules, entries[..n], slots[..n], now);
    ActionIsForItsAlert(rules, entries[n].alertId, slots[n], entries[n].dueAt, now);
    NoActionNoContact();
    hide ActionFor;
    assert ActionsFor(rules, entries, slots, now) == before + if action.Some? then [action.value] else [];
    hide ActionsFor;
    if action.Some? {
      ContactsSnoc(before, action.value, id);
    }
    assert before + [] == before && ContactsFor(before, id) + [] == ContactsFor(before, id);
  }

  lemma {:induction false} NotDueNotNamed(rules: Rules, entries: seq<DueTimer>, slots: seq<Slot>, now: int, id: string)
    requires |slots| == |entries| && forall k :: 0 <= k < |entries| ==> entries[k].alertId != id
    ensures ContactsFor(ActionsFor(rules, entries, slots, now), id) == []
  {
    if entries != [] {
      var n := |entries| - 1;
      ContactsStep(rules, entries, slots, now, id);
      NotDueNotNamed(rules, entries[..n], slots[..n], now, id);
    }
  }

  /** A sweep's list names, for every due alert, the contact of the one action of that alert. */
  lemma {:induction false} SweepNamesContact(rules: Rules, entries: seq<DueTimer>, slots: seq<Slot>, now: int, k: nat)
    requires |slots| == |entries| && k < |entries|
    requires forall i, j :: 0 <= i < j < |entries| ==> entries[i].alertId != entries[j].alertId
    ensures ContactsFor(ActionsFor(rules, entries, slots, now), entries[k].alertId)
         == ContactOf(ActionFor(rules, entries[k].alertId, slots[k], entries[k].dueAt, now))
  {
    hide ContactOf, ContactsFor, ActionFor, ActionsFor;
    var n, id := |entries| - 1, entries[k].alertId;
    ContactsStep(rules, entries, slots, now, id);
    if k == n {
      NotDueNotNamed(rules, entries[..n], slots[..n], now, id);
    } else {
      SweepNamesContact(rules, entries[..n], slots[..n], now, k);
    }
  }

  /** The list of a sweep whose alerts all step holds their actions in the order they were due. */
  lemma {:induction false} ActionsInDueOrder(rules: Rules, entries: seq<DueTimer>, slots: seq<Slot>, now: int)
    requires |slots| == |entries|
    requires forall k :: 0 <= k < |entries| ==> ActionOf(rules, entries, slots, now, k).Some?
    ensures var actions := ActionsFor(rules, entries, slots, now);
            |actions| == |entries|
            && forall k :: 0 <= k < |entries| ==> ActionOf(rules, entries, slots, now, k) == Some(actions[k])
  {
    hide ActionFor;
    if entries != [] {
      var n := |entries| - 1;
      forall k | 0 <= k < n
        ensures ActionOf(rules, entries[..n], slots[..n], now, k) == ActionOf(rules, entries, slots, now, k)
      {
      }
      ActionsInDueOrder(rules, entries[..n], slots[..n], now);
      assert ActionOf(rules, entries, slots, now, n).Some?;
    }
  }

  function ActionOf(rules: Rules, entries: seq<DueTimer>, slots: seq<Slot>, now: int, k: nat): Option<EscalationAction>
    requires k < |entries| == |slots|
  {
    ActionFor(rules, entries[k].alertId, slots[k], entries[k].dueAt, now)
  }

  lemma NoActionNoContact()
    ensures ContactOf(None) == []
  {
  }

  lemma ActionIsForItsAlert(rules: Rules, id: string, slot: Slot, dueAt: int, now: int)
    ensures ActionFor(rules, id, slot, dueAt, now).Some? ==> ActionFor(rules, id, slot, dueAt, now).value.alertId == id
  {
  }

  // ----- the first due time -----

  lemma {:induction false} ArmedAtCreation(rules: Rules, id: string, events: seq<Event>)
    requires IdsFresh(events) && CreatedIn(events, id)
    ensures var slot := Run(rules, id, events);
            slot.alert.Some?
            && exists i :: 0 <= i < |events| && events[i].Created? && events[i].id == id
                 && slot.armed == events[i].now + IntervalMsOf(Some(events[i].intervalMin))
                 && slot.alert.value.createdAt == events[i].now && slot.alert.value.ruleId == events[i].ruleId
  {
    var front, last := events[..|events| - 1], events[|events| - 1];
    if last.Created? && last.id == id {
      assert events[|events| - 1] == last;
    } else {
      assert CreatedIn(front, id);
      FreshPrefix(events, id);
      ArmedAtCreation(rules, id, front);
      InvariantHolds(rules, id, front);
      var slot := Run(rules, id, front);
      var i :| 0 <= i < |front| && front[i].Created? && front[i].id == id
        && slot.armed == front[i].now + IntervalMsOf(Some(front[i].intervalMin))
        && slot.alert.value.createdAt == front[i].now && slot.alert.value.ruleId == front[i].ruleId;
      assert events[i] == front[i];
    }
  }

  /** Alerts are raised with their rule's own interval. */
  ghost predicate RuleIntervals(rules: Rules, events: seq<Event>) {
    forall i :: 0 <= i < |events| && events[i].Created? ==>
      IntervalMsOf(Some(events[i].intervalMin)) == RuleIntervalMs(rules, events[i].ruleId)
  }

  /** The rule's minutes; one when the rule is gone or has none. */
  ghost function Minutes(rules: Rules, ruleId: string): int {
    if ruleId in rules && rules[ruleId].escalationIntervalMin > 0 then rules[ruleId].escalationIntervalMin else 1
  }

  lemma IntervalInMinutes(rules: Rules, ruleId: string)
    ensures RuleIntervalMs(rules, ruleId) == Minutes(rules, ruleId) * 60_000
  {
  }

  /** An open alert is next due level + 1 rule intervals after its creation, in milliseconds. */
  lemma OpenAlertDueTime(rules: Rules, id: string, events: seq<Event>)
    requires IdsFresh(events) && RuleIntervals(rules, events)
    ensures var slot := Run(rules, id, events);
            slot.alert.Some? && slot.alert.value.status == OPEN ==>
              var a := slot.alert.value;
              slot.due == Some(a.createdAt + (a.escalationLevel + 1) * (Minutes(rules, a.ruleId) * 60_000))
  {
    hide Run, IdsFresh, ChainOf, LegalHistory, RuleIntervalMs, IntervalMsOf;
    var slot := Run(rules, id, events);
    InvariantHolds(rules, id, events);
    if slot.alert.Some? && slot.alert.value.status == OPEN {
      var a := slot.alert.value;
      IntervalInMinutes(rules, a.ruleId);
      hide Minutes;
      if !CreatedIn(events, id) {
        NothingBeforeCreation(rules, id, events);
      } else {
        ArmedAtCreation(rules, id, events);
        NextInterval(a.createdAt, a.escalationLevel, RuleIntervalMs(rules, a.ruleId));
      }
    }
  }

  // ----- acknowledgement is final -----

  /** One more event leaves an acknowledged record as it is. */
  lemma AcknowledgedStays(rules: Rules, id: string, front: seq<Event>, last: Event)
    requires IdsFresh(front + [last])
    requires var slot := Run(rules, id, front); slot.alert.Some? && slot.alert.value.status == ACKNOWLEDGED
    ensures IdsFresh(front) && Run(rules, id, front).due == None
    ensures Run(rules, id, front + [last]) == Run(rules, id, front)
  {
    var events := front + [last];
    assert events[..|events| - 1] == front;
    FreshPrefix(events, id);
    InvariantHolds(rules, id, front);
    if last.Created? && last.id == id {
      NothingBeforeCreation(rules, id, front);
    }
    hide IdsFresh, ChainOf, RuleIntervalMs, AfterDue;
  }

  lemma FreshPart(past: seq<Event>, future: seq<Event>)
    requires IdsFresh(past + future)
    ensures IdsFresh(past)
  {
    assert forall i :: 0 <= i < |past| ==> (past + future)[i] == past[i];
  }

  lemma AcknowledgedHasNoTimer(rules: Rules, id: string, events: seq<Event>)
    requires IdsFresh(events)
    requires var slot := Run(rules, id, events); slot.alert.Some? && slot.alert.value.status == ACKNOWLEDGED
    ensures Run(rules, id, events).due == None
  {
    InvariantHolds(rules, id, events);
    hide Run, IdsFresh;
  }

  /** The contacts that the actions name are told by the record. */
  lemma SameSlotSameContacts(rules: Rules, id: string, events: seq<Event>, events': seq<Event>)
    requires IdsFresh(events) && IdsFresh(events') && Run(rules, id, events) == Run(rules, id, events')
    ensures ActionContacts(rules, id, events) == ActionContacts(rules, id, events')
  {
    ActionsNameTheNotified(rules, id, events);
    ActionsNameTheNotified(rules, id, events');
    hide Run, ActionContacts, IdsFresh;
  }

  /** Once acknowledged, an alert's record never changes again: no status change, no notification, no timer; and no
      later action names a contact for it. */
  lemma {:induction false} AcknowledgedIsFinal(rules: Rules, id: string, past: seq<Event>, future: seq<Event>)
    requires IdsFresh(past + future)
    requires var slot := Run(rules, id, past); slot.alert.Some? && slot.alert.value.status == ACKNOWLEDGED
    ensures Run(rules, id, past + future) == Run(rules, id, past)
    ensures Run(rules, id, past).due == None
    ensures ActionContacts(rules, id, past + future) == ActionContacts(rules, id, past)
  {
    hide Run, ActionContacts, IdsFresh;
    FreshPart(past, future);
    AcknowledgedHasNoTimer(rules, id, past);
    if future == [] {
      assert past + future == past;
    } else {
      var front, last := past + future[..|future| - 1], future[|future| - 1];
      assert past + future == front + [last];
      FreshPart(front, [last]);
      AcknowledgedIsFinal(rules, id, past, future[..|future| - 1]);
      AcknowledgedStays(rules, id, front, last);
      SameSlotSameContacts(rules, id, past, past + future);
    }
  }

  /** An acknowledgement acknowledges: over every run, it turns an open or escalated alert into an acknowledged one
      with the time and the user, takes its timer away and changes nothing else about it. */
  lemma AcknowledgementApplies(rules: Rules, id: string, events: seq<Event>, userId: string, now: int)
    requires IdsFresh(events)
    requires var slot := Run(rules, id, events);
             slot.alert.Some? && (slot.alert.value.status == OPEN || slot.alert.value.status == ESCALATED)
    ensures var before, after := Run(rules, id, events), Run(rules, id, events + [AckRequested(id, userId, now)]);
            && IdsFresh(events + [AckRequested(id, userId, now)])
            && after.alert == Some(before.alert.value.(
                 status := ACKNOWLEDGED, acknowledgedAt := Some(now), acknowledgedBy := Some(userId)))
            && after.due == None
            && after.history == before.history + [ACKNOWLEDGED]
            && after.notified == before.notified && after.armed == before.armed
  {
    var longer := events + [AckRequested(id, userId, now)];
    assert longer[..|longer| - 1] == events;
    hide IdsFresh;
    FreshWithoutCreation(events, AckRequested(id, userId, now));
  }

  lemma FreshWithoutCreation(events: seq<Event>, e: Event)
    requires IdsFresh(events) && !e.Created?
    ensures IdsFresh(events + [e])
  {
    assert forall i :: 0 <= i < |events| ==> (events + [e])[i] == events[i];
  }

  /** Once somebody has acknowledged a created alert, no later call notifies or names a contact for it. */
  lemma NobodyNamedAfterAcknowledgement(
    rules: Rules, id: string, past: seq<Event>, userId: string, now: int, future: seq<Event>)
    requires CreatedIn(past, id) && IdsFresh(past + [AckRequested(id, userId, now)] + future)
    ensures var events := past + [AckRequested(id, userId, now)] + future;
            var slot := Run(rules, id, events);
            && slot.alert.Some? && slot.alert.value.status == ACKNOWLEDGED && slot.due == None
            && slot.notified == Run(rules, id, past).notified
            && ActionContacts(rules, id, events) == ActionContacts(rules, id, past)
  {
    var acked := past + [AckRequested(id, userId, now)];
    FreshPart(acked, future);
    FreshPart(past, [AckRequested(id, userId, now)]);
    AcknowledgedAfterAck(rules, id, past, userId, now);
    ActionsNameTheNotified(rules, id, past);
    ActionsNameTheNotified(rules, id, acked);
    hide Run, ActionContacts, IdsFresh, CreatedIn;
    AcknowledgedIsFinal(rules, id, acked, future);
  }

  lemma AcknowledgedAfterAck(rules: Rules, id: string, past: seq<Event>, userId: string, now: int)
    requires CreatedIn(past, id) && IdsFresh(past)
    ensures var slot := Run(rules, id, past + [AckRequested(id, userId, now)]);
            slot.alert.Some? && slot.alert.value.status == ACKNOWLEDGED
            && slot.notified == Run(rules, id, past).notified
  {
    var longer := past + [AckRequested(id, userId, now)];
    assert longer[..|longer| - 1] == past;
    ArmedAtCreation(rules, id, past);
    InvariantHolds(rules, id, past);
    hide IdsFresh, CreatedIn, ChainOf, RuleIntervalMs, LegalHistory;
    if Run(rules, id, past).alert.value.status != ACKNOWLEDGED {
      AcknowledgementApplies(rules, id, past, userId, now);
    }
  }

  /** A created alert is open, at level 0, unacknowledged, due one interval later, and nobody was notified. */
  lemma CreationStarts(rules: Rules, events: seq<Event>, e: Event)
    requires e.Created?
    ensures var slot := Run(rules, e.id, events + [e]);
            && slot.alert == Some(Alert(e.ruleId, e.severity, OPEN, 0, e.now, None, None))
            && slot.due == Some(e.now + (if e.intervalMin > 0 then e.intervalMin else 1) * 60_000)
            && slot.notified == [] && slot.history == [OPEN]
  {
    assert (events + [e])[..|events|] == events;
  }

  /** What a sweep does to an alert that is due: the next contact of the chain is notified and the alert moves up a
      level, still open and due an interval later while contacts remain, and escalated with the last of them; without
      contacts it is escalated at once. The action tells just that. */
  ghost predicate StepIsTold(rules: Rules, id: string, before: Slot, after: Slot, action: Option<EscalationAction>)
    requires before.alert.Some? && before.due.Some?
  {
    && after.alert.Some?
    && var a, b := before.alert.value, after.alert.value;
       var chain := if a.ruleId in rules then rules[a.ruleId].escalationChain else [];
       var contacts := if a.escalationLevel < |chain| then [chain[a.escalationLevel]] else [];
       && after.notified == before.notified + contacts
       && b == a.(escalationLevel := a.escalationLevel + |contacts|,
                  status := if a.escalationLevel + 1 < |chain| then OPEN else ESCALATED)
       && after.due == (if a.escalationLevel + 1 < |chain|
                        then Some(before.due.value + Minutes(rules, a.ruleId) * 60_000) else None)
       && action == Some(EscalationAction(
            id, a.escalationLevel, b.escalationLevel, if contacts == [] then None else Some(contacts[0]),
            b.status, after.due, contacts != [], b.status == ESCALATED))
  }

  lemma DueIsTold(rules: Rules, id: string, slot: Slot, now: int)
    requires AlertInvariant(rules, slot) && slot.due.Some? && slot.due.value <= now
    ensures slot.alert.Some?
    ensures StepIsTold(rules, id, slot, AfterTick(rules, slot, now), ActionFor(rules, id, slot, slot.due.value, now))
  {
    hide LegalHistory;
    assert slot.alert.value.status == OPEN;
    var chain := ChainOf(rules, slot.alert.value.ruleId);
    assert slot.notified + [] == slot.notified;
    hide AlertInvariant;
  }

  /** Over every run, a due sweep does just that to an alert, and returns the action that tells it. */
  lemma DueSweepIsToldExactly(rules: Rules, id: string, events: seq<Event>, now: int)
    requires IdsFresh(events)
    requires var slot := Run(rules, id, events); slot.due.Some? && slot.due.value <= now
    ensures var before, after := Run(rules, id, events), Run(rules, id, events + [Swept(now)]);
            before.alert.Some?
            && StepIsTold(rules, id, before, after, ActionFor(rules, id, before, before.due.value, now))
  {
    var longer := events + [Swept(now)];
    assert longer[..|longer| - 1] == events;
    InvariantHolds(rules, id, events);
    hide IdsFresh, AlertInvariant, StepIsTold, ActionFor, AfterTick;
    DueIsTold(rules, id, Run(rules, id, events), now);
    assert Run(rules, id, longer) == AfterTick(rules, Run(rules, id, events), now);
  }

  /** Calls about other alerts, and sweeps before the alert is due, leave it alone. */
  lemma OtherCallsDoNothing(rules: Rules, id: string, events: seq<Event>, e: Event)
    requires match e
             case Created(other, _, _, _, _) => other != id
             case AckRequested(other, _, _) => other != id
             case Swept(now) => var slot := Run(rules, id, events); slot.due.None? || now < slot.due.value
    ensures Run(rules, id, events + [e]) == Run(rules, id, events)
  {
    assert (events + [e])[..|events|] == events;
  }

  /** Acknowledging twice changes nothing more, whoever asks and whenever. */
  lemma AcknowledgeIsIdempotent(slot: Slot, user1: string, t1: int, user2: string, t2: int)
    ensures AfterAcknowledge(AfterAcknowledge(slot, user1, t1), user2, t2) == AfterAcknowledge(slot, user1, t1)
  {
  }

  // ----- how many sweeps it takes -----

  /** The sweeps of the run that found the alert due. */
  ghost function DueSweeps(rules: Rules, id: string, events: seq<Event>): nat {
    if events == [] then 0
    else
      var front, last := events[..|events| - 1], events[|events| - 1];
      var slot := Run(rules, id, front);
      DueSweeps(rules, id, front)
      + if last.Swept? && slot.due.Some? && slot.due.value <= last.now then 1 else 0
  }

  function SweepsNeeded(rules: Rules, a: Alert): nat {
    var n := |ChainOf(rules, a.ruleId)|;
    if n == 0 then 1 else n
  }

  lemma {:induction false} NoSweepsBeforeCreation(rules: Rules, id: string, events: seq<Event>)
    requires !CreatedIn(events, id)
    ensures DueSweeps(rules, id, events) == 0
  {
    if events != [] {
      var front := events[..|events| - 1];
      assert !CreatedIn(front, id);
      NoSweepsBeforeCreation(rules, id, front);
      NothingBeforeCreation(rules, id, front);
    }
  }

  /** Each due sweep climbs one level; an open alert still lacks some of the max(1, chain length) sweeps, and
      an escalated one has had exactly that many. */
  lemma {:induction false} SweepsToEscalate(rules: Rules, id: string, events: seq<Event>)
    requires IdsFresh(events) && Run(rules, id, events).alert.Some?
    ensures var a := Run(rules, id, events).alert.value;
            var sweeps, needed := DueSweeps(rules, id, events), SweepsNeeded(rules, a);
            && sweeps <= needed
            && (a.status == OPEN ==> sweeps < needed)
            && (a.status == ESCALATED ==> sweeps == needed)
            && (|ChainOf(rules, a.ruleId)| > 0 ==> a.escalationLevel == sweeps)
  {
    var front, last := events[..|events| - 1], events[|events| - 1];
    FreshPrefix(events, id);
    InvariantHolds(rules, id, front);
    if last.Created? && last.id == id {
      NoSweepsBeforeCreation(rules, id, front);
    } else {
      SweepsToEscalate(rules, id, front);
    }
  }

  ghost predicate NeverAcknowledged(events: seq<Event>, id: string) {
    forall i :: 0 <= i < |events| ==> !(events[i].AckRequested? && events[i].id == id)
  }

  lemma {:induction false} UnacknowledgedStatus(rules: Rules, id: string, events: seq<Event>)
    requires IdsFresh(events) && NeverAcknowledged(events, id) && Run(rules, id, events).alert.Some?
    ensures Run(rules, id, events).alert.value.status in {OPEN, ESCALATED}
  {
    var front, last := events[..|events| - 1], events[|events| - 1];
    FreshPrefix(events, id);
    InvariantHolds(rules, id, front);
    if !(last.Created? && last.id == id) {
      assert NeverAcknowledged(front, id);
      UnacknowledgedStatus(rules, id, front);
    }
  }

  /** An alert nobody acknowledges is escalated exactly when max(1, chain length) sweeps have found it due;
      by then its whole chain has been notified, in order. */
  lemma EscalatesAfterExactly(rules: Rules, id: string, events: seq<Event>)
    requires IdsFresh(events) && NeverAcknowledged(events, id) && Run(rules, id, events).alert.Some?
    ensures var slot := Run(rules, id, events);
            var a := slot.alert.value;
            && (a.status == ESCALATED <==> DueSweeps(rules, id, events) == SweepsNeeded(rules, a))
            && (a.status == ESCALATED ==> slot.notified == ChainOf(rules, a.ruleId))
  {
    SweepsToEscalate(rules, id, events);
    UnacknowledgedStatus(rules, id, events);
    InvariantHolds(rules, id, events);
  }

  /** A sweep that finds an open alert due either reschedules it strictly later, or ends its escalation. */
  lemma DueSweepMakesProgress(rules: Rules, id: string, events: seq<Event>, now: int)
    requires IdsFresh(events)
    requires var slot := Run(rules, id, events); slot.due.Some? && slot.due.value <= now
    ensures var before := Run(rules, id, events);
            var after := Run(rules, id, events + [Swept(now)]);
            && before.alert.Some? && after.alert.Some?
            && (after.due.Some? ==> after.due.value > before.due.value
                                    && after.alert.value.escalationLevel == before.alert.value.escalationLevel + 1)
            && (after.due.None? ==> after.alert.value.status == ESCALATED)
  {
    var longer := events + [Swept(now)];
    assert longer[..|longer| - 1] == events;
    InvariantHolds(rules, id, events);
  }

  // ----- the two outcomes -----

  /** A critical alert under a rule with one contact and a five minute interval. */
  const RULE := Rule(["ops"], 5)
  const RAISED := Created("a", "r", Critical, 5, 0)

  /** Left alone, it is escalated by the sweep that finds it due; its contact has been notified. */
  lemma LeftAloneItEscalates()
    ensures var events := [RAISED, Swept(1000), Swept(300_000)];
            var slot := Run(map["r" := RULE], "a", events);
            && IdsFresh(events) && NeverAcknowledged(events, "a") && RuleIntervals(map["r" := RULE], events)
            && slot.alert.Some? && slot.alert.value.status == ESCALATED && slot.notified == ["ops"]
  {
    var rules := map["r" := RULE];
    var e1, e2, e3 := [RAISED], [RAISED, Swept(1000)], [RAISED, Swept(1000), Swept(300_000)];
    assert e3[..2] == e2 && e2[..1] == e1 && e1[..0] == [];
    assert Run(rules, "a", e1).due == Some(300_000);
    assert Run(rules, "a", e2) == Run(rules, "a", e1);
  }
}
