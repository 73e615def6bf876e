/** One critical section of the relay: `process_event` and `process_beszel`. */
module RelaySections {
  import opened Options
  import opened RelayModel
  import opened RelayBounds
  import opened RelayHealth
  import opened RelayDedupe

  const GOLEM := "Golem"
  const GOLEM_FORMER_NAME := "golem"

  /** What a section does once it has read the store: nothing, refuse because the state cannot
      be bounded, or send, raise the floor and persist. */
  datatype Plan =
    | Dropped
    | Refused
    | Act(sent: Sent, charged: Budget, entries: map<Identity, Entry>, evicted: set<Identity>, replace: bool)

  function Subject(d: Delivery): Option<Identity> { if d.Host? then None else Some(IdentityOf(d.event)) }

  /** The rule a delivery is charged under; a host alert has none and no container allowance. */
  function RuleOf(d: Delivery): Rule { if d.Host? then UnexpectedExit else d.event.rule }

  /** One host was renamed: an entry filed under its old name moves to the new one, unless one is there. */
  function Adopted(entries: map<Identity, Entry>, d: Delivery): (map<Identity, Entry>, bool) {
    if d.Host? || d.event.host != GOLEM then (entries, false)
    else
      var id, former := IdentityOf(d.event), GOLEM_FORMER_NAME + "\0" + d.event.containerId;
      if former in entries && id !in entries then ((entries - {former})[id := entries[former]], true)
      else (entries, false)
  }

  /** Whether a delivery asks to be published, and the health entries it leaves; None drops it. */
  function Transitioned(entries: map<Identity, Entry>, d: Delivery): (Option<bool>, map<Identity, Entry>) {
    if d.Host? || d.event.rule == OOM || d.event.rule == UnexpectedExit then (Some(true), entries)
    else
      var id := IdentityOf(d.event);
      var t := Transition(EntryAt(entries, id), Reported(d.event.rule, d.event.stamp));
      (t.0, if t.1.Some? then entries[id := t.1.value] else entries)
  }

  /** The budget a section charges: today's, never below the floor. */
  function Opening(floor: Option<Budget>, stored: Stored, now: Moment): Budget {
    Raised(floor, Rolled(stored.budget, now))
  }

  /** What is charged before the document is bounded. */
  function Decided(c: Ceilings, floor: Option<Budget>, stored: Stored, d: Delivery, now: Moment): (Sent, Budget) {
    var opening := Opening(floor, stored, now);
    if Transitioned(Adopted(stored.entries, d).0, d).0 == Some(true) then Charged(opening, Subject(d), RuleOf(d), c)
    else (Nothing, opening)
  }

  ghost function Planned(c: Ceilings, floor: Option<Budget>, stored: Stored, d: Delivery, now: Moment): Plan {
    var (entries, moved) := Adopted(stored.entries, d);
    var (publish, proposed) := Transitioned(entries, d);
    if publish.None? then Dropped
    else
      var (sent, charged) := Decided(c, floor, stored, d, now);
      var kept := Bounded(proposed, charged, now);
      if kept.None? then Refused
      else
        var settled := charged.(containers := kept.value.counters);
        Act(sent, settled, kept.value.entries, charged.containers.Keys - kept.value.counters.Keys,
            stored.migrate || moved || kept.value.entries != entries || stored.budget != Some(settled))
  }

  lemma AllCorrected(f: Budget, b: Budget, containers: map<Identity, Counter>)
    requires f.day == b.day && containers.Keys == b.containers.Keys + f.containers.Keys
    requires forall id :: id in containers ==>
               containers[id] == if id in f.containers then
                                   Counter(Max(CounterAt(b, id).count, CounterAt(f, id).count),
                                           CounterAt(b, id).notified || CounterAt(f, id).notified)
                                 else CounterAt(b, id)
    ensures containers == Raised(Some(f), b).containers
  {
  }

  /** The process's own memory of the day's budget, for when the store forgets. */
  class BudgetFloor {
    var budget: Option<Budget>

    constructor ()
      ensures budget == None
    {
      budget := None;
    }

    method RaiseFloor(b: Budget) returns (r: Budget)
      ensures r == Raised(budget, b)
    {
      if budget.None? || budget.value.day != b.day {
        return b;
      }
      var floor := budget.value;
      var containers := b.containers;
      var rest := floor.containers.Keys;
      while rest != {}
        invariant rest <= floor.containers.Keys
        invariant containers.Keys == b.containers.Keys + (floor.containers.Keys - rest)
        invariant forall id :: id in containers ==>
          containers[id] == if id in floor.containers && id !in rest then
                              Counter(Max(CounterAt(b, id).count, CounterAt(floor, id).count),
                                      CounterAt(b, id).notified || CounterAt(floor, id).notified)
                            else CounterAt(b, id)
      {
        var id :| id in rest;
        var entry := floor.containers[id];
        if id in containers {
          containers := containers[id := Counter(Max(entry.count, containers[id].count),
                                                 entry.notified || containers[id].notified)];
        } else {
          containers := containers[id := entry];
        }
        rest := rest - {id};
      }
      r := Budget(b.day, Max(b.count, floor.count), b.notified || floor.notified, containers);
      AllCorrected(floor, b, containers);
    }

    /** From here on no budget of that day is corrected to less than this one, nor than it was. */
    method Record(b: Budget)
      modifies this
      ensures budget == Some(b)
      ensures forall later: Budget :: later.day == b.day ==>
                Below(b, Raised(budget, later)) && Below(later, Raised(budget, later))
      ensures forall later: Budget :: later.day != b.day ==> Raised(budget, later) == later
    {
      forall later: Budget | later.day == b.day ensures Below(b, Raised(Some(b), later)) &&
          Below(later, Raised(Some(b), later)) {
        RaisedIsLeastUpperBound(b, later, later);
      }
      budget := Some(b);
    }
  }

  datatype Outcome = Acknowledged | StateUnavailable | UpstreamUnavailable

  datatype Result = Result(outcome: Outcome, sent: Sent, floor: Option<Budget>, written: Option<Stored>)

  /** What carrying a plan out leaves: publish, then raise the floor, then persist; a failed
      publish charges nothing, a failed write loses only the write. */
  function CarriedOut(plan: Plan, floor: Option<Budget>, publishes: bool, persists: bool): Result {
    match plan
    case Dropped => Result(Acknowledged, Nothing, floor, None)
    case Refused => Result(StateUnavailable, Nothing, floor, None)
    case Act(sent, charged, entries, _, replace) =>
      if sent != Nothing && !publishes then Result(UpstreamUnavailable, Nothing, floor, None)
      else if replace && !persists then Result(StateUnavailable, sent, Some(charged), None)
      else Result(Acknowledged, sent, Some(charged),
                  if replace then Some(Stored(entries, Some(charged), false)) else None)
  }

  lemma SameAt(a: map<Identity, Entry>, b: map<Identity, Entry>, id: Identity)
    requires a - {id} == b - {id} && EntryAt(a, id) == EntryAt(b, id)
    ensures a == b
  {
    forall x ensures x in a <==> x in b {
      if x != id { assert x in a <==> x in a - {id}; assert x in b <==> x in b - {id}; }
    }
    forall x | x in a ensures a[x] == b[x] {
      if x != id { assert a[x] == (a - {id})[x] && b[x] == (b - {id})[x]; }
    }
  }

  /** Everything a section computes before it has an effect. */
  method MakePlan(c: Ceilings, floor: BudgetFloor, stored: Stored, d: Delivery, now: Moment) returns (plan: Plan)
    ensures plan == Planned(c, floor.budget, stored, d, now)
  {
    var (entries, moved) := Adopted(stored.entries, d);
    var budget := floor.RaiseFloor(Rolled(stored.budget, now));
    var proposed := entries;
    var publish := true;
    if d.Container? && (d.event.rule == BecameUnhealthy || d.event.rule == Recovered) {
      var transition;
      transition, proposed := HealthTransition(d.event.rule, d.event.stamp, IdentityOf(d.event), entries, proposed);
      SameAt(proposed, Transitioned(entries, d).1, IdentityOf(d.event));
      if transition.None? {
        return Dropped;
      }
      publish := transition.value;
    }
    var decision := if publish then Charged(budget, Subject(d), RuleOf(d), c) else (Nothing, budget);
    assert decision == Decided(c, floor.budget, stored, d, now);
    var kept := BoundedState(proposed, decision.1, now);
    if kept.None? {
      return Refused;
    }
    var charged := decision.1.(containers := kept.value.counters);
    plan := Act(decision.0, charged, kept.value.entries, decision.1.containers.Keys - kept.value.counters.Keys,
                stored.migrate || moved || kept.value.entries != entries || stored.budget != Some(charged));
  }

  /** `process_event` past the lock, with the store's answer and the fate of the publish and the
      write as given. `delivered` learns of the event only once it went out. */
  method ProcessEvent(c: Ceilings, event: Event, now: Moment, floor: BudgetFloor, delivered: DeliveredEvents,
                      stored: Stored, publishes: bool, persists: bool)
    returns (outcome: Outcome, sent: Sent, written: Option<Stored>)
    modifies floor, delivered
    ensures var p := Pruned(old(delivered.published), now.nanos, delivered.window);
            var plan := if Remembers(p, event) then Dropped
            else Planned(c, old(floor.budget), stored, Container(event), now);
            && Result(outcome, sent, floor.budget, written) == CarriedOut(plan, old(floor.budget), publishes, persists)
            && delivered.published == if sent == Nothing then p
                 else WithSending(p, event, now.nanos, delivered.capacity)
  {
    sent, written, outcome := Nothing, None, Acknowledged;
    var repeated := delivered.Seen(event, now.nanos);
    if repeated { return; }
    var plan := MakePlan(c, floor, stored, Container(event), now);
    match plan {
      case Dropped =>
      case Refused => outcome := StateUnavailable;
      case Act(notification, charged, entries, _, replace) =>
        if notification != Nothing {
          if !publishes { return UpstreamUnavailable, sent, written; }
          sent := notification;
          delivered.Record(event, now.nanos);
        }
        floor.Record(charged);
        if replace {
          if !persists { return StateUnavailable, sent, written; }
          written := Some(Stored(entries, Some(charged), false));
        }
    }
  }

  /** `process_beszel`: the same order and lock, no repeat check and no health register. */
  method ProcessBeszel(c: Ceilings, now: Moment, floor: BudgetFloor, stored: Stored, publishes: bool, persists: bool)
    returns (outcome: Outcome, sent: Sent, written: Option<Stored>)
    modifies floor
    ensures Result(outcome, sent, floor.budget, written) ==
              CarriedOut(Planned(c, old(floor.budget), stored, Host, now), old(floor.budget), publishes, persists)
  {
    sent, written, outcome := Nothing, None, Acknowledged;
    var plan := MakePlan(c, floor, stored, Host, now);
    match plan {
      case Dropped =>
      case Refused => outcome := StateUnavailable;
      case Act(notification, charged, entries, _, replace) =>
        if notification != Nothing {
          if !publishes { return UpstreamUnavailable, sent, written; }
          sent := notification;
        }
        floor.Record(charged);
        if replace {
          if !persists { return StateUnavailable, sent, written; }
          written := Some(Stored(entries, Some(charged), false));
        }
    }
  }
}
