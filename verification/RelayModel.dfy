/** The alert relay's values: health entries, the day's budget, the events and
    alerts that arrive, and what one critical section decides to do. */
module RelayModel {
  import opened Options

  /** A host and a container id, joined by one NUL character. */
  type Identity = string

  datatype Health = Healthy | Unhealthy

  /** An event timestamp: its instant in nanoseconds since 0001-01-01 and the number
      of fraction digits it was written with. */
  datatype Stamp = Stamp(instant: nat, digits: nat)

  datatype Entry = Entry(state: Health, stamp: Stamp)

  datatype Counter = Counter(count: nat, notified: bool)

  datatype Budget = Budget(day: string, count: nat, notified: bool, containers: map<Identity, Counter>)

  /** One reading of the clock: nanoseconds and the UTC date it names. */
  datatype Moment = Moment(nanos: int, day: string)

  datatype Rule = OOM | UnexpectedExit | BecameUnhealthy | Recovered

  datatype Event = Event(rule: Rule, host: string, containerId: string, stamp: Stamp)

  /** What arrives at the relay: a container event, or a host alert that names no container. */
  datatype Delivery = Container(event: Event) | Host

  datatype Ceilings = Ceilings(container: nat, oom: nat, total: nat)
  {
    /** Enforced at start-up. */
    predicate Valid() { 1 <= container <= oom <= total }

    function For(rule: Rule): nat { if rule == OOM then oom else container }
  }

  /** What a read of the store yields: entries, the stored budget if there is one, and
      whether an older schema has to be rewritten. */
  datatype Stored = Stored(entries: map<Identity, Entry>, budget: Option<Budget>, migrate: bool)

  /** What went out, if anything. */
  datatype Sent = Nothing | Alert | TotalNotice | ContainerNotice

  function IdentityOf(event: Event): Identity { event.host + "\0" + event.containerId }

  function EmptyBudget(day: string): Budget { Budget(day, 0, false, map[]) }

  /** `rolled_budget`: the stored budget if it is of this day, an empty one otherwise. */
  function Rolled(budget: Option<Budget>, now: Moment): Budget {
    if budget.None? || budget.value.day != now.day then EmptyBudget(now.day) else budget.value
  }

  /** What a budget says of a day. */
  function CountOn(b: Option<Budget>, day: string): nat { if b.Some? && b.value.day == day then b.value.count else 0 }

  predicate ToldOn(b: Option<Budget>, day: string) { b.Some? && b.value.day == day && b.value.notified }

  function CounterAt(b: Budget, id: Identity): Counter {
    if id in b.containers then b.containers[id] else Counter(0, false)
  }

  function Max(a: nat, b: nat): nat { if a < b then b else a }

  /** `BudgetFloor.raise_floor` on values. */
  function Raised(floor: Option<Budget>, b: Budget): Budget {
    if floor.None? || floor.value.day != b.day then b
    else
      var f := floor.value;
      Budget(b.day, Max(b.count, f.count), b.notified || f.notified,
             map id | id in b.containers.Keys + f.containers.Keys ::
               Counter(Max(CounterAt(b, id).count, CounterAt(f, id).count),
                       CounterAt(b, id).notified || CounterAt(f, id).notified))
  }

  /** Never higher than `b`, on the same day. */
  ghost predicate Below(a: Budget, b: Budget) {
    && a.day == b.day && a.count <= b.count && (a.notified ==> b.notified)
    && a.containers.Keys <= b.containers.Keys
    && forall id :: id in a.containers ==>
         a.containers[id].count <= b.containers[id].count && (a.containers[id].notified ==> b.containers[id].notified)
  }

  /** Correcting a budget by the floor yields the least budget above both. */
  lemma RaisedIsLeastUpperBound(f: Budget, b: Budget, u: Budget)
    requires f.day == b.day
    ensures Below(b, Raised(Some(f), b)) && Below(f, Raised(Some(f), b))
    ensures Below(b, u) && Below(f, u) ==> Below(Raised(Some(f), b), u)
  {
    var r := Raised(Some(f), b);
    assert r.containers.Keys == b.containers.Keys + f.containers.Keys;
  }

  /** `charge_budget`: what the remaining allowance lets this delivery be, and the budget
      that results. Global backstop first, then the container's allowance. */
  function Charged(b: Budget, id: Option<Identity>, rule: Rule, c: Ceilings): (Sent, Budget) {
    if b.count >= c.total then
      if b.notified then (Nothing, b) else (TotalNotice, b.(notified := true))
    else if id.None? then (Alert, b.(count := b.count + 1))
    else
      var k := CounterAt(b, id.value);
      if k.count >= c.For(rule) then
        if k.notified then (Nothing, b)
        else (ContainerNotice, b.(containers := b.containers[id.value := k.(notified := true)]))
      else
        (Alert, b.(count := b.count + 1,
                   containers := b.containers[id.value := k.(count := k.count + 1)]))
  }
}
