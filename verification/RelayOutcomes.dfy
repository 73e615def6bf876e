/** What a section sends, charges and stores, read off the delivery, the store and the floor. */
module RelayOutcomes {
  import opened Options
  import opened RelayModel
  import opened RelayBounds
  import opened RelayHealth
  import opened RelaySections

  /* ----- what is known on the day ----- */

  function ShareOn(b: Option<Budget>, day: string, id: Identity): Counter {
    if b.Some? && b.value.day == day && id in b.value.containers then b.value.containers[id] else Counter(0, false)
  }

  /** What went out today, by whichever of the floor and the store says more. */
  function Spent(floor: Option<Budget>, stored: Stored, day: string): nat {
    Max(CountOn(floor, day), CountOn(stored.budget, day))
  }

  predicate Told(floor: Option<Budget>, stored: Stored, day: string) {
    ToldOn(floor, day) || ToldOn(stored.budget, day)
  }

  function SpentBy(floor: Option<Budget>, stored: Stored, day: string, id: Identity): nat {
    Max(ShareOn(floor, day, id).count, ShareOn(stored.budget, day, id).count)
  }

  predicate ToldOf(floor: Option<Budget>, stored: Stored, day: string, id: Identity) {
    ShareOn(floor, day, id).notified || ShareOn(stored.budget, day, id).notified
  }

  /* ----- what a delivery asks for ----- */

  /** The recorded state of the container the event names, under its own name or, on the renamed host,
      the former one. */
  function Recorded(entries: map<Identity, Entry>, e: Event): Option<Entry> {
    var former := "golem\0" + e.containerId;
    if IdentityOf(e) in entries then Some(entries[IdentityOf(e)])
    else if e.host == "Golem" && former in entries then Some(entries[former])
    else None
  }

  /** A recovery over an unhealthy state it outranks; an unhealthy event nothing recorded outranks; and
      every out-of-memory kill, unexpected exit and host alert. */
  predicate Asks(entries: map<Identity, Entry>, d: Delivery) {
    if d.Host? then true
    else
      var known := Recorded(entries, d.event);
      match d.event.rule
      case OOM => true
      case UnexpectedExit => true
      case BecameUnhealthy => known.None? || known.value.stamp.instant < d.event.stamp.instant ||
                              (known.value.stamp.instant == d.event.stamp.instant && known.value.state.Unhealthy?)
      case Recovered =>
        known.Some? && known.value.state.Unhealthy? && known.value.stamp.instant <= d.event.stamp.instant
  }

  /** A health event that says nothing new: older than what is recorded, or as old as a recorded recovery. */
  predicate Stale(entries: map<Identity, Entry>, d: Delivery) {
    d.Container? && (d.event.rule == BecameUnhealthy || d.event.rule == Recovered) &&
    var known := Recorded(entries, d.event);
    known.Some? && (d.event.stamp.instant < known.value.stamp.instant ||
                    (d.event.stamp.instant == known.value.stamp.instant && known.value.state.Healthy?))
  }

  function CeilingFor(c: Ceilings, rule: Rule): nat { match rule case OOM => c.oom case _ => c.container }

  /** What the day's allowances make of a delivery: the global ceiling first, then the container's, and
      in place of the first delivery past either, one notice. */
  function Allowed(c: Ceilings, floor: Option<Budget>, stored: Stored, d: Delivery, day: string): Sent {
    if Spent(floor, stored, day) >= c.total then (if Told(floor, stored, day) then Nothing else TotalNotice)
    else if d.Host? then Alert
    else
      var id := IdentityOf(d.event);
      if SpentBy(floor, stored, day, id) < CeilingFor(c, d.event.rule) then Alert
      else if ToldOf(floor, stored, day, id) then Nothing
      else ContainerNotice
  }

  /* ----- the plan ----- */

  lemma OpeningSays(floor: Option<Budget>, stored: Stored, now: Moment)
    ensures var b := Opening(floor, stored, now);
            && b.day == now.day && b.count == Spent(floor, stored, now.day)
            && (b.notified <==> Told(floor, stored, now.day))
  {
  }

  lemma OpeningSaysOf(floor: Option<Budget>, stored: Stored, now: Moment, id: Identity)
    ensures var k := CounterAt(Opening(floor, stored, now), id);
            k == Counter(SpentBy(floor, stored, now.day, id), ToldOf(floor, stored, now.day, id))
  {
  }

  lemma AsksIs(entries: map<Identity, Entry>, d: Delivery)
    ensures var t := Transitioned(Adopted(entries, d).0, d).0;
            (t == Some(true) <==> Asks(entries, d)) && (t == None <==> Stale(entries, d))
  {
    assert GOLEM_FORMER_NAME + "\0" == "golem\0";
    if d.Container? {
      RecordedIs(entries, d.event);
    }
  }

  lemma RecordedIs(entries: map<Identity, Entry>, e: Event)
    ensures EntryAt(Adopted(entries, Container(e)).0, IdentityOf(e)) == Recorded(entries, e)
  {
    assert GOLEM_FORMER_NAME + "\0" == "golem\0";
  }

  lemma DecidedIs(c: Ceilings, floor: Option<Budget>, stored: Stored, d: Delivery, now: Moment)
    ensures Decided(c, floor, stored, d, now).0 ==
              if Asks(stored.entries, d) then Allowed(c, floor, stored, d, now.day) else Nothing
  {
    AsksIs(stored.entries, d);
    OpeningSays(floor, stored, now);
    if d.Container? { OpeningSaysOf(floor, stored, now, IdentityOf(d.event)); }
  }

  /** What a section sends, for every delivery, store, floor and clock. */
  lemma SentExactly(c: Ceilings, floor: Option<Budget>, stored: Stored, d: Delivery, now: Moment)
    ensures var plan := Planned(c, floor, stored, d, now);
            && (plan.Dropped? <==> Stale(stored.entries, d))
            && (plan.Act? ==> plan.sent == if Asks(stored.entries, d) then Allowed(c, floor, stored, d, now.day)
                 else Nothing)
  {
    AsksIs(stored.entries, d);
    DecidedIs(c, floor, stored, d, now);
  }

  /* ----- what is charged ----- */

  /** The delivery names this container. */
  predicate Names(d: Delivery, id: Identity) { d.Container? && IdentityOf(d.event) == id }

  /** What a container's counter is after the section. */
  function CounterAfter(floor: Option<Budget>, stored: Stored, d: Delivery, day: string, sent: Sent,
                        id: Identity): Counter {
    Counter(SpentBy(floor, stored, day, id) + (if sent == Alert && Names(d, id) then 1 else 0),
            ToldOf(floor, stored, day, id) || (sent == ContainerNotice && Names(d, id)))
  }

  predicate Listed(b: Option<Budget>, day: string, id: Identity) {
    b.Some? && b.value.day == day && id in b.value.containers
  }

  /** Whether a container has a counter at all. */
  predicate Counted(floor: Option<Budget>, stored: Stored, d: Delivery, day: string, sent: Sent, id: Identity) {
    Listed(floor, day, id) || Listed(stored.budget, day, id) ||
        (Names(d, id) && (sent == Alert || sent == ContainerNotice))
  }

  lemma DecidedCharges(c: Ceilings, floor: Option<Budget>, stored: Stored, d: Delivery, now: Moment)
    ensures var (sent, b) := Decided(c, floor, stored, d, now);
            && b.day == now.day
            && b.count == Spent(floor, stored, now.day) + (if sent == Alert then 1 else 0)
            && (b.notified <==> Told(floor, stored, now.day) || sent == TotalNotice)
  {
    OpeningSays(floor, stored, now);
  }

  lemma OpeningLists(floor: Option<Budget>, stored: Stored, now: Moment, id: Identity)
    ensures id in Opening(floor, stored, now).containers <==>
              Listed(floor, now.day, id) || Listed(stored.budget, now.day, id)
  {
  }

  lemma ChargeCounts(b: Budget, d: Delivery, c: Ceilings, id: Identity)
    ensures var (sent, next) := Charged(b, Subject(d), RuleOf(d), c);
            && (id in next.containers <==>
                  id in b.containers || (Names(d, id) && (sent == Alert || sent == ContainerNotice)))
            && CounterAt(next, id) ==
                 Counter(CounterAt(b, id).count + (if sent == Alert && Names(d, id) then 1 else 0),
                         CounterAt(b, id).notified || (sent == ContainerNotice && Names(d, id)))
  {
  }

  lemma DecidedCounts(c: Ceilings, floor: Option<Budget>, stored: Stored, d: Delivery, now: Moment, id: Identity)
    ensures var (sent, b) := Decided(c, floor, stored, d, now);
            && (id in b.containers <==> Counted(floor, stored, d, now.day, sent, id))
            && (id in b.containers ==> b.containers[id] == CounterAfter(floor, stored, d, now.day, sent, id))
  {
    OpeningSaysOf(floor, stored, now, id);
    OpeningLists(floor, stored, now, id);
    ChargeCounts(Opening(floor, stored, now), d, c, id);
  }

  /** What a section charges, and to whom; a counter goes only to make room, and is named as gone. */
  lemma ChargedExactly(c: Ceilings, floor: Option<Budget>, stored: Stored, d: Delivery, now: Moment, id: Identity)
    requires Planned(c, floor, stored, d, now).Act?
    ensures var plan := Planned(c, floor, stored, d, now); var b := plan.charged;
            && b.day == now.day
            && b.count == Spent(floor, stored, now.day) + (if plan.sent == Alert then 1 else 0)
            && (b.notified <==> Told(floor, stored, now.day) || plan.sent == TotalNotice)
            && (id in b.containers || id in plan.evicted <==> Counted(floor, stored, d, now.day, plan.sent, id))
            && !(id in b.containers && id in plan.evicted)
            && (id in b.containers ==> b.containers[id] == CounterAfter(floor, stored, d, now.day, plan.sent, id))
  {
    DecidedCharges(c, floor, stored, d, now);
    DecidedCounts(c, floor, stored, d, now, id);
    CountersKept(c, floor, stored, d, now);
  }

  lemma CountersKept(c: Ceilings, floor: Option<Budget>, stored: Stored, d: Delivery, now: Moment)
    requires Planned(c, floor, stored, d, now).Act?
    ensures var plan, decided := Planned(c, floor, stored, d, now), Decided(c, floor, stored, d, now);
            && plan.sent == decided.0 && plan.charged == decided.1.(containers := plan.charged.containers)
            && SubMap(plan.charged.containers, decided.1.containers)
            && plan.evicted == decided.1.containers.Keys - plan.charged.containers.Keys
  {
  }

  /* ----- what is stored ----- */

  /** The entry a container event leaves for its container. */
  function Left(known: Option<Entry>, e: Event): Option<Entry> {
    if e.rule == OOM || e.rule == UnexpectedExit then known
    else
      var said := Entry(if e.rule == BecameUnhealthy then Unhealthy else Healthy, e.stamp);
      if known.None? || known.value.stamp.instant < e.stamp.instant ||
         (known.value.stamp.instant == e.stamp.instant && e.rule == Recovered && known.value.state.Unhealthy?)
      then Some(said) else known
  }

  /** The register an event leaves: its container's entry under its own name, and no longer under a
      former one it was found by; every other entry as it was. */
  ghost predicate Leaves(entries: map<Identity, Entry>, e: Event, next: map<Identity, Entry>) {
    var id, former := IdentityOf(e), "golem\0" + e.containerId;
    && Get(next, id) == Left(Recorded(entries, e), e)
    && (e.host == "Golem" && former != id ==> Get(next, former) == if id in entries then Get(entries, former) else None)
    && forall x :: x != id && !(e.host == "Golem" && x == former) ==> Get(next, x) == Get(entries, x)
  }

  lemma TransitionLeaves(entries: map<Identity, Entry>, e: Event)
    requires Transitioned(Adopted(entries, Container(e)).0, Container(e)).0.Some?
    ensures Leaves(entries, e, Transitioned(Adopted(entries, Container(e)).0, Container(e)).1)
  {
    assert GOLEM_FORMER_NAME + "\0" == "golem\0";
    RecordedIs(entries, e);
  }

  lemma PlanBounds(c: Ceilings, floor: Option<Budget>, stored: Stored, d: Delivery, now: Moment)
    requires Planned(c, floor, stored, d, now).Act?
    ensures var plan := Planned(c, floor, stored, d, now);
            Bounded(Transitioned(Adopted(stored.entries, d).0, d).1, Decided(c, floor, stored, d, now).1, now) ==
            Some(Kept(plan.entries, plan.charged.containers))
    ensures Transitioned(Adopted(stored.entries, d).0, d).0.Some?
  {
  }

  lemma KeysKept(decided: Budget, charged: Budget, evicted: set<Identity>)
    requires SubMap(charged.containers, decided.containers)
    requires evicted == decided.containers.Keys - charged.containers.Keys
    ensures decided.containers.Keys == charged.containers.Keys + evicted
  {
  }

  /** The budget a section would charge, before anything is shed. */
  ghost predicate Charges(c: Ceilings, floor: Option<Budget>, stored: Stored, d: Delivery, day: string, b: Budget) {
    var sent := if Asks(stored.entries, d) then Allowed(c, floor, stored, d, day) else Nothing;
    && b.day == day
    && b.count == Spent(floor, stored, day) + (if sent == Alert then 1 else 0)
    && (b.notified <==> Told(floor, stored, day) || sent == TotalNotice)
    && (forall id :: id in b.containers <==> Counted(floor, stored, d, day, sent, id))
    && forall id :: id in b.containers ==> b.containers[id] == CounterAfter(floor, stored, d, day, sent, id)
  }

  lemma DecidedIsCharged(c: Ceilings, floor: Option<Budget>, stored: Stored, d: Delivery, now: Moment)
    ensures Charges(c, floor, stored, d, now.day, Decided(c, floor, stored, d, now).1)
  {
    DecidedIs(c, floor, stored, d, now);
    DecidedCharges(c, floor, stored, d, now);
    var (sent, b) := Decided(c, floor, stored, d, now);
    forall id ensures id in b.containers <==> Counted(floor, stored, d, now.day, sent, id) {
      DecidedCounts(c, floor, stored, d, now, id);
    }
    forall id | id in b.containers ensures b.containers[id] == CounterAfter(floor, stored, d, now.day, sent, id) {
      DecidedCounts(c, floor, stored, d, now, id);
    }
  }

  /** A section that is not dropped acts exactly when the unhealthy entries it leaves fit beside the
      charged totals; otherwise it is refused. */
  lemma ActsExactlyWhen(c: Ceilings, floor: Option<Budget>, stored: Stored, d: Delivery, now: Moment)
    returns (next: map<Identity, Entry>, b: Budget)
    requires !Stale(stored.entries, d)
    ensures if d.Host? then next == stored.entries else Leaves(stored.entries, d.event, next)
    ensures Charges(c, floor, stored, d, now.day, b)
    ensures var plan := Planned(c, floor, stored, d, now);
            (plan.Act? <==> Fits(b, Core(next))) && (plan.Refused? <==> !Fits(b, Core(next)))
  {
    next := Transitioned(Adopted(stored.entries, d).0, d).1;
    b := Decided(c, floor, stored, d, now).1;
    AsksIs(stored.entries, d);
    DecidedIsCharged(c, floor, stored, d, now);
    RefusedExactly(next, b, now);
    if d.Container? { TransitionLeaves(stored.entries, d.event); }
  }

  /** The state a section stores is the register the delivery leaves and the charged budget, bounded. */
  lemma StoredExactly(c: Ceilings, floor: Option<Budget>, stored: Stored, d: Delivery, now: Moment)
    returns (next: map<Identity, Entry>, b: Budget)
    requires Planned(c, floor, stored, d, now).Act?
    ensures if d.Host? then next == stored.entries else Leaves(stored.entries, d.event, next)
    ensures var plan := Planned(c, floor, stored, d, now);
            && plan.charged == b.(containers := plan.charged.containers)
            && b.containers.Keys == plan.charged.containers.Keys + plan.evicted
            && Bounded(next, b, now) == Some(Kept(plan.entries, plan.charged.containers))
  {
    next := Transitioned(Adopted(stored.entries, d).0, d).1;
    b := Decided(c, floor, stored, d, now).1;
    CountersKept(c, floor, stored, d, now);
    PlanBounds(c, floor, stored, d, now);
    var plan := Planned(c, floor, stored, d, now);
    KeysKept(b, plan.charged, plan.evicted);
    if d.Container? { TransitionLeaves(stored.entries, d.event); }
  }

  /** The store is rewritten exactly when it does not hold that state already. */
  lemma ReplacesExactly(c: Ceilings, floor: Option<Budget>, stored: Stored, d: Delivery, now: Moment)
    requires Planned(c, floor, stored, d, now).Act?
    ensures var plan := Planned(c, floor, stored, d, now);
            plan.replace <==> stored != Stored(plan.entries, Some(plan.charged), false)
  {
    var plan := Planned(c, floor, stored, d, now);
    if Adopted(stored.entries, d).1 {
      var former := GOLEM_FORMER_NAME + "\0" + d.event.containerId;
      assert former != IdentityOf(d.event) by { assert former[0] != IdentityOf(d.event)[0]; }
      assert former in stored.entries && former !in plan.entries;
    }
  }

  /* ----- how a delivery is answered ----- */

  /** Everything the plan asks for was done. */
  predicate Done(plan: Plan, r: Result) {
    match plan
    case Dropped => true
    case Refused => false
    case Act(sent, charged, entries, _, replace) =>
      && r.sent == sent && r.floor == Some(charged)
      && (replace ==> r.written == Some(Stored(entries, Some(charged), false)))
  }

  /** A delivery is acknowledged exactly when nothing is left to do: a publish that failed is answered
      as the service's failure and charges nothing, a state that cannot be bounded or written as the
      store's, the second after the message went out. */
  lemma AcknowledgedExactly(plan: Plan, floor: Option<Budget>, publishes: bool, persists: bool)
    ensures var r := CarriedOut(plan, floor, publishes, persists);
            && (r.outcome == Acknowledged ==> Done(plan, r))
            && (r.outcome == UpstreamUnavailable <==> plan.Act? && plan.sent != Nothing && !publishes)
            && (r.outcome == StateUnavailable <==>
                  plan.Refused? || (plan.Act? && (plan.sent == Nothing || publishes) && plan.replace && !persists))
            && (r.outcome == UpstreamUnavailable ==> r == Result(UpstreamUnavailable, Nothing, floor, None))
            && (plan.Act? && r.outcome == StateUnavailable ==> r.sent == plan.sent && r.floor == Some(plan.charged))
            && (r.outcome != Acknowledged ==> r.written == None)
            && (!plan.Act? ==> r.sent == Nothing && r.floor == floor && r.written == None)
  {
  }
}
