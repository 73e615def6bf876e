/** The relay as its threads run it: every interleaving of deliveries over one file lock, one
    in-process floor and a store that may lose, roll back or invent what was written. */
module RelayThreads {
  import opened Options
  import opened RelayModel
  import opened RelayBounds
  import opened RelaySections
  import RelayOutcomes

  /** One entry per section that raises the floor, written when its message is out. */
  datatype Logged = Logged(day: string, id: Option<Identity>, rule: Rule, sent: Sent, evicted: set<Identity>)

  /** Where a thread is. The clock is read on arrival, before the lock. */
  datatype Pc =
    | Idle
    | Waiting(d: Delivery, now: Moment)
    | Holding(d: Delivery, now: Moment)
    | HasRead(d: Delivery, now: Moment, stored: Stored)
    | Ready(d: Delivery, now: Moment, stored: Stored, plan: Plan)
    | Out(d: Delivery, now: Moment, plan: Plan)
    | FloorRaised(d: Delivery, now: Moment, plan: Plan)
  {
    predicate InSection() { !Idle? && !Waiting? }
  }

  datatype World = World(lock: Option<nat>, threads: map<nat, Pc>, floor: Option<Budget>, log: seq<Logged>,
                         written: set<Stored>)
  {
    function At(t: nat): Pc { if t in threads then threads[t] else Idle }

    function Go(t: nat, pc: Pc): World { this.(threads := threads[t := pc]) }

    function Leave(t: nat): World {
      this.(threads := threads[t := Idle], lock := if lock == Some(t) then None else lock)
    }
  }

  const START := World(None, map[], None, [], {})

  /** `locked`: publish, floor and persist happen inside the lock. `honest`: only the relay
      writes the store, though a read may return any earlier write. `restarts`: the process may die. */
  datatype System = System(ceilings: Ceilings, locked: bool, honest: bool, restarts: bool)

  datatype Step =
    | Arrive(t: nat, d: Delivery, now: Moment)
    | Acquire(t: nat)
    | Repeat(t: nat)
    | Read(t: nat, stored: Stored)
    | Decide(t: nat)
    | Publish(t: nat, ok: bool)
    | RaiseFloor(t: nat)
    | Persist(t: nat, ok: bool)
    | Restart

  ghost predicate Enabled(sys: System, w: World, s: Step) {
    match s
    case Arrive(t, _, _) => w.At(t).Idle?
    case Acquire(t) => w.At(t).Waiting? && w.lock == None
    case Repeat(t) => w.At(t).Holding?
    case Read(t, stored) => w.At(t).Holding? && (sys.honest ==> stored.budget == None || stored in w.written)
    case Decide(t) => w.At(t).HasRead?
    case Publish(t, ok) => w.At(t).Ready? && w.At(t).plan.Act? && (w.At(t).plan.sent == Nothing ==> ok)
    case RaiseFloor(t) => w.At(t).Out? && w.At(t).plan.Act?
    case Persist(t, ok) => w.At(t).FloorRaised? && w.At(t).plan.Act?
    case Restart => sys.restarts
  }

  ghost function Do(sys: System, w: World, s: Step): World
    requires Enabled(sys, w, s)
  {
    match s
    case Arrive(t, d, now) => w.Go(t, Waiting(d, now))
    case Acquire(t) => w.Go(t, Holding(w.At(t).d, w.At(t).now)).(lock := Some(t))
    case Repeat(t) => w.Leave(t)
    case Read(t, stored) => w.Go(t, HasRead(w.At(t).d, w.At(t).now, stored))
    case Decide(t) =>
      var pc := w.At(t);
      var plan := Planned(sys.ceilings, w.floor, pc.stored, pc.d, pc.now);
      if !plan.Act? then w.Leave(t)
      else w.Go(t, Ready(pc.d, pc.now, pc.stored, plan)).(lock := if sys.locked then w.lock else None)
    case Publish(t, ok) =>
      var pc := w.At(t);
      if !ok then w.Leave(t)
      else w.Go(t, Out(pc.d, pc.now, pc.plan)).(log := w.log + [RecordOf(pc)])
    case RaiseFloor(t) =>
      var pc := w.At(t);
      w.Go(t, FloorRaised(pc.d, pc.now, pc.plan)).(floor := Some(pc.plan.charged))
    case Persist(t, ok) =>
      var plan := w.At(t).plan;
      w.Leave(t).(
        written := if !ok || !plan.replace then w.written
                   else w.written + {Stored(plan.entries, Some(plan.charged), false)})
    case Restart => World(None, map[], None, w.log, w.written)
  }

  function RecordOf(pc: Pc): Logged
    requires pc.Ready? && pc.plan.Act?
  {
    Logged(pc.now.day, Subject(pc.d), RuleOf(pc.d), pc.plan.sent, pc.plan.evicted)
  }

  /** The world after `steps`; None when some step could not be taken. */
  ghost function Run(sys: System, steps: seq<Step>): Option<World> {
    if steps == [] then Some(START)
    else
      var before := Run(sys, steps[..|steps| - 1]);
      var last := steps[|steps| - 1];
      if before.Some? && Enabled(sys, before.value, last) then Some(Do(sys, before.value, last)) else None
  }

  /* ----- the steps are the section ----- */

  /** Taking steps from any world; None when some step could not be taken. */
  ghost function Replay(sys: System, w: World, steps: seq<Step>): Option<World>
    decreases |steps|
  {
    if steps == [] then Some(w)
    else if Enabled(sys, w, steps[0]) then Replay(sys, Do(sys, w, steps[0]), steps[1..])
    else None
  }

  /** The steps of a section that has read the store, up to where a failure ends it. */
  ghost function SectionSteps(plan: Plan, t: nat, publishes: bool, persists: bool): seq<Step> {
    if !plan.Act? then [Decide(t)]
    else if plan.sent != Nothing && !publishes then [Decide(t), Publish(t, false)]
    else [Decide(t), Publish(t, true), RaiseFloor(t), Persist(t, persists)]
  }

  lemma ReplayStep(sys: System, w: World, s: Step, rest: seq<Step>)
    requires Enabled(sys, w, s)
    ensures Replay(sys, w, [s] + rest) == Replay(sys, Do(sys, w, s), rest)
  {
    assert ([s] + rest)[1..] == rest;
  }

  /** The world a section leaves, given what its code leaves. */
  ghost predicate LeftBy(w: World, end: Option<World>, t: nat, r: Result, sent: seq<Logged>) {
    && end.Some? && end.value.At(t).Idle? && end.value.lock == None && end.value.floor == r.floor
    && end.value.written == w.written + (if r.written.Some? then {r.written.value} else {})
    && end.value.log == w.log + sent
  }

  /** What the section puts in the log. */
  ghost function LoggedBy(plan: Plan, d: Delivery, now: Moment, publishes: bool): seq<Logged> {
    if plan.Act? && (plan.sent == Nothing || publishes) then
      [Logged(now.day, Subject(d), RuleOf(d), plan.sent, plan.evicted)]
    else []
  }

  /** Run alone under the lock, the steps leave exactly what the section's code leaves: the same
      floor, the same write, the message in the log, the lock free. */
  lemma StepsCarryOut(sys: System, w: World, t: nat, publishes: bool, persists: bool)
    requires sys.locked && w.At(t).HasRead? && w.lock == Some(t)
    ensures var pc := w.At(t);
            var plan := Planned(sys.ceilings, w.floor, pc.stored, pc.d, pc.now);
            LeftBy(w, Replay(sys, w, SectionSteps(plan, t, publishes, persists)), t,
                   CarriedOut(plan, w.floor, publishes, persists), LoggedBy(plan, pc.d, pc.now, publishes))
  {
    var pc := w.At(t);
    var plan := Planned(sys.ceilings, w.floor, pc.stored, pc.d, pc.now);
    var w1 := Do(sys, w, Decide(t));
    if !plan.Act? {
      ReplayStep(sys, w, Decide(t), []);
    } else {
      Decides(sys, w, t);
      if plan.sent != Nothing && !publishes {
        ReplayStep(sys, w, Decide(t), [Publish(t, false)]);
        TurnedAway(sys, w1, t, plan);
      } else {
        ReplayStep(sys, w, Decide(t), [Publish(t, true), RaiseFloor(t), Persist(t, persists)]);
        ActedOut(sys, w1, t, pc.d, pc.now, pc.stored, plan, persists);
      }
    }
  }

  lemma Decides(sys: System, w: World, t: nat)
    requires sys.locked && w.At(t).HasRead? && w.lock == Some(t)
    requires Planned(sys.ceilings, w.floor, w.At(t).stored, w.At(t).d, w.At(t).now).Act?
    ensures var pc := w.At(t); var w1 := Do(sys, w, Decide(t));
            && w1.At(t) == Ready(pc.d, pc.now, pc.stored, Planned(sys.ceilings, w.floor, pc.stored, pc.d, pc.now))
            && w1.lock == w.lock && w1.floor == w.floor && w1.log == w.log && w1.written == w.written
  {
  }

  lemma TurnedAway(sys: System, w: World, t: nat, plan: Plan)
    requires plan.Act? && plan.sent != Nothing && w.At(t).Ready? && w.At(t).plan == plan && w.lock == Some(t)
    ensures var end := Replay(sys, w, [Publish(t, false)]);
            && end.Some? && end.value.At(t).Idle? && end.value.lock == None
            && end.value.floor == w.floor && end.value.log == w.log && end.value.written == w.written
  {
    ReplayStep(sys, w, Publish(t, false), []);
  }

  lemma ActedOut(sys: System, w: World, t: nat, d: Delivery, now: Moment, stored: Stored, plan: Plan, persists: bool)
    requires plan.Act? && w.At(t) == Ready(d, now, stored, plan) && w.lock == Some(t)
    ensures var end := Replay(sys, w, [Publish(t, true), RaiseFloor(t), Persist(t, persists)]);
            && end.Some? && end.value.At(t).Idle? && end.value.lock == None && end.value.floor == Some(plan.charged)
            && end.value.log == w.log + [Logged(now.day, Subject(d), RuleOf(d), plan.sent, plan.evicted)]
            && end.value.written ==
                 w.written + (if plan.replace && persists then {Stored(plan.entries, Some(plan.charged), false)}
                              else {})
  {
    var w2 := Do(sys, w, Publish(t, true));
    var w3 := Do(sys, w2, RaiseFloor(t));
    ReplayStep(sys, w, Publish(t, true), [RaiseFloor(t), Persist(t, persists)]);
    ReplayStep(sys, w2, RaiseFloor(t), [Persist(t, persists)]);
    ReplayStep(sys, w3, Persist(t, persists), []);
  }

  /* ----- counting what went out ----- */

  function Tally(log: seq<Logged>, p: Logged -> bool): nat {
    if log == [] then 0
    else Tally(log[..|log| - 1], p) + (if p(log[|log| - 1]) then 1 else 0)
  }

  function Alerts(): Logged -> bool { (r: Logged) => r.sent == Alert }
  function TotalNotices(): Logged -> bool { (r: Logged) => r.sent == TotalNotice }
  function AlertsFor(id: Identity): Logged -> bool { (r: Logged) => r.sent == Alert && r.id == Some(id) }
  function PlainAlertsFor(id: Identity): Logged -> bool {
    (r: Logged) => r.sent == Alert && r.id == Some(id) && r.rule != OOM
  }
  function NoticesFor(id: Identity): Logged -> bool { (r: Logged) => r.sent == ContainerNotice && r.id == Some(id) }

  lemma TallyAppend(log: seq<Logged>, x: Logged, p: Logged -> bool)
    ensures Tally(log + [x], p) == Tally(log, p) + (if p(x) then 1 else 0)
  {
    assert (log + [x])[..|log|] == log;
  }

  /** A stretch of sections that share one UTC day. */
  ghost predicate OneDay(log: seq<Logged>) { forall i, j :: 0 <= i < j < |log| ==> log[i].day == log[j].day }

  ghost predicate NotEvicted(log: seq<Logged>, id: Identity) { forall i :: 0 <= i < |log| ==> id !in log[i].evicted }

  /** The floor as it stands once the section under way has finished with it. */
  ghost function Effective(w: World): Option<Budget> {
    if w.lock.Some? && w.At(w.lock.value).Out? && w.At(w.lock.value).plan.Act? then
        Some(w.At(w.lock.value).plan.charged)
    else w.floor
  }

  /** At most one thread is past the lock, and a decision still stands on the floor it was made on. */
  ghost predicate Exclusive(sys: System, w: World) {
    && (forall t: nat :: w.At(t).InSection() ==> w.lock == Some(t))
    && (forall t: nat :: w.At(t).Ready? ==>
          w.At(t).plan == Planned(sys.ceilings, w.floor, w.At(t).stored, w.At(t).d, w.At(t).now))
    && (forall t: nat :: w.At(t).Ready? || w.At(t).Out? || w.At(t).FloorRaised? ==> w.At(t).plan.Act?)
  }

  /** A step touches one thread; a restart ends them all. */
  lemma OthersStay(sys: System, w: World, s: Step)
    requires Enabled(sys, w, s) && !s.Restart?
    ensures forall u: nat {:trigger Do(sys, w, s).At(u)} :: u != s.t ==> Do(sys, w, s).At(u) == w.At(u)
  {
  }

  /** What the stepping thread has become. */
  lemma StepperBecomes(sys: System, w: World, s: Step)
    requires sys.locked && Exclusive(sys, w) && Enabled(sys, w, s) && !s.Restart?
    ensures var w' := Do(sys, w, s); var pc := w'.At(s.t);
            && (pc.InSection() ==> w'.lock == Some(s.t))
            && (!s.Arrive? && !s.Acquire? ==> w.lock == Some(s.t))
            && (w.lock != Some(s.t) && !s.Acquire? ==> w'.lock == w.lock)
            && (s.Acquire? ==> w.lock == None)
            && (pc.Ready? ==> pc.plan == Planned(sys.ceilings, w'.floor, pc.stored, pc.d, pc.now))
            && (pc.Ready? || pc.Out? || pc.FloorRaised? ==> pc.plan.Act?)
            && (!s.RaiseFloor? ==> w'.floor == w.floor)
  {
    var pc := w.At(s.t);
    assert !s.Arrive? && !s.Acquire? ==> pc.InSection();
  }

  lemma ExclusiveStep(sys: System, w: World, s: Step)
    requires sys.locked && Exclusive(sys, w) && Enabled(sys, w, s)
    ensures Exclusive(sys, Do(sys, w, s))
  {
    if !s.Restart? {
      var w' := Do(sys, w, s);
      OthersStay(sys, w, s);
      StepperBecomes(sys, w, s);
      forall u: nat | u != s.t && w'.At(u).InSection() ensures w'.lock == Some(u) && w'.floor == w.floor &&
          w'.At(u) == w.At(u) {
        assert w'.At(u) == w.At(u) && w.At(u).InSection();
        assert w.lock == Some(u) && !s.RaiseFloor?;
      }
    }
  }

  lemma {:induction false} RunExclusive(sys: System, steps: seq<Step>)
    requires sys.locked && Run(sys, steps).Some?
    ensures Exclusive(sys, Run(sys, steps).value)
  {
    if steps != [] {
      RunExclusive(sys, steps[..|steps| - 1]);
      ExclusiveStep(sys, Run(sys, steps[..|steps| - 1]).value, steps[|steps| - 1]);
    }
  }

  /* ----- the day's totals ----- */

  /** What the log says of any stretch up to now, the floor says too. */
  ghost predicate Accounted(log: seq<Logged>, floor: Option<Budget>) {
    log != [] ==>
      && floor.Some? && floor.value.day == log[|log| - 1].day
      && forall i :: 0 <= i < |log| && OneDay(log[i..]) ==>
           && Tally(log[i..], Alerts()) <= floor.value.count
           && (Tally(log[i..], TotalNotices()) > 0 ==> floor.value.notified)
  }

  ghost predicate WithinTotals(log: seq<Logged>, c: Ceilings) {
    forall i, j :: 0 <= i <= j <= |log| && OneDay(log[i..j]) ==>
      Tally(log[i..j], Alerts()) <= c.total && Tally(log[i..j], TotalNotices()) <= 1
  }

  /** A plan sends and charges what was decided, some counters shed. */
  lemma PlanDecided(c: Ceilings, floor: Option<Budget>, stored: Stored, d: Delivery, now: Moment)
    requires Planned(c, floor, stored, d, now).Act?
    ensures var plan := Planned(c, floor, stored, d, now);
            var decided := Decided(c, floor, stored, d, now);
            && plan.sent == decided.0 && plan.charged == decided.1.(containers := plan.charged.containers)
            && ShedFrom(decided.1, plan.charged, plan.evicted)
  {
  }

  /** What a charge does to the totals. */
  ghost predicate ChargesTotals(b: Budget, sent: Sent, charged: Budget, c: Ceilings) {
    && charged.day == b.day && charged.count == b.count + (if sent == Alert then 1 else 0)
    && (sent == Alert ==> charged.count <= c.total)
    && (b.notified ==> charged.notified && sent != TotalNotice)
    && (sent == TotalNotice ==> charged.notified)
  }

  lemma DecidedTotals(c: Ceilings, floor: Option<Budget>, stored: Stored, d: Delivery, now: Moment)
    ensures var decided := Decided(c, floor, stored, d, now);
            ChargesTotals(Opening(floor, stored, now), decided.0, decided.1, c)
  {
  }

  lemma OpeningTotals(floor: Option<Budget>, stored: Stored, now: Moment)
    ensures var b := Opening(floor, stored, now);
            && b.day == now.day
            && (floor.Some? && floor.value.day == now.day ==>
                 b.count >= floor.value.count && (floor.value.notified ==> b.notified))
  {
  }

  /** What a plan does to the totals, whatever the store said. */
  lemma PlanTotals(c: Ceilings, floor: Option<Budget>, stored: Stored, d: Delivery, now: Moment)
    requires Planned(c, floor, stored, d, now).Act?
    ensures var plan := Planned(c, floor, stored, d, now);
            var base := if floor.Some? && floor.value.day == now.day then floor.value.count else 0;
            var told := floor.Some? && floor.value.day == now.day && floor.value.notified;
            && plan.charged.day == now.day
            && plan.charged.count >= base + (if plan.sent == Alert then 1 else 0)
            && (plan.sent == Alert ==> plan.charged.count <= c.total)
            && (told ==> plan.charged.notified && plan.sent != TotalNotice)
            && (plan.sent == TotalNotice ==> plan.charged.notified)
  {
    PlanDecided(c, floor, stored, d, now);
    DecidedTotals(c, floor, stored, d, now);
    OpeningTotals(floor, stored, now);
  }

  lemma AppendTotals(c: Ceilings, log: seq<Logged>, floor: Option<Budget>, x: Logged, charged: Budget)
    requires Accounted(log, floor) && WithinTotals(log, c) && 1 <= c.total
    requires charged.day == x.day
    requires var base := if floor.Some? && floor.value.day == x.day then floor.value.count else 0;
             charged.count >= base + (if x.sent == Alert then 1 else 0)
    requires x.sent == Alert ==> charged.count <= c.total
    requires floor.Some? && floor.value.day == x.day && floor.value.notified ==>
             charged.notified && x.sent != TotalNotice
    requires x.sent == TotalNotice ==> charged.notified
    ensures Accounted(log + [x], Some(charged)) && WithinTotals(log + [x], c)
  {
    var next := log + [x];
    forall i | 0 <= i < |next| && OneDay(next[i..])
      ensures Tally(next[i..], Alerts()) <= charged.count && (Tally(next[i..], TotalNotices()) > 0 ==> charged.notified)
      ensures Tally(next[i..], Alerts()) <= c.total && Tally(next[i..], TotalNotices()) <= 1
    {
      StretchGrows(c, log, floor, x, i);
    }
    forall i, j | 0 <= i <= j <= |next| && OneDay(next[i..j])
      ensures Tally(next[i..j], Alerts()) <= c.total && Tally(next[i..j], TotalNotices()) <= 1
    {
      StretchOf(log, x, i, j);
    }
  }

  /** A stretch ends before the last section, with it, or holds none. */
  lemma StretchOf(log: seq<Logged>, x: Logged, i: nat, j: nat)
    requires i <= j <= |log| + 1
    ensures (log + [x])[i..j] == if j <= |log| then log[i..j] else if i <= |log| then (log + [x])[i..] else []
  {
  }

  lemma StretchGrows(c: Ceilings, log: seq<Logged>, floor: Option<Budget>, x: Logged, i: nat)
    requires Accounted(log, floor) && WithinTotals(log, c)
    requires i <= |log| && OneDay((log + [x])[i..])
    ensures (log + [x])[i..] == log[i..] + [x]
    ensures Tally((log + [x])[i..], Alerts()) == Tally(log[i..], Alerts()) + (if x.sent == Alert then 1 else 0)
    ensures Tally((log + [x])[i..], TotalNotices()) == Tally(log[i..], TotalNotices()) +
            (if x.sent == TotalNotice then 1 else 0)
    ensures var base := if floor.Some? && floor.value.day == x.day then floor.value.count else 0;
            Tally(log[i..], Alerts()) <= base && Tally(log[i..], Alerts()) <= c.total
    ensures Tally(log[i..], TotalNotices()) <= 1
    ensures Tally(log[i..], TotalNotices()) > 0 ==> floor.Some? && floor.value.day == x.day && floor.value.notified
  {
    DaySplits(log, x, i);
    TallyAppend(log[i..], x, Alerts());
    TallyAppend(log[i..], x, TotalNotices());
  }

  lemma DaySplits(log: seq<Logged>, x: Logged, i: nat)
    requires i <= |log| && OneDay((log + [x])[i..])
    ensures (log + [x])[i..] == log[i..] + [x] && log[i..] == log[i..|log|]
    ensures OneDay(log[i..]) && (i < |log| ==> log[|log| - 1].day == x.day)
  {
    var s, before := (log + [x])[i..], log[i..];
    assert s == before + [x] && s[|before|] == x;
    assert forall k :: 0 <= k < |before| ==> before[k] == s[k];
    if i < |log| { assert s[|before| - 1] == log[|log| - 1]; }
  }

  lemma TotalsStep(sys: System, w: World, s: Step)
    requires sys.locked && !sys.restarts && sys.ceilings.Valid() && Exclusive(sys, w) && Enabled(sys, w, s)
    requires Accounted(w.log, Effective(w)) && WithinTotals(w.log, sys.ceilings)
    ensures var w' := Do(sys, w, s); Accounted(w'.log, Effective(w')) && WithinTotals(w'.log, sys.ceilings)
  {
    var w' := Do(sys, w, s);
    if s.Publish? && s.ok {
      var pc := w.At(s.t);
      assert pc.InSection() && w.lock == Some(s.t);
      assert Effective(w) == w.floor && Effective(w') == Some(pc.plan.charged);
      PlanTotals(sys.ceilings, w.floor, pc.stored, pc.d, pc.now);
      AppendTotals(sys.ceilings, w.log, w.floor, RecordOf(pc), pc.plan.charged);
    } else {
      EffectiveKept(sys, w, s);
    }
  }

  /** Nothing but a message going out moves the floor as it stands. */
  lemma EffectiveKept(sys: System, w: World, s: Step)
    requires sys.locked && Exclusive(sys, w) && Enabled(sys, w, s) && !(s.Publish? && s.ok) && !s.Restart?
    ensures var w' := Do(sys, w, s); w'.log == w.log && Effective(w') == Effective(w)
  {
    if !s.Arrive? && !s.Acquire? { assert w.At(s.t).InSection() && w.lock == Some(s.t); }
    if w.lock.Some? && w.At(w.lock.value).Out? { assert w.At(w.lock.value).InSection(); }
  }

  /** One process, any interleaving, any failures, any store: in every stretch of sections sharing
      one UTC day at most the global ceiling of alerts and one global notice go out. */
  lemma {:induction false} TotalsHold(sys: System, steps: seq<Step>)
    requires sys.locked && !sys.restarts && sys.ceilings.Valid() && Run(sys, steps).Some?
    ensures var w := Run(sys, steps).value; Accounted(w.log, Effective(w)) && WithinTotals(w.log, sys.ceilings)
  {
    if steps != [] {
      var front := steps[..|steps| - 1];
      TotalsHold(sys, front);
      RunExclusive(sys, front);
      TotalsStep(sys, Run(sys, front).value, steps[|steps| - 1]);
    }
  }

  /* ----- one container's share ----- */

  /** While a container's counter is not evicted, the floor knows all that went out for it. */
  ghost predicate Shared(log: seq<Logged>, floor: Option<Budget>, id: Identity) {
    log != [] ==>
      && floor.Some? && floor.value.day == log[|log| - 1].day
      && forall i :: 0 <= i < |log| && OneDay(log[i..]) && NotEvicted(log[i..], id) ==>
           && Tally(log[i..], AlertsFor(id)) <= CounterAt(floor.value, id).count
           && (Tally(log[i..], NoticesFor(id)) > 0 ==> CounterAt(floor.value, id).notified)
  }

  ghost predicate WithinShare(log: seq<Logged>, c: Ceilings, id: Identity) {
    forall i, j :: 0 <= i <= j <= |log| && OneDay(log[i..j]) && NotEvicted(log[i..j], id) ==> ShareOf(log[i..j], c, id)
  }

  ghost predicate ShareOf(stretch: seq<Logged>, c: Ceilings, id: Identity) {
    && Tally(stretch, AlertsFor(id)) <= c.oom
    && Tally(stretch, PlainAlertsFor(id)) <= c.container
    && Tally(stretch, NoticesFor(id)) <= 1
  }

  /** How one section moves one container's counter. */
  ghost predicate Moves(c: Ceilings, floor: Option<Budget>, x: Logged, charged: Budget, id: Identity) {
    var same := floor.Some? && floor.value.day == x.day;
    var base := if same then CounterAt(floor.value, id).count else 0;
    var k := CounterAt(charged, id);
    && charged.day == x.day
    && (id !in x.evicted ==>
          && k.count >= base + (if AlertsFor(id)(x) then 1 else 0)
          && (same && CounterAt(floor.value, id).notified ==> k.notified && !NoticesFor(id)(x))
          && (NoticesFor(id)(x) ==> k.notified))
    && (AlertsFor(id)(x) ==> base + 1 <= c.For(x.rule))
  }

  ghost predicate StandsAbove(floor: Option<Budget>, b: Budget, id: Identity) {
    floor.Some? && floor.value.day == b.day ==>
      && CounterAt(b, id).count >= CounterAt(floor.value, id).count
      && (CounterAt(floor.value, id).notified ==> CounterAt(b, id).notified)
  }

  lemma OpeningAbove(floor: Option<Budget>, stored: Stored, now: Moment, id: Identity)
    ensures Opening(floor, stored, now).day == now.day && StandsAbove(floor, Opening(floor, stored, now), id)
  {
  }

  /** What a charge does to one counter. */
  ghost predicate ChargeMoved(b: Budget, sent: Sent, charged: Budget, subject: Option<Identity>, rule: Rule,
                              c: Ceilings, id: Identity) {
    var mine := subject == Some(id);
    && charged.day == b.day
    && CounterAt(charged, id).count == CounterAt(b, id).count + (if sent == Alert && mine then 1 else 0)
    && (CounterAt(b, id).notified ==> CounterAt(charged, id).notified && !(sent == ContainerNotice && mine))
    && (sent == ContainerNotice && mine ==> CounterAt(charged, id).notified)
    && (sent == Alert && mine ==> CounterAt(b, id).count + 1 <= c.For(rule))
  }

  lemma ChargeMoves(b: Budget, subject: Option<Identity>, rule: Rule, c: Ceilings, id: Identity)
    ensures var (sent, charged) := Charged(b, subject, rule, c); ChargeMoved(b, sent, charged, subject, rule, c, id)
    ensures ChargeMoved(b, Nothing, b, subject, rule, c, id)
  {
  }

  ghost predicate ShedFrom(decided: Budget, charged: Budget, evicted: set<Identity>) {
    && charged == decided.(containers := charged.containers)
    && evicted == decided.containers.Keys - charged.containers.Keys
    && forall id :: id in charged.containers ==>
         id in decided.containers && charged.containers[id] == decided.containers[id]
  }

  lemma MovesFrom(c: Ceilings, floor: Option<Budget>, opening: Budget, x: Logged, decided: Budget, charged: Budget,
                  id: Identity)
    requires x.day == opening.day && StandsAbove(floor, opening, id)
    requires ChargeMoved(opening, x.sent, decided, x.id, x.rule, c, id) && ShedFrom(decided, charged, x.evicted)
    ensures Moves(c, floor, x, charged, id)
  {
    assert id !in x.evicted ==> CounterAt(charged, id) == CounterAt(decided, id);
  }

  lemma PlanMoves(c: Ceilings, floor: Option<Budget>, stored: Stored, d: Delivery, now: Moment, id: Identity)
    requires Planned(c, floor, stored, d, now).Act?
    ensures var plan := Planned(c, floor, stored, d, now);
            Moves(c, floor, Logged(now.day, Subject(d), RuleOf(d), plan.sent, plan.evicted), plan.charged, id)
  {
    var plan := Planned(c, floor, stored, d, now);
    var x := Logged(now.day, Subject(d), RuleOf(d), plan.sent, plan.evicted);
    var decided := PlanIs(c, floor, stored, d, now, id);
    OpeningAbove(floor, stored, now, id);
    MovesFrom(c, floor, Opening(floor, stored, now), x, decided, plan.charged, id);
  }

  /** A plan is its decision with some counters shed. */
  lemma PlanIs(c: Ceilings, floor: Option<Budget>, stored: Stored, d: Delivery, now: Moment, id: Identity)
      returns (decided: Budget)
    requires Planned(c, floor, stored, d, now).Act?
    ensures var opening := Opening(floor, stored, now);
            var plan := Planned(c, floor, stored, d, now);
            && ChargeMoved(opening, plan.sent, decided, Subject(d), RuleOf(d), c, id)
            && decided.count == opening.count + (if plan.sent == Alert then 1 else 0)
            && ShedFrom(decided, plan.charged, plan.evicted)
  {
    decided := Decided(c, floor, stored, d, now).1;
    ChargeMoves(Opening(floor, stored, now), Subject(d), RuleOf(d), c, id);
  }

  /** The stretch from `i`, before and after one more section. */
  lemma StretchSplits(log: seq<Logged>, x: Logged, id: Identity, i: nat)
    requires i <= |log| && OneDay((log + [x])[i..]) && NotEvicted((log + [x])[i..], id)
    ensures (log + [x])[i..] == log[i..] + [x] && log[i..] == log[i..|log|]
    ensures OneDay(log[i..]) && NotEvicted(log[i..], id) && id !in x.evicted
    ensures i < |log| ==> log[|log| - 1].day == x.day
  {
    DaySplits(log, x, i);
    var s, before := (log + [x])[i..], log[i..];
    assert s[|before|] == x;
    assert forall k :: 0 <= k < |before| ==> before[k] == s[k];
  }

  /** One more section of a stretch within its share is within it too. */
  lemma ShareAppends(c: Ceilings, stretch: seq<Logged>, x: Logged, base: nat, told: bool, id: Identity)
    requires c.Valid() && ShareOf(stretch, c, id)
    requires Tally(stretch, AlertsFor(id)) <= base && (Tally(stretch, NoticesFor(id)) > 0 ==> told)
    requires AlertsFor(id)(x) ==> base + 1 <= c.For(x.rule)
    requires told ==> !NoticesFor(id)(x)
    ensures ShareOf(stretch + [x], c, id)
    ensures Tally(stretch + [x], AlertsFor(id)) <= base + (if AlertsFor(id)(x) then 1 else 0)
    ensures Tally(stretch + [x], NoticesFor(id)) > 0 ==> told || NoticesFor(id)(x)
  {
    TallyAppend(stretch, x, AlertsFor(id));
    TallyAppend(stretch, x, PlainAlertsFor(id));
    TallyAppend(stretch, x, NoticesFor(id));
    PlainAreAlerts(stretch, id);
  }

  lemma ShareGrows(c: Ceilings, log: seq<Logged>, floor: Option<Budget>, x: Logged, charged: Budget, id: Identity,
                   i: nat)
    requires c.Valid() && Shared(log, floor, id) && WithinShare(log, c, id) && Moves(c, floor, x, charged, id)
    requires i <= |log| && OneDay((log + [x])[i..]) && NotEvicted((log + [x])[i..], id)
    ensures var s := (log + [x])[i..];
            && ShareOf(s, c, id)
            && Tally(s, AlertsFor(id)) <= CounterAt(charged, id).count
            && (Tally(s, NoticesFor(id)) > 0 ==> CounterAt(charged, id).notified)
  {
    StretchSplits(log, x, id, i);
    var same := floor.Some? && floor.value.day == x.day;
    assert ShareOf(log[i..|log|], c, id);
    ShareAppends(c, log[i..], x, if same then CounterAt(floor.value, id).count else 0,
                 same && CounterAt(floor.value, id).notified, id);
  }

  lemma {:induction false} PlainAreAlerts(log: seq<Logged>, id: Identity)
    ensures Tally(log, PlainAlertsFor(id)) <= Tally(log, AlertsFor(id))
  {
    if log != [] { PlainAreAlerts(log[..|log| - 1], id); }
  }

  lemma AppendShare(c: Ceilings, log: seq<Logged>, floor: Option<Budget>, x: Logged, charged: Budget, id: Identity)
    requires c.Valid() && Shared(log, floor, id) && WithinShare(log, c, id) && Moves(c, floor, x, charged, id)
    ensures Shared(log + [x], Some(charged), id) && WithinShare(log + [x], c, id)
  {
    var next := log + [x];
    forall i | 0 <= i < |next| && OneDay(next[i..]) && NotEvicted(next[i..], id)
      ensures Tally(next[i..], AlertsFor(id)) <= CounterAt(charged, id).count
      ensures Tally(next[i..], NoticesFor(id)) > 0 ==> CounterAt(charged, id).notified
    {
      ShareGrows(c, log, floor, x, charged, id, i);
    }
    forall i, j | 0 <= i <= j <= |next| && OneDay(next[i..j]) && NotEvicted(next[i..j], id)
      ensures ShareOf(next[i..j], c, id)
    {
      StretchOf(log, x, i, j);
      if i <= |log| < j { ShareGrows(c, log, floor, x, charged, id, i); }
    }
  }

  lemma ShareStep(sys: System, w: World, s: Step, id: Identity)
    requires sys.locked && !sys.restarts && sys.ceilings.Valid() && Exclusive(sys, w) && Enabled(sys, w, s)
    requires Shared(w.log, Effective(w), id) && WithinShare(w.log, sys.ceilings, id)
    ensures var w' := Do(sys, w, s); Shared(w'.log, Effective(w'), id) && WithinShare(w'.log, sys.ceilings, id)
  {
    if s.Publish? && s.ok {
      var pc := w.At(s.t);
      assert pc.InSection() && w.lock == Some(s.t);
      PlanMoves(sys.ceilings, w.floor, pc.stored, pc.d, pc.now, id);
      AppendShare(sys.ceilings, w.log, w.floor, RecordOf(pc), pc.plan.charged, id);
    } else {
      EffectiveKept(sys, w, s);
    }
  }

  /** In every one-day stretch in which its counter is not evicted, a container gets at most the
      OOM ceiling of alerts in all, at most the ordinary ceiling of others, and one notice. */
  lemma {:induction false} ShareHolds(sys: System, steps: seq<Step>, id: Identity)
    requires sys.locked && !sys.restarts && sys.ceilings.Valid() && Run(sys, steps).Some?
    ensures var w := Run(sys, steps).value; Shared(w.log, Effective(w), id) && WithinShare(w.log, sys.ceilings, id)
  {
    if steps != [] {
      var front := steps[..|steps| - 1];
      ShareHolds(sys, front, id);
      RunExclusive(sys, front);
      ShareStep(sys, Run(sys, front).value, steps[|steps| - 1], id);
    }
  }

  /* ----- nothing is silenced early ----- */

  function OnDay(day: string): Logged -> bool { (r: Logged) => r.day == day && r.sent == Alert }
  function OnDayFor(day: string, id: Identity): Logged -> bool {
    (r: Logged) => r.day == day && r.sent == Alert && r.id == Some(id)
  }

  /** No counter of `b` says more than really went out on its day. */
  ghost predicate Backed(log: seq<Logged>, b: Budget) {
    && b.count <= Tally(log, OnDay(b.day))
    && forall id :: id in b.containers ==> b.containers[id].count <= Tally(log, OnDayFor(b.day, id))
  }

  ghost predicate BackedIfAny(log: seq<Logged>, b: Option<Budget>) { b.Some? ==> Backed(log, b.value) }

  ghost predicate AllBacked(w: World) {
    && BackedIfAny(w.log, w.floor)
    && (forall s :: s in w.written ==> BackedIfAny(w.log, s.budget))
    && (forall t: nat :: w.At(t).HasRead? || w.At(t).Ready? ==> BackedIfAny(w.log, w.At(t).stored.budget))
    && (forall t: nat :: (w.At(t).Out? || w.At(t).FloorRaised?) && w.At(t).plan.Act? ==>
         Backed(w.log, w.At(t).plan.charged))
  }

  lemma BackedGrows(log: seq<Logged>, x: Logged, b: Budget)
    requires Backed(log, b)
    ensures Backed(log + [x], b)
  {
    TallyAppend(log, x, OnDay(b.day));
    forall id | id in b.containers ensures b.containers[id].count <= Tally(log + [x], OnDayFor(b.day, id)) {
      TallyAppend(log, x, OnDayFor(b.day, id));
    }
  }

  lemma OpeningBacked(log: seq<Logged>, floor: Option<Budget>, stored: Stored, now: Moment)
    requires BackedIfAny(log, floor) && BackedIfAny(log, stored.budget)
    ensures Backed(log, Opening(floor, stored, now))
  {
  }

  lemma BackedFrom(c: Ceilings, log: seq<Logged>, opening: Budget, x: Logged, decided: Budget, charged: Budget,
                   id: Identity)
    requires Backed(log, opening) && x.day == opening.day
    requires ChargeMoved(opening, x.sent, decided, x.id, x.rule, c, id) && ShedFrom(decided, charged, x.evicted)
    ensures id in charged.containers ==> charged.containers[id].count <= Tally(log + [x], OnDayFor(x.day, id))
  {
    TallyAppend(log, x, OnDayFor(x.day, id));
    assert CounterAt(opening, id).count <= Tally(log, OnDayFor(x.day, id));
  }

  /** The charged budget of a section is backed once its message is in the log. */
  lemma ChargedBacked(c: Ceilings, log: seq<Logged>, floor: Option<Budget>, stored: Stored, d: Delivery, now: Moment)
    requires BackedIfAny(log, floor) && BackedIfAny(log, stored.budget)
    requires Planned(c, floor, stored, d, now).Act?
    ensures var plan := Planned(c, floor, stored, d, now);
            Backed(log + [Logged(now.day, Subject(d), RuleOf(d), plan.sent, plan.evicted)], plan.charged)
  {
    var opening, plan := Opening(floor, stored, now), Planned(c, floor, stored, d, now);
    OpeningBacked(log, floor, stored, now);
    var x := Logged(now.day, Subject(d), RuleOf(d), plan.sent, plan.evicted);
    var any := PlanIs(c, floor, stored, d, now, "");
    TallyAppend(log, x, OnDay(now.day));
    forall id | id in plan.charged.containers
      ensures plan.charged.containers[id].count <= Tally(log + [x], OnDayFor(now.day, id))
    {
      var decided := PlanIs(c, floor, stored, d, now, id);
      BackedFrom(c, log, opening, x, decided, plan.charged, id);
    }
  }

  /** A message going out: what it was charged is backed by it, and all else still is. */
  lemma PublishBacked(sys: System, w: World, s: Step)
    requires sys.locked && Exclusive(sys, w) && Enabled(sys, w, s) && AllBacked(w) && s.Publish? && s.ok
    ensures AllBacked(Do(sys, w, s))
  {
    var w', pc := Do(sys, w, s), w.At(s.t);
    var x := RecordOf(pc);
    assert pc.InSection() && w.lock == Some(s.t);
    ChargedBacked(sys.ceilings, w.log, w.floor, pc.stored, pc.d, pc.now);
    forall b | Backed(w.log, b) ensures Backed(w'.log, b) { BackedGrows(w.log, x, b); }
    OthersStay(sys, w, s);
    assert w'.At(s.t) == Out(pc.d, pc.now, pc.plan) && w'.log == w.log + [x];
    forall t: nat | w'.At(t).InSection() ensures t == s.t { assert t != s.t ==> w.At(t).InSection(); }
  }

  /** The floor rising to what was charged, or the write of it landing. */
  lemma RecordedBacked(sys: System, w: World, s: Step)
    requires Enabled(sys, w, s) && AllBacked(w) && (s.RaiseFloor? || s.Persist?)
    ensures AllBacked(Do(sys, w, s))
  {
    OthersStay(sys, w, s);
    assert Backed(w.log, w.At(s.t).plan.charged);
  }

  lemma ReadBacked(sys: System, w: World, s: Step)
    requires sys.honest && Enabled(sys, w, s) && AllBacked(w) && (s.Read? || s.Decide?)
    ensures AllBacked(Do(sys, w, s))
  {
    OthersStay(sys, w, s);
  }

  lemma MovedBacked(sys: System, w: World, s: Step)
    requires Enabled(sys, w, s) && AllBacked(w) && (s.Arrive? || s.Acquire? || s.Repeat? || (s.Publish? && !s.ok))
    ensures AllBacked(Do(sys, w, s))
  {
    OthersStay(sys, w, s);
  }

  lemma BackedStep(sys: System, w: World, s: Step)
    requires sys.locked && sys.honest && Exclusive(sys, w) && Enabled(sys, w, s) && AllBacked(w)
    ensures AllBacked(Do(sys, w, s))
  {
    match s
    case Publish(_, ok) => if ok { PublishBacked(sys, w, s); } else { MovedBacked(sys, w, s); }
    case RaiseFloor(_) => RecordedBacked(sys, w, s);
    case Persist(_, _) => RecordedBacked(sys, w, s);
    case Read(_, _) => ReadBacked(sys, w, s);
    case Decide(_) => ReadBacked(sys, w, s);
    case Restart =>
    case _ => MovedBacked(sys, w, s);
  }

  lemma {:induction false} RunBacked(sys: System, steps: seq<Step>)
    requires sys.locked && sys.honest && Run(sys, steps).Some?
    ensures AllBacked(Run(sys, steps).value)
  {
    if steps != [] {
      var front := steps[..|steps| - 1];
      RunBacked(sys, front);
      RunExclusive(sys, front);
      BackedStep(sys, Run(sys, front).value, steps[|steps| - 1]);
    }
  }

  /** With a store only the relay writes, restarts and lost writes included, a delivery that asks to
      be published is held back only when its ceiling has really been reached that day. */
  lemma SilencedOnlyWhenSpent(sys: System, steps: seq<Step>, t: nat)
    requires sys.locked && sys.honest && Run(sys, steps).Some? && Run(sys, steps).value.At(t).HasRead?
    ensures var w := Run(sys, steps).value;
            var pc := w.At(t);
            Charged(Opening(w.floor, pc.stored, pc.now), Subject(pc.d), RuleOf(pc.d), sys.ceilings).0 != Alert ==>
              || Tally(w.log, OnDay(pc.now.day)) >= sys.ceilings.total
              || (Subject(pc.d).Some?
                  && Tally(w.log, OnDayFor(pc.now.day, Subject(pc.d).value)) >= sys.ceilings.For(RuleOf(pc.d)))
  {
    RunBacked(sys, steps);
    var w := Run(sys, steps).value;
    var pc := w.At(t);
    OpeningBacked(w.log, w.floor, pc.stored, pc.now);
  }

  /** The plan a thread that has read would make, or has made. */
  ghost function PlanOf(sys: System, w: World, pc: Pc): Plan
    requires pc.HasRead? || pc.Ready?
  {
    if pc.Ready? then pc.plan else Planned(sys.ceilings, w.floor, pc.stored, pc.d, pc.now)
  }

  /** In such a run, whatever asks to be published and is let through by the bounds goes out as an alert
      unless a ceiling it falls under has really been reached that day. */
  lemma HeldBackOnlyWhenSpent(sys: System, steps: seq<Step>, t: nat)
    requires sys.locked && sys.honest && Run(sys, steps).Some?
    requires var pc := Run(sys, steps).value.At(t); pc.HasRead? || pc.Ready?
    ensures var w := Run(sys, steps).value;
            var pc := w.At(t);
            var plan := PlanOf(sys, w, pc);
            plan.Act? && RelayOutcomes.Asks(pc.stored.entries, pc.d) && plan.sent != Alert ==>
              || Tally(w.log, OnDay(pc.now.day)) >= sys.ceilings.total
              || (pc.d.Container?
                  && Tally(w.log, OnDayFor(pc.now.day, IdentityOf(pc.d.event))) >=
                     RelayOutcomes.CeilingFor(sys.ceilings, pc.d.event.rule))
  {
    RunBacked(sys, steps);
    RunExclusive(sys, steps);
    var w := Run(sys, steps).value;
    var pc := w.At(t);
    RelayOutcomes.SentExactly(sys.ceilings, w.floor, pc.stored, pc.d, pc.now);
    SpentIsBacked(w.log, w.floor, pc.stored, pc.now.day);
    if pc.d.Container? { SpentByIsBacked(w.log, w.floor, pc.stored, pc.now.day, IdentityOf(pc.d.event)); }
  }

  lemma SpentIsBacked(log: seq<Logged>, floor: Option<Budget>, stored: Stored, day: string)
    requires BackedIfAny(log, floor) && BackedIfAny(log, stored.budget)
    ensures RelayOutcomes.Spent(floor, stored, day) <= Tally(log, OnDay(day))
  {
  }

  lemma SpentByIsBacked(log: seq<Logged>, floor: Option<Budget>, stored: Stored, day: string, id: Identity)
    requires BackedIfAny(log, floor) && BackedIfAny(log, stored.budget)
    ensures RelayOutcomes.SpentBy(floor, stored, day, id) <= Tally(log, OnDayFor(day, id))
  {
  }

  /* ----- the lock is what holds the ceiling ----- */

  lemma RunExtend(sys: System, steps: seq<Step>, s: Step)
    requires Run(sys, steps).Some? && Enabled(sys, Run(sys, steps).value, s)
    ensures Run(sys, steps + [s]) == Some(Do(sys, Run(sys, steps).value, s))
  {
    assert (steps + [s])[..|steps|] == steps;
  }

  function FirstPlan(day: string): Plan { Act(Alert, Budget(day, 1, false, map[]), map[], {}, true) }

  lemma NothingFits(day: string)
    requires |day| == 10
    ensures Fits(Budget(day, 1, false, map[]), Core(map[]))
  {
    TextSizeBound(day);
  }

  lemma NothingKept(b: Budget, now: Moment)
    requires b.containers == map[] && Fits(b, Core(map[]))
    ensures Bounded(map[], b, now) == Some(Kept(map[], map[]))
  {
    RefusedExactly(map[], b, now);
    BoundedKeeps(map[], b, now);
    var kept := Bounded(map[], b, now).value;
    assert kept.entries == map[] && kept.counters == map[];
  }

  /** A host alert on an empty store and no floor is let through. */
  lemma FirstAlertGoesOut(c: Ceilings, now: Moment)
    requires c.Valid() && now.day == "2026-01-01"
    ensures Planned(c, None, Stored(map[], None, false), Host, now) == FirstPlan(now.day)
  {
    var b := Budget(now.day, 1, false, map[]);
    NothingFits(now.day);
    NothingKept(b, now);
    assert Decided(c, None, Stored(map[], None, false), Host, now) == (Alert, b);
  }

  lemma {:induction false} TextSizeBound(s: string)
    ensures TextSize(s) <= 12 * |s|
  {
    if s != "" { TextSizeBound(s[1..]); }
  }

  /** With publish moved out of the lock two threads both pass a ceiling of one. */
  lemma PublishOutsideLockBreaches()
    ensures exists sys: System, steps: seq<Step> ::
      && !sys.locked && !sys.restarts && sys.ceilings.Valid()
      && Run(sys, steps).Some? && !WithinTotals(Run(sys, steps).value.log, sys.ceilings)
  {
    var c := Ceilings(1, 1, 1);
    var sys, now := System(c, false, true, false), Moment(0, "2026-01-01");
    var w0, s0 := UpToDecide(sys, [], 0, now);
    var w1, s1 := UpToDecide(sys, s0, 1, now);
    var w2, s2 := PublishReady(sys, s1, 0, now);
    var w3, s3 := PublishReady(sys, s2, 1, now);
    TwoBreachOne(w3.log, c);
    assert Run(sys, s3).Some? && !WithinTotals(Run(sys, s3).value.log, sys.ceilings);
  }

  lemma TallyOfTwo(x: Logged, p: Logged -> bool)
    requires p(x)
    ensures Tally([x, x], p) == 2
  {
    TallyAppend([], x, p);
    TallyAppend([x], x, p);
    assert [] + [x] == [x] && [x] + [x] == [x, x];
  }

  lemma TwoBreachOne(log: seq<Logged>, c: Ceilings)
    requires |log| == 2 && log[0] == log[1] && log[0].sent == Alert && c.total == 1
    ensures !WithinTotals(log, c)
  {
    TallyOfTwo(log[0], Alerts());
    assert log[0..2] == [log[0], log[0]];
    assert OneDay(log[0..2]);
  }

  lemma PublishReady(sys: System, steps: seq<Step>, t: nat, now: Moment) returns (w: World, steps': seq<Step>)
    requires now.day == "2026-01-01" && sys.ceilings.Valid() && Run(sys, steps).Some?
    requires var v, empty := Run(sys, steps).value, Stored(map[], None, false);
             v.At(t) == Ready(Host, now, empty, FirstPlan(now.day))
    ensures Run(sys, steps') == Some(w)
    ensures var v := Run(sys, steps).value;
            && w.log == v.log + [Logged(now.day, None, UnexpectedExit, Alert, {})]
            && forall u: nat :: u != t ==> w.At(u) == v.At(u)
  {
    steps' := steps + [Publish(t, true)];
    RunExtend(sys, steps, Publish(t, true));
    w := Run(sys, steps').value;
  }

  /** One thread taken from arrival to its decision, the lock released behind it. */
  lemma UpToDecide(sys: System, steps: seq<Step>, t: nat, now: Moment) returns (w: World, steps': seq<Step>)
    requires !sys.locked && sys.ceilings.Valid() && now.day == "2026-01-01" && Run(sys, steps).Some?
    requires var v := Run(sys, steps).value; v.At(t).Idle? && v.lock == None && v.floor == None
    ensures var v := Run(sys, steps).value;
            && w == v.Go(t, Ready(Host, now, Stored(map[], None, false), FirstPlan(now.day)))
            && Run(sys, steps') == Some(w)
  {
    var v, empty := Run(sys, steps).value, Stored(map[], None, false);
    var a, b, c := Arrive(t, Host, now), Acquire(t), Read(t, empty);
    RunExtend(sys, steps, a);
    var v1 := Do(sys, v, a);
    RunExtend(sys, steps + [a], b);
    var v2 := Do(sys, v1, b);
    RunExtend(sys, steps + [a] + [b], c);
    var v3 := Do(sys, v2, c);
    assert v3.At(t) == HasRead(Host, now, empty) && v3.threads == v.threads[t := HasRead(Host, now, empty)];
    w, steps' := DecideFirst(sys, steps + [a] + [b] + [c], t, now, v);
  }

  lemma DecideFirst(sys: System, steps: seq<Step>, t: nat, now: Moment, v: World) returns (w: World, steps': seq<Step>)
    requires !sys.locked && sys.ceilings.Valid() && now.day == "2026-01-01" && v.floor == None && v.lock == None
    requires Run(sys, steps) == Some(v.Go(t, HasRead(Host, now, Stored(map[], None, false))).(lock := Some(t)))
    ensures w == v.Go(t, Ready(Host, now, Stored(map[], None, false), FirstPlan(now.day))) &&
            Run(sys, steps') == Some(w)
  {
    FirstAlertGoesOut(sys.ceilings, now);
    RunExtend(sys, steps, Decide(t));
    steps' := steps + [Decide(t)];
    w := Run(sys, steps').value;
    assert w.threads == v.threads[t := Ready(Host, now, Stored(map[], None, false), FirstPlan(now.day))];
  }
}
