/** What restarts cost: how far the day's totals can be exceeded when the floor is forgotten, and how
    little when the store keeps what was written. */
module RelayRestarts {
  import opened Options
  import opened RelayModel
  import opened RelaySections
  import opened RelayThreads

  /** In every stretch of sections sharing one UTC day, at most this many alerts and global notices. */
  ghost predicate Caps(log: seq<Logged>, alerts: nat, notices: nat) {
    forall i, j :: 0 <= i <= j <= |log| && OneDay(log[i..j]) ==>
      Tally(log[i..j], Alerts()) <= alerts && Tally(log[i..j], TotalNotices()) <= notices
  }

  /** The day of the last section; with none yet, any. */
  function LastDay(log: seq<Logged>, otherwise: string): string { if log == [] then otherwise else log[|log| - 1].day }

  /** What any stretch up to now sent, a budget holds, but for so many alerts and notices. */
  ghost predicate Covers(log: seq<Logged>, held: Option<Budget>, alerts: nat, notices: nat) {
    forall i :: 0 <= i <= |log| && OneDay(log[i..]) ==>
      && Tally(log[i..], Alerts()) <= CountOn(held, LastDay(log, "")) + alerts
      && Tally(log[i..], TotalNotices()) <= (if ToldOn(held, LastDay(log, "")) then 1 else 0) + notices
  }

  /** What charging one section does to a held budget's totals. */
  ghost predicate Adds(held: Option<Budget>, x: Logged, charged: Budget, total: nat) {
    && charged.day == x.day
    && charged.count >= CountOn(held, x.day) + (if x.sent == Alert then 1 else 0)
    && (x.sent == Alert ==> charged.count <= total)
    && (ToldOn(held, x.day) ==> charged.notified && x.sent != TotalNotice)
    && (x.sent == TotalNotice ==> charged.notified)
  }

  lemma CoversGrows(log: seq<Logged>, held: Option<Budget>, x: Logged, charged: Budget, total: nat, alerts: nat,
                    notices: nat, i: nat)
    requires Covers(log, held, alerts, notices) && Caps(log, total + alerts, 1 + notices) &&
             Adds(held, x, charged, total)
    requires i <= |log| && OneDay((log + [x])[i..])
    ensures var s := (log + [x])[i..];
            && Tally(s, Alerts()) <= charged.count + alerts && Tally(s, Alerts()) <= total + alerts
            && Tally(s, TotalNotices()) <= (if charged.notified then 1 else 0) + notices
  {
    DaySplits(log, x, i);
    TallyAppend(log[i..], x, Alerts());
    TallyAppend(log[i..], x, TotalNotices());
    if i == |log| { assert log[i..] == []; }
  }

  lemma AppendCovers(log: seq<Logged>, held: Option<Budget>, x: Logged, charged: Budget, total: nat, alerts: nat,
                     notices: nat)
    requires Covers(log, held, alerts, notices) && Caps(log, total + alerts, 1 + notices) &&
             Adds(held, x, charged, total)
    ensures Covers(log + [x], Some(charged), alerts, notices) && Caps(log + [x], total + alerts, 1 + notices)
  {
    var next := log + [x];
    forall i | 0 <= i <= |next| && OneDay(next[i..])
      ensures Tally(next[i..], Alerts()) <= charged.count + alerts && Tally(next[i..], Alerts()) <= total + alerts
      ensures Tally(next[i..], TotalNotices()) <= (if charged.notified then 1 else 0) + notices
    {
      if i <= |log| { CoversGrows(log, held, x, charged, total, alerts, notices, i); } else { assert next[i..] == []; }
    }
    forall i, j | 0 <= i <= j <= |next| && OneDay(next[i..j])
      ensures Tally(next[i..j], Alerts()) <= total + alerts && Tally(next[i..j], TotalNotices()) <= 1 + notices
    {
      StretchOf(log, x, i, j);
    }
  }

  /** Losing the budget costs what it could have held. */
  lemma Forgets(log: seq<Logged>, held: Option<Budget>, total: nat, alerts: nat, notices: nat)
    requires Caps(log, total + alerts, 1 + notices)
    ensures Covers(log, None, total + alerts, 1 + notices)
  {
    forall i | 0 <= i <= |log| && OneDay(log[i..])
      ensures Tally(log[i..], Alerts()) <= total + alerts && Tally(log[i..], TotalNotices()) <= 1 + notices
    {
      assert log[i..] == log[i..|log|];
    }
  }

  /* ----- any store ----- */

  function Restarts(steps: seq<Step>): nat {
    if steps == [] then 0 else Restarts(steps[..|steps| - 1]) + (if steps[|steps| - 1].Restart? then 1 else 0)
  }

  lemma PlanAdds(c: Ceilings, floor: Option<Budget>, stored: Stored, d: Delivery, now: Moment)
    requires Planned(c, floor, stored, d, now).Act?
    ensures var plan := Planned(c, floor, stored, d, now);
            Adds(floor, Logged(now.day, Subject(d), RuleOf(d), plan.sent, plan.evicted), plan.charged, c.total)
  {
    PlanTotals(c, floor, stored, d, now);
  }

  /** The totals may stand so far beyond the ceiling and the one notice. */
  ghost predicate Exceeds(sys: System, w: World, alerts: nat, notices: nat) {
    Covers(w.log, Effective(w), alerts, notices) && Caps(w.log, sys.ceilings.total + alerts, 1 + notices)
  }

  lemma RestartExceeds(sys: System, w: World, s: Step, alerts: nat, notices: nat)
    requires Enabled(sys, w, s) && s.Restart? && Exceeds(sys, w, alerts, notices)
    ensures Exceeds(sys, Do(sys, w, s), alerts + sys.ceilings.total, notices + 1)
  {
    Forgets(w.log, Effective(w), sys.ceilings.total, alerts, notices);
    assert Effective(Do(sys, w, s)) == None;
  }

  lemma PublishExceeds(sys: System, w: World, s: Step, alerts: nat, notices: nat)
    requires sys.locked && Exclusive(sys, w) && Enabled(sys, w, s) && s.Publish? && s.ok &&
             Exceeds(sys, w, alerts, notices)
    ensures Exceeds(sys, Do(sys, w, s), alerts, notices)
  {
    var pc, w' := w.At(s.t), Do(sys, w, s);
    assert pc.InSection() && w.lock == Some(s.t);
    assert Effective(w) == w.floor && Effective(w') == Some(pc.plan.charged);
    PlanAdds(sys.ceilings, w.floor, pc.stored, pc.d, pc.now);
    AppendCovers(w.log, w.floor, RecordOf(pc), pc.plan.charged, sys.ceilings.total, alerts, notices);
  }

  lemma ExceedsStep(sys: System, w: World, s: Step, alerts: nat, notices: nat)
    requires sys.locked && Exclusive(sys, w) && Enabled(sys, w, s) && Exceeds(sys, w, alerts, notices)
    ensures Exceeds(sys, Do(sys, w, s), alerts + (if s.Restart? then sys.ceilings.total else 0),
                    notices + if s.Restart? then 1 else 0)
  {
    if s.Restart? {
      RestartExceeds(sys, w, s, alerts, notices);
    } else if s.Publish? && s.ok {
      PublishExceeds(sys, w, s, alerts, notices);
    } else {
      EffectiveKept(sys, w, s);
    }
  }

  /** What the restarts of a run are worth. */
  function Worth(steps: seq<Step>, total: nat): nat { total * Restarts(steps) }

  lemma WorthGrows(front: seq<Step>, last: Step, total: nat)
    ensures Worth(front + [last], total) == Worth(front, total) + (if last.Restart? then total else 0)
    ensures Restarts(front + [last]) == Restarts(front) + (if last.Restart? then 1 else 0)
  {
    assert (front + [last])[..|front|] == front;
  }

  lemma RunSplits(sys: System, steps: seq<Step>) returns (front: seq<Step>, last: Step)
    requires steps != [] && Run(sys, steps).Some?
    ensures steps == front + [last] && |front| < |steps| && Run(sys, front).Some? &&
            Enabled(sys, Run(sys, front).value, last)
    ensures Run(sys, steps).value == Do(sys, Run(sys, front).value, last)
  {
    front, last := steps[..|steps| - 1], steps[|steps| - 1];
  }

  /** Any interleaving, any failures, any store: every restart is worth at most one more ceiling of
      alerts and one more global notice a day. */
  lemma {:induction false} RestartsCostCeilings(sys: System, steps: seq<Step>)
    requires sys.locked && Run(sys, steps).Some?
    ensures Exceeds(sys, Run(sys, steps).value, Worth(steps, sys.ceilings.total), Restarts(steps))
    decreases |steps|
  {
    if steps != [] {
      var front, last := RunSplits(sys, steps);
      RestartsCostCeilings(sys, front);
      RunExclusive(sys, front);
      ExceedsStep(sys, Run(sys, front).value, last, Worth(front, sys.ceilings.total), Restarts(front));
      WorthGrows(front, last, sys.ceilings.total);
    }
  }

  /* ----- a store that keeps what was written ----- */

  /** The thread that holds the lock, or an idle one. */
  function Holder(w: World): Pc { if w.lock.Some? then w.At(w.lock.value) else Idle }

  /** Its message is out and its charge is not in the store yet. */
  predicate Unsaved(pc: Pc) { (pc.Out? || pc.FloorRaised?) && pc.plan.Act? }

  /** What the store holds after a step. */
  ghost function StoreAfter(sys: System, w: World, store: Stored, s: Step): Stored
    requires Enabled(sys, w, s)
  {
    if s.Persist? && s.ok && w.At(s.t).plan.replace then
      Stored(w.At(s.t).plan.entries, Some(w.At(s.t).plan.charged), false)
    else store
  }

  /** A read answers what the store holds, and a write lands. */
  predicate Keeps(store: Stored, s: Step) { (s.Read? ==> s.stored == store) && (s.Persist? ==> s.ok) }

  /** The store after a run from its first contents; None when some read or write went wrong. */
  ghost function StoreOf(sys: System, first: Stored, steps: seq<Step>): Option<Stored>
    requires Run(sys, steps).Some?
  {
    if steps == [] then Some(first)
    else
      var front, last := steps[..|steps| - 1], steps[|steps| - 1];
      var store := StoreOf(sys, first, front);
      if store.Some? && Keeps(store.value, last) then Some(StoreAfter(sys, Run(sys, front).value, store.value, last))
      else None
  }

  /** Restarts that catch a section between its publish and its write. */
  ghost function Cuts(sys: System, steps: seq<Step>): nat
    requires Run(sys, steps).Some?
  {
    if steps == [] then 0
    else
      var front, last := steps[..|steps| - 1], steps[|steps| - 1];
      Cuts(sys, front) + (if last.Restart? && Unsaved(Holder(Run(sys, front).value)) then 1 else 0)
  }

  /** The budget the day's totals are read from. */
  function Held(pc: Pc, store: Stored): Option<Budget> { if Unsaved(pc) then Some(pc.plan.charged) else store.budget }

  /** Of a plan whose message is out: at most one more than the store says, and nothing to write only
      when the store says it already. */
  predicate OneMore(plan: Plan, store: Stored) {
    && plan.Act? && plan.charged.count <= CountOn(store.budget, plan.charged.day) + 1
    && (!plan.replace ==> store.budget == Some(plan.charged))
  }

  /** A thread that has read knows what the store holds, and the floor says no more than it does. */
  predicate InStep(pc: Pc, floor: Option<Budget>, store: Stored) {
    && (pc.HasRead? || pc.Ready? ==> pc.stored == store)
    && (pc.Out? || pc.FloorRaised? ==> OneMore(pc.plan, store))
    && (if pc.FloorRaised? then floor == Some(pc.plan.charged) else floor == None || floor == store.budget)
  }

  lemma OpeningIs(floor: Option<Budget>, stored: Stored, now: Moment)
    requires floor == None || floor == stored.budget
    ensures var b := Opening(floor, stored, now);
            && b.day == now.day && b.count == CountOn(stored.budget, now.day) &&
                 (b.notified <==> ToldOn(stored.budget, now.day))
  {
  }

  /** What a plan made on the store's own contents charges. */
  lemma PlanOneMore(c: Ceilings, floor: Option<Budget>, stored: Stored, d: Delivery, now: Moment)
    requires Planned(c, floor, stored, d, now).Act? && (floor == None || floor == stored.budget)
    ensures var plan := Planned(c, floor, stored, d, now);
            && OneMore(plan, stored)
            && Adds(stored.budget, Logged(now.day, Subject(d), RuleOf(d), plan.sent, plan.evicted), plan.charged,
                    c.total)
  {
    OpeningIs(floor, stored, now);
    PlanDecided(c, floor, stored, d, now);
    DecidedTotals(c, floor, stored, d, now);
    if !Planned(c, floor, stored, d, now).replace { ReplacesUnlessSame(c, floor, stored, d, now); }
  }

  lemma ReplacesUnlessSame(c: Ceilings, floor: Option<Budget>, stored: Stored, d: Delivery, now: Moment)
    requires Planned(c, floor, stored, d, now).Act? && !Planned(c, floor, stored, d, now).replace
    ensures stored.budget == Some(Planned(c, floor, stored, d, now).charged)
  {
  }

  /** The stepping thread is the holder, before and, while it is in the section, after. */
  lemma HolderSteps(sys: System, w: World, s: Step)
    requires sys.locked && Exclusive(sys, w) && Enabled(sys, w, s) && !s.Restart? && !s.Arrive? && !s.Acquire?
    ensures var w' := Do(sys, w, s); Holder(w) == w.At(s.t) && Holder(w') == w'.At(s.t)
  {
    assert w.At(s.t).InSection();
  }

  /** Before the section a thread has nothing the store could be out of step with. */
  lemma OutsideInStep(sys: System, w: World, store: Stored, s: Step)
    requires sys.locked && Exclusive(sys, w) && Enabled(sys, w, s) && InStep(Holder(w), w.floor, store)
    requires s.Arrive? || s.Acquire?
    ensures var w' := Do(sys, w, s); InStep(Holder(w'), w'.floor, store)
    ensures Held(Holder(Do(sys, w, s)), store) == Held(Holder(w), store)
  {
  }

  lemma PublishInStep(sys: System, w: World, store: Stored, s: Step)
    requires sys.locked && Exclusive(sys, w) && Enabled(sys, w, s) && InStep(Holder(w), w.floor, store) && s.Publish?
    ensures var w' := Do(sys, w, s); InStep(Holder(w'), w'.floor, store)
  {
    HolderSteps(sys, w, s);
    var pc := w.At(s.t);
    PlanOneMore(sys.ceilings, w.floor, pc.stored, pc.d, pc.now);
  }

  lemma PersistInStep(sys: System, w: World, store: Stored, s: Step)
    requires sys.locked && Exclusive(sys, w) && Enabled(sys, w, s) && InStep(Holder(w), w.floor, store)
    requires s.Persist? && s.ok
    ensures var w', next := Do(sys, w, s), StoreAfter(sys, w, store, s);
            InStep(Holder(w'), w'.floor, next) && Held(Holder(w'), next) == Held(Holder(w), store)
  {
    HolderSteps(sys, w, s);
  }

  lemma WithinInStep(sys: System, w: World, store: Stored, s: Step)
    requires sys.locked && Exclusive(sys, w) && Enabled(sys, w, s) && InStep(Holder(w), w.floor, store) &&
             Keeps(store, s)
    requires s.Repeat? || s.Read? || s.Decide? || s.RaiseFloor?
    ensures var w' := Do(sys, w, s);
            InStep(Holder(w'), w'.floor, store) && Held(Holder(w'), store) == Held(Holder(w), store)
  {
    HolderSteps(sys, w, s);
  }

  /** Everything sent is in the store or in the hands of the holder, but for what the cuts lost. */
  ghost predicate Saved(sys: System, w: World, store: Stored, cuts: nat) {
    && InStep(Holder(w), w.floor, store)
    && Covers(w.log, Held(Holder(w), store), cuts, cuts) && Caps(w.log, sys.ceilings.total + cuts, 1 + cuts)
  }

  /** A cut loses one section's charge. */
  lemma CutCovers(log: seq<Logged>, plan: Plan, store: Stored, cuts: nat)
    requires OneMore(plan, store) && Covers(log, Some(plan.charged), cuts, cuts)
    ensures Covers(log, store.budget, cuts + 1, cuts + 1)
  {
  }

  lemma CapsMore(log: seq<Logged>, total: nat, cuts: nat)
    requires Caps(log, total + cuts, 1 + cuts)
    ensures Caps(log, total + (cuts + 1), 1 + (cuts + 1))
  {
  }

  lemma RestartSaved(sys: System, w: World, store: Stored, s: Step, cuts: nat)
    requires Enabled(sys, w, s) && s.Restart? && Saved(sys, w, store, cuts)
    ensures Saved(sys, Do(sys, w, s), store, cuts + if Unsaved(Holder(w)) then 1 else 0)
  {
    assert Held(Holder(Do(sys, w, s)), store) == store.budget;
    if Unsaved(Holder(w)) {
      CutCovers(w.log, Holder(w).plan, store, cuts);
      CapsMore(w.log, sys.ceilings.total, cuts);
    }
  }

  lemma PublishSaved(sys: System, w: World, store: Stored, s: Step, cuts: nat)
    requires sys.locked && Exclusive(sys, w) && Enabled(sys, w, s) && s.Publish? && Saved(sys, w, store, cuts)
    ensures Saved(sys, Do(sys, w, s), store, cuts)
  {
    var w', pc := Do(sys, w, s), w.At(s.t);
    PublishInStep(sys, w, store, s);
    HolderSteps(sys, w, s);
    if s.ok {
      PlanOneMore(sys.ceilings, w.floor, pc.stored, pc.d, pc.now);
      AppendCovers(w.log, store.budget, RecordOf(pc), pc.plan.charged, sys.ceilings.total, cuts, cuts);
      assert Held(Holder(w'), store) == Some(pc.plan.charged) && w'.log == w.log + [RecordOf(pc)];
    }
  }

  lemma SameLog(sys: System, w: World, s: Step)
    requires Enabled(sys, w, s) && !s.Publish?
    ensures Do(sys, w, s).log == w.log
  {
  }

  lemma SavedStep(sys: System, w: World, store: Stored, s: Step, cuts: nat)
    requires sys.locked && Exclusive(sys, w) && Enabled(sys, w, s) && Keeps(store, s) && Saved(sys, w, store, cuts)
    ensures Saved(sys, Do(sys, w, s), StoreAfter(sys, w, store, s),
                  cuts + if s.Restart? && Unsaved(Holder(w)) then 1 else 0)
  {
    match s
    case Publish(_, _) => PublishSaved(sys, w, store, s, cuts);
    case Restart => RestartSaved(sys, w, store, s, cuts);
    case Persist(_, _) => PersistInStep(sys, w, store, s); SameLog(sys, w, s);
    case Arrive(_, _, _) => OutsideInStep(sys, w, store, s); SameLog(sys, w, s);
    case Acquire(_) => OutsideInStep(sys, w, store, s); SameLog(sys, w, s);
    case _ => WithinInStep(sys, w, store, s); SameLog(sys, w, s);
  }

  /** With a store that keeps what was written, whatever it held at first and however often the
      process dies: one alert and one global notice beyond the day's for each restart that falls
      between a publish and its write, and none for any other. */
  lemma {:induction false} CutsCostOne(sys: System, first: Stored, steps: seq<Step>)
    requires sys.locked && Run(sys, steps).Some? && StoreOf(sys, first, steps).Some?
    ensures Saved(sys, Run(sys, steps).value, StoreOf(sys, first, steps).value, Cuts(sys, steps))
    decreases |steps|
  {
    if steps != [] {
      var front, last := RunSplits(sys, steps);
      assert steps[..|steps| - 1] == front && steps[|steps| - 1] == last;
      CutsCostOne(sys, first, front);
      RunExclusive(sys, front);
      SavedStep(sys, Run(sys, front).value, StoreOf(sys, first, front).value, last, Cuts(sys, front));
    }
  }
}
