/** The store over whole runs: everything the relay ever hands to it can be read back. */
module RelayStore {
  import opened Options
  import opened RelayModel
  import opened RelayBounds
  import opened RelaySections
  import opened RelayDocuments
  import opened RelayThreads

  /** Deliveries are as the request handlers let them through, days are calendar days, and a read
      answers with an accepted document's state or that of the absent file. */
  ghost predicate Genuine(s: Step) {
    match s
    case Arrive(_, d, now) => ValidDelivery(d) && ValidDay(now.day)
    case Read(_, stored) => Answered(stored)
    case _ => true
  }

  ghost predicate GoodPc(pc: Pc) {
    && (!pc.Idle? ==> ValidDelivery(pc.d) && ValidDay(pc.now.day))
    && (pc.HasRead? || pc.Ready? ==> Answered(pc.stored))
    && ((pc.Ready? || pc.Out? || pc.FloorRaised?) && pc.plan.Act? ==>
          ReadsBack(pc.plan.entries, pc.plan.charged) && ValidFloor(Some(pc.plan.charged)))
  }

  /** What was written is a state that reads back as itself. */
  ghost predicate GoodWrite(s: Stored) { s.budget.Some? && !s.migrate && ReadsBack(s.entries, s.budget.value) }

  ghost predicate Good(w: World) {
    && ValidFloor(w.floor)
    && (forall t: nat :: GoodPc(w.At(t)))
    && (forall s :: s in w.written ==> GoodWrite(s))
  }

  /** Nothing but a decision brings a thread something new to write. */
  lemma StepperGood(sys: System, w: World, s: Step)
    requires Good(w) && Enabled(sys, w, s) && Genuine(s) && !s.Restart?
    ensures GoodPc(Do(sys, w, s).At(s.t))
  {
    assert GoodPc(w.At(s.t));
    if s.Decide? {
      var pc := w.At(s.t);
      if Planned(sys.ceilings, w.floor, pc.stored, pc.d, pc.now).Act? {
        SectionsWriteReadableState(sys.ceilings, w.floor, pc.stored, pc.d, pc.now);
      }
    }
  }

  /** Only the raised floor and a landed write change what outlives the section. */
  lemma NothingWritten(sys: System, w: World, s: Step)
    requires Enabled(sys, w, s) && !s.Restart? && !s.RaiseFloor? && !s.Persist?
    ensures Do(sys, w, s).floor == w.floor && Do(sys, w, s).written == w.written
  {
  }

  lemma RaisesCharge(sys: System, w: World, s: Step)
    requires s.RaiseFloor? && Enabled(sys, w, s)
    ensures Do(sys, w, s).floor == Some(w.At(s.t).plan.charged) && Do(sys, w, s).written == w.written
  {
  }

  lemma PersistsPlan(sys: System, w: World, s: Step)
    requires s.Persist? && Enabled(sys, w, s)
    ensures var plan := w.At(s.t).plan;
            && Do(sys, w, s).floor == w.floor
            && Do(sys, w, s).written <= w.written + {Stored(plan.entries, Some(plan.charged), false)}
  {
  }

  lemma PlanGood(pc: Pc)
    requires GoodPc(pc) && (pc.Out? || pc.FloorRaised?) && pc.plan.Act?
    ensures ValidFloor(Some(pc.plan.charged)) && GoodWrite(Stored(pc.plan.entries, Some(pc.plan.charged), false))
  {
  }

  lemma WritesGood(sys: System, w: World, s: Step)
    requires Good(w) && Enabled(sys, w, s) && !s.Restart?
    ensures ValidFloor(Do(sys, w, s).floor) && forall x :: x in Do(sys, w, s).written ==> GoodWrite(x)
  {
    if s.RaiseFloor? {
      PlanGood(w.At(s.t));
      RaisesCharge(sys, w, s);
    } else if s.Persist? {
      PlanGood(w.At(s.t));
      PersistsPlan(sys, w, s);
    } else {
      NothingWritten(sys, w, s);
    }
  }

  lemma GoodStep(sys: System, w: World, s: Step)
    requires Good(w) && Enabled(sys, w, s) && Genuine(s)
    ensures Good(Do(sys, w, s))
  {
    if !s.Restart? {
      var w' := Do(sys, w, s);
      OthersStay(sys, w, s);
      StepperGood(sys, w, s);
      WritesGood(sys, w, s);
      forall t: nat ensures GoodPc(w'.At(t)) { assert t != s.t ==> w'.At(t) == w.At(t); }
    }
  }

  /** In every run, locked or not, with restarts, lost writes and rolled-back reads: the floor names
      valid identities only, and every state ever handed to the store is well-formed, within the
      bounds, and accepted by the next read as exactly itself. */
  lemma {:induction false} EveryWriteReadsBack(sys: System, steps: seq<Step>)
    requires Run(sys, steps).Some? && forall s :: s in steps ==> Genuine(s)
    ensures Good(Run(sys, steps).value)
  {
    if steps != [] {
      var front, last := steps[..|steps| - 1], steps[|steps| - 1];
      assert last in steps && forall s :: s in front ==> s in steps;
      EveryWriteReadsBack(sys, front);
      GoodStep(sys, Run(sys, front).value, last);
    }
  }

  /** A read that answers with any earlier write is itself genuine, so an honest store needs no more. */
  lemma WritesAreAnswers(w: World, s: Stored)
    requires Good(w) && s in w.written
    ensures Answered(s)
  {
    assert Parsed(Written(s.entries, s.budget.value)) == Some(s);
  }
}
