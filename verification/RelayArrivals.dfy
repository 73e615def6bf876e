/** Messages that reached the service though the relay was told otherwise. */
module RelayArrivals {
  import opened Options
  import opened RelayModel
  import opened RelaySections
  import opened RelayThreads
  import opened RelayRestarts

  /** One message handed to the service, and whether the relay heard that it got there. */
  datatype Handed = Handed(record: Logged, heard: bool)

  /** Every message a run hands over, in order. */
  ghost function HandedOver(sys: System, steps: seq<Step>): seq<Handed>
    requires Run(sys, steps).Some?
  {
    if steps == [] then []
    else
      var front, last := steps[..|steps| - 1], steps[|steps| - 1];
      HandedOver(sys, front) +
      (if last.Publish? then [Handed(RecordOf(Run(sys, front).value.At(last.t)), last.ok)] else [])
  }

  /** Those the relay heard of. */
  function Heard(hs: seq<Handed>): seq<Logged> {
    if hs == [] then [] else Heard(hs[..|hs| - 1]) + (if hs[|hs| - 1].heard then [hs[|hs| - 1].record] else [])
  }

  lemma HeardGrows(hs: seq<Handed>, h: Handed)
    ensures Heard(hs + [h]) == Heard(hs) + (if h.heard then [h.record] else [])
  {
    assert (hs + [h])[..|hs|] == hs;
  }

  /** The log is what the relay heard of. */
  lemma {:induction false} LogIsHeard(sys: System, steps: seq<Step>)
    requires Run(sys, steps).Some?
    ensures Heard(HandedOver(sys, steps)) == Run(sys, steps).value.log
    decreases |steps|
  {
    if steps != [] {
      var front, last := RunSplits(sys, steps);
      LogIsHeard(sys, front);
      HandedStep(sys, front, last);
      LogStep(sys, front, last);
      if last.Publish? {
        HeardGrows(HandedOver(sys, front), Handed(RecordOf(Run(sys, front).value.At(last.t)), last.ok));
      }
    }
  }

  lemma HandedStep(sys: System, front: seq<Step>, last: Step)
    requires Run(sys, front).Some? && Run(sys, front + [last]).Some?
    ensures HandedOver(sys, front + [last]) ==
              if last.Publish? then
                HandedOver(sys, front) + [Handed(RecordOf(Run(sys, front).value.At(last.t)), last.ok)]
              else HandedOver(sys, front)
  {
    assert (front + [last])[..|front|] == front;
  }

  lemma LogStep(sys: System, front: seq<Step>, last: Step)
    requires Run(sys, front).Some? && Run(sys, front + [last]).Some?
    ensures Run(sys, front + [last]).value.log ==
              if last.Publish? && last.ok then Run(sys, front).value.log + [RecordOf(Run(sys, front).value.At(last.t))]
              else Run(sys, front).value.log
  {
    assert (front + [last])[..|front|] == front;
  }

  /** The handed-over alerts that arrived: all that were heard of, and of the others those that did. */
  function Arrived(hs: seq<Handed>, got: seq<bool>): nat
    requires |got| == |hs|
  {
    if hs == [] then 0
    else
      var n := |hs| - 1;
      Arrived(hs[..n], got[..n]) + (if hs[n].record.sent == Alert && (hs[n].heard || got[n]) then 1 else 0)
  }

  /** Those among them the relay takes for undelivered. */
  function Unheard(hs: seq<Handed>, got: seq<bool>): nat
    requires |got| == |hs|
  {
    if hs == [] then 0
    else
      var n := |hs| - 1;
      Unheard(hs[..n], got[..n]) + (if hs[n].record.sent == Alert && !hs[n].heard && got[n] then 1 else 0)
  }

  lemma {:induction false} ArrivedSplits(hs: seq<Handed>, got: seq<bool>)
    requires |got| == |hs|
    ensures Arrived(hs, got) == Tally(Heard(hs), Alerts()) + Unheard(hs, got)
  {
    if hs != [] {
      var n := |hs| - 1;
      ArrivedSplits(hs[..n], got[..n]);
      TallyAppend(Heard(hs[..n]), hs[n].record, Alerts());
      assert hs[n].heard || Heard(hs) == Heard(hs[..n]);
    }
  }

  /* ----- stretches of one day ----- */

  ghost predicate SameDay(hs: seq<Handed>) { forall i, j :: 0 <= i < j < |hs| ==> hs[i].record.day == hs[j].record.day }

  lemma {:induction false} HeardConcat(a: seq<Handed>, b: seq<Handed>)
    ensures Heard(a + b) == Heard(a) + Heard(b)
  {
    if b == [] {
      assert a + b == a;
    } else {
      var front, last := b[..|b| - 1], b[|b| - 1];
      assert b == front + [last] && a + b == (a + front) + [last];
      HeardConcat(a, front);
      HeardGrows(a + front, last);
      HeardGrows(front, last);
    }
  }

  lemma {:induction false} HeardFrom(hs: seq<Handed>)
    ensures forall r :: r in Heard(hs) ==> exists h :: h in hs && h.record == r
  {
    if hs != [] {
      var front, last := hs[..|hs| - 1], hs[|hs| - 1];
      assert hs == front + [last];
      HeardFrom(front);
      assert last in hs && forall h :: h in front ==> h in hs;
    }
  }

  lemma HeardOneDay(hs: seq<Handed>)
    requires SameDay(hs)
    ensures OneDay(Heard(hs))
  {
    HeardFrom(hs);
    var log := Heard(hs);
    forall i, j | 0 <= i < j < |log| ensures log[i].day == log[j].day {
      assert log[i] in log && log[j] in log;
      DayOf(hs, log[i]);
      DayOf(hs, log[j]);
    }
  }

  lemma DayOf(hs: seq<Handed>, r: Logged)
    requires SameDay(hs) && exists h :: h in hs && h.record == r
    ensures hs != [] && r.day == hs[0].record.day
  {
    var h :| h in hs && h.record == r;
    var i :| 0 <= i < |hs| && hs[i] == h;
  }

  /** A stretch of what was handed over is heard of as a stretch of the log. */
  lemma StretchHeard(hs: seq<Handed>, i: nat, j: nat) returns (k: nat, m: nat)
    requires i <= j <= |hs|
    ensures k <= m <= |Heard(hs)| && Heard(hs)[k..m] == Heard(hs[i..j])
  {
    var a, b, c := hs[..i], hs[i..j], hs[j..];
    assert hs == (a + b) + c;
    HeardConcat(a + b, c);
    HeardConcat(a, b);
    k, m := |Heard(a)|, |Heard(a)| + |Heard(b)|;
  }

  /** Beyond the bound the log keeps, a day sees at most one alert more for each that arrived unheard. */
  lemma ArrivalsBounded(hs: seq<Handed>, i: nat, j: nat, got: seq<bool>, alerts: nat, notices: nat)
    requires i <= j <= |hs| && |got| == j - i && SameDay(hs[i..j]) && Caps(Heard(hs), alerts, notices)
    ensures Arrived(hs[i..j], got) <= alerts + Unheard(hs[i..j], got)
  {
    var k, m := StretchHeard(hs, i, j);
    HeardOneDay(hs[i..j]);
    ArrivedSplits(hs[i..j], got);
  }

  /** One process, any interleaving, any store: in a stretch of messages sharing one UTC day no more
      alerts arrive than the ceiling and those whose arrival the relay did not hear of. */
  lemma UnheardCostOne(sys: System, steps: seq<Step>, i: nat, j: nat, got: seq<bool>)
    requires sys.locked && !sys.restarts && sys.ceilings.Valid() && Run(sys, steps).Some?
    requires i <= j <= |HandedOver(sys, steps)| && |got| == j - i && SameDay(HandedOver(sys, steps)[i..j])
    ensures var stretch := HandedOver(sys, steps)[i..j];
            Arrived(stretch, got) <= sys.ceilings.total + Unheard(stretch, got)
  {
    TotalsHold(sys, steps);
    LogIsHeard(sys, steps);
    ArrivalsBounded(HandedOver(sys, steps), i, j, got, sys.ceilings.total, 1);
  }

  /* ----- and it happens ----- */

  lemma Extended(sys: System, steps: seq<Step>, w: World, s: Step) returns (next: seq<Step>)
    requires Run(sys, steps) == Some(w) && Enabled(sys, w, s)
    ensures Run(sys, next) == Some(Do(sys, w, s))
    ensures HandedOver(sys, next) == if s.Publish? then HandedOver(sys, steps) + [Handed(RecordOf(w.At(s.t)), s.ok)]
            else HandedOver(sys, steps)
  {
    next := steps + [s];
    RunExtend(sys, steps, s);
    HandedStep(sys, steps, s);
  }

  /** A host alert on an empty store, decided under the lock. */
  lemma UnderLock(sys: System, steps: seq<Step>, v: World, now: Moment) returns (w: World, next: seq<Step>)
    requires sys.locked && sys.ceilings.Valid() && now.day == "2026-01-01" && Run(sys, steps) == Some(v)
    requires v.At(0).Idle? && v.lock == None && v.floor == None
    ensures Run(sys, next) == Some(w) && HandedOver(sys, next) == HandedOver(sys, steps)
    ensures w.At(0) == Ready(Host, now, Stored(map[], None, false), FirstPlan(now.day)) && w.lock == Some(0) &&
            w.floor == None
  {
    var empty := Stored(map[], None, false);
    var s1 := Extended(sys, steps, v, Arrive(0, Host, now));
    var v1 := Do(sys, v, Arrive(0, Host, now));
    var s2 := Extended(sys, s1, v1, Acquire(0));
    var v2 := Do(sys, v1, Acquire(0));
    var s3 := Extended(sys, s2, v2, Read(0, empty));
    var v3 := Do(sys, v2, Read(0, empty));
    w, next := DecidedUnderLock(sys, s3, v3, now);
  }

  lemma DecidedUnderLock(sys: System, steps: seq<Step>, v: World, now: Moment) returns (w: World, next: seq<Step>)
    requires sys.locked && sys.ceilings.Valid() && now.day == "2026-01-01" && Run(sys, steps) == Some(v)
    requires v.At(0) == HasRead(Host, now, Stored(map[], None, false)) && v.lock == Some(0) && v.floor == None
    ensures Run(sys, next) == Some(w) && HandedOver(sys, next) == HandedOver(sys, steps)
    ensures w.At(0) == Ready(Host, now, Stored(map[], None, false), FirstPlan(now.day)) && w.lock == Some(0) &&
            w.floor == None
  {
    FirstAlertGoesOut(sys.ceilings, now);
    next := Extended(sys, steps, v, Decide(0));
    w := Do(sys, v, Decide(0));
  }

  lemma BothArrive(r: Logged)
    requires r.sent == Alert
    ensures var hs := [Handed(r, false), Handed(r, true)];
            Arrived(hs, [true, true]) == 2 && Unheard(hs, [true, true]) == 1
  {
    var hs, got := [Handed(r, false), Handed(r, true)], [true, true];
    assert hs[..1] == [hs[0]] && got[..1] == [true] && hs[..1][..0] == [] && got[..1][..0] == [];
    assert Arrived(hs[..1], got[..1]) == 1 && Unheard(hs[..1], got[..1]) == 1;
  }

  /** With a ceiling of one two alerts arrive on one day, the first of them unheard. */
  lemma UnheardAlertHappens() returns (sys: System, steps: seq<Step>)
    ensures sys.locked && !sys.restarts && sys.ceilings == Ceilings(1, 1, 1) && Run(sys, steps).Some?
    ensures var hs := HandedOver(sys, steps);
            |hs| == 2 && SameDay(hs) && Arrived(hs, [true, true]) == 2 && Unheard(hs, [true, true]) == 1
  {
    sys := System(Ceilings(1, 1, 1), true, true, false);
    var now := Moment(0, "2026-01-01");
    var r := Logged(now.day, None, UnexpectedExit, Alert, {});
    var v2, s2 := OneHanded(sys, [], START, now, false);
    var v4;
    v4, steps := OneHanded(sys, s2, v2, now, true);
    assert HandedOver(sys, steps) == [] + [Handed(r, false)] + [Handed(r, true)] == [Handed(r, false), Handed(r, true)];
    BothArrive(r);
  }

  lemma OneHanded(sys: System, steps: seq<Step>, v: World, now: Moment, heard: bool)
    returns (w: World, next: seq<Step>)
    requires sys.locked && sys.ceilings.Valid() && now.day == "2026-01-01" && Run(sys, steps) == Some(v)
    requires v.At(0).Idle? && v.lock == None && v.floor == None
    ensures Run(sys, next) == Some(w) && (!heard ==> w.At(0).Idle? && w.lock == None && w.floor == None)
    ensures HandedOver(sys, next) ==
              HandedOver(sys, steps) + [Handed(Logged(now.day, None, UnexpectedExit, Alert, {}), heard)]
  {
    var v1, s1 := UnderLock(sys, steps, v, now);
    next := Extended(sys, s1, v1, Publish(0, heard));
    w := Do(sys, v1, Publish(0, heard));
  }
}
