/** What the deployer says about itself: that it went blind and saw again, and that the hourly
    verification changed its verdict. */
module PollerNotices {
  import opened Options

  /* ----- blindness ----- */

  const BLIND_POLL_THRESHOLD := 3

  datatype Notice = Alarm | Recovery

  /** The two markers as they read back. */
  datatype Blindness = Blindness(count: nat, alarm: bool)

  /** One poll: whether it saw, whether a notice it sends is delivered, and which of its two writes
      land. A write that does not land stops the poll there. */
  datatype Sighting = Sighting(sees: bool, delivered: bool, countLands: bool, markerLands: bool)

  function AfterBlind(b: Blindness, s: Sighting): (Blindness, seq<Notice>) {
    if !s.countLands then (b, [])
    else if b.count + 1 < BLIND_POLL_THRESHOLD || b.alarm || !s.delivered then (b.(count := b.count + 1), [])
    else (Blindness(b.count + 1, s.markerLands), [Alarm])
  }

  function AfterSeeing(b: Blindness, s: Sighting): (Blindness, seq<Notice>) {
    if b.count == 0 || (b.count >= BLIND_POLL_THRESHOLD && !s.delivered) then (b, [])
    else
      var said := if b.count >= BLIND_POLL_THRESHOLD then [Recovery] else [];
      if b.alarm && !s.markerLands then (b, said) else (Blindness(if s.countLands then 0 else b.count, false), said)
  }

  function After(b: Blindness, s: Sighting): (Blindness, seq<Notice>) {
    if s.sees then AfterSeeing(b, s) else AfterBlind(b, s)
  }

  /** The notices delivered over a run. */
  function Notices(b: Blindness, run: seq<Sighting>): seq<Notice>
    decreases |run|
  {
    if run == [] then [] else After(b, run[0]).1 + Notices(After(b, run[0]).0, run[1..])
  }

  class Watcher {
    var count: nat
    var alarm: bool
    var log: seq<Notice>

    constructor ()
      ensures count == 0 && !alarm && log == []
    {
      count, alarm, log := 0, false, [];
    }

    ghost function Contents(): Blindness
      reads this
    {
      Blindness(count, alarm)
    }

    /** `note_blind_poll`. */
    method NoteBlindPoll(delivered: bool, countLands: bool, markerLands: bool)
      modifies this
      ensures var r := AfterBlind(old(Contents()), Sighting(false, delivered, countLands, markerLands));
              Contents() == r.0 && log == old(log) + r.1
    {
      if !countLands { return; }
      count := count + 1;
      if count < BLIND_POLL_THRESHOLD || alarm { return; }
      if !delivered { return; }
      log := log + [Alarm];
      if markerLands { alarm := true; }
    }

    /** `note_seeing_poll`. */
    method NoteSeeingPoll(delivered: bool, countLands: bool, markerLands: bool)
      modifies this
      ensures var r := AfterSeeing(old(Contents()), Sighting(true, delivered, countLands, markerLands));
              Contents() == r.0 && log == old(log) + r.1
    {
      if count == 0 { return; }
      if count >= BLIND_POLL_THRESHOLD {
        if !delivered { return; }
        log := log + [Recovery];
      }
      if alarm {
        if !markerLands { return; }
        alarm := false;
      }
      if countLands { count := 0; }
    }
  }

  /** The alarm marker implies a count at or above the threshold. */
  predicate Consistent(b: Blindness) { b.alarm ==> b.count >= BLIND_POLL_THRESHOLD }

  /** Every delivered alarm is marked. */
  predicate AlarmsMarked(b: Blindness, run: seq<Sighting>)
    decreases |run|
  {
    run == [] || ((After(b, run[0]).1 == [Alarm] ==> run[0].markerLands) && AlarmsMarked(After(b, run[0]).0, run[1..]))
  }

  /** Between two alarms stands a recovery. */
  ghost predicate Alternates(log: seq<Notice>) {
    forall i, j :: 0 <= i < j < |log| && log[i] == Alarm && log[j] == Alarm ==>
        exists k :: i < k < j && log[k] == Recovery
  }

  /** An alarm is directly followed by a recovery, and an announced blindness by no second alarm. */
  ghost predicate Apart(announced: bool, log: seq<Notice>) {
    && (announced && log != [] ==> log[0] == Recovery)
    && (forall i :: 0 <= i < |log| - 1 && log[i] == Alarm ==> log[i + 1] == Recovery)
  }

  lemma ApartStep(announced: bool, said: seq<Notice>, next: bool, rest: seq<Notice>)
    requires Apart(next, rest)
    requires said == [] || (said == [Alarm] && !announced && next) || said == [Recovery]
    requires said == [] && announced ==> next
    ensures Apart(announced, said + rest)
  {
    var log := said + rest;
    forall i | 0 <= i < |log| - 1 && log[i] == Alarm ensures log[i + 1] == Recovery {
      if said != [] && i > 0 { assert log[i] == rest[i - 1] && log[i + 1] == rest[i]; }
    }
  }

  lemma {:induction false} AlarmsApart(b: Blindness, run: seq<Sighting>)
    requires Consistent(b) && AlarmsMarked(b, run)
    ensures Apart(b.alarm, Notices(b, run))
    decreases |run|
  {
    if run != [] {
      var next, said := After(b, run[0]).0, After(b, run[0]).1;
      AlarmsApart(next, run[1..]);
      ApartStep(b.alarm, said, next.alarm, Notices(next, run[1..]));
    }
  }

  lemma ApartAlternates(announced: bool, log: seq<Notice>)
    requires Apart(announced, log)
    ensures Alternates(log)
  {
    forall i, j | 0 <= i < j < |log| && log[i] == Alarm && log[j] == Alarm
      ensures exists k :: i < k < j && log[k] == Recovery {
      assert log[i + 1] == Recovery;
    }
  }

  /** However notices and count writes fail: as long as every delivered alarm is marked, two
      delivered alarms have a delivered recovery between them. */
  lemma AlarmsAlternate(b: Blindness, run: seq<Sighting>)
    requires Consistent(b) && AlarmsMarked(b, run)
    ensures Alternates(Notices(b, run))
  {
    AlarmsApart(b, run);
    ApartAlternates(b.alarm, Notices(b, run));
  }

  function State(b: Blindness, run: seq<Sighting>): Blindness
    decreases |run|
  {
    if run == [] then b else State(After(b, run[0]).0, run[1..])
  }

  /** The marker never outlives the count, whatever fails. */
  lemma {:induction false} MarkerMeansCount(b: Blindness, run: seq<Sighting>)
    requires Consistent(b)
    ensures Consistent(State(b, run))
    decreases |run|
  {
    if run != [] { MarkerMeansCount(After(b, run[0]).0, run[1..]); }
  }

  /** A delivered alarm whose marker is lost is sent again by the next blind poll. */
  lemma UnmarkedAlarmRepeats(count: nat)
    requires count + 1 >= BLIND_POLL_THRESHOLD
    ensures var lost := Sighting(false, true, true, false);
            !Alternates(Notices(Blindness(count, false), [lost, lost]))
  {
    var lost := Sighting(false, true, true, false);
    var b := Blindness(count, false);
    var mid := After(b, lost).0;
    assert mid == Blindness(count + 1, false);
    assert Notices(mid, [lost]) == [Alarm] + Notices(After(mid, lost).0, []);
    assert [lost, lost][1..] == [lost];
    NotAlternating(Notices(b, [lost, lost]));
  }

  lemma NotAlternating(log: seq<Notice>)
    requires log == [Alarm, Alarm]
    ensures !Alternates(log)
  {
    assert log[0] == Alarm && log[1] == Alarm;
  }

  /** A recovery can follow an alarm nobody received: it goes by the count, not by the marker. */
  lemma RecoveryWithoutAlarm()
    ensures var unheard, seen := Sighting(false, false, true, true), Sighting(true, true, true, true);
            Notices(Blindness(0, false), [unheard, unheard, unheard, seen]) == [Recovery]
  {
    var unheard, seen := Sighting(false, false, true, true), Sighting(true, true, true, true);
    assert [unheard, unheard, unheard, seen][1..] == [unheard, unheard, seen];
    assert [unheard, unheard, seen][1..] == [unheard, seen];
    assert [unheard, seen][1..] == [seen];
    assert Notices(Blindness(3, false), [seen]) == [Recovery] + Notices(Blindness(0, false), []);
    assert Notices(Blindness(2, false), [unheard, seen]) == [Recovery];
    assert Notices(Blindness(1, false), [unheard, unheard, seen]) == [Recovery];
  }

  /* ----- when a recovery answers an alarm ----- */

  /** The poll writes the alarm marker: after a delivered alarm, or to clear one that reads as set. */
  predicate WritesMarker(b: Blindness, s: Sighting) {
    if s.sees then b.alarm && b.count > 0 && (b.count >= BLIND_POLL_THRESHOLD ==> s.delivered)
    else After(b, s).1 == [Alarm]
  }

  /** Every write of the alarm marker lands. */
  predicate MarkersLand(b: Blindness, run: seq<Sighting>)
    decreases |run|
  {
    run == [] || ((WritesMarker(b, run[0]) ==> run[0].markerLands) && MarkersLand(After(b, run[0]).0, run[1..]))
  }

  /** The last notice delivered is an alarm; with none delivered, what was so before. */
  predicate EndsAlarmed(announced: bool, log: seq<Notice>) {
    if log == [] then announced else log[|log| - 1] == Alarm
  }

  lemma EndsAfter(announced: bool, said: seq<Notice>, next: bool, rest: seq<Notice>)
    requires next == EndsAlarmed(announced, said)
    ensures EndsAlarmed(announced, said + rest) == EndsAlarmed(next, rest)
  {
    if rest == [] { assert said + rest == said; }
  }

  /** One poll leaves the marker saying what the last delivered notice says. */
  lemma MarkerFollows(b: Blindness, s: Sighting)
    requires Consistent(b) && (WritesMarker(b, s) ==> s.markerLands)
    ensures Consistent(After(b, s).0) && After(b, s).0.alarm == EndsAlarmed(b.alarm, After(b, s).1)
  {
  }

  /** At any time the marker is set exactly when the last delivered notice is an alarm. */
  lemma {:induction false} MarkerIsLastNotice(b: Blindness, run: seq<Sighting>)
    requires Consistent(b) && MarkersLand(b, run)
    ensures State(b, run).alarm == EndsAlarmed(b.alarm, Notices(b, run))
    decreases |run|
  {
    if run != [] {
      var next, said := After(b, run[0]).0, After(b, run[0]).1;
      MarkerFollows(b, run[0]);
      MarkerIsLastNotice(next, run[1..]);
      EndsAfter(b.alarm, said, next.alarm, Notices(next, run[1..]));
    }
  }

  /** Every recovery directly follows an alarm; the first may follow one delivered before. */
  predicate Answers(announced: bool, log: seq<Notice>)
    decreases |log|
  {
    log == [] || ((log[0] == Recovery ==> announced) && Answers(log[0] == Alarm, log[1..]))
  }

  ghost predicate EachAnswers(announced: bool, log: seq<Notice>) {
    && (log != [] && log[0] == Recovery ==> announced)
    && (forall i :: 0 < i < |log| && log[i] == Recovery ==> log[i - 1] == Alarm)
  }

  lemma EachAnswersStep(announced: bool, log: seq<Notice>)
    requires log != []
    ensures EachAnswers(announced, log) <==>
              (log[0] == Recovery ==> announced) && EachAnswers(log[0] == Alarm, log[1..])
  {
    var rest := log[1..];
    assert forall i :: 0 <= i < |rest| ==> rest[i] == log[i + 1];
    if EachAnswers(announced, log) {
      forall i | 0 < i < |rest| && rest[i] == Recovery ensures rest[i - 1] == Alarm { assert log[i + 1] == Recovery; }
    }
    if (log[0] == Recovery ==> announced) && EachAnswers(log[0] == Alarm, rest) {
      forall i | 0 < i < |log| && log[i] == Recovery ensures log[i - 1] == Alarm {
        assert rest[i - 1] == Recovery;
        if i > 1 { assert rest[i - 2] == log[i - 1]; }
      }
    }
  }

  /** The same position by position. */
  lemma {:induction false} AnswersMeans(announced: bool, log: seq<Notice>)
    ensures Answers(announced, log) <==> EachAnswers(announced, log)
    decreases |log|
  {
    if log != [] {
      AnswersMeans(log[0] == Alarm, log[1..]);
      EachAnswersStep(announced, log);
    }
  }

  /** At every seeing poll past the threshold whose notice is delivered, the marker reads as set:
      the guard `note_seeing_poll` does not consult. */
  predicate MarkedWhenRecovering(b: Blindness, run: seq<Sighting>)
    decreases |run|
  {
    run == [] ||
    ((run[0].sees && b.count >= BLIND_POLL_THRESHOLD && run[0].delivered ==> b.alarm) &&
     MarkedWhenRecovering(After(b, run[0]).0, run[1..]))
  }

  /** Recovery is announced only for a reported blindness exactly in the runs where each delivering
      recovery finds the marker set. */
  lemma {:induction false} RecoveryAnswersExactly(b: Blindness, run: seq<Sighting>)
    requires Consistent(b) && MarkersLand(b, run)
    ensures Answers(b.alarm, Notices(b, run)) <==> MarkedWhenRecovering(b, run)
    decreases |run|
  {
    if run != [] {
      var next, said := After(b, run[0]).0, After(b, run[0]).1;
      var rest := Notices(next, run[1..]);
      MarkerFollows(b, run[0]);
      RecoveryAnswersExactly(next, run[1..]);
      if said == [] {
        assert said + rest == rest;
      } else {
        assert (said + rest)[1..] == rest;
      }
    }
  }

  /** From a fresh start, as the documentation puts it: every delivered recovery directly follows a
      delivered alarm if and only if each found the marker set. */
  lemma RecoveriesFollowAlarms(run: seq<Sighting>)
    requires MarkersLand(Blindness(0, false), run)
    ensures var log := Notices(Blindness(0, false), run);
            EachAnswers(false, log) <==> MarkedWhenRecovering(Blindness(0, false), run)
  {
    RecoveryAnswersExactly(Blindness(0, false), run);
    AnswersMeans(false, Notices(Blindness(0, false), run));
  }

  /* ----- what a run without failures says ----- */

  /** Whatever the poll sends is delivered and whatever it writes lands. */
  predicate Smooth(s: Sighting) { s.delivered && s.countLands && s.markerLands }

  /** The blind polls at the end of a run. */
  function Streak(run: seq<Sighting>): nat {
    if run == [] || run[|run| - 1].sees then 0 else 1 + Streak(run[..|run| - 1])
  }

  lemma {:induction false} StateGrows(b: Blindness, run: seq<Sighting>, s: Sighting)
    ensures State(b, run + [s]) == After(State(b, run), s).0
    ensures Notices(b, run + [s]) == Notices(b, run) + After(State(b, run), s).1
    decreases |run|
  {
    if run == [] {
      assert [] + [s] == [s] && [s][1..] == [];
    } else {
      assert (run + [s])[1..] == run[1..] + [s];
      StateGrows(After(b, run[0]).0, run[1..], s);
    }
  }

  /** The count is the number of blind polls since the last that saw, and the marker says whether they
      were reported. */
  lemma {:induction false} CountIsStreak(run: seq<Sighting>)
    requires forall s :: s in run ==> Smooth(s)
    ensures State(Blindness(0, false), run) == Blindness(Streak(run), Streak(run) >= BLIND_POLL_THRESHOLD)
    decreases |run|
  {
    if run != [] {
      var front, last := run[..|run| - 1], run[|run| - 1];
      assert run == front + [last] && last in run && forall s :: s in front ==> s in run;
      CountIsStreak(front);
      StateGrows(Blindness(0, false), front, last);
    }
  }

  /** An alarm goes out exactly with the third blind poll in a row, a recovery exactly with the first that
      sees after three or more. */
  lemma AnnouncedExactly(run: seq<Sighting>, s: Sighting)
    requires Smooth(s) && forall x :: x in run ==> Smooth(x)
    ensures Notices(Blindness(0, false), run + [s]) ==
              Notices(Blindness(0, false), run) +
              if s.sees && Streak(run) >= BLIND_POLL_THRESHOLD then [Recovery]
              else if !s.sees && Streak(run) + 1 == BLIND_POLL_THRESHOLD then [Alarm]
              else []
  {
    CountIsStreak(run);
    StateGrows(Blindness(0, false), run, s);
  }

  /** A poll that sees after too few blind ones says nothing, and the count is cleared if the write lands. */
  lemma SeeingBelowClears(b: Blindness, s: Sighting)
    requires s.sees && Consistent(b) && b.count < BLIND_POLL_THRESHOLD
    ensures After(b, s) == (if s.countLands then Blindness(0, false) else b, [])
  {
  }

  /* ----- the verification verdict ----- */

  datatype Finding = Pass | Fail | Unchecked

  /** The services' verdict has no tag; each hourly-only check keeps its own. */
  type Tag = Option<string>

  datatype Check = Check(tag: Tag, verdict: Finding, delivered: bool, lands: bool)

  datatype Page = Page(tag: Tag, verdict: Finding)

  type Verdicts = map<Tag, Finding>

  predicate Changed(m: Verdicts, c: Check) { c.tag !in m || m[c.tag] != c.verdict }

  /** Only a first pass is recorded without a page. */
  predicate Pages(m: Verdicts, c: Check) { Changed(m, c) && (c.verdict != Pass || c.tag in m) }

  function Noted(m: Verdicts, c: Check): Verdicts {
    if Changed(m, c) && (Pages(m, c) ==> c.delivered) && c.lands then m[c.tag := c.verdict] else m
  }

  function Paged(m: Verdicts, c: Check): seq<Page> {
    if Pages(m, c) && c.delivered then [Page(c.tag, c.verdict)] else []
  }

  class VerifyRecord {
    var verdicts: Verdicts
    var log: seq<Page>

    constructor ()
      ensures verdicts == map[] && log == []
    {
      verdicts, log := map[], [];
    }

    /** `note_verify_verdict`. */
    method NoteVerifyVerdict(c: Check)
      modifies this
      ensures verdicts == Noted(old(verdicts), c) && log == old(log) + Paged(old(verdicts), c)
    {
      var previous := if c.tag in verdicts then Some(verdicts[c.tag]) else None;
      if Some(c.verdict) == previous { return; }
      if c.verdict != Pass || previous.Some? {
        if !c.delivered { return; }
        log := log + [Page(c.tag, c.verdict)];
      }
      if c.lands { verdicts := verdicts[c.tag := c.verdict]; }
    }
  }

  /** The pages delivered for one tag over a run. */
  function PagesFor(m: Verdicts, run: seq<Check>, tag: Tag): seq<Finding>
    decreases |run|
  {
    if run == [] then []
    else
      (if run[0].tag == tag && Paged(m, run[0]) != [] then [run[0].verdict] else []) +
          PagesFor(Noted(m, run[0]), run[1..], tag)
  }

  /** Every page delivered for the tag is recorded. */
  predicate PagesRecorded(m: Verdicts, run: seq<Check>, tag: Tag)
    decreases |run|
  {
    run == [] ||
    ((run[0].tag == tag && Paged(m, run[0]) != [] ==> run[0].lands) &&
        PagesRecorded(Noted(m, run[0]), run[1..], tag))
  }

  /** As long as every delivered page is recorded, consecutive pages for one tag never carry the
      same verdict, whatever other tags do and whatever is not delivered. */
  lemma {:induction false} PagesChange(m: Verdicts, run: seq<Check>, tag: Tag)
    requires PagesRecorded(m, run, tag)
    ensures var log := PagesFor(m, run, tag);
            && (tag in m && log != [] ==> log[0] != m[tag])
            && (tag !in m && log != [] ==> log[0] != Pass)
            && (forall i :: 0 <= i < |log| - 1 ==> log[i] != log[i + 1])
    decreases |run|
  {
    if run != [] {
      var c, next := run[0], Noted(m, run[0]);
      PagesChange(next, run[1..], tag);
    }
  }

  /** What is paged of one tag's verdicts when everything lands: each that differs from the one before
      it, a first pass excepted. */
  function Changes(previous: Option<Finding>, verdicts: seq<Finding>): seq<Finding>
    decreases |verdicts|
  {
    if verdicts == [] then []
    else
      var v := verdicts[0];
      (if previous == Some(v) || (previous.None? && v == Pass) then [] else [v]) + Changes(Some(v), verdicts[1..])
  }

  function VerdictsOf(run: seq<Check>, tag: Tag): seq<Finding> {
    if run == [] then []
    else (if run[0].tag == tag then [run[0].verdict] else []) + VerdictsOf(run[1..], tag)
  }

  lemma ChangesStep(previous: Option<Finding>, v: Finding, rest: seq<Finding>)
    ensures Changes(previous, [v] + rest) ==
              (if previous == Some(v) || (previous.None? && v == Pass) then [] else [v]) + Changes(Some(v), rest)
  {
    assert ([v] + rest)[1..] == rest;
  }

  /** One check whose page and record land. */
  lemma CheckLands(m: Verdicts, c: Check, tag: Tag)
    requires c.delivered && c.lands
    ensures Get(Noted(m, c), tag) == if c.tag == tag then Some(c.verdict) else Get(m, tag)
    ensures Paged(m, c) != [] <==> !(Get(m, c.tag) == Some(c.verdict) || (Get(m, c.tag).None? && c.verdict == Pass))
  {
  }

  /** With every page delivered and every record landing, a tag's pages are the changes of its verdicts. */
  lemma {:induction false} PagesExactly(m: Verdicts, run: seq<Check>, tag: Tag)
    requires forall c :: c in run ==> c.delivered && c.lands
    ensures PagesFor(m, run, tag) == Changes(Get(m, tag), VerdictsOf(run, tag))
    decreases |run|
  {
    if run != [] {
      var c, rest := run[0], VerdictsOf(run[1..], tag);
      assert c in run && forall x :: x in run[1..] ==> x in run;
      PagesExactly(Noted(m, c), run[1..], tag);
      CheckLands(m, c, tag);
      if c.tag == tag {
        ChangesStep(Get(m, tag), c.verdict, rest);
      } else {
        assert [] + rest == rest;
      }
    }
  }

  /** A page whose record is lost is sent again. */
  lemma UnrecordedPageRepeats(tag: Tag)
    ensures var lost := Check(tag, Fail, true, false); PagesFor(map[], [lost, lost], tag) == [Fail, Fail]
  {
    var lost := Check(tag, Fail, true, false);
    assert [lost, lost][1..] == [lost];
    assert PagesFor(map[], [lost], tag) == [Fail] + PagesFor(map[], [], tag);
  }
}
