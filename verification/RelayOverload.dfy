/** More unhealthy containers than a state document may hold: which sections still act, and how an
    accepted document of the first version silences the relay. */
module RelayOverload {
  import opened Orders
  import opened Options
  import opened RelayModel
  import opened RelayBounds
  import opened RelayHealth
  import opened RelaySections
  import opened RelayDocuments
  import opened RelayThreads

  function UnhealthyIds(entries: map<Identity, Entry>): set<Identity> {
    set id | id in entries && entries[id].state.Unhealthy?
  }

  lemma CoreCount(entries: map<Identity, Entry>)
    ensures Core(entries).entries.Keys == UnhealthyIds(entries) && |Core(entries).entries| == |UnhealthyIds(entries)|
  {
    assert Core(entries).entries.Keys == UnhealthyIds(entries);
    assert |Core(entries).entries| == |Core(entries).entries.Keys|;
  }

  /** A section acts exactly when its event is not dropped and the unhealthy entries it leaves fit. */
  lemma ActsExactly(c: Ceilings, floor: Option<Budget>, stored: Stored, d: Delivery, now: Moment)
    ensures var t := Transitioned(Adopted(stored.entries, d).0, d);
            Planned(c, floor, stored, d, now).Act? <==>
              t.0.Some? && Fits(Decided(c, floor, stored, d, now).1, Core(t.1))
  {
    var t := Transitioned(Adopted(stored.entries, d).0, d);
    RefusedExactly(t.1, Decided(c, floor, stored, d, now).1, now);
  }

  /* ----- how a section changes the number of unhealthy containers ----- */

  /** Renaming a host moves an entry and keeps its state. */
  lemma AdoptionKeepsCount(entries: map<Identity, Entry>, d: Delivery)
    ensures |UnhealthyIds(Adopted(entries, d).0)| == |UnhealthyIds(entries)|
  {
    var before, next := UnhealthyIds(entries), UnhealthyIds(Adopted(entries, d).0);
    if Adopted(entries, d).1 {
      var id, former := IdentityOf(d.event), GOLEM_FORMER_NAME + "\0" + d.event.containerId;
      if former in before {
        assert next == (before - {former}) + {id};
      } else {
        assert next == before;
      }
    }
  }

  /** The delivery takes an unhealthy container off the register. */
  predicate Heals(entries: map<Identity, Entry>, d: Delivery) {
    && d.Container? && d.event.rule == Recovered && IdentityOf(d.event) in UnhealthyIds(entries)
    && Rank(entries[IdentityOf(d.event)]) < Rank(Reported(Recovered, d.event.stamp))
  }

  /** One delivery heals one container, or leaves every unhealthy one so. */
  lemma TransitionCount(entries: map<Identity, Entry>, d: Delivery)
    ensures var next := UnhealthyIds(Transitioned(entries, d).1);
            if Heals(entries, d) then |next| == |UnhealthyIds(entries)| - 1 else |next| >= |UnhealthyIds(entries)|
  {
    var before, next := UnhealthyIds(entries), UnhealthyIds(Transitioned(entries, d).1);
    if Heals(entries, d) {
      assert next == before - {IdentityOf(d.event)};
    } else {
      assert before <= next;
      SubsetCount(before, next);
    }
  }

  lemma SubsetCount<T>(a: set<T>, b: set<T>)
    requires a <= b
    ensures |a| <= |b|
  {
    assert b == a + (b - a);
  }

  /** With one unhealthy container too many only a recovery of one of them acts; with two too many
      nothing does. */
  lemma OverfullActs(c: Ceilings, floor: Option<Budget>, stored: Stored, d: Delivery, now: Moment)
    requires |UnhealthyIds(stored.entries)| > MAX_STATE_ENTRIES && Planned(c, floor, stored, d, now).Act?
    ensures |UnhealthyIds(stored.entries)| == MAX_STATE_ENTRIES + 1 && Heals(Adopted(stored.entries, d).0, d)
  {
    var entries := Adopted(stored.entries, d).0;
    AdoptionKeepsCount(stored.entries, d);
    TransitionCount(entries, d);
    ActsExactly(c, floor, stored, d, now);
    CoreCount(Transitioned(entries, d).1);
  }

  /* ----- whole runs ----- */

  /** Every read finds too many unhealthy containers: two too many, or one and nothing recovers. */
  predicate Overfull(s: Step, two: bool) {
    match s
    case Arrive(_, d, _) => two || d.Host? || d.event.rule != Recovered
    case Read(_, stored) => |UnhealthyIds(stored.entries)| >= MAX_STATE_ENTRIES + (if two then 2 else 1)
    case _ => true
  }

  ghost predicate Silent(w: World, two: bool) {
    && w.log == [] && w.written == {} && w.floor == None
    && forall t: nat :: SilentPc(w.At(t), two)
  }

  predicate SilentPc(pc: Pc, two: bool) {
    && !pc.Ready? && !pc.Out? && !pc.FloorRaised?
    && (!pc.Idle? ==> two || pc.d.Host? || pc.d.event.rule != Recovered)
    && (pc.HasRead? ==> |UnhealthyIds(pc.stored.entries)| >= MAX_STATE_ENTRIES + (if two then 2 else 1))
  }

  lemma SilentStep(sys: System, w: World, s: Step, two: bool)
    requires Silent(w, two) && Enabled(sys, w, s) && Overfull(s, two)
    ensures Silent(Do(sys, w, s), two)
  {
    if !s.Restart? {
      var w', pc := Do(sys, w, s), w.At(s.t);
      assert SilentPc(pc, two);
      if s.Decide? && Planned(sys.ceilings, w.floor, pc.stored, pc.d, pc.now).Act? {
        OverfullActs(sys.ceilings, w.floor, pc.stored, pc.d, pc.now);
      }
      forall t: nat ensures SilentPc(w'.At(t), two) {
        if t != s.t { assert w'.At(t) == w.At(t); }
      }
    }
  }

  /** As long as every read finds that many, nothing is published and nothing is written, so every
      later read finds them too. */
  lemma {:induction false} NothingEverPublished(sys: System, steps: seq<Step>, two: bool)
    requires Run(sys, steps).Some? && forall s :: s in steps ==> Overfull(s, two)
    ensures Silent(Run(sys, steps).value, two)
  {
    if steps != [] {
      var front, last := steps[..|steps| - 1], steps[|steps| - 1];
      assert last in steps && forall s :: s in front ==> s in steps;
      NothingEverPublished(sys, front, two);
      SilentStep(sys, Run(sys, front).value, last, two);
    }
  }

  /* ----- documents of the first version ----- */

  /** Everything such a document lists is unhealthy. */
  lemma LegacyUnhealthy(doc: Doc)
    requires doc.Version1? && Parsed(doc).Some?
    ensures |UnhealthyIds(Parsed(doc).value.entries)| == |doc.unhealthy|
  {
    var e := LegacyEntries(doc.unhealthy);
    LegacyCount(doc.unhealthy);
    assert UnhealthyIds(e) == e.Keys && |e.Keys| == |e|;
  }

  /** What a section does with a document that lists more than a state may hold: nothing, unless it
      lists exactly one too many and one of them recovers. */
  lemma LegacySections(c: Ceilings, floor: Option<Budget>, doc: Doc, d: Delivery, now: Moment)
    requires doc.Version1? && Parsed(doc).Some? && |doc.unhealthy| > MAX_STATE_ENTRIES
    ensures var stored := Parsed(doc).value; var entries := Adopted(stored.entries, d).0;
            Planned(c, floor, stored, d, now).Act? <==>
              && |doc.unhealthy| == MAX_STATE_ENTRIES + 1 && Heals(entries, d)
              && Fits(Decided(c, floor, stored, d, now).1, Core(Transitioned(entries, d).1))
  {
    var stored := Parsed(doc).value;
    LegacyUnhealthy(doc);
    ActsExactly(c, floor, stored, d, now);
    if Planned(c, floor, stored, d, now).Act? { OverfullActs(c, floor, stored, d, now); }
  }

  /* ----- such documents exist ----- */

  function Repeated(n: nat): string { if n == 0 then "" else "a" + Repeated(n - 1) }

  /** A host named by n letters and one container on it. */
  function LegacyId(n: nat): Identity { Repeated(n) + "\0" + "000000000000" }

  function LegacyIds(n: nat): seq<Identity> { seq(n, i requires 0 <= i < n => LegacyId(i + 1)) }

  lemma {:induction false} RepeatedIs(n: nat)
    ensures |Repeated(n)| == n && forall i :: 0 <= i < n ==> Repeated(n)[i] == 'a'
  {
    if n > 0 { RepeatedIs(n - 1); }
  }

  lemma LegacyIdValid(n: nat)
    requires 1 <= n <= 256
    ensures ValidIdentity(LegacyId(n))
  {
    RepeatedIs(n);
    var s := LegacyId(n);
    assert s[..n] == Repeated(n) && s[n] == '\0' && s[n + 1..] == "000000000000";
  }

  lemma {:induction false} LegacyIdsRise(m: nat, n: nat)
    requires m < n
    ensures StrLess(LegacyId(m), LegacyId(n))
  {
    var s, t := LegacyId(m), LegacyId(n);
    if m == 0 {
      assert s[0] == '\0' && t[0] == 'a';
    } else {
      assert s[1..] == LegacyId(m - 1) && t[1..] == LegacyId(n - 1) && s[0] == t[0] == 'a';
      LegacyIdsRise(m - 1, n - 1);
    }
  }

  lemma LegacyIdsIncreasing(n: nat)
    ensures Increasing(StrLess, LegacyIds(n))
  {
    forall i, j | 0 <= i < j < n ensures StrLess(LegacyIds(n)[i], LegacyIds(n)[j]) { LegacyIdsRise(i + 1, j + 1); }
  }

  lemma LegacyIdsCanonical(n: nat)
    ensures Canonical(LegacyIds(n))
  {
    LegacyIdsIncreasing(n);
    CanonicalIncreasing(LegacyIds(n));
  }

  lemma LegacyIdsValid(n: nat, id: Identity)
    requires n <= 256 && id in LegacyIds(n)
    ensures ValidIdentity(id)
  {
    var i :| 0 <= i < n && LegacyIds(n)[i] == id;
    LegacyIdValid(i + 1);
  }

  /** A first-version document of any such length is accepted. */
  lemma LongDocumentAccepted(n: nat)
    requires n <= 256
    ensures Parsed(Version1(LegacyIds(n))).Some? && |LegacyIds(n)| == n
  {
    LegacyIdsCanonical(n);
    forall id | id in LegacyIds(n) ensures ValidIdentity(id) { LegacyIdsValid(n, id); }
  }

  /** While a document of two too many is what every read finds, no run publishes, charges or writes. */
  lemma LegacyDocumentSilences(sys: System, steps: seq<Step>, doc: Doc)
    requires doc.Version1? && Parsed(doc).Some? && |doc.unhealthy| >= MAX_STATE_ENTRIES + 2
    requires Run(sys, steps).Some? && forall s :: s in steps && s.Read? ==> Some(s.stored) == Parsed(doc)
    ensures var w := Run(sys, steps).value; w.log == [] && w.written == {} && w.floor == None
  {
    LegacyUnhealthy(doc);
    forall s | s in steps ensures Overfull(s, true) {}
    NothingEverPublished(sys, steps, true);
  }
}
