/** The health register over whole sections: what the store holds after any deliveries. */
module RelayRegisters {
  import opened Options
  import opened RelayModel
  import opened RelayBounds
  import opened RelayHealth
  import opened RelayDedupe
  import opened RelaySections
  import opened RelayDocuments

  /* ----- what one delivery does to the register ----- */

  /** The register after an event was carried out; a dropped one leaves it alone. */
  function Taken(m: map<Identity, Entry>, e: Event): map<Identity, Entry> {
    var t := Transitioned(Adopted(m, Container(e)).0, Container(e));
    if t.0.None? then m else t.1
  }

  /** An identity filed under the renamed host's old name. */
  predicate IsFormer(id: Identity) { GOLEM_FORMER_NAME + "\0" <= id }

  predicate IsRenamed(id: Identity) { GOLEM + "\0" <= id }

  /** Where the entry of a container on the renamed host used to stand. */
  function FormerOf(id: Identity): Identity
    requires IsRenamed(id)
  {
    GOLEM_FORMER_NAME + "\0" + id[|GOLEM| + 1..]
  }

  /** A well-formed event from a host that does not use the old name. */
  predicate Current(e: Event) { ValidHost(e.host) && e.host != GOLEM_FORMER_NAME }

  predicate IsHealth(e: Event) { e.rule == BecameUnhealthy || e.rule == Recovered }

  /** A NUL ends a host's name, so no name is the beginning of another's identity. */
  lemma OtherLength(host: string, name: string, containerId: string)
    requires ValidHost(host) && ValidHost(name) && |host| != |name|
    ensures !(name + "\0" <= host + "\0" + containerId)
  {
    var id, start, n := host + "\0" + containerId, name + "\0", if |host| < |name| then |host| else |name|;
    assert id[n] == (if |host| < |name| then '\0' else host[n]) &&
        start[n] == (if |host| < |name| then name[n] else '\0');
  }

  lemma HostOf(host: string, name: string, containerId: string)
    requires ValidHost(host) && ValidHost(name)
    ensures name + "\0" <= host + "\0" + containerId <==> host == name
  {
    var id, start := host + "\0" + containerId, name + "\0";
    if |host| != |name| { OtherLength(host, name, containerId); }
    assert id[..|host|] == host && start[..|name|] == name;
    if host == name { assert id[..|start|] == start; }
  }

  lemma NamesValid()
    ensures ValidHost(GOLEM) && ValidHost(GOLEM_FORMER_NAME)
  {
  }

  lemma HomeIs(e: Event)
    requires Current(e)
    ensures !IsFormer(IdentityOf(e)) && (IsRenamed(IdentityOf(e)) <==> e.host == GOLEM)
    ensures e.host == GOLEM ==> FormerOf(IdentityOf(e)) == GOLEM_FORMER_NAME + "\0" + e.containerId
  {
    NamesValid();
    HostOf(e.host, GOLEM_FORMER_NAME, e.containerId);
    HostOf(e.host, GOLEM, e.containerId);
    if e.host == GOLEM { assert IdentityOf(e)[|GOLEM| + 1..] == e.containerId; }
  }

  lemma FormerIs(x: Identity)
    requires IsRenamed(x)
    ensures IsFormer(FormerOf(x)) && !IsFormer(x)
  {
    assert x[0] == GOLEM[0] != GOLEM_FORMER_NAME[0];
  }

  lemma FormersApart(x: Identity, y: Identity)
    requires IsRenamed(x) && IsRenamed(y) && FormerOf(x) == FormerOf(y)
    ensures x == y
  {
    var n := |GOLEM| + 1;
    assert FormerOf(x)[n..] == x[n..] && FormerOf(y)[n..] == y[n..];
    assert x == x[..n] + x[n..] && y == y[..n] + y[n..];
  }

  /** What is known of a container, wherever it is filed. */
  function Known(m: map<Identity, Entry>, x: Identity): Option<Entry> {
    if x in m then Some(m[x])
    else if IsRenamed(x) then Get(m, FormerOf(x))
    else None
  }

  /** The event is not dropped, and there is something to file under the container's own name. */
  predicate Files(known: Option<Entry>, e: Event) {
    if IsHealth(e) then Transition(known, Reported(e.rule, e.stamp)).0.Some? else known.Some?
  }

  lemma TakenHome(m: map<Identity, Entry>, e: Event)
    requires Current(e)
    ensures var x := IdentityOf(e); var next := Taken(m, e);
            && Known(next, x) ==
                 (if IsHealth(e) then Transition(Known(m, x), Reported(e.rule, e.stamp)).1 else Known(m, x))
            && (x in next <==> x in m || Files(Known(m, x), e))
            && (IsRenamed(x) ==> Get(next, FormerOf(x)) ==
                                  if x !in m && Files(Known(m, x), e) then None else Get(m, FormerOf(x)))
  {
    HomeIs(e);
    if e.host == GOLEM { FormerIs(IdentityOf(e)); }
  }

  lemma TakenElsewhere(m: map<Identity, Entry>, e: Event, y: Identity)
    requires Current(e) && y != IdentityOf(e) && (IsRenamed(IdentityOf(e)) ==> y != FormerOf(IdentityOf(e)))
    ensures Get(Taken(m, e), y) == Get(m, y)
  {
    HomeIs(e);
  }

  /* ----- any number of deliveries ----- */

  function Register(m: map<Identity, Entry>, events: seq<Event>): map<Identity, Entry> {
    if events == [] then m else Taken(Register(m, events[..|events| - 1]), events[|events| - 1])
  }

  predicate AllCurrent(events: seq<Event>) { forall e :: e in events ==> Current(e) }

  function ReportOf(e: Event): Report { Report(IdentityOf(e), Reported(e.rule, e.stamp)) }

  /** What the health events among them report. */
  function ReportsOf(events: seq<Event>): seq<Report> {
    if events == [] then []
    else
      var last := events[|events| - 1];
      ReportsOf(events[..|events| - 1]) + if IsHealth(last) then [ReportOf(last)] else []
  }

  ghost predicate SomeFiles(m: map<Identity, Entry>, events: seq<Event>, x: Identity) {
    exists e :: e in events && IdentityOf(e) == x && Files(Known(m, x), e)
  }

  /** What was known of one container, alone. */
  function Alone(x: Identity, known: Option<Entry>): map<Identity, Entry> {
    if known.Some? then map[x := known.value] else map[]
  }

  lemma SettledGrows(m: map<Identity, Entry>, before: seq<Report>, r: Report)
    ensures var s := Settled(m, before);
            Settled(m, before + [r]) == s[r.id := Transition(EntryAt(s, r.id), r.entry).1.value]
  {
    assert (before + [r])[..|before|] == before;
  }

  lemma KnownStays(m: map<Identity, Entry>, e: Event, x: Identity)
    requires Current(e) && !IsFormer(x) && x != IdentityOf(e)
    ensures Known(Taken(m, e), x) == Known(m, x) && (x in Taken(m, e) <==> x in m)
    ensures IsRenamed(x) ==> Get(Taken(m, e), FormerOf(x)) == Get(m, FormerOf(x))
  {
    var y := IdentityOf(e);
    HomeIs(e);
    if IsRenamed(y) { FormerIs(y); }
    TakenElsewhere(m, e, x);
    if IsRenamed(x) {
      FormerIs(x);
      if IsRenamed(y) && FormerOf(x) == FormerOf(y) { FormersApart(x, y); }
      TakenElsewhere(m, e, FormerOf(x));
    }
  }

  /** What is known of a container after any deliveries is what its reports settle to. */
  lemma {:induction false} KnownSettles(m: map<Identity, Entry>, events: seq<Event>, x: Identity)
    requires AllCurrent(events) && !IsFormer(x)
    ensures Known(Register(m, events), x) == EntryAt(Settled(Alone(x, Known(m, x)), ReportsOf(events)), x)
  {
    if events != [] {
      var front, last := events[..|events| - 1], events[|events| - 1];
      assert events == front + [last];
      KnownSettles(m, front, x);
      KnownStep(m, front, last, x);
    }
  }

  lemma KnownStep(m: map<Identity, Entry>, front: seq<Event>, last: Event, x: Identity)
    requires Current(last) && !IsFormer(x)
    requires Known(Register(m, front), x) == EntryAt(Settled(Alone(x, Known(m, x)), ReportsOf(front)), x)
    ensures Known(Taken(Register(m, front), last), x) ==
              EntryAt(Settled(Alone(x, Known(m, x)), ReportsOf(front + [last])), x)
  {
    assert (front + [last])[..|front|] == front;
    if IdentityOf(last) == x { TakenHome(Register(m, front), last); } else { KnownStays(Register(m, front), last, x); }
    if IsHealth(last) {
      SettledGrows(Alone(x, Known(m, x)), ReportsOf(front), ReportOf(last));
      UnfiledKeeps(Known(Register(m, front), x), last);
      assert ReportsOf(front + [last]) == ReportsOf(front) + [ReportOf(last)];
    } else {
      assert ReportsOf(front + [last]) == ReportsOf(front);
    }
  }

  /** While nothing is filed for a container, what is known of it and where stays as it was. */
  ghost predicate Untouched(m: map<Identity, Entry>, next: map<Identity, Entry>, x: Identity) {
    Known(next, x) == Known(m, x) && (x in next <==> x in m) &&
        (IsRenamed(x) ==> Get(next, FormerOf(x)) == Get(m, FormerOf(x)))
  }

  /** Once something is, it stands under the container's own name, and no longer under the old one if it was moved. */
  ghost predicate Filed(m: map<Identity, Entry>, next: map<Identity, Entry>, x: Identity) {
    x in next && (IsRenamed(x) ==> Get(next, FormerOf(x)) == if x in m then Get(m, FormerOf(x)) else None)
  }

  lemma PlaceStep(m: map<Identity, Entry>, now: map<Identity, Entry>, e: Event, x: Identity)
    requires Current(e) && !IsFormer(x)
    requires Untouched(m, now, x) || Filed(m, now, x)
    ensures IdentityOf(e) == x && Files(Known(m, x), e) && Untouched(m, now, x) ==> Filed(m, Taken(now, e), x)
    ensures Filed(m, now, x) ==> Filed(m, Taken(now, e), x)
    ensures Untouched(m, now, x) && !(IdentityOf(e) == x && Files(Known(m, x), e)) ==> Untouched(m, Taken(now, e), x)
  {
    if IdentityOf(e) == x {
      TakenHome(now, e);
      UnfiledKeeps(Known(now, x), e);
    } else {
      KnownStays(now, e, x);
    }
  }

  lemma UnfiledKeeps(known: Option<Entry>, e: Event)
    ensures var t := Transition(known, Reported(e.rule, e.stamp)); t.1.Some? && (t.0.None? ==> t.1 == known)
  {
  }

  /** Where a container is filed after any deliveries depends on which they are, not on their order. */
  lemma {:induction false} PlaceSettles(m: map<Identity, Entry>, events: seq<Event>, x: Identity)
    requires AllCurrent(events) && !IsFormer(x)
    ensures if SomeFiles(m, events, x) then Filed(m, Register(m, events), x) else Untouched(m, Register(m, events), x)
  {
    if events != [] {
      var front, last := events[..|events| - 1], events[|events| - 1];
      assert events == front + [last];
      PlaceSettles(m, front, x);
      PlaceStep(m, Register(m, front), last, x);
      SomeFilesGrows(m, front, last, x);
    }
  }

  lemma SomeFilesGrows(m: map<Identity, Entry>, front: seq<Event>, last: Event, x: Identity)
    ensures SomeFiles(m, front + [last], x) <==>
              SomeFiles(m, front, x) || (IdentityOf(last) == x && Files(Known(m, x), last))
  {
    if SomeFiles(m, front, x) {
      var e :| e in front && IdentityOf(e) == x && Files(Known(m, x), e);
      assert e in front + [last];
    }
    assert last in front + [last];
  }

  /* ----- the order does not matter ----- */

  lemma {:induction false} ReportMember(events: seq<Event>, r: Report)
    ensures r in ReportsOf(events) <==> exists e :: e in events && IsHealth(e) && ReportOf(e) == r
  {
    if events != [] {
      var front, last := events[..|events| - 1], events[|events| - 1];
      assert events == front + [last];
      ReportMember(front, r);
      if IsHealth(last) && ReportOf(last) == r { assert last in events; }
      if e :| e in front && IsHealth(e) && ReportOf(e) == r { assert e in events; }
    }
  }

  ghost predicate SameEvents(a: seq<Event>, b: seq<Event>) { forall e :: e in a <==> e in b }

  lemma SameReports(a: seq<Event>, b: seq<Event>)
    requires SameEvents(a, b)
    ensures forall r :: r in ReportsOf(a) <==> r in ReportsOf(b)
  {
    forall r ensures r in ReportsOf(a) <==> r in ReportsOf(b) {
      ReportMember(a, r);
      ReportMember(b, r);
    }
  }

  /** What a reader sees of one entry. */
  function Seen(e: Option<Entry>): Option<(Health, nat)> {
    if e.Some? then Some((e.value.state, e.value.stamp.instant)) else None
  }

  lemma KnownSame(m: map<Identity, Entry>, a: seq<Event>, b: seq<Event>, x: Identity)
    requires AllCurrent(a) && AllCurrent(b) && SameEvents(a, b) && !IsFormer(x)
    ensures Seen(Known(Register(m, a), x)) == Seen(Known(Register(m, b), x))
  {
    KnownSettles(m, a, x);
    KnownSettles(m, b, x);
    SameReports(a, b);
    SameRegister(Alone(x, Known(m, x)), ReportsOf(a), ReportsOf(b), x);
  }

  lemma SamePlace(m: map<Identity, Entry>, a: seq<Event>, b: seq<Event>, x: Identity)
    requires AllCurrent(a) && AllCurrent(b) && SameEvents(a, b) && !IsFormer(x)
    ensures Seen(Get(Register(m, a), x)) == Seen(Get(Register(m, b), x))
    ensures IsRenamed(x) ==> Get(Register(m, a), FormerOf(x)) == Get(Register(m, b), FormerOf(x))
  {
    PlaceSettles(m, a, x);
    PlaceSettles(m, b, x);
    KnownSame(m, a, b, x);
    assert SomeFiles(m, a, x) == SomeFiles(m, b, x);
  }

  lemma RenamedOf(y: Identity) returns (x: Identity)
    requires IsFormer(y)
    ensures IsRenamed(x) && FormerOf(x) == y
  {
    var n := |GOLEM| + 1;
    x := GOLEM + "\0" + y[n..];
    assert x[n..] == y[n..] && y == y[..n] + y[n..];
  }

  /** Any two deliveries of the same events, repeats included, leave the same containers in the same
      state since the same instant, filed under the same names. */
  lemma RegisterOrderIrrelevant(m: map<Identity, Entry>, a: seq<Event>, b: seq<Event>)
    requires AllCurrent(a) && AllCurrent(b) && SameEvents(a, b)
    ensures RelayHealth.View(Register(m, a)) == RelayHealth.View(Register(m, b))
  {
    forall x: Identity ensures Seen(Get(Register(m, a), x)) == Seen(Get(Register(m, b), x)) {
      if IsFormer(x) {
        var y := RenamedOf(x);
        FormerIs(y);
        SamePlace(m, a, b, y);
      } else {
        SamePlace(m, a, b, x);
      }
    }
    SameViews(Register(m, a), Register(m, b));
  }

  lemma SameViews(m: map<Identity, Entry>, n: map<Identity, Entry>)
    requires forall x: Identity :: Seen(Get(m, x)) == Seen(Get(n, x))
    ensures RelayHealth.View(m) == RelayHealth.View(n)
  {
    forall x: Identity ensures (x in m <==> x in n) && (x in m ==> RelayHealth.View(m)[x] == RelayHealth.View(n)[x]) {
      assert Seen(Get(m, x)) == Seen(Get(n, x));
    }
    assert RelayHealth.View(m).Keys == RelayHealth.View(n).Keys;
  }

  /* ----- whole sections ----- */

  /** The store, the floor and the memory of what was delivered, between two sections. */
  datatype Shelf = Shelf(stored: Stored, floor: Option<Budget>, published: seq<Sending>)

  /** What a relay is started with. */
  datatype Setting = Setting(ceilings: Ceilings, window: int, capacity: nat)

  /** A container event as a section takes it, with the clock of that section. */
  datatype Taking = Taking(event: Event, now: Moment)

  ghost function PlanAt(g: Setting, shelf: Shelf, v: Taking): Plan {
    if Remembers(Pruned(shelf.published, v.now.nanos, g.window), v.event) then Dropped
    else Planned(g.ceilings, shelf.floor, shelf.stored, Container(v.event), v.now)
  }

  /** One section from the repeat check on, its publish and write landing. */
  ghost function AfterSection(g: Setting, shelf: Shelf, v: Taking): Shelf {
    var p := Pruned(shelf.published, v.now.nanos, g.window);
    var r := CarriedOut(PlanAt(g, shelf, v), shelf.floor, true, true);
    Shelf(if r.written.Some? then r.written.value else shelf.stored, r.floor,
          if r.sent == Nothing then p else WithSending(p, v.event, v.now.nanos, g.capacity))
  }

  /** No health entry is shed: the section drops the event or keeps every entry it leaves. */
  ghost predicate Lossless(g: Setting, shelf: Shelf, v: Taking) {
    var plan := PlanAt(g, shelf, v);
    var d := Container(v.event);
    plan.Dropped? || (plan.Act? && plan.entries == Transitioned(Adopted(shelf.stored.entries, d).0, d).1)
  }

  /** The register already holds everything the event could add. */
  predicate Spent(m: map<Identity, Entry>, e: Event) {
    var x := IdentityOf(e);
    && (IsHealth(e) ==> x in m && Rank(Reported(e.rule, e.stamp)) <= Rank(m[x]))
    && (IsRenamed(x) ==> x in m || FormerOf(x) !in m)
  }

  lemma TransitionRises(known: Option<Entry>, incoming: Entry)
    ensures var t := Transition(known, incoming).1;
            && t.Some? && Rank(incoming) <= Rank(t.value) && (known.Some? ==> Rank(known.value) <= Rank(t.value))
            && (known.Some? && Rank(incoming) <= Rank(known.value) ==> t == known)
  {
  }

  /** A remembered event, processed again, would leave the register as it is. */
  lemma SpentAddsNothing(m: map<Identity, Entry>, e: Event)
    requires Current(e) && Spent(m, e)
    ensures Taken(m, e) == m
  {
    HomeIs(e);
    if IsHealth(e) { TransitionRises(Known(m, IdentityOf(e)), Reported(e.rule, e.stamp)); }
  }

  /** A carried-out event is spent. */
  lemma TakenSpends(m: map<Identity, Entry>, e: Event)
    requires Current(e) && Transitioned(Adopted(m, Container(e)).0, Container(e)).0.Some?
    ensures Spent(Taken(m, e), e)
  {
    var x := IdentityOf(e);
    HomeIs(e);
    if IsRenamed(x) { FormerIs(x); }
    if IsHealth(e) { TransitionRises(EntryAt(Adopted(m, Container(e)).0, x), Reported(e.rule, e.stamp)); }
  }

  /** And stays so. */
  lemma SpentStays(m: map<Identity, Entry>, e: Event, f: Event)
    requires Current(e) && Current(f) && Spent(m, e)
    ensures Spent(Taken(m, f), e)
  {
    var x := IdentityOf(e);
    HomeIs(e);
    if IdentityOf(f) == x {
      TakenHome(m, f);
      if IsHealth(f) { TransitionRises(Known(m, x), Reported(f.rule, f.stamp)); }
    } else {
      KnownStays(m, f, x);
    }
  }

  /** Everything remembered is spent. */
  ghost predicate MemorySpent(shelf: Shelf) {
    forall i :: 0 <= i < |shelf.published| ==>
      Current(shelf.published[i].event) && Spent(shelf.stored.entries, shelf.published[i].event)
  }

  lemma {:induction false} PrunedKeeps(p: seq<Sending>, now: int, window: int)
    ensures forall s :: s in Pruned(p, now, window) ==> s in p
  {
    if p != [] { PrunedKeeps(p[1..], now, window); }
  }

  lemma {:induction false} WithoutKeeps(p: seq<Sending>, e: Event)
    ensures forall s :: s in WithoutEvent(p, e) ==> s in p
  {
    if p != [] { WithoutKeeps(p[1..], e); }
  }

  lemma RecordedKeeps(p: seq<Sending>, e: Event, now: int, capacity: nat)
    ensures forall s :: s in WithSending(p, e, now, capacity) ==> s in p || s.event == e
  {
    WithoutKeeps(p, e);
    var q := WithoutEvent(p, e) + [Sending(e, now)];
    assert forall s :: s in LastOf(q, capacity) ==> s in q;
  }

  /** What a section that was not told of the event before leaves. */
  lemma PlanTakes(g: Setting, shelf: Shelf, v: Taking)
    requires Current(v.event) && Lossless(g, shelf, v) &&
             !Remembers(Pruned(shelf.published, v.now.nanos, g.window), v.event)
    ensures AfterSection(g, shelf, v).stored.entries == Taken(shelf.stored.entries, v.event)
    ensures var d := Container(v.event);
            PlanAt(g, shelf, v).Act? ==> Transitioned(Adopted(shelf.stored.entries, d).0, d).0.Some?
  {
  }

  lemma RememberedSpent(g: Setting, shelf: Shelf, v: Taking)
    requires MemorySpent(shelf) && Remembers(Pruned(shelf.published, v.now.nanos, g.window), v.event)
    ensures Current(v.event) && Spent(shelf.stored.entries, v.event)
  {
    var p := Pruned(shelf.published, v.now.nanos, g.window);
    PrunedKeeps(shelf.published, v.now.nanos, g.window);
    var i :| 0 <= i < |p| && p[i].event == v.event;
    assert p[i] in shelf.published;
  }

  /** A section that sheds nothing leaves in the store what the event makes of the register, whether
      it was processed or recognised as a repeat. */
  lemma SectionTakes(g: Setting, shelf: Shelf, v: Taking)
    requires Current(v.event) && Lossless(g, shelf, v) && MemorySpent(shelf)
    ensures AfterSection(g, shelf, v).stored.entries == Taken(shelf.stored.entries, v.event)
  {
    if Remembers(Pruned(shelf.published, v.now.nanos, g.window), v.event) {
      RememberedSpent(g, shelf, v);
      SpentAddsNothing(shelf.stored.entries, v.event);
    } else {
      PlanTakes(g, shelf, v);
    }
  }

  lemma MemoryOf(g: Setting, shelf: Shelf, v: Taking, s: Sending)
    requires s in AfterSection(g, shelf, v).published
    ensures s in shelf.published || (s.event == v.event && PlanAt(g, shelf, v).Act?)
  {
    var p := Pruned(shelf.published, v.now.nanos, g.window);
    PrunedKeeps(shelf.published, v.now.nanos, g.window);
    RecordedKeeps(p, v.event, v.now.nanos, g.capacity);
  }

  lemma MemoryStays(g: Setting, shelf: Shelf, v: Taking)
    requires Current(v.event) && Lossless(g, shelf, v) && MemorySpent(shelf)
    ensures MemorySpent(AfterSection(g, shelf, v))
  {
    var next := AfterSection(g, shelf, v);
    SectionTakes(g, shelf, v);
    forall i | 0 <= i < |next.published|
      ensures Current(next.published[i].event) && Spent(Taken(shelf.stored.entries, v.event), next.published[i].event)
    {
      SendingSpent(g, shelf, v, next.published[i]);
    }
  }

  lemma SendingSpent(g: Setting, shelf: Shelf, v: Taking, s: Sending)
    requires Current(v.event) && Lossless(g, shelf, v) && MemorySpent(shelf) && s in AfterSection(g, shelf, v).published
    ensures Current(s.event) && Spent(Taken(shelf.stored.entries, v.event), s.event)
  {
    MemoryOf(g, shelf, v, s);
    if s in shelf.published {
      SpentStays(shelf.stored.entries, s.event, v.event);
    } else {
      PlanTakes(g, shelf, v);
      TakenSpends(shelf.stored.entries, v.event);
    }
  }

  /** The store after a run of sections. */
  ghost function AfterAll(g: Setting, shelf: Shelf, run: seq<Taking>): Shelf {
    if run == [] then shelf else AfterSection(g, AfterAll(g, shelf, run[..|run| - 1]), run[|run| - 1])
  }

  ghost predicate AllLossless(g: Setting, shelf: Shelf, run: seq<Taking>) {
    run == [] ||
    (AllLossless(g, shelf, run[..|run| - 1]) && Lossless(g, AfterAll(g, shelf, run[..|run| - 1]), run[|run| - 1]))
  }

  function EventsOf(run: seq<Taking>): seq<Event> { seq(|run|, i requires 0 <= i < |run| => run[i].event) }

  ghost predicate Follows(g: Setting, shelf: Shelf, run: seq<Taking>) {
    MemorySpent(AfterAll(g, shelf, run)) &&
    AfterAll(g, shelf, run).stored.entries == Register(shelf.stored.entries, EventsOf(run))
  }

  lemma LastFollows(g: Setting, shelf: Shelf, front: seq<Taking>, last: Taking)
    requires Current(last.event) && Lossless(g, AfterAll(g, shelf, front), last) && Follows(g, shelf, front)
    ensures Follows(g, shelf, front + [last])
  {
    AfterGrows(g, shelf, front, last);
    EventsGrow(front, last);
    RegisterGrows(shelf.stored.entries, EventsOf(front), last.event);
    SectionTakes(g, AfterAll(g, shelf, front), last);
    MemoryStays(g, AfterAll(g, shelf, front), last);
  }

  lemma AfterGrows(g: Setting, shelf: Shelf, front: seq<Taking>, last: Taking)
    ensures AfterAll(g, shelf, front + [last]) == AfterSection(g, AfterAll(g, shelf, front), last)
  {
    assert (front + [last])[..|front|] == front;
  }

  lemma EventsGrow(front: seq<Taking>, last: Taking)
    ensures EventsOf(front + [last]) == EventsOf(front) + [last.event]
  {
  }

  lemma RegisterGrows(m: map<Identity, Entry>, front: seq<Event>, last: Event)
    ensures Register(m, front + [last]) == Taken(Register(m, front), last)
  {
    assert (front + [last])[..|front|] == front;
  }

  lemma AllCurrentGrows(front: seq<Event>, last: Event)
    requires AllCurrent(front + [last])
    ensures AllCurrent(front) && Current(last)
  {
    assert last in front + [last] && forall e :: e in front ==> e in front + [last];
  }

  /** Every event comes from a current host name, and no section sheds an entry. */
  ghost predicate Clear(g: Setting, shelf: Shelf, run: seq<Taking>) {
    AllCurrent(EventsOf(run)) && AllLossless(g, shelf, run)
  }

  lemma EarlierClear(g: Setting, shelf: Shelf, front: seq<Taking>, last: Taking)
    requires Clear(g, shelf, front + [last])
    ensures Clear(g, shelf, front) && Current(last.event) && Lossless(g, AfterAll(g, shelf, front), last)
  {
    assert (front + [last])[..|front|] == front;
    EventsGrow(front, last);
    AllCurrentGrows(EventsOf(front), last.event);
  }

  lemma Parts(run: seq<Taking>) returns (front: seq<Taking>, last: Taking)
    requires run != []
    ensures run == front + [last] && |front| < |run|
  {
    front, last := run[..|run| - 1], run[|run| - 1];
  }

  /** The stored register is what the events make of it. */
  lemma {:induction false} SectionsFollow(g: Setting, shelf: Shelf, run: seq<Taking>)
    requires Clear(g, shelf, run) && MemorySpent(shelf)
    ensures Follows(g, shelf, run)
    decreases |run|
  {
    if run != [] {
      var front, last := Parts(run);
      EarlierClear(g, shelf, front, last);
      SectionsFollow(g, shelf, front);
      LastFollows(g, shelf, front, last);
    }
  }

  /** Sections of the same container events in any order, repeated or not, at any times and under any
      two settings, leave the store with the same containers in the same state since the same
      instants, as long as no health entry is shed. */
  lemma DeliveryOrderIrrelevant(g: Setting, h: Setting, stored: Stored, floor: Option<Budget>, a: seq<Taking>,
                                b: seq<Taking>)
    requires Clear(g, Shelf(stored, floor, []), a) && Clear(h, Shelf(stored, floor, []), b)
    requires SameEvents(EventsOf(a), EventsOf(b))
    ensures RelayHealth.View(AfterAll(g, Shelf(stored, floor, []), a).stored.entries) ==
            RelayHealth.View(AfterAll(h, Shelf(stored, floor, []), b).stored.entries)
  {
    SectionsFollow(g, Shelf(stored, floor, []), a);
    SectionsFollow(h, Shelf(stored, floor, []), b);
    RegisterOrderIrrelevant(stored.entries, EventsOf(a), EventsOf(b));
  }
}
