/** The per-container health register: `health_transition`. */
module RelayHealth {
  import opened Options
  import opened RelayModel

  /** Later instants outrank earlier ones; at one instant, healthy outranks unhealthy. */
  function Rank(e: Entry): nat { 2 * e.stamp.instant + (if e.state.Healthy? then 1 else 0) }

  /** What an event says about its container; only Unhealthy and Recovery events say anything. */
  function Reported(rule: Rule, stamp: Stamp): Entry {
    Entry(if rule == BecameUnhealthy then Unhealthy else Healthy, stamp)
  }

  function EntryAt(entries: map<Identity, Entry>, id: Identity): Option<Entry> { Get(entries, id) }

  /** `health_transition` on one register: whether the event publishes, None when it is dropped, and
      the entry it leaves. */
  function Transition(existing: Option<Entry>, incoming: Entry): (Option<bool>, Option<Entry>) {
    if existing.None? then (Some(incoming.state.Unhealthy?), Some(incoming))
    else
      var e := existing.value;
      if incoming.stamp.instant < e.stamp.instant then (None, existing)
      else if incoming.stamp.instant == e.stamp.instant then
        if e.state.Healthy? then (None, existing)
        else if incoming.state.Unhealthy? then (Some(true), existing)
        else (Some(true), Some(incoming))
      else (Some(incoming.state.Unhealthy? || e.state.Unhealthy?), Some(incoming))
  }

  /** `health_transition`: the entry an event leaves lands in `proposed`. The higher rank stays, the
      recorded entry on a tie; an outranked event, and a Recovery on a tie, is dropped. */
  method HealthTransition(rule: Rule, stamp: Stamp, id: Identity, entries: map<Identity, Entry>,
                          given: map<Identity, Entry>)
    returns (publish: Option<bool>, proposed: map<Identity, Entry>)
    requires rule == BecameUnhealthy || rule == Recovered
    requires EntryAt(given, id) == EntryAt(entries, id)
    ensures publish == Transition(EntryAt(entries, id), Reported(rule, stamp)).0
    ensures EntryAt(proposed, id) == Transition(EntryAt(entries, id), Reported(rule, stamp)).1
    ensures proposed - {id} == given - {id}
    ensures var incoming := Reported(rule, stamp);
            && (publish.None? <==> id in entries && (Rank(incoming) < Rank(entries[id]) ||
                                                     (Rank(incoming) == Rank(entries[id]) && incoming.state.Healthy?)))
            && EntryAt(proposed, id) ==
                 Some(if id in entries && Rank(incoming) <= Rank(entries[id]) then entries[id] else incoming)
  {
    proposed := given;
    var incoming := Reported(rule, stamp);
    if id !in entries {
      publish := Some(incoming.state.Unhealthy?);
    } else {
      var existing := entries[id];
      if stamp.instant < existing.stamp.instant {
        return None, proposed;
      }
      if stamp.instant == existing.stamp.instant {
        if existing.state.Healthy? {
          return None, proposed;
        }
        if incoming.state.Unhealthy? {
          return Some(true), proposed;
        }
        proposed := proposed[id := incoming];
        return Some(true), proposed;
      }
      publish := Some(incoming.state.Unhealthy? || existing.state.Unhealthy?);
    }
    proposed := proposed[id := incoming];
  }

  /** A Recovery publishes only over a recorded unhealthy state that it outranks; an Unhealthy
      event publishes unless something recorded outranks it. */
  lemma PublishesExactly(existing: Option<Entry>, incoming: Entry)
    ensures Transition(existing, incoming).0 == Some(true) <==>
              if incoming.state.Healthy? then
                existing.Some? && existing.value.state.Unhealthy? && Rank(existing.value) < Rank(incoming)
              else existing.Some? ==> Rank(existing.value) <= Rank(incoming)
  {
  }

  /** One delivered health event. */
  datatype Report = Report(id: Identity, entry: Entry)

  function Settled(entries: map<Identity, Entry>, reports: seq<Report>): map<Identity, Entry> {
    if reports == [] then entries
    else
      var before := Settled(entries, reports[..|reports| - 1]);
      var last := reports[|reports| - 1];
      before[last.id := Transition(EntryAt(before, last.id), last.entry).1.value]
  }

  /** Everything ever said about `id`: its first entry and the reports. */
  ghost predicate SaidOf(entries: map<Identity, Entry>, reports: seq<Report>, id: Identity, e: Entry) {
    (id in entries && entries[id] == e) || Report(id, e) in reports
  }

  /** A register ends at the highest rank anyone reported. */
  lemma {:induction false} SettledIsHighest(entries: map<Identity, Entry>, reports: seq<Report>, id: Identity)
    ensures id in Settled(entries, reports) ==> SaidOf(entries, reports, id, Settled(entries, reports)[id])
    ensures forall e :: SaidOf(entries, reports, id, e) ==>
                          id in Settled(entries, reports) && Rank(e) <= Rank(Settled(entries, reports)[id])
  {
    if reports != [] {
      var front := reports[..|reports| - 1];
      var last := reports[|reports| - 1];
      assert reports == front + [last];
      SettledIsHighest(entries, front, id);
      var before := Settled(entries, front);
      forall e | SaidOf(entries, reports, id, e)
        ensures id in Settled(entries, reports) && Rank(e) <= Rank(Settled(entries, reports)[id])
      {
        assert SaidOf(entries, front, id, e) || last == Report(id, e);
      }
    }
  }

  /** What a reader of the register sees: who is how, since when. */
  function View(entries: map<Identity, Entry>): map<Identity, (Health, nat)> {
    map id | id in entries :: (entries[id].state, entries[id].stamp.instant)
  }

  lemma SameRegister(entries: map<Identity, Entry>, a: seq<Report>, b: seq<Report>, id: Identity)
    requires forall r :: r in a <==> r in b
    ensures id in View(Settled(entries, a)) <==> id in View(Settled(entries, b))
    ensures id in View(Settled(entries, a)) ==> View(Settled(entries, a))[id] == View(Settled(entries, b))[id]
  {
    SettledIsHighest(entries, a, id);
    SettledIsHighest(entries, b, id);
    var x, y := Settled(entries, a), Settled(entries, b);
    if id in x { assert SaidOf(entries, b, id, x[id]); }
    if id in y { assert SaidOf(entries, a, id, y[id]); }
  }

  /** Any two delivery orders of the same reports, repeats included, end in the same registers. */
  lemma OrderIndependent(entries: map<Identity, Entry>, a: seq<Report>, b: seq<Report>)
    requires forall r :: r in a <==> r in b
    ensures View(Settled(entries, a)) == View(Settled(entries, b))
  {
    var x, y := View(Settled(entries, a)), View(Settled(entries, b));
    forall id: Identity ensures (id in x <==> id in y) && (id in x ==> x[id] == y[id]) {
      SameRegister(entries, a, b, id);
    }
    assert x == y;
  }
}
