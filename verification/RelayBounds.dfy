/** `bounded_state`: shrinking the state document until it fits, without losing an
    unhealthy container or the day's totals. */
module RelayBounds {
  import opened Orders
  import opened Options
  import opened RelayModel

  const MAX_STATE_BYTES: nat := 65536
  const MAX_STATE_ENTRIES: nat := 128
  const MAX_BUDGET_ENTRIES: nat := 128
  const HEALTHY_RETENTION: nat := 30 * 86400 * 1000000000

  /* ----- the serialised size ----- */

  /** Characters one character takes in an ASCII-only JSON string. */
  function CharSize(c: char): nat {
    if c == '\"' || c == '\\' || c == '\n' || c == '\r' || c == '\t' || c as int == 8 || c as int == 12 then 2
    else if 0x20 <= c as int <= 0x7E then 1
    else if c as int > 0xFFFF then 12
    else 6
  }

  function TextSize(s: string): nat { if s == "" then 0 else CharSize(s[0]) + TextSize(s[1..]) }

  function NumberSize(n: nat): nat { if n < 10 then 1 else 1 + NumberSize(n / 10) }

  function BoolSize(b: bool): nat { if b then 4 else 5 }

  function StampSize(s: Stamp): nat { if s.digits == 0 then 20 else 21 + s.digits }

  function EntrySize(id: Identity, e: Entry): nat {
    39 + TextSize(id) + (if e.state.Healthy? then 9 else 11) + StampSize(e.stamp)
  }

  function CounterSize(id: Identity, k: Counter): nat {
    36 + TextSize(id) + NumberSize(k.count) + BoolSize(k.notified)
  }

  ghost function MapSize<V>(size: (Identity, V) -> nat, m: map<Identity, V>): nat
    decreases |m|
  {
    if m == map[] then 0
    else
      var id := Least(m.Keys);
      size(id, m[id]) + MapSize(size, m - {id})
  }

  function Commas(n: nat): nat { if n == 0 then 0 else n - 1 }

  /** What survives: health entries and counters. */
  datatype Kept = Kept(entries: map<Identity, Entry>, counters: map<Identity, Counter>)

  /** `len(state_bytes(...))`. */
  ghost function DocumentSize(b: Budget, k: Kept): nat {
    84 + TextSize(b.day) + NumberSize(b.count) + BoolSize(b.notified)
    + MapSize(EntrySize, k.entries) + Commas(|k.entries|)
    + MapSize(CounterSize, k.counters) + Commas(|k.counters|)
  }

  ghost predicate Fits(b: Budget, k: Kept) {
    && |k.entries| <= MAX_STATE_ENTRIES
    && |k.counters| <= MAX_BUDGET_ENTRIES
    && DocumentSize(b, k) <= MAX_STATE_BYTES
  }

  ghost predicate SubMap<V>(a: map<Identity, V>, b: map<Identity, V>) {
    forall id :: id in a ==> id in b && a[id] == b[id]
  }

  lemma {:induction false} MapSizeRemove<V>(size: (Identity, V) -> nat, m: map<Identity, V>, x: Identity)
    requires x in m
    ensures MapSize(size, m) == size(x, m[x]) + MapSize(size, m - {x})
    decreases |m|
  {
    var id := Least(m.Keys);
    if id != x {
      MapSizeRemove(size, m - {id}, x);
      assert (m - {id}) - {x} == (m - {x}) - {id};
      MapSizeRemove(size, m - {x}, id);
    }
  }

  lemma {:induction false} MapSizeMonotone<V>(size: (Identity, V) -> nat, a: map<Identity, V>, b: map<Identity, V>)
    requires SubMap(a, b)
    ensures MapSize(size, a) <= MapSize(size, b) && |a| <= |b|
    decreases |b|
  {
    if a == map[] {
    } else {
      var x := Least(a.Keys);
      MapSizeRemove(size, a, x);
      MapSizeRemove(size, b, x);
      MapSizeMonotone(size, a - {x}, b - {x});
    }
  }

  lemma FitsMonotone(b: Budget, small: Kept, large: Kept)
    requires Within(small, large) && Fits(b, large)
    ensures Fits(b, small)
  {
    MapSizeMonotone(EntrySize, small.entries, large.entries);
    MapSizeMonotone(CounterSize, small.counters, large.counters);
  }

  /* ----- the order entries are shed in ----- */

  /** Healthy entries past their retention go before anything is measured. */
  function Unexpired(entries: map<Identity, Entry>, now: Moment): map<Identity, Entry> {
    map id | id in entries
      && !(entries[id].state.Healthy? && entries[id].stamp.instant < now.nanos - HEALTHY_RETENTION) :: entries[id]
  }

  predicate CounterBefore(m: map<Identity, Counter>, a: Identity, b: Identity)
    requires a in m && b in m
  {
    m[a].count < m[b].count || (m[a].count == m[b].count && StrLess(a, b))
  }

  predicate EntryBefore(m: map<Identity, Entry>, a: Identity, b: Identity)
    requires a in m && b in m
  {
    m[a].stamp.instant < m[b].stamp.instant || (m[a].stamp.instant == m[b].stamp.instant && StrLess(a, b))
  }

  ghost predicate Within(a: Kept, b: Kept) { SubMap(a.entries, b.entries) && SubMap(a.counters, b.counters) }

  /** What may be left of `full`: every unhealthy entry stays, no healthy entry goes while a
      counter is left, and within each kind the least goes first. */
  ghost predicate Shedding(full: Kept, k: Kept) {
    && Within(k, full)
    && (forall id :: id in full.entries && full.entries[id].state.Unhealthy? ==> id in k.entries)
    && (k.entries != full.entries ==> k.counters == map[])
    && (forall a, b :: a in full.counters && a !in k.counters && b in k.counters ==> CounterBefore(full.counters, a, b))
    && (forall a, b :: a in full.entries && a !in k.entries && b in k.entries && full.entries[b].state.Healthy? ==>
                         EntryBefore(full.entries, a, b))
  }

  /** The most that may be kept. */
  ghost predicate Greatest(full: Kept, b: Budget, k: Kept) {
    && Shedding(full, k) && Fits(b, k)
    && forall s :: Shedding(full, s) && Fits(b, s) ==> Within(s, k)
  }

  lemma GreatestUnique(full: Kept, b: Budget, j: Kept, k: Kept)
    requires Greatest(full, b, j) && Greatest(full, b, k)
    ensures j == k
  {
    assert Within(j, k) && Within(k, j);
    assert j.entries == k.entries && j.counters == k.counters;
  }

  ghost function Full(entries: map<Identity, Entry>, b: Budget, now: Moment): Kept {
    Kept(Unexpired(entries, now), b.containers)
  }

  /** The value of `bounded_state`; None when it raises. */
  ghost function Bounded(entries: map<Identity, Entry>, b: Budget, now: Moment): (r: Option<Kept>)
    ensures r.Some? ==> Greatest(Full(entries, b, now), b, r.value)
  {
    if k: Kept :| Greatest(Full(entries, b, now), b, k) then Some(k) else None
  }

  lemma {:induction false} LeastCounter(m: map<Identity, Counter>) returns (x: Identity)
    requires m != map[]
    ensures x in m && forall y :: y in m && y != x ==> CounterBefore(m, x, y)
    decreases |m|
  {
    x := Least(m.Keys);
    var rest := m - {x};
    forall y | y in m && y != x ensures y in rest && StrLess(x, y) { assert y in m.Keys; }
    if rest != map[] {
      var n := LeastCounter(rest);
      assert forall y :: y in rest && y != n ==> CounterBefore(rest, n, y);
      if m[n].count < m[x].count {
        x := n;
      }
    }
  }

  lemma {:induction false} LeastHealthy(m: map<Identity, Entry>, from: set<Identity>) returns (x: Identity)
    requires from != {} && from <= m.Keys
    ensures x in from
    ensures forall y :: y in from && y != x ==> EntryBefore(m, x, y)
  {
    x := Least(from);
    var rest := from - {x};
    forall y | y in from && y != x ensures y in rest && StrLess(x, y) {}
    if rest != {} {
      var n := LeastHealthy(m, rest);
      if m[n].stamp.instant < m[x].stamp.instant {
        x := n;
      }
    }
  }

  function HealthyIds(m: map<Identity, Entry>): set<Identity> { set id | id in m && m[id].state.Healthy? }

  ghost predicate HoldsAllFitting(full: Kept, b: Budget, k: Kept) {
    forall s :: Shedding(full, s) && Fits(b, s) ==> Within(s, k)
  }

  lemma CounterAsymmetric(m: map<Identity, Counter>, a: Identity, b: Identity)
    requires a in m && b in m
    ensures !(CounterBefore(m, a, b) && CounterBefore(m, b, a))
  {
    StrAsymmetric(a, b);
  }

  lemma EntryAsymmetric(m: map<Identity, Entry>, a: Identity, b: Identity)
    requires a in m && b in m
    ensures !(EntryBefore(m, a, b) && EntryBefore(m, b, a))
  {
    StrAsymmetric(a, b);
  }

  predicate FirstCounter(k: Kept, x: Identity) {
    x in k.counters && forall y :: y in k.counters && y != x ==> CounterBefore(k.counters, x, y)
  }

  predicate FirstHealthy(k: Kept, x: Identity) {
    x in k.entries && k.entries[x].state.Healthy?
    && forall y :: y in k.entries && k.entries[y].state.Healthy? && y != x ==> EntryBefore(k.entries, x, y)
  }

  lemma ShedCounterIsShedding(full: Kept, k: Kept, x: Identity)
    requires Shedding(full, k) && FirstCounter(k, x)
    ensures Shedding(full, k.(counters := k.counters - {x}))
  {
  }

  lemma ShedEntryIsShedding(full: Kept, k: Kept, x: Identity)
    requires Shedding(full, k) && FirstHealthy(k, x) && k.counters == map[]
    ensures Shedding(full, k.(entries := k.entries - {x}))
  {
  }

  /** A candidate inside `k` that still has the first counter of `k` is `k` itself. */
  lemma KeepsFirstCounter(full: Kept, s: Kept, k: Kept, x: Identity)
    requires Shedding(full, k) && Shedding(full, s) && Within(s, k) && FirstCounter(k, x) && x in s.counters
    ensures s == k
  {
    forall y | y in k.counters ensures y in s.counters {
      CounterAsymmetric(full.counters, x, y);
    }
    assert s.counters == k.counters;
    assert s.entries == k.entries;
  }

  lemma KeepsFirstHealthy(full: Kept, s: Kept, k: Kept, x: Identity)
    requires Shedding(full, k) && Shedding(full, s) && Within(s, k) && FirstHealthy(k, x) && k.counters == map[] &&
             x in s.entries
    ensures s == k
  {
    forall y | y in k.entries ensures y in s.entries {
      EntryAsymmetric(full.entries, x, y);
    }
    assert s.entries == k.entries;
    assert s.counters == k.counters;
  }

  /** Dropping the first counter, or with none left the first healthy entry, of a state that
      does not fit loses no candidate. */
  lemma ShedCounter(full: Kept, b: Budget, k: Kept, x: Identity)
    requires Shedding(full, k) && !Fits(b, k) && HoldsAllFitting(full, b, k) && FirstCounter(k, x)
    ensures HoldsAllFitting(full, b, k.(counters := k.counters - {x}))
  {
    forall s | Shedding(full, s) && Fits(b, s) ensures Within(s, k.(counters := k.counters - {x})) {
      if x in s.counters { KeepsFirstCounter(full, s, k, x); }
    }
  }

  lemma ShedEntry(full: Kept, b: Budget, k: Kept, x: Identity)
    requires Shedding(full, k) && !Fits(b, k) && HoldsAllFitting(full, b, k)
    requires FirstHealthy(k, x) && k.counters == map[]
    ensures HoldsAllFitting(full, b, k.(entries := k.entries - {x}))
  {
    forall s | Shedding(full, s) && Fits(b, s) ensures Within(s, k.(entries := k.entries - {x})) {
      if x in s.entries { KeepsFirstHealthy(full, s, k, x); }
    }
  }

  /** With nothing left to shed, only `k` itself could have fitted. */
  lemma NothingLeft(full: Kept, b: Budget, k: Kept)
    requires Shedding(full, k) && !Fits(b, k) && HoldsAllFitting(full, b, k)
    requires k.counters == map[] && HealthyIds(k.entries) == {}
    ensures forall s :: Shedding(full, s) ==> !Fits(b, s)
  {
    forall s | Shedding(full, s) && Within(s, k) ensures s == k {
      forall id | id in k.entries ensures id in s.entries { assert id !in HealthyIds(k.entries); }
      assert s.entries == k.entries && s.counters == k.counters;
    }
  }

  method EntriesSize(m: map<Identity, Entry>) returns (size: nat)
    ensures size == MapSize(EntrySize, m)
  {
    size := 0;
    var rest := m;
    while rest != map[]
      invariant SubMap(rest, m) && size + MapSize(EntrySize, rest) == MapSize(EntrySize, m)
      decreases |rest|
    {
      var id :| id in rest;
      MapSizeRemove(EntrySize, rest, id);
      size, rest := size + EntrySize(id, rest[id]), rest - {id};
    }
  }

  method CountersSize(m: map<Identity, Counter>) returns (size: nat)
    ensures size == MapSize(CounterSize, m)
  {
    size := 0;
    var rest := m;
    while rest != map[]
      invariant SubMap(rest, m) && size + MapSize(CounterSize, rest) == MapSize(CounterSize, m)
      decreases |rest|
    {
      var id :| id in rest;
      MapSizeRemove(CounterSize, rest, id);
      size, rest := size + CounterSize(id, rest[id]), rest - {id};
    }
  }

  /** `len(state_bytes(...))`, added up entry by entry. */
  method Measure(b: Budget, k: Kept) returns (size: nat)
    ensures size == DocumentSize(b, k)
  {
    var entries := EntriesSize(k.entries);
    var counters := CountersSize(k.counters);
    size := 84 + TextSize(b.day) + NumberSize(b.count) + BoolSize(b.notified) + entries + Commas(|k.entries|) + counters
            + Commas(|k.counters|);
  }

  /** What the loop of `bounded_state` has left is allowed and holds every state that could fit. */
  ghost predicate OnTheWay(full: Kept, b: Budget, k: Kept) { Shedding(full, k) && HoldsAllFitting(full, b, k) }

  lemma CounterDropped(full: Kept, b: Budget, k: Kept, x: Identity)
    requires OnTheWay(full, b, k) && !Fits(b, k) && FirstCounter(k, x)
    ensures OnTheWay(full, b, k.(counters := k.counters - {x}))
  {
    ShedCounterIsShedding(full, k, x);
    ShedCounter(full, b, k, x);
  }

  lemma EntryDropped(full: Kept, b: Budget, k: Kept, x: Identity)
    requires OnTheWay(full, b, k) && !Fits(b, k) && FirstHealthy(k, x) && k.counters == map[]
    ensures OnTheWay(full, b, k.(entries := k.entries - {x}))
  {
    ShedEntryIsShedding(full, k, x);
    ShedEntry(full, b, k, x);
  }

  lemma FirstCounterExists(k: Kept)
    requires k.counters != map[]
    ensures exists x :: FirstCounter(k, x)
  {
    var x := LeastCounter(k.counters);
    assert FirstCounter(k, x);
  }

  lemma FirstHealthyExists(k: Kept)
    requires HealthyIds(k.entries) != {}
    ensures exists x :: FirstHealthy(k, x)
  {
    var x := LeastHealthy(k.entries, HealthyIds(k.entries));
    assert FirstHealthy(k, x);
  }

  lemma WayEnds(entries: map<Identity, Entry>, b: Budget, now: Moment, k: Kept)
    requires OnTheWay(Full(entries, b, now), b, k)
    ensures Fits(b, k) ==> Bounded(entries, b, now) == Some(k)
    ensures !Fits(b, k) && k.counters == map[] && HealthyIds(k.entries) == {} ==> Bounded(entries, b, now) == None
  {
    var full := Full(entries, b, now);
    if Fits(b, k) {
      assert Greatest(full, b, k);
      GreatestUnique(full, b, k, Bounded(entries, b, now).value);
    } else if k.counters == map[] && HealthyIds(k.entries) == {} {
      NothingLeft(full, b, k);
    }
  }

  /** `bounded_state`: measure, drop one, measure again. */
  method BoundedState(entries: map<Identity, Entry>, b: Budget, now: Moment) returns (r: Option<Kept>)
    ensures r == Bounded(entries, b, now)
  {
    var k := Kept(Unexpired(entries, now), b.containers);
    ghost var full := k;
    while true
      invariant full == Full(entries, b, now) && OnTheWay(full, b, k)
      decreases |k.counters| + |k.entries|
    {
      var size := Measure(b, k);
      WayEnds(entries, b, now, k);
      if |k.entries| <= MAX_STATE_ENTRIES && |k.counters| <= MAX_BUDGET_ENTRIES && size <= MAX_STATE_BYTES {
        return Some(k);
      }
      if k.counters != map[] {
        FirstCounterExists(k);
        var x :| x in k.counters && FirstCounter(k, x);
        CounterDropped(full, b, k, x);
        k := k.(counters := k.counters - {x});
      } else {
        var healthy := HealthyIds(k.entries);
        if healthy == {} { return None; }
        FirstHealthyExists(k);
        var x :| x in healthy && FirstHealthy(k, x);
        EntryDropped(full, b, k, x);
        k := k.(entries := k.entries - {x});
      }
    }
  }

  /** Only the unhealthy entries and no counter: what can never be shed. */
  ghost function Core(entries: map<Identity, Entry>): Kept {
    Kept(map id | id in entries && entries[id].state.Unhealthy? :: entries[id], map[])
  }

  lemma {:induction false} FindGreatest(full: Kept, b: Budget, k: Kept)
    requires Shedding(full, k) && HoldsAllFitting(full, b, k)
    requires exists s :: Shedding(full, s) && Fits(b, s)
    ensures exists g :: Greatest(full, b, g)
    decreases |k.counters| + |k.entries|
  {
    if Fits(b, k) {
      assert Greatest(full, b, k);
    } else if k.counters != map[] {
      var x := LeastCounter(k.counters);
      ShedCounterIsShedding(full, k, x);
      ShedCounter(full, b, k, x);
      FindGreatest(full, b, k.(counters := k.counters - {x}));
    } else if HealthyIds(k.entries) != {} {
      var x := LeastHealthy(k.entries, HealthyIds(k.entries));
      ShedEntryIsShedding(full, k, x);
      ShedEntry(full, b, k, x);
      FindGreatest(full, b, k.(entries := k.entries - {x}));
    } else {
      NothingLeft(full, b, k);
    }
  }

  /** `bounded_state` raises exactly when the unhealthy entries with no counter do not fit. */
  lemma RefusedExactly(entries: map<Identity, Entry>, b: Budget, now: Moment)
    ensures Bounded(entries, b, now) == None <==> !Fits(b, Core(entries))
  {
    var full := Full(entries, b, now);
    var core := Core(entries);
    assert Shedding(full, core);
    if Fits(b, core) {
      FindGreatest(full, b, full);
    } else if Bounded(entries, b, now).Some? {
      var k := Bounded(entries, b, now).value;
      assert Within(core, k);
      FitsMonotone(b, core, k);
    }
  }

  /** What survives is part of what was given, with every unhealthy entry in it, and it fits. */
  lemma BoundedKeeps(entries: map<Identity, Entry>, b: Budget, now: Moment)
    requires Bounded(entries, b, now).Some?
    ensures var k := Bounded(entries, b, now).value;
            && SubMap(k.entries, entries) && SubMap(k.counters, b.containers) && Fits(b, k)
            && forall id :: id in entries && entries[id].state.Unhealthy? ==> id in k.entries
  {
  }

  /* ----- what survives, entry by entry ----- */

  /** What the clock alone never takes away: unhealthy entries, and healthy ones within their retention. */
  predicate Lasts(e: Entry, now: Moment) { e.state.Unhealthy? || e.stamp.instant >= now.nanos - HEALTHY_RETENTION }

  function Lasting(entries: map<Identity, Entry>, now: Moment): map<Identity, Entry> {
    map id | id in entries && Lasts(entries[id], now) :: entries[id]
  }

  lemma LastingIsFull(entries: map<Identity, Entry>, b: Budget, now: Moment)
    ensures Full(entries, b, now) == Kept(Lasting(entries, now), b.containers)
  {
    assert Unexpired(entries, now) == Lasting(entries, now);
  }

  /** Every counter gone has a lower count than every one left, names breaking ties. */
  ghost predicate LowestCountsGo(all: map<Identity, Counter>, left: map<Identity, Counter>) {
    forall x, y :: x in all && x !in left && y in left && y in all ==>
      all[x].count < all[y].count || (all[x].count == all[y].count && StrLess(x, y))
  }

  /** Every entry gone is healthy and earlier than every healthy one left, names breaking ties. */
  ghost predicate EarliestHealthyGo(all: map<Identity, Entry>, left: map<Identity, Entry>) {
    && (forall x :: x in all && x !in left ==> all[x].state.Healthy?)
    && (forall x, y :: x in all && x !in left && y in left && y in all && all[y].state.Healthy? ==>
          all[x].stamp.instant < all[y].stamp.instant ||
          (all[x].stamp.instant == all[y].stamp.instant && StrLess(x, y)))
  }

  /** Nothing expired survives; of what could last, the counters with the lowest counts went first, then
      the earliest healthy entries, and none of those while a counter is left. */
  lemma SurvivorsAre(entries: map<Identity, Entry>, b: Budget, now: Moment)
    requires Bounded(entries, b, now).Some?
    ensures var k := Bounded(entries, b, now).value;
            && SubMap(k.entries, Lasting(entries, now)) && SubMap(k.counters, b.containers)
            && LowestCountsGo(b.containers, k.counters) && EarliestHealthyGo(Lasting(entries, now), k.entries)
            && (k.entries != Lasting(entries, now) ==> k.counters == map[])
  {
    LastingIsFull(entries, b, now);
    SheddingOrder(Kept(Lasting(entries, now), b.containers), Bounded(entries, b, now).value);
  }

  lemma SheddingOrder(full: Kept, k: Kept)
    requires Shedding(full, k)
    ensures LowestCountsGo(full.counters, k.counters) && EarliestHealthyGo(full.entries, k.entries)
  {
    forall x, y | x in full.counters && x !in k.counters && y in k.counters
      ensures full.counters[x].count < full.counters[y].count ||
              (full.counters[x].count == full.counters[y].count && StrLess(x, y))
    {
      assert CounterBefore(full.counters, x, y);
    }
    forall x, y | x in full.entries && x !in k.entries && y in k.entries && full.entries[y].state.Healthy?
      ensures full.entries[x].stamp.instant < full.entries[y].stamp.instant ||
              (full.entries[x].stamp.instant == full.entries[y].stamp.instant && StrLess(x, y))
    {
      assert EntryBefore(full.entries, x, y);
    }
  }

  lemma OrderSheds(full: Kept, k: Kept)
    requires Within(k, full) && (k.entries != full.entries ==> k.counters == map[])
    requires LowestCountsGo(full.counters, k.counters) && EarliestHealthyGo(full.entries, k.entries)
    ensures Shedding(full, k)
  {
  }

  /** If everything that lasts fits, all of it survives. */
  lemma AllSurvive(entries: map<Identity, Entry>, b: Budget, now: Moment)
    requires Fits(b, Kept(Lasting(entries, now), b.containers))
    ensures Bounded(entries, b, now) == Some(Kept(Lasting(entries, now), b.containers))
  {
    var full := Full(entries, b, now);
    LastingIsFull(entries, b, now);
    assert Shedding(full, full) && Greatest(full, b, full);
    GreatestUnique(full, b, full, Bounded(entries, b, now).value);
  }

  /** Nothing was shed for nothing: whatever more is allowed by that order does not fit. */
  lemma SheddingNeeded(entries: map<Identity, Entry>, b: Budget, now: Moment, more: Kept)
    requires Bounded(entries, b, now).Some?
    requires SubMap(more.entries, Lasting(entries, now)) && SubMap(more.counters, b.containers)
    requires LowestCountsGo(b.containers, more.counters) && EarliestHealthyGo(Lasting(entries, now), more.entries)
    requires more.entries != Lasting(entries, now) ==> more.counters == map[]
    requires Fits(b, more)
    ensures var k := Bounded(entries, b, now).value;
            SubMap(more.entries, k.entries) && SubMap(more.counters, k.counters)
  {
    LastingIsFull(entries, b, now);
    OrderSheds(Kept(Lasting(entries, now), b.containers), more);
    assert Within(more, Bounded(entries, b, now).value);
  }
}
