/** `DeliveredEvents`: dropping an exact repeat of an envelope already published. */
module RelayDedupe {
  import opened Options
  import opened RelayModel

  /** An ordered dictionary from envelope to the instant it was published at, oldest first. */
  datatype Sending = Sending(event: Event, at: int)

  function WithoutEvent(p: seq<Sending>, e: Event): seq<Sending> {
    if p == [] then [] else (if p[0].event == e then [] else [p[0]]) + WithoutEvent(p[1..], e)
  }

  ghost predicate Remembers(p: seq<Sending>, e: Event) { exists i :: 0 <= i < |p| && p[i].event == e }

  /** The pruning `seen` does: from the oldest, until one is inside the window. */
  function Pruned(p: seq<Sending>, now: int, window: int): seq<Sending> {
    if p == [] || 0 <= now - p[0].at < window then p else Pruned(p[1..], now, window)
  }

  function LastOf(p: seq<Sending>, n: nat): seq<Sending> { if |p| <= n then p else p[|p| - n..] }

  function WithSending(p: seq<Sending>, e: Event, now: int, capacity: nat): seq<Sending> {
    LastOf(WithoutEvent(p, e) + [Sending(e, now)], capacity)
  }

  class DeliveredEvents {
    const window: int
    const capacity: nat
    var published: seq<Sending>

    constructor (window: int, capacity: nat)
      ensures this.window == window && this.capacity == capacity && published == []
    {
      this.window, this.capacity, published := window, capacity, [];
    }

    method Seen(e: Event, now: int) returns (seen: bool)
      modifies this
      ensures published == Pruned(old(published), now, window)
      ensures seen <==> Remembers(published, e)
    {
      ghost var before := published;
      while published != []
        invariant Pruned(published, now, window) == Pruned(before, now, window)
        decreases |published|
      {
        if 0 <= now - published[0].at < window { break; }
        published := published[1..];
      }
      seen := exists i :: 0 <= i < |published| && published[i].event == e;
    }

    method Record(e: Event, now: int)
      modifies this
      ensures published == WithSending(old(published), e, now, capacity)
    {
      published := WithoutEvent(published, e) + [Sending(e, now)];
      ghost var long := published;
      while |published| > capacity
        invariant LastOf(published, capacity) == LastOf(long, capacity)
        decreases |published|
      {
        assert published[|published| - capacity..] == published[1..][|published| - 1 - capacity..];
        published := published[1..];
      }
    }
  }

  /* ----- whole runs ----- */

  /** One critical section: the envelope, the section's clock, and whether its publish, if it came to one, went out. */
  datatype Visit = Visit(event: Event, now: int, sent: bool)

  datatype Progress = Progress(memory: seq<Sending>, history: seq<Sending>)

  function Visited(g: Progress, v: Visit, window: int, capacity: nat): Progress {
    var p := Pruned(g.memory, v.now, window);
    if (exists i :: 0 <= i < |p| && p[i].event == v.event) || !v.sent then Progress(p, g.history)
    else Progress(WithSending(p, v.event, v.now, capacity), g.history + [Sending(v.event, v.now)])
  }

  /** The memory after a run, with everything published in it. */
  function After(run: seq<Visit>, window: int, capacity: nat): Progress {
    if run == [] then Progress([], [])
    else Visited(After(run[..|run| - 1], window, capacity), run[|run| - 1], window, capacity)
  }

  ghost predicate Forward(run: seq<Visit>) { forall i, j :: 0 <= i < j < |run| ==> run[i].now <= run[j].now }

  /** The last publish of every envelope, in publishing order. */
  function Latest(history: seq<Sending>): seq<Sending> {
    if history == [] then []
    else
      var last := history[|history| - 1];
      WithoutEvent(Latest(history[..|history| - 1]), last.event) + [last]
  }

  ghost predicate OneEach(p: seq<Sending>) { forall i, j :: 0 <= i < j < |p| ==> p[i].event != p[j].event }

  ghost predicate Ordered(p: seq<Sending>) {
    OneEach(p) && forall i, j :: 0 <= i < j < |p| ==> p[i].at <= p[j].at
  }

  /** The first position of `e`, or the length. */
  function Find(p: seq<Sending>, e: Event): (i: nat)
    ensures i <= |p|
    ensures i < |p| ==> p[i].event == e
    ensures forall j :: 0 <= j < i ==> p[j].event != e
  {
    if p == [] || p[0].event == e then 0 else 1 + Find(p[1..], e)
  }

  lemma RestOneEach(p: seq<Sending>)
    requires OneEach(p) && p != []
    ensures OneEach(p[1..]) && forall j :: 0 <= j < |p| - 1 ==> p[1..][j].event != p[0].event
  {
    assert forall j :: 0 <= j < |p| - 1 ==> p[1..][j] == p[j + 1];
  }

  lemma {:induction false} WithoutAbsent(p: seq<Sending>, e: Event)
    requires forall j :: 0 <= j < |p| ==> p[j].event != e
    ensures WithoutEvent(p, e) == p && Find(p, e) == |p|
  {
    if p != [] { WithoutAbsent(p[1..], e); }
  }

  lemma DropLater(p: seq<Sending>, i: nat)
    requires i < |p| - 1
    ensures [p[0]] + (p[1..][..i] + p[1..][i + 1..]) == p[..i + 1] + p[i + 2..]
  {
  }

  lemma {:induction false} WithoutIs(p: seq<Sending>, e: Event)
    requires OneEach(p)
    ensures var i := Find(p, e); WithoutEvent(p, e) == if i < |p| then p[..i] + p[i + 1..] else p
  {
    if p != [] {
      RestOneEach(p);
      if p[0].event == e {
        WithoutAbsent(p[1..], e);
      } else {
        WithoutIs(p[1..], e);
        var i := Find(p[1..], e);
        if i < |p| - 1 { DropLater(p, i); }
      }
    }
  }

  /** The memory is the newest stretch of the latest publishes; what is missing before it is past
      the window or has `capacity` others after it. */
  ghost predicate Newest(all: seq<Sending>, memory: seq<Sending>, clock: int, window: int, capacity: nat, m: nat) {
    && m <= |all| && memory == all[m..] && |memory| <= capacity
    && (m > 0 ==> clock - all[m - 1].at >= window || |all| - m >= capacity)
  }

  ghost predicate Until(p: seq<Sending>, clock: int) { forall i :: 0 <= i < |p| ==> p[i].at <= clock }

  ghost predicate MemorySound(g: Progress, clock: int, window: int, capacity: nat, m: nat) {
    && Ordered(Latest(g.history)) && Until(Latest(g.history), clock)
    && Newest(Latest(g.history), g.memory, clock, window, capacity, m)
  }

  /** Pruning removes exactly what is past the window. */
  lemma {:induction false} PrunedIsSuffix(p: seq<Sending>, now: int, window: int) returns (k: nat)
    requires forall i, j :: 0 <= i < j < |p| ==> p[i].at <= p[j].at
    requires Until(p, now)
    ensures k <= |p| && Pruned(p, now, window) == p[k..]
    ensures forall i :: 0 <= i < |p| ==> (i < k <==> now - p[i].at >= window)
  {
    if p == [] || 0 <= now - p[0].at < window {
      k := 0;
    } else {
      var n := PrunedIsSuffix(p[1..], now, window);
      k := n + 1;
      assert p[1..][n..] == p[k..];
      forall i | 0 <= i < |p| ensures i < k <==> now - p[i].at >= window {
        if i > 0 { assert p[1..][i - 1] == p[i]; }
      }
    }
  }

  lemma PruneNewest(all: seq<Sending>, memory: seq<Sending>, clock: int, now: int, window: int, capacity: nat, m: nat)
    returns (n: nat)
    requires forall i, j :: 0 <= i < j < |all| ==> all[i].at <= all[j].at
    requires Until(all, now) && Newest(all, memory, clock, window, capacity, m) && clock <= now
    ensures Newest(all, Pruned(memory, now, window), now, window, capacity, n)
    ensures forall i :: n <= i < |all| ==> now - all[i].at < window
  {
    var k := PrunedIsSuffix(memory, now, window);
    n := m + k;
    assert all[m..][k..] == all[n..];
    assert k > 0 ==> memory[k - 1] == all[n - 1];
    forall i | n <= i < |all| ensures now - all[i].at < window { assert all[i] == memory[i - m]; }
  }

  /** `p` without position `i`, then `x`. */
  function MovedToEnd(p: seq<Sending>, i: nat, x: Sending): seq<Sending> {
    (if i < |p| then p[..i] + p[i + 1..] else p) + [x]
  }

  lemma MovedIs(p: seq<Sending>, e: Event, x: Sending)
    requires OneEach(p)
    ensures WithoutEvent(p, e) + [x] == MovedToEnd(p, Find(p, e), x)
  {
    WithoutIs(p, e);
  }

  lemma FindInSuffix(p: seq<Sending>, m: nat, e: Event)
    requires OneEach(p) && m <= |p|
    ensures Find(p[m..], e) == if Find(p, e) < m then |p| - m else Find(p, e) - m
  {
    var i, j := Find(p, e), Find(p[m..], e);
    assert forall k :: 0 <= k < |p| - m ==> p[m..][k] == p[m + k];
  }

  /** Where the stretch after `m` starts once position `i` has moved to the end. */
  function StartAfter(i: nat, m: nat): nat { if i < m then m - 1 else m }

  lemma MovedSuffix(all: seq<Sending>, i: nat, m: nat, x: Sending)
    requires m <= |all| && i <= |all|
    ensures StartAfter(i, m) <= |MovedToEnd(all, i, x)|
    ensures MovedToEnd(all[m..], if i < m then |all| - m else i - m, x) == MovedToEnd(all, i, x)[StartAfter(i, m)..]
  {
    if i < m {
      assert MovedToEnd(all, i, x)[m - 1..] == all[m..] + [x];
    } else if i < |all| {
      assert all[m..][..i - m] == all[m..i] && all[m..][i - m + 1..] == all[i + 1..];
      assert MovedToEnd(all, i, x)[m..] == all[m..i] + all[i + 1..] + [x];
    } else {
      assert MovedToEnd(all, i, x)[m..] == all[m..] + [x];
    }
  }

  lemma RecordNewest(all: seq<Sending>, memory: seq<Sending>, x: Sending, window: int, capacity: nat, m: nat, i: nat)
    returns (n: nat)
    requires Newest(all, memory, x.at, window, capacity, m) && i <= |all|
    requires 1 < m <= |all| ==> all[m - 2].at <= all[m - 1].at
    ensures var j := if i < m then |memory| else i - m;
            Newest(MovedToEnd(all, i, x), LastOf(MovedToEnd(memory, j, x), capacity), x.at, window, capacity, n)
  {
    var next, start := MovedToEnd(all, i, x), StartAfter(i, m);
    MovedSuffix(all, i, m, x);
    var q := next[start..];
    n := if |q| <= capacity then start else |next| - capacity;
    assert LastOf(q, capacity) == next[n..];
    if n > 0 && n == start { assert next[n - 1] == if i < n then all[n] else all[n - 1]; }
  }

  lemma MovedOrdered(p: seq<Sending>, x: Sending)
    requires Ordered(p) && Until(p, x.at)
    ensures Ordered(MovedToEnd(p, Find(p, x.event), x)) && Until(MovedToEnd(p, Find(p, x.event), x), x.at)
  {
    var i := Find(p, x.event);
    var q := MovedToEnd(p, i, x);
    forall a | 0 <= a < |q| - 1
      ensures q[a] == p[if a < i then a else a + 1] && q[a].event != x.event && q[a].at <= x.at
    {
      if a >= i { assert p[i].event != p[a + 1].event; }
    }
    forall a, b | 0 <= a < b < |q| ensures q[a].event != q[b].event && q[a].at <= q[b].at {
      if b < |q| - 1 {
        var a', b' := if a < i then a else a + 1, if b < i then b else b + 1;
        assert q[a] == p[a'] && q[b] == p[b'] && a' < b';
      }
    }
  }

  lemma {:induction false} RunSound(run: seq<Visit>, clock: int, window: int, capacity: nat) returns (m: nat)
    requires Forward(run) && forall i :: 0 <= i < |run| ==> run[i].now <= clock
    ensures MemorySound(After(run, window, capacity), clock, window, capacity, m)
  {
    if run == [] {
      m := 0;
    } else {
      var front, v := run[..|run| - 1], run[|run| - 1];
      m := RunSound(front, v.now, window, capacity);
      var g := After(front, window, capacity);
      m := PruneNewest(Latest(g.history), g.memory, v.now, v.now, window, capacity, m);
      if After(run, window, capacity).history != g.history {
        m := RecordSound(g.history, Pruned(g.memory, v.now, window), v.event, v.now, window, capacity, m);
      }
    }
  }

  lemma RecordSound(history: seq<Sending>, memory: seq<Sending>, e: Event, now: int, window: int, capacity: nat, m: nat)
    returns (n: nat)
    requires MemorySound(Progress(memory, history), now, window, capacity, m)
    ensures MemorySound(Progress(WithSending(memory, e, now, capacity), history + [Sending(e, now)]), now, window,
                        capacity, n)
  {
    var all, x := Latest(history), Sending(e, now);
    assert (history + [x])[..|history|] == history;
    MovedIs(all, e, x);
    MovedOrdered(all, x);
    n := RecordMemory(all, memory, x, window, capacity, m);
  }

  lemma SuffixOneEach(p: seq<Sending>, m: nat)
    requires OneEach(p) && m <= |p|
    ensures OneEach(p[m..])
  {
  }

  lemma RecordMemory(all: seq<Sending>, memory: seq<Sending>, x: Sending, window: int, capacity: nat, m: nat)
    returns (n: nat)
    requires OneEach(all) && (1 < m <= |all| ==> all[m - 2].at <= all[m - 1].at)
    requires Newest(all, memory, x.at, window, capacity, m)
    ensures Newest(MovedToEnd(all, Find(all, x.event), x), WithSending(memory, x.event, x.at, capacity), x.at, window,
                   capacity, n)
  {
    SuffixOneEach(all, m);
    MovedIs(memory, x.event, x);
    FindInSuffix(all, m, x.event);
    var i := Find(all, x.event);
    assert Find(memory, x.event) == if i < m then |memory| else i - m;
    n := RecordNewest(all, memory, x, window, capacity, m, i);
  }

  /** The envelope went out inside the window, and fewer than `capacity` others after it. */
  ghost predicate StillRecent(all: seq<Sending>, e: Event, now: int, window: int, capacity: nat) {
    exists i :: 0 <= i < |all| && all[i].event == e && now - all[i].at < window && |all| - 1 - i < capacity
  }

  /** A sending in the newest stretch has fewer than `capacity` after it, and conversely. */
  lemma InNewest(all: seq<Sending>, memory: seq<Sending>, e: Event, now: int, window: int, capacity: nat, n: nat)
    requires Newest(all, memory, now, window, capacity, n)
    requires forall i :: n <= i < |all| ==> now - all[i].at < window
    requires n > 0 ==> forall i :: 0 <= i < n ==> all[i].at <= all[n - 1].at
    ensures Remembers(memory, e) <==> StillRecent(all, e, now, window, capacity)
  {
    if Remembers(memory, e) {
      var j :| 0 <= j < |memory| && memory[j].event == e;
      assert all[n + j] == memory[j];
    }
    if i :| 0 <= i < |all| && all[i].event == e && now - all[i].at < window && |all| - 1 - i < capacity {
      assert i >= n;
      assert memory[i - n] == all[i];
    }
  }

  lemma SoundSees(all: seq<Sending>, memory: seq<Sending>, e: Event, now: int, window: int, capacity: nat, m: nat)
    requires Ordered(all) && Until(all, now) && Newest(all, memory, now, window, capacity, m)
    ensures Remembers(Pruned(memory, now, window), e) <==> StillRecent(all, e, now, window, capacity)
  {
    var n := PruneNewest(all, memory, now, now, window, capacity, m);
    InNewest(all, Pruned(memory, now, window), e, now, window, capacity, n);
  }

  /** With the clock going forward, an envelope is recognised exactly while its latest publish
      is inside the window and fewer than `capacity` other envelopes went out after it. */
  lemma SeenExactly(run: seq<Visit>, e: Event, now: int, window: int, capacity: nat)
    requires Forward(run) && forall i :: 0 <= i < |run| ==> run[i].now <= now
    ensures var g := After(run, window, capacity);
            Remembers(Pruned(g.memory, now, window), e) <==> StillRecent(Latest(g.history), e, now, window, capacity)
  {
    var g := After(run, window, capacity);
    var m := RunSound(run, now, window, capacity);
    SoundSees(Latest(g.history), g.memory, e, now, window, capacity, m);
  }

  function Events(p: seq<Sending>): set<Event> { set s | s in p :: s.event }

  lemma {:induction false} EventsCount(p: seq<Sending>)
    requires OneEach(p)
    ensures |Events(p)| == |p|
  {
    if p != [] {
      EventsCount(p[1..]);
      assert p == [p[0]] + p[1..];
      assert Events(p) == {p[0].event} + Events(p[1..]);
      assert p[0].event !in Events(p[1..]);
    }
  }

  lemma {:induction false} WithoutMember(p: seq<Sending>, e: Event)
    requires OneEach(p)
    ensures OneEach(WithoutEvent(p, e)) && forall x :: x in WithoutEvent(p, e) <==> x in p && x.event != e
  {
    if p != [] {
      RestOneEach(p);
      WithoutMember(p[1..], e);
      assert forall x :: x in p <==> x == p[0] || x in p[1..];
      PrependOneEach(p[0], WithoutEvent(p[1..], e));
    }
  }

  lemma PrependOneEach(x: Sending, p: seq<Sending>)
    requires OneEach(p) && forall y :: y in p ==> y.event != x.event
    ensures OneEach([x] + p)
  {
  }

  lemma AppendOneEach(p: seq<Sending>, x: Sending)
    requires OneEach(p) && forall y :: y in p ==> y.event != x.event
    ensures OneEach(p + [x])
  {
    forall i, j | 0 <= i < j < |p + [x]| ensures (p + [x])[i].event != (p + [x])[j].event {
      if j == |p| { assert p[i] in p; }
    }
  }

  lemma {:induction false} LatestOneEach(history: seq<Sending>)
    ensures OneEach(Latest(history))
  {
    if history != [] {
      var front, last := history[..|history| - 1], history[|history| - 1];
      LatestOneEach(front);
      WithoutMember(Latest(front), last.event);
      AppendOneEach(WithoutEvent(Latest(front), last.event), last);
    }
  }

  lemma EventsAppend(p: seq<Sending>, q: seq<Sending>)
    ensures Events(p + q) == Events(p) + Events(q)
  {
  }

  lemma EventsDropped(a: seq<Sending>, x: Sending, b: seq<Sending>, last: Sending)
    requires x.event == last.event
    ensures Events(a + b + [last]) == Events(a + [x] + b) + {last.event}
  {
    EventsAppend(a + b, [last]);
    EventsAppend(a, b);
    EventsAppend(a + [x], b);
    EventsAppend(a, [x]);
  }

  /** Moving `e` to the end changes what stands after position `f` by exactly `e`. */
  lemma AfterWithout(p: seq<Sending>, f: nat, last: Sending) returns (i: nat)
    requires OneEach(p) && f < |p| && p[f].event != last.event
    ensures var q := WithoutEvent(p, last.event) + [last];
            i < |q| && q[i] == p[f] && Events(q[i + 1..]) == Events(p[f + 1..]) + {last.event}
  {
    WithoutIs(p, last.event);
    var k := Find(p, last.event);
    if k < f {
      AfterEarlier(p, f, k, last);
      i := f - 1;
    } else if k < |p| {
      AfterMoved(p, f, k, last);
      i := f;
    } else {
      AfterAppended(p, f, last);
      i := f;
    }
  }

  lemma AfterMoved(p: seq<Sending>, f: nat, k: nat, last: Sending)
    requires f < k < |p| && p[k].event == last.event
    ensures var q := p[..k] + p[k + 1..] + [last];
            q[f] == p[f] && Events(q[f + 1..]) == Events(p[f + 1..]) + {last.event}
  {
    var q := p[..k] + p[k + 1..] + [last];
    assert q[f + 1..] == p[f + 1..k] + p[k + 1..] + [last];
    assert p[f + 1..] == p[f + 1..k] + [p[k]] + p[k + 1..];
    EventsDropped(p[f + 1..k], p[k], p[k + 1..], last);
  }

  lemma AfterEarlier(p: seq<Sending>, f: nat, k: nat, last: Sending)
    requires k < f < |p|
    ensures var q := p[..k] + p[k + 1..] + [last];
            q[f - 1] == p[f] && Events(q[f..]) == Events(p[f + 1..]) + {last.event}
  {
    var q := p[..k] + p[k + 1..] + [last];
    assert q[f..] == p[f + 1..] + [last];
    EventsAppend(p[f + 1..], [last]);
  }

  lemma AfterAppended(p: seq<Sending>, f: nat, last: Sending)
    requires f < |p|
    ensures Events((p + [last])[f + 1..]) == Events(p[f + 1..]) + {last.event}
  {
    assert (p + [last])[f + 1..] == p[f + 1..] + [last];
    EventsAppend(p[f + 1..], [last]);
  }

  lemma SinceGrows(history: seq<Sending>, a: nat)
    requires a < |history| - 1
    ensures Events(history[a + 1..]) == Events(history[..|history| - 1][a + 1..]) + {history[|history| - 1].event}
  {
    assert history[a + 1..] == history[..|history| - 1][a + 1..] + [history[|history| - 1]];
    EventsAppend(history[..|history| - 1][a + 1..], [history[|history| - 1]]);
  }

  /** Nothing after position `a` is of the same envelope. */
  ghost predicate LastOfIts(history: seq<Sending>, a: nat)
    requires a < |history|
  {
    forall j :: a < j < |history| ==> history[j].event != history[a].event
  }

  /** `Latest` read back in the history: the entry of an envelope is its last publish, and what
      stands after it are the envelopes published since. */
  lemma {:induction false} LatestIs(history: seq<Sending>, a: nat) returns (i: nat)
    requires a < |history| && LastOfIts(history, a)
    ensures i < |Latest(history)| && Latest(history)[i] == history[a]
    ensures Events(Latest(history)[i + 1..]) == Events(history[a + 1..])
  {
    var front, last := history[..|history| - 1], history[|history| - 1];
    if a == |history| - 1 {
      i := |Latest(history)| - 1;
      assert history[a + 1..] == [] && Latest(history)[i + 1..] == [];
    } else {
      assert LastOfIts(front, a) by { assert forall j :: 0 <= j < |front| ==> front[j] == history[j]; }
      var f := LatestIs(front, a);
      LatestOneEach(front);
      assert last.event != history[a].event;
      i := AfterWithout(Latest(front), f, last);
      SinceGrows(history, a);
    }
  }

  /** With the clock going forward, one envelope is published twice inside the window only if at
      least `capacity` other envelopes were published in between. */
  lemma {:induction false} NoRepeatInWindow(run: seq<Visit>, a: nat, b: nat, window: int, capacity: nat)
    requires Forward(run)
    requires var h := After(run, window, capacity).history;
             a < b < |h| && h[a].event == h[b].event && forall j :: a < j < b ==> h[j].event != h[a].event
    ensures var h := After(run, window, capacity).history;
            h[b].at - h[a].at >= window || |Events(h[a + 1..b])| >= capacity
  {
    var front, v := run[..|run| - 1], run[|run| - 1];
    var g := After(front, window, capacity);
    var h := After(run, window, capacity).history;
    if b < |g.history| {
      assert forall j :: 0 <= j < |g.history| ==> h[j] == g.history[j];
      NoRepeatInWindow(front, a, b, window, capacity);
      assert h[a + 1..b] == g.history[a + 1..b];
    } else {
      var i := LatestIs(g.history, a);
      var all := Latest(g.history);
      assert h[a + 1..b] == g.history[a + 1..];
      LatestOneEach(g.history);
      EventsCount(all[i + 1..]);
      SeenExactly(front, v.event, v.now, window, capacity);
    }
  }
}
