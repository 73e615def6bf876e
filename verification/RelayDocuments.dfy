/** The state document: what is written, what a read accepts, and the two older schemas. */
module RelayDocuments {
  import opened Orders
  import opened Options
  import opened RelayModel
  import opened RelayBounds
  import opened RelaySections
  import opened RelayHealth

  /** A timestamp field as read: one that parses, or anything else. */
  datatype RawStamp = Timestamp(stamp: Stamp) | OtherText

  datatype EntryDoc = EntryDoc(identity: string, state: string, timestamp: RawStamp)
  datatype CounterDoc = CounterDoc(identity: string, count: int, notified: bool)
  datatype BudgetDoc = BudgetDoc(day: string, count: int, notified: bool, containers: seq<CounterDoc>)

  datatype Doc =
    | Version1(unhealthy: seq<string>)
    | Version2(entries: seq<EntryDoc>)
    | Version3(entries: seq<EntryDoc>, budget: BudgetDoc)
    | OtherDocument

  const MINIMUM_STAMP := Stamp(0, 0)

  predicate Control(c: char) { c as int < 0x20 || c as int == 0x7F }

  predicate ValidHost(s: string) { 1 <= |s| <= 256 && forall i :: 0 <= i < |s| ==> !Control(s[i]) }

  predicate ValidContainerId(s: string) {
    12 <= |s| <= 64 && forall i :: 0 <= i < |s| ==> '0' <= s[i] <= '9' || 'a' <= s[i] <= 'f'
  }

  /** `validate_state_identity`. */
  predicate ValidIdentity(s: string) {
    exists k :: 0 <= k < |s| && s[k] == '\0' && ValidHost(s[..k]) && ValidContainerId(s[k + 1..])
  }

  predicate Digit(c: char) { '0' <= c <= '9' }

  predicate ValidDay(s: string) {
    |s| == 10 && s[4] == '-' && s[7] == '-' && forall i :: 0 <= i < 10 && i != 4 && i != 7 ==> Digit(s[i])
  }

  function HealthName(h: Health): string { if h.Healthy? then "healthy" else "unhealthy" }

  /* ----- a map as a list in identity order ----- */

  datatype Keyed<+V> = Keyed(id: Identity, value: V)

  function Keys<V>(ps: seq<Keyed<V>>): seq<string> { seq(|ps|, i requires 0 <= i < |ps| => ps[i].id) }

  /** `identities == sorted(set(identities))`. */
  ghost predicate Canonical(ids: seq<string>) { ids == Ascending(set id | id in ids) }

  function Along<V>(m: map<Identity, V>, ids: seq<string>): seq<Keyed<V>>
    requires forall id :: id in ids ==> id in m
  {
    seq(|ids|, i requires 0 <= i < |ids| => assert ids[i] in ids; Keyed(ids[i], m[ids[i]]))
  }

  lemma AlongHas<V>(m: map<Identity, V>, ids: seq<string>, id: string)
    requires (forall x :: x in ids ==> x in m) && id in ids
    ensures Keyed(id, m[id]) in Along(m, ids)
  {
    var i :| 0 <= i < |ids| && ids[i] == id;
    assert Along(m, ids)[i] == Keyed(id, m[id]);
  }

  lemma AlongKeys<V>(m: map<Identity, V>, ids: seq<string>)
    requires forall x :: x in ids ==> x in m
    ensures Keys(Along(m, ids)) == ids
    ensures forall p :: p in Along(m, ids) ==> p.id in m && m[p.id] == p.value
  {
  }

  ghost function Listed<V>(m: map<Identity, V>): (r: seq<Keyed<V>>)
    ensures forall p :: p in r ==> p.id in m && m[p.id] == p.value
    ensures forall id :: id in m ==> Keyed(id, m[id]) in r
    ensures Keys(r) == Ascending(m.Keys)
  {
    var ids := Ascending(m.Keys);
    assert forall id :: id in m ==> Keyed(id, m[id]) in Along(m, ids) by {
      forall id | id in m ensures Keyed(id, m[id]) in Along(m, ids) { AlongHas(m, ids, id); }
    }
    AlongKeys(m, ids);
    Along(m, ids)
  }

  lemma KeysHas<V>(ps: seq<Keyed<V>>, id: Identity)
    ensures id in Keys(ps) <==> exists p :: p in ps && p.id == id
  {
    if id in Keys(ps) { var i :| 0 <= i < |ps| && Keys(ps)[i] == id; assert ps[i] in ps; }
    if p :| p in ps && p.id == id { var i :| 0 <= i < |ps| && ps[i] == p; assert Keys(ps)[i] == id; }
  }

  /** Filled in listing order, so the last of equal keys stands. */
  function Filled<V>(ps: seq<Keyed<V>>): map<Identity, V> {
    if ps == [] then map[] else Filled(ps[..|ps| - 1])[ps[|ps| - 1].id := ps[|ps| - 1].value]
  }

  lemma CanonicalIncreasing(ids: seq<string>)
    ensures Canonical(ids) <==> Increasing(StrLess, ids)
  {
    var s := set id | id in ids;
    if Increasing(StrLess, ids) {
      StrOrder();
      NamesUnique(ids, Ascending(s));
    }
  }

  lemma CanonicalDistinct<V>(ps: seq<Keyed<V>>)
    requires Canonical(Keys(ps))
    ensures Apart(ps)
  {
    CanonicalIncreasing(Keys(ps));
    forall i, j | 0 <= i < j < |ps| ensures ps[i].id != ps[j].id {
      assert StrLess(Keys(ps)[i], Keys(ps)[j]);
      StrAsymmetric(ps[i].id, ps[j].id);
    }
  }

  /** No identity is listed twice. */
  ghost predicate Apart<V>(ps: seq<Keyed<V>>) { forall i, j :: 0 <= i < j < |ps| ==> ps[i].id != ps[j].id }

  /** The map holds exactly what is listed. */
  ghost predicate Fills<V>(m: map<Identity, V>, ps: seq<Keyed<V>>) {
    && (forall p :: p in ps ==> p.id in m && m[p.id] == p.value)
    && (forall id :: id in m ==> Keyed(id, m[id]) in ps)
  }

  lemma FrontApart<V>(ps: seq<Keyed<V>>)
    requires Apart(ps) && ps != []
    ensures Apart(ps[..|ps| - 1]) && forall p :: p in ps[..|ps| - 1] ==> p.id != ps[|ps| - 1].id
  {
    assert forall i :: 0 <= i < |ps| - 1 ==> ps[..|ps| - 1][i] == ps[i];
  }

  lemma FillsAppend<V>(m: map<Identity, V>, ps: seq<Keyed<V>>, x: Keyed<V>)
    requires Fills(m, ps) && forall p :: p in ps ==> p.id != x.id
    ensures x.id !in m && Fills(m[x.id := x.value], ps + [x])
  {
    forall id | id in m ensures id != x.id { assert Keyed(id, m[id]) in ps; }
    var next := m[x.id := x.value];
    forall id | id in next ensures Keyed(id, next[id]) in ps + [x] {
      if id != x.id { assert Keyed(id, m[id]) in ps; }
    }
  }

  lemma {:induction false} FilledIs<V>(ps: seq<Keyed<V>>)
    requires Apart(ps)
    ensures Fills(Filled(ps), ps) && |Filled(ps)| == |ps|
  {
    if ps != [] {
      FrontApart(ps);
      FilledIs(ps[..|ps| - 1]);
      FillsAppend(Filled(ps[..|ps| - 1]), ps[..|ps| - 1], ps[|ps| - 1]);
      assert ps == ps[..|ps| - 1] + [ps[|ps| - 1]];
    }
  }

  lemma FillsUnique<V>(m: map<Identity, V>, n: map<Identity, V>, ps: seq<Keyed<V>>)
    requires Fills(m, ps) && Fills(n, ps)
    ensures m == n
  {
    forall id | id in m ensures id in n && n[id] == m[id] { assert Keyed(id, m[id]) in ps; }
    forall id | id in n ensures id in m { assert Keyed(id, n[id]) in ps; }
  }

  lemma AscendingCanonical(s: set<string>)
    ensures Canonical(Ascending(s))
  {
    assert (set id | id in Ascending(s)) == s;
  }

  lemma FilledListed<V>(m: map<Identity, V>)
    ensures Canonical(Keys(Listed(m))) && Filled(Listed(m)) == m
  {
    var ps := Listed(m);
    AscendingCanonical(m.Keys);
    CanonicalDistinct(ps);
    FilledIs(ps);
    FillsUnique(Filled(ps), m, ps);
  }

  lemma FilledKeySet<V>(ps: seq<Keyed<V>>)
    requires Apart(ps)
    ensures Filled(ps).Keys == set id | id in Keys(ps)
  {
    FilledIs(ps);
    var m := Filled(ps);
    forall id: Identity ensures id in m <==> id in Keys(ps) {
      KeysHas(ps, id);
      if id in m { assert Keyed(id, m[id]) in ps; }
    }
  }

  lemma SameKeysSameList<V>(a: seq<Keyed<V>>, b: seq<Keyed<V>>, m: map<Identity, V>)
    requires Keys(a) == Keys(b)
    requires (forall p :: p in a ==> p.id in m && m[p.id] == p.value) &&
             (forall p :: p in b ==> p.id in m && m[p.id] == p.value)
    ensures a == b
  {
    assert |a| == |Keys(a)| == |b|;
    forall i | 0 <= i < |a| ensures a[i] == b[i] {
      assert Keys(a)[i] == Keys(b)[i] && a[i] in a && b[i] in b;
    }
  }

  lemma ListedFilled<V>(ps: seq<Keyed<V>>)
    requires Canonical(Keys(ps))
    ensures Listed(Filled(ps)) == ps
  {
    CanonicalDistinct(ps);
    FilledIs(ps);
    FilledKeySet(ps);
    SameKeysSameList(Listed(Filled(ps)), ps, Filled(ps));
  }

  /* ----- documents ----- */

  function EntryDocOf(p: Keyed<Entry>): EntryDoc { EntryDoc(p.id, HealthName(p.value.state), Timestamp(p.value.stamp)) }
  function CounterDocOf(p: Keyed<Counter>): CounterDoc { CounterDoc(p.id, p.value.count, p.value.notified) }

  predicate ValidEntryDoc(d: EntryDoc) {
    ValidIdentity(d.identity) && (d.state == "healthy" || d.state == "unhealthy") && d.timestamp.Timestamp?
  }

  predicate ValidCounterDoc(d: CounterDoc) { ValidIdentity(d.identity) && d.count >= 0 }

  function EntryPair(d: EntryDoc): Keyed<Entry>
    requires ValidEntryDoc(d)
  {
    Keyed(d.identity, Entry(if d.state == "healthy" then Healthy else Unhealthy, d.timestamp.stamp))
  }

  function CounterPair(d: CounterDoc): Keyed<Counter>
    requires ValidCounterDoc(d)
  {
    Keyed(d.identity, Counter(d.count, d.notified))
  }

  function EntryDocs(ps: seq<Keyed<Entry>>): seq<EntryDoc> { seq(|ps|, i requires 0 <= i < |ps| => EntryDocOf(ps[i])) }
  function CounterDocs(ps: seq<Keyed<Counter>>): seq<CounterDoc> {
    seq(|ps|, i requires 0 <= i < |ps| => CounterDocOf(ps[i]))
  }

  predicate ValidEntryDocs(ds: seq<EntryDoc>) { forall i :: 0 <= i < |ds| ==> ValidEntryDoc(ds[i]) }
  predicate ValidCounterDocs(ds: seq<CounterDoc>) { forall i :: 0 <= i < |ds| ==> ValidCounterDoc(ds[i]) }

  function EntryPairs(ds: seq<EntryDoc>): seq<Keyed<Entry>>
    requires ValidEntryDocs(ds)
  {
    seq(|ds|, i requires 0 <= i < |ds| => EntryPair(ds[i]))
  }

  function CounterPairs(ds: seq<CounterDoc>): seq<Keyed<Counter>>
    requires ValidCounterDocs(ds)
  {
    seq(|ds|, i requires 0 <= i < |ds| => CounterPair(ds[i]))
  }

  /** `state_bytes` before serialisation: everything in identity order. */
  ghost function Written(entries: map<Identity, Entry>, b: Budget): Doc {
    Version3(EntryDocs(Listed(entries)), BudgetDoc(b.day, b.count, b.notified, CounterDocs(Listed(b.containers))))
  }

  function LegacyEntries(ids: seq<string>): map<Identity, Entry> {
    map id | id in ids :: Entry(Unhealthy, MINIMUM_STAMP)
  }

  ghost predicate AcceptedEntries(ds: seq<EntryDoc>) {
    ValidEntryDocs(ds) && Canonical(Keys(EntryPairs(ds))) && |Filled(EntryPairs(ds))| <= MAX_STATE_ENTRIES
  }

  ghost predicate AcceptedBudget(d: BudgetDoc) {
    && ValidDay(d.day) && d.count >= 0
    && ValidCounterDocs(d.containers) && Canonical(Keys(CounterPairs(d.containers)))
    && |Filled(CounterPairs(d.containers))| <= MAX_BUDGET_ENTRIES
  }

  /** `parse_state_document`; None when it raises. Version 1 knows no bound on its entries. */
  ghost function Parsed(doc: Doc): Option<Stored> {
    match doc
    case Version1(ids) =>
      if Canonical(ids) && forall id :: id in ids ==> ValidIdentity(id) then
        Some(Stored(LegacyEntries(ids), None, true))
      else None
    case Version2(ds) =>
      if AcceptedEntries(ds) then Some(Stored(Filled(EntryPairs(ds)), None, true)) else None
    case Version3(ds, b) =>
      if AcceptedBudget(b) && AcceptedEntries(ds) then
        Some(Stored(Filled(EntryPairs(ds)),
                    Some(Budget(b.day, b.count, b.notified, Filled(CounterPairs(b.containers)))), false))
      else None
    case OtherDocument => None
  }

  /* ----- round trips ----- */

  lemma EntryDocsInverse(ps: seq<Keyed<Entry>>, ds: seq<EntryDoc>)
    ensures (forall p :: p in ps ==> ValidIdentity(p.id)) ==>
              ValidEntryDocs(EntryDocs(ps)) && EntryPairs(EntryDocs(ps)) == ps
    ensures ValidEntryDocs(ds) ==> EntryDocs(EntryPairs(ds)) == ds
  {
  }

  lemma CounterDocsInverse(ps: seq<Keyed<Counter>>, ds: seq<CounterDoc>)
    ensures (forall p :: p in ps ==> ValidIdentity(p.id)) ==>
              ValidCounterDocs(CounterDocs(ps)) && CounterPairs(CounterDocs(ps)) == ps
    ensures ValidCounterDocs(ds) ==> CounterDocs(CounterPairs(ds)) == ds
  {
  }

  ghost predicate WellFormed(entries: map<Identity, Entry>, b: Budget) {
    ValidDay(b.day) && (forall id :: id in entries ==> ValidIdentity(id)) &&
        (forall id :: id in b.containers ==> ValidIdentity(id))
  }

  lemma EntriesRead(entries: map<Identity, Entry>)
    requires (forall id :: id in entries ==> ValidIdentity(id)) && |entries| <= MAX_STATE_ENTRIES
    ensures var ds := EntryDocs(Listed(entries)); AcceptedEntries(ds) && Filled(EntryPairs(ds)) == entries
  {
    FilledListed(entries);
    EntryDocsInverse(Listed(entries), []);
  }

  lemma CountersRead(counters: map<Identity, Counter>)
    requires forall id :: id in counters ==> ValidIdentity(id)
    ensures var ds := CounterDocs(Listed(counters));
            ValidCounterDocs(ds) && Canonical(Keys(CounterPairs(ds))) && Filled(CounterPairs(ds)) == counters
  {
    FilledListed(counters);
    CounterDocsInverse(Listed(counters), []);
  }

  lemma ParsedVersion3(ds: seq<EntryDoc>, b: BudgetDoc, entries: map<Identity, Entry>, counters: map<Identity, Counter>)
    requires AcceptedEntries(ds) && AcceptedBudget(b) && Filled(EntryPairs(ds)) == entries &&
             Filled(CounterPairs(b.containers)) == counters
    ensures Parsed(Version3(ds, b)) == Some(Stored(entries, Some(Budget(b.day, b.count, b.notified, counters)), false))
  {
  }

  /* ----- what a read accepts, and what it makes of it ----- */

  function DocIds(ds: seq<EntryDoc>): seq<string> { seq(|ds|, i requires 0 <= i < |ds| => ds[i].identity) }
  function CounterIds(ds: seq<CounterDoc>): seq<string> { seq(|ds|, i requires 0 <= i < |ds| => ds[i].identity) }

  /** Valid identities in strictly rising order. */
  ghost predicate InOrder(ids: seq<string>) { Increasing(StrLess, ids) && forall id :: id in ids ==> ValidIdentity(id) }

  /** A health state and a timestamp that parses. */
  predicate Sayable(d: EntryDoc) { (d.state == "healthy" || d.state == "unhealthy") && d.timestamp.Timestamp? }

  predicate Says(d: EntryDoc, e: Entry) {
    d.timestamp == Timestamp(e.stamp) && d.state == if e.state.Healthy? then "healthy" else "unhealthy"
  }

  /** One entry for each listed one, saying the same, and no other. */
  ghost predicate Describe(ds: seq<EntryDoc>, m: map<Identity, Entry>) {
    && (forall d :: d in ds ==> d.identity in m && Says(d, m[d.identity]))
    && (forall id :: id in m ==> id in DocIds(ds))
  }

  ghost predicate Count(ds: seq<CounterDoc>, m: map<Identity, Counter>) {
    && (forall d :: d in ds ==>
          d.identity in m && d.count == m[d.identity].count && d.notified == m[d.identity].notified)
    && (forall id :: id in m ==> id in CounterIds(ds))
  }

  lemma EntriesAccepted(ds: seq<EntryDoc>)
    ensures AcceptedEntries(ds) <==> ListedEntries(ds)
  {
    if ValidEntryDocs(ds) {
      assert Keys(EntryPairs(ds)) == DocIds(ds);
      CanonicalIncreasing(DocIds(ds));
      if Canonical(DocIds(ds)) {
        CanonicalDistinct(EntryPairs(ds));
        FilledIs(EntryPairs(ds));
      }
    }
    if InOrder(DocIds(ds)) && forall d :: d in ds ==> Sayable(d) {
      forall i | 0 <= i < |ds| ensures ValidEntryDoc(ds[i]) {
        assert DocIds(ds)[i] in DocIds(ds) && ds[i] in ds;
      }
    }
  }

  lemma EntriesDescribed(ds: seq<EntryDoc>)
    requires AcceptedEntries(ds)
    ensures Describe(ds, Filled(EntryPairs(ds)))
  {
    var ps, m := EntryPairs(ds), Filled(EntryPairs(ds));
    CanonicalDistinct(ps);
    FilledIs(ps);
    forall d | d in ds ensures d.identity in m && Says(d, m[d.identity]) {
      var i :| 0 <= i < |ds| && ds[i] == d;
      assert ps[i] in ps;
    }
    forall id | id in m ensures id in DocIds(ds) {
      var i :| 0 <= i < |ps| && ps[i] == Keyed(id, m[id]);
      assert DocIds(ds)[i] == id;
    }
  }

  lemma CountersAccepted(ds: seq<CounterDoc>)
    ensures ValidCounterDocs(ds) && Canonical(Keys(CounterPairs(ds))) &&
            |Filled(CounterPairs(ds))| <= MAX_BUDGET_ENTRIES
            <==> InOrder(CounterIds(ds)) && (forall d :: d in ds ==> d.count >= 0) && |ds| <= MAX_BUDGET_ENTRIES
  {
    if ValidCounterDocs(ds) {
      assert Keys(CounterPairs(ds)) == CounterIds(ds);
      CanonicalIncreasing(CounterIds(ds));
      if Canonical(CounterIds(ds)) {
        CanonicalDistinct(CounterPairs(ds));
        FilledIs(CounterPairs(ds));
      }
    }
    if InOrder(CounterIds(ds)) && forall d :: d in ds ==> d.count >= 0 {
      forall i | 0 <= i < |ds| ensures ValidCounterDoc(ds[i]) {
        assert CounterIds(ds)[i] in CounterIds(ds) && ds[i] in ds;
      }
    }
  }

  lemma CountersDescribed(ds: seq<CounterDoc>)
    requires ValidCounterDocs(ds) && Canonical(Keys(CounterPairs(ds)))
    ensures Count(ds, Filled(CounterPairs(ds)))
  {
    var ps, m := CounterPairs(ds), Filled(CounterPairs(ds));
    CanonicalDistinct(ps);
    FilledIs(ps);
    forall d | d in ds
      ensures d.identity in m && d.count == m[d.identity].count && d.notified == m[d.identity].notified
    {
      var i :| 0 <= i < |ds| && ds[i] == d;
      assert ps[i] in ps;
    }
    forall id | id in m ensures id in CounterIds(ds) {
      var i :| 0 <= i < |ps| && ps[i] == Keyed(id, m[id]);
      assert CounterIds(ds)[i] == id;
    }
  }

  ghost predicate ListedEntries(ds: seq<EntryDoc>) {
    InOrder(DocIds(ds)) && (forall d :: d in ds ==> Sayable(d)) && |ds| <= MAX_STATE_ENTRIES
  }

  ghost predicate ListedBudget(b: BudgetDoc) {
    && ValidDay(b.day) && b.count >= 0 && InOrder(CounterIds(b.containers))
    && (forall d :: d in b.containers ==> d.count >= 0) && |b.containers| <= MAX_BUDGET_ENTRIES
  }

  /** The budget is the one listed. */
  ghost predicate Budgets(d: BudgetDoc, b: Budget) {
    b.day == d.day && b.count == d.count && b.notified == d.notified && Count(d.containers, b.containers)
  }

  /** Which documents of the first version are accepted, and as what. */
  lemma Version1Exactly(ids: seq<string>)
    ensures Parsed(Version1(ids)).Some? <==> InOrder(ids)
    ensures InOrder(ids) ==>
              var s := Parsed(Version1(ids)).value;
              && s.budget == None && s.migrate && (forall id :: id in s.entries <==> id in ids)
              && forall id :: id in ids ==> s.entries[id] == Entry(Unhealthy, Stamp(0, 0))
  {
    CanonicalIncreasing(ids);
  }

  /** Of the second. */
  lemma Version2Exactly(ds: seq<EntryDoc>)
    ensures Parsed(Version2(ds)).Some? <==> ListedEntries(ds)
    ensures ListedEntries(ds) ==>
              var s := Parsed(Version2(ds)).value; s.budget == None && s.migrate && Describe(ds, s.entries)
  {
    EntriesAccepted(ds);
    if AcceptedEntries(ds) { EntriesDescribed(ds); }
  }

  /** And of the third. */
  lemma Version3Exactly(ds: seq<EntryDoc>, b: BudgetDoc)
    ensures Parsed(Version3(ds, b)).Some? <==> ListedEntries(ds) && ListedBudget(b)
    ensures ListedEntries(ds) && ListedBudget(b) ==>
              var s := Parsed(Version3(ds, b)).value;
              !s.migrate && s.budget.Some? && Describe(ds, s.entries) && Budgets(b, s.budget.value)
  {
    EntriesAccepted(ds);
    BudgetAccepted(b);
    if AcceptedEntries(ds) { EntriesDescribed(ds); }
    if AcceptedBudget(b) { CountersDescribed(b.containers); }
  }

  lemma BudgetAccepted(b: BudgetDoc)
    ensures AcceptedBudget(b) <==> ListedBudget(b)
  {
    CountersAccepted(b.containers);
  }

  /** A well-formed state within the bounds is read back as it was. */
  lemma WrittenIsRead(entries: map<Identity, Entry>, b: Budget)
    requires WellFormed(entries, b) && |entries| <= MAX_STATE_ENTRIES && |b.containers| <= MAX_BUDGET_ENTRIES
    ensures Parsed(Written(entries, b)) == Some(Stored(entries, Some(b), false))
  {
    EntriesRead(entries);
    CountersRead(b.containers);
    var written := BudgetDoc(b.day, b.count, b.notified, CounterDocs(Listed(b.containers)));
    assert AcceptedBudget(written);
    ParsedVersion3(EntryDocs(Listed(entries)), written, entries, b.containers);
  }

  /** An accepted version-3 document is the one document that writes its own state. */
  lemma AcceptedIsCanonical(doc: Doc)
    requires doc.Version3? && Parsed(doc).Some?
    ensures doc == Written(Parsed(doc).value.entries, Parsed(doc).value.budget.value)
  {
    ListedFilled(EntryPairs(doc.entries));
    ListedFilled(CounterPairs(doc.budget.containers));
    EntryDocsInverse([], doc.entries);
    CounterDocsInverse([], doc.budget.containers);
  }

  lemma FilledKeys<V>(ps: seq<Keyed<V>>)
    requires Canonical(Keys(ps)) && forall p :: p in ps ==> ValidIdentity(p.id)
    ensures forall id :: id in Filled(ps) ==> ValidIdentity(id)
  {
    CanonicalDistinct(ps);
    FilledIs(ps);
  }

  lemma PairIds(ds: seq<EntryDoc>, ks: seq<CounterDoc>)
    requires ValidEntryDocs(ds) && ValidCounterDocs(ks)
    ensures forall p :: p in EntryPairs(ds) ==> ValidIdentity(p.id)
    ensures forall p :: p in CounterPairs(ks) ==> ValidIdentity(p.id)
  {
    forall p | p in EntryPairs(ds) ensures ValidIdentity(p.id) {
      var i :| 0 <= i < |ds| && EntryPairs(ds)[i] == p;
    }
    forall p | p in CounterPairs(ks) ensures ValidIdentity(p.id) {
      var i :| 0 <= i < |ks| && CounterPairs(ks)[i] == p;
    }
  }

  lemma ParsedValid(doc: Doc)
    requires Parsed(doc).Some?
    ensures var s := Parsed(doc).value;
            && ValidIds(s.entries) &&
               (s.budget.Some? ==> ValidIds(s.budget.value.containers) && ValidDay(s.budget.value.day))
  {
    if !doc.Version1? {
      PairIds(doc.entries, []);
      FilledKeys(EntryPairs(doc.entries));
    }
    if doc.Version3? {
      PairIds([], doc.budget.containers);
      FilledKeys(CounterPairs(doc.budget.containers));
    }
  }

  /** What a read accepts is well-formed, whatever its version. */
  lemma ParsedWellFormed(doc: Doc, day: string)
    requires Parsed(doc).Some? && ValidDay(day)
    ensures var s := Parsed(doc).value;
            WellFormed(s.entries, if s.budget.Some? then s.budget.value else EmptyBudget(day))
  {
    ParsedValid(doc);
  }

  /** More entries than a read admits are written and then refused. */
  lemma TooManyRefused(entries: map<Identity, Entry>, b: Budget)
    requires (forall id :: id in entries ==> ValidIdentity(id)) && |entries| > MAX_STATE_ENTRIES
    ensures Parsed(Written(entries, b)) == None
  {
    FilledListed(entries);
    EntryDocsInverse(Listed(entries), []);
  }

  lemma LegacyCount(ids: seq<string>)
    requires Canonical(ids)
    ensures |LegacyEntries(ids)| == |ids|
  {
    assert LegacyEntries(ids).Keys == set id | id in ids;
    assert |LegacyEntries(ids)| == |LegacyEntries(ids).Keys|;
  }

  /** A migrated document, rewritten with any budget, re-reads as the same entries; a version-1
      document does so exactly when it lists no more than a read admits. */
  lemma MigrationKeepsEntries(doc: Doc, b: Budget)
    requires (doc.Version1? || doc.Version2?) && Parsed(doc).Some?
    requires WellFormed(map[], b) && |b.containers| <= MAX_BUDGET_ENTRIES
    ensures var e := Parsed(doc).value.entries;
            Parsed(Written(e, b)) == Some(Stored(e, Some(b), false)) <==>
                (doc.Version1? ==> |doc.unhealthy| <= MAX_STATE_ENTRIES)
  {
    var e := Parsed(doc).value.entries;
    ParsedWellFormed(doc, b.day);
    if doc.Version1? { LegacyCount(doc.unhealthy); }
    if |e| <= MAX_STATE_ENTRIES { WrittenIsRead(e, b); } else { TooManyRefused(e, b); }
  }

  predicate ValidDelivery(d: Delivery) {
    d.Container? ==> ValidHost(d.event.host) && ValidContainerId(d.event.containerId)
  }

  lemma IdentityValid(event: Event)
    requires ValidHost(event.host) && ValidContainerId(event.containerId)
    ensures ValidIdentity(IdentityOf(event))
  {
    var s, k := IdentityOf(event), |event.host|;
    assert s[k] == '\0' && s[..k] == event.host && s[k + 1..] == event.containerId;
  }

  ghost predicate ValidIds<V>(m: map<Identity, V>) { forall id :: id in m ==> ValidIdentity(id) }

  lemma TransitionedValid(entries: map<Identity, Entry>, d: Delivery)
    requires ValidIds(entries) && ValidDelivery(d)
    ensures ValidIds(Transitioned(Adopted(entries, d).0, d).1)
  {
    if d.Container? { IdentityValid(d.event); }
  }

  lemma OpeningValid(floor: Option<Budget>, stored: Stored, now: Moment)
    requires ValidFloor(floor) && ValidFloor(stored.budget)
    ensures ValidIds(Opening(floor, stored, now).containers) && Opening(floor, stored, now).day == now.day
  {
  }

  lemma ChargedValid(b: Budget, id: Option<Identity>, rule: Rule, c: Ceilings)
    requires ValidIds(b.containers) && (id.Some? ==> ValidIdentity(id.value))
    ensures ValidIds(Charged(b, id, rule, c).1.containers) && Charged(b, id, rule, c).1.day == b.day
  {
  }

  lemma DecidedValid(c: Ceilings, floor: Option<Budget>, stored: Stored, d: Delivery, now: Moment)
    requires ValidDelivery(d) && ValidFloor(floor) && ValidFloor(stored.budget)
    ensures ValidIds(Decided(c, floor, stored, d, now).1.containers) &&
            Decided(c, floor, stored, d, now).1.day == now.day
  {
    if d.Container? { IdentityValid(d.event); }
    OpeningValid(floor, stored, now);
    ChargedValid(Opening(floor, stored, now), Subject(d), RuleOf(d), c);
  }

  /** What a read answers when there is no state file. */
  const ABSENT := Stored(map[], None, false)

  /** What `read_state_at` may answer: an accepted document's state, or that of the absent file. */
  ghost predicate Answered(stored: Stored) { stored == ABSENT || exists doc :: Parsed(doc) == Some(stored) }

  ghost predicate ValidFloor(floor: Option<Budget>) { floor.Some? ==> ValidIds(floor.value.containers) }

  lemma AnsweredValid(stored: Stored)
    requires Answered(stored)
    ensures ValidIds(stored.entries) && ValidFloor(stored.budget)
  {
    if stored != ABSENT {
      var doc :| Parsed(doc) == Some(stored);
      ParsedValid(doc);
    }
  }

  /** What is handed to the store: well-formed, within the bounds, and read back as itself. */
  ghost predicate ReadsBack(entries: map<Identity, Entry>, b: Budget) {
    && WellFormed(entries, b) && Fits(b, Kept(entries, b.containers))
    && Parsed(Written(entries, b)) == Some(Stored(entries, Some(b), false))
  }

  lemma KeptWellFormed(entries: map<Identity, Entry>, decided: Budget, now: Moment)
    requires ValidIds(entries) && ValidIds(decided.containers) && ValidDay(decided.day)
    requires Bounded(entries, decided, now).Some?
    ensures var k := Bounded(entries, decided, now).value; ReadsBack(k.entries, decided.(containers := k.counters))
  {
    var k := Bounded(entries, decided, now).value;
    BoundedKeeps(entries, decided, now);
    WrittenIsRead(k.entries, decided.(containers := k.counters));
  }

  /** Whatever a section writes, the next read accepts and reads back unchanged: from an accepted
      document or from no file at all. The floor it leaves is as valid as the one it found. */
  lemma SectionsWriteReadableState(c: Ceilings, floor: Option<Budget>, stored: Stored, d: Delivery, now: Moment)
    requires Answered(stored) && ValidFloor(floor) && ValidDelivery(d) && ValidDay(now.day)
    requires Planned(c, floor, stored, d, now).Act?
    ensures var plan := Planned(c, floor, stored, d, now);
            ReadsBack(plan.entries, plan.charged) && ValidFloor(Some(plan.charged))
  {
    AnsweredValid(stored);
    TransitionedValid(stored.entries, d);
    DecidedValid(c, floor, stored, d, now);
    KeptWellFormed(Transitioned(Adopted(stored.entries, d).0, d).1, Decided(c, floor, stored, d, now).1, now);
  }
}
