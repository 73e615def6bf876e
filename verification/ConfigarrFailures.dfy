/** Declarations that do not settle: which services ask for a PUT at all, one input for each clause
    that can fail, and a cutoff that cannot be found. */
module ConfigarrFailures {
  import opened Orders
  import opened Options
  import opened ConfigarrTree
  import opened ConfigarrProfile
  import opened ConfigarrRepair
  import opened ConfigarrIdentities
  import opened ConfigarrConvergence

  /* ----- which declarations ever ask for a PUT ----- */

  /** What the declaration and the definitions must be together for any service to get a PUT. */
  ghost predicate Askable(p: Policy, ds: seq<Definition>) {
    && DefinitionsOk(ds) && Desirable(p, ProjectedDefinitions(ds)) && Built(p, ds)
    && p.qualities[0].name in TreeOf(Materialized(p, ds)).idsByName
  }

  /** A service with these definitions whose owned profile scores no format at all. */
  ghost function Unscored(p: Policy, ds: seq<Definition>): Resources
    requires Askable(p, ds)
  {
    var items := Materialized(p, ds);
    var cutoff := TreeOf(items).idsByName[p.qualities[0].name];
    Resources([Profile(7, OWNED_PROFILE_NAME, false, cutoff, 0, 1, 1, items, [], "")], ds,
              [Format(3, OWNED_FORMAT_NAME, "")])
  }

  lemma ProfileNameSafe()
    ensures SafeName(OWNED_PROFILE_NAME)
  {
  }

  lemma FormatNameSafe()
    ensures SafeName(OWNED_FORMAT_NAME)
  {
  }

  lemma OneProfile(live: Profile)
    requires live.name == OWNED_PROFILE_NAME
    ensures ProfilesOk([live]) && OwnedProfile([live]) == Some(live)
  {
    ProfileNameSafe();
    assert ProfileNames([live]) == [live.name];
  }

  lemma OneFormat(f: Format)
    requires f.name == OWNED_FORMAT_NAME
    ensures FormatsOk([f]) && OwnedFormat([f]) == Some(f.id)
  {
    FormatNameSafe();
    assert FormatNames([f]) == [f.name];
  }

  lemma FirstPut(p: Policy, r: Resources, live: Profile)
    requires Repairable(p, r) && OwnedProfile(r.profiles) == Some(live) && !Matches(p, r, live)
    ensures Repair(p, r) == Put(RepairBody(p, r, live))
  {
  }

  /** Without a scored format there is no assignment, and one is asked for. */
  lemma UnscoredDiffers(p: Policy, r: Resources, live: Profile)
    requires ProfileOk(live) && Desirable(p, ProjectedDefinitions(r.definitions)) && live.formatItems == []
    ensures !Matches(p, r, live)
  {
    assert DeclaredOf(live).assignments == 0;
  }

  lemma UnscoredAsks(p: Policy, ds: seq<Definition>)
    requires Askable(p, ds)
    ensures Repair(p, Unscored(p, ds)).Put?
  {
    var r := Unscored(p, ds);
    var live := r.profiles[0];
    OneProfile(live);
    OneFormat(r.formats[0]);
    CutoffReadsBack(live.items, p.qualities[0].name);
    UnscoredDiffers(p, r, live);
    FirstPut(p, r, live);
  }

  /** Some service with these definitions gets a PUT exactly when the declaration is askable. */
  lemma PutExactly(p: Policy, ds: seq<Definition>)
    ensures Askable(p, ds) <==> exists r: Resources :: r.definitions == ds && Repair(p, r).Put?
  {
    if Askable(p, ds) {
      UnscoredAsks(p, ds);
      assert Unscored(p, ds).definitions == ds;
    }
  }

  /** The next run after the PUT that such a service gets. */
  lemma NeverSettles(p: Policy, ds: seq<Definition>)
    requires Askable(p, ds) && !Settles(p, ds)
    ensures var r := Unscored(p, ds); Repair(p, r).Put? && Repair(p, Stored(r, Repair(p, r).body)) == Repair(p, r)
  {
    UnscoredAsks(p, ds);
    RepairConverges(p, Unscored(p, ds));
  }

  /* ----- a cutoff that cannot be found ----- */

  ghost predicate NamesGroup(p: Policy, n: string) { exists d :: d in p.qualities && d.Grouped? && d.name == n }

  /** The tree holds a node of that name. */
  ghost predicate Stands(items: seq<Item>, n: string) { exists x :: x in Nodes(items, []) && x.name == n }

  lemma IndexedStands(items: seq<Item>, n: string)
    requires Accepted(items)
    ensures n in TreeOf(items).idsByName <==> Stands(items, n)
  {
    var ns, t := Nodes(items, []), TreeOf(items);
    AcceptedMaps(items);
    forall x ensures x in ns <==> x in t.identities { SameElements(t.identities, ns, x); }
    if n in t.idsByName {
      var x :| x in t.identities && x.name == n;
      assert x in ns;
    }
  }

  /** Every quality stands somewhere: where it is declared, or among those left over. */
  lemma QualityStands(p: Policy, ds: seq<Definition>, n: string)
    requires Materializable(p, ds) && n in QualityNames(ds)
    ensures Stands(Materialized(p, ds), n)
  {
    var l := Lookup(ds);
    var d := ListedName(ds, n);
    if n in Canonical(l, p.qualities) {
      var i, m :| 0 <= i < |p.qualities| && m in LeafNames(p.qualities[i]) && n == l[m].quality.name;
      var q := p.qualities[i];
      var x := if q.Single? then TopIdent(l[m].quality) else ChildIdent(q.name, l[m].quality);
      assert Contributes(l, i, q, x);
      MaterializedMember(p, ds, x);
    } else {
      MaterializedMember(p, ds, TopIdent(d.quality));
    }
  }

  lemma GroupStands(p: Policy, ds: seq<Definition>, n: string)
    requires Materializable(p, ds) && NamesGroup(p, n)
    ensures Stands(Materialized(p, ds), n)
  {
    var d :| d in p.qualities && d.Grouped? && d.name == n;
    var i :| 0 <= i < |p.qualities| && p.qualities[i] == d;
    assert Contributes(Lookup(ds), i, d, GroupIdent(n, i));
    MaterializedMember(p, ds, GroupIdent(n, i));
  }

  lemma ResolvedName(ds: seq<Definition>, n: string)
    requires n in Lookup(ds)
    ensures Lookup(ds)[n].quality.name in QualityNames(ds)
  {
    LookupIs(ds, n);
    var i :| LastMention(ds, n, i) && Lookup(ds)[n] == ds[i];
    NameListed(ds, ds[i]);
  }

  /** And nothing else does. */
  lemma OnlyThoseStand(p: Policy, ds: seq<Definition>, n: string)
    requires Materializable(p, ds) && Stands(Materialized(p, ds), n)
    ensures n in QualityNames(ds) || NamesGroup(p, n)
  {
    var l := Lookup(ds);
    var x :| x in Nodes(Materialized(p, ds), []) && x.name == n;
    MaterializedMember(p, ds, x);
    if i :| 0 <= i < |p.qualities| && Contributes(l, i, p.qualities[i], x) {
      var q := p.qualities[i];
      if q.Single? {
        ResolvedName(ds, q.name);
      } else if x != GroupIdent(q.name, i) {
        var c :| c in q.children && x == ChildIdent(q.name, l[c].quality);
        assert c in LeafNames(q);
        ResolvedName(ds, c);
      }
    } else {
      var d :| d in ds && d.quality.name !in Canonical(l, p.qualities) && x == TopIdent(d.quality);
      NameListed(ds, d);
    }
  }

  /** The cutoff is found exactly when it is the name of a quality or of a declared group; the other
      spelling, a title, is not enough. */
  lemma CutoffFoundExactly(p: Policy, ds: seq<Definition>, n: string)
    requires Built(p, ds)
    ensures n in TreeOf(Materialized(p, ds)).idsByName <==> n in QualityNames(ds) || NamesGroup(p, n)
  {
    IndexedStands(Materialized(p, ds), n);
    if n in QualityNames(ds) { QualityStands(p, ds, n); }
    if NamesGroup(p, n) { GroupStands(p, ds, n); }
    if Stands(Materialized(p, ds), n) { OnlyThoseStand(p, ds, n); }
  }

  lemma AskableFrom(p: Policy, ds: seq<Definition>)
    requires DefinitionsOk(ds) && Built(p, ds) && Built(p, ProjectedDefinitions(ds))
    requires (forall d :: d in p.qualities ==> d.enabled) && Distinct(AllLeafNames(p.qualities)) && p.qualities != []
    requires p.qualities[0].name in QualityNames(ds) || NamesGroup(p, p.qualities[0].name)
    ensures Askable(p, ds)
  {
    CutoffFoundExactly(p, ds, p.qualities[0].name);
  }

  lemma MatchStands(p: Policy, r: Resources, live: Profile)
    requires ProfileOk(live) && Desirable(p, ProjectedDefinitions(r.definitions)) && Matches(p, r, live)
    ensures Stands(Materialized(p, ProjectedDefinitions(r.definitions)), p.qualities[0].name)
  {
    var items := Materialized(p, ProjectedDefinitions(r.definitions));
    AcceptedMaps(live.items);
    IdentitiesEqual(live.items, items);
    var x :| x in TreeOf(live.items).identities && x.id == live.cutoff;
    SameElements(TreeOf(live.items).identities, Nodes(live.items, []), x);
    assert x.name == p.qualities[0].name;
  }

  /** A declaration whose first entry is a title is refused on every run, before any PUT. */
  lemma TitleFirstRaises(p: Policy, r: Resources)
    requires OwnedProfile(r.profiles).Some? && p.qualities != []
    requires p.qualities[0].name !in QualityNames(r.definitions) && !NamesGroup(p, p.qualities[0].name)
    ensures Repair(p, r) == Raises
  {
    var ps := ProjectedDefinitions(r.definitions);
    if Readable(r) && Desirable(p, ps) {
      var live := OwnedProfile(r.profiles).value;
      ProjectedNames(r.definitions);
      if Matches(p, r, live) {
        MatchStands(p, r, live);
        OnlyThoseStand(p, ps, p.qualities[0].name);
      } else if Buildable(p, r) {
        CutoffFoundExactly(p, r.definitions, p.qualities[0].name);
      }
    }
  }

  /* ----- two definitions ----- */

  lemma {:induction false} TwoLookup(a: Definition, b: Definition)
    ensures Lookup([a, b]) == map[][a.quality.name := a][a.title := a][b.quality.name := b][b.title := b]
  {
    assert [a, b][..1] == [a] && [a][..0] == [] && Lookup([]) == map[];
    assert Lookup([a]) == map[][a.quality.name := a][a.title := a];
  }

  lemma TwoDefinitions(a: Definition, b: Definition)
    requires SafeName(a.quality.name) && SafeName(a.title) && SafeName(b.quality.name) && SafeName(b.title)
    requires a.quality.name != b.quality.name && a.id != b.id && a.quality.id != b.quality.id
    ensures DefinitionsOk([a, b])
  {
    assert QualityNames([a, b]) == [a.quality.name, b.quality.name];
    assert DefinitionIds([a, b]) == [a.id, b.id] && QualityIds([a, b]) == [a.quality.id, b.quality.id];
  }

  lemma TwoApart(a: Definition, b: Definition)
    requires DefinitionsOk([a, b])
    ensures SafeName(a.quality.name) && SafeName(a.title) && SafeName(b.quality.name) && SafeName(b.title)
    ensures a.quality.name != b.quality.name && a.quality.id != b.quality.id
  {
    assert a in [a, b] && b in [a, b];
    assert QualityNames([a, b])[0] != QualityNames([a, b])[1];
    assert QualityIds([a, b])[0] != QualityIds([a, b])[1];
  }

  /** Two definitions are projected in name order. */
  lemma TwoProjected(ds: seq<Definition>, a: Definition, b: Definition)
    requires ds == [a, b] || ds == [b, a]
    requires Indexable(ds) && Trimmed(a) == a && Trimmed(b) == b && StrLess(a.quality.name, b.quality.name)
    ensures ProjectedDefinitions(ds) == [a, b]
  {
    var ps := ProjectedDefinitions(ds);
    ProjectedIs(ds);
    StrAsymmetric(a.quality.name, b.quality.name);
    assert ps[0] in ps && ps[1] in ps && a in ps && b in ps;
    assert StrLess(ps[0].quality.name, ps[1].quality.name);
    assert ps == [ps[0], ps[1]];
  }

  lemma TwoNodes(x: Item, y: Item)
    ensures Nodes([x, y], []) == NodesOf(x, []) + NodesOf(y, [])
  {
    assert [x, y][1..] == [y] && [y][1..] == [];
    assert Nodes([y], []) == NodesOf(y, []) + [];
  }

  lemma TwoShaped(x: Item, y: Item)
    requires WellShapedItem(x, 1) && WellShapedItem(y, 1)
    ensures WellShaped([x, y], 1)
  {
    assert [x, y][1..] == [y] && [y][1..] == [];
    assert WellShaped([], 1) && WellShaped([y], 1);
  }

  /** Two qualities side by side. */
  lemma TwoLeaves(a: Quality, b: Quality, allowed: bool)
    requires SafeName(a.name) && SafeName(b.name) && a.name != b.name && a.id >= 0 && b.id >= 0 && a.id != b.id
    ensures Accepted([Leaf(a, allowed, []), Leaf(b, true, [])])
  {
    var x, y := Leaf(a, allowed, []), Leaf(b, true, []);
    LeafNodes(a, allowed, "");
    LeafNodes(b, true, "");
    TwoNodes(x, y);
    TwoShaped(x, y);
    var ns := Nodes([x, y], []);
    assert ns == [TopIdent(a), TopIdent(b)];
    assert Ids(ns) == [a.id, b.id] && Names(ns) == [a.name, b.name];
  }

  lemma GroupNodes(b: Quality, group: string)
    ensures NodesOf(Group(FIRST_GROUP_ID, group, true, [Leaf(b, true, [])]), []) ==
              [GroupIdent(group, 0), ChildIdent(group, b)]
  {
    var inner, path := [Leaf(b, true, [])], [Segment(GroupKind, group)];
    LeafNodes(b, true, group);
    assert inner[1..] == [] && Nodes(inner, path) == [ChildIdent(group, b)] + Nodes([], path);
    assert [] + path == path;
  }

  /** A quality left over and a group of the other. */
  lemma LeafAndGroup(a: Quality, b: Quality, group: string)
    requires SafeName(a.name) && SafeName(b.name) && a.name != b.name
    requires 0 <= a.id < FIRST_GROUP_ID && 0 <= b.id < FIRST_GROUP_ID && a.id != b.id
    requires SafeName(group) && group != a.name && group != b.name
    ensures Accepted([Leaf(a, false, []), Group(FIRST_GROUP_ID, group, true, [Leaf(b, true, [])])])
  {
    var x, inner := Leaf(a, false, []), [Leaf(b, true, [])];
    var y := Group(FIRST_GROUP_ID, group, true, inner);
    LeafNodes(a, false, "");
    GroupNodes(b, group);
    TwoNodes(x, y);
    assert inner[1..] == [] && WellShaped([], 2) && WellShaped(inner, 2);
    TwoShaped(x, y);
    var ns := Nodes([x, y], []);
    assert ns == [TopIdent(a), GroupIdent(group, 0), ChildIdent(group, b)];
    assert Ids(ns) == [a.id, FIRST_GROUP_ID, b.id] && Names(ns) == [a.name, group, b.name];
  }

  /* ----- a title that takes over another definition's name ----- */

  /** What a declaration of one group of one name becomes: the other quality is left over. */
  lemma {:induction false} OneGroup(p: Policy, ds: seq<Definition>, x: Definition, y: Definition, n: string)
    requires p.qualities == [Grouped("G", true, [n])] && p.sort == "top"
    requires (ds == [x, y] || ds == [y, x]) && Indexable(ds) && n in Lookup(ds) && Lookup(ds)[n] == y
    requires x.quality.name != y.quality.name
    ensures Materializable(p, ds)
    ensures Materialized(p, ds) ==
              [Leaf(x.quality, false, []), Group(FIRST_GROUP_ID, "G", true, [Leaf(y.quality, true, [])])]
  {
    var l, d := Lookup(ds), p.qualities[0];
    assert LeafNames(d) == [n] && Resolvable(l, [n]);
    assert Reverse(Leaves(l, [n], true)) == [Leaf(y.quality, true, [])];
    assert Reverse(MaterializeAll(l, p.qualities)) == [Materialize(l, 0, d)];
    assert Canonical(l, p.qualities) == {y.quality.name} by { assert n in LeafNames(p.qualities[0]); }
    var selected := {y.quality.name};
    assert ds[1..] == [ds[1]] && ds[1..][1..] == [] && Undeclared([], selected) == [];
    assert Undeclared(ds, selected) == [Leaf(x.quality, false, [])];
  }

  /** Two definitions, listed against the order of their names, the later name carrying the other as its title. */
  ghost predicate TakesOver(b: Definition, a: Definition) {
    && DefinitionsOk([b, a]) && DefinitionsOk([a, b]) && Trimmed(a) == a && Trimmed(b) == b
    && StrLess(a.quality.name, b.quality.name) && b.title == a.quality.name
    && 0 <= a.quality.id < FIRST_GROUP_ID && 0 <= b.quality.id < FIRST_GROUP_ID
  }

  /** Read as listed, the name is the quality's own; read in name order, the title has taken it. */
  lemma TakeoverResolves(b: Definition, a: Definition)
    requires TakesOver(b, a)
    ensures ProjectedDefinitions([b, a]) == [a, b]
    ensures a.quality.name in Lookup([b, a]) && Lookup([b, a])[a.quality.name] == a
    ensures a.quality.name in Lookup([a, b]) && Lookup([a, b])[a.quality.name] == b
  {
    StrAsymmetric(a.quality.name, b.quality.name);
    TwoProjected([b, a], a, b);
    TwoLookup(a, b);
    TwoLookup(b, a);
  }

  ghost predicate GroupsOnly(p: Policy, n: string) {
    && p.qualities == [Grouped("G", true, [n])] && p.sort == "top" && p.reset && n != "G"
  }

  lemma {:induction false} GroupLeaves(p: Policy, n: string)
    requires GroupsOnly(p, n)
    ensures AllLeafNames(p.qualities) == [n] && NamesGroup(p, "G") && forall d :: d in p.qualities ==> d.enabled
  {
    assert AllLeafNames(p.qualities) == [n] + AllLeafNames([]);
    assert p.qualities[0] in p.qualities;
  }

  lemma {:induction false} GroupBuilt(p: Policy, ds: seq<Definition>, x: Definition, y: Definition, n: string)
    requires GroupsOnly(p, n) && (ds == [x, y] || ds == [y, x]) && DefinitionsOk([x, y]) && Indexable(ds)
    requires n in Lookup(ds) && Lookup(ds)[n] == y && x.quality.name != "G" && y.quality.name != "G"
    requires 0 <= x.quality.id < FIRST_GROUP_ID && 0 <= y.quality.id < FIRST_GROUP_ID
    ensures Built(p, ds)
  {
    TwoApart(x, y);
    OneGroup(p, ds, x, y, n);
    LeafAndGroup(x.quality, y.quality, "G");
  }

  /** A group of the taken name means itself as listed, and still never settles. */
  lemma TakeoverNeverSettles(p: Policy, b: Definition, a: Definition)
    requires TakesOver(b, a) && GroupsOnly(p, a.quality.name) && b.quality.name != "G"
    ensures Askable(p, [b, a]) && !Settles(p, [b, a])
    ensures forall n :: n in AllLeafNames(p.qualities) ==> MeansItself([b, a], n)
  {
    var n := a.quality.name;
    TakeoverResolves(b, a);
    TwoApart(a, b);
    GroupBuilt(p, [b, a], b, a, n);
    GroupBuilt(p, [a, b], a, b, n);
    GroupLeaves(p, n);
    AskableFrom(p, [b, a]);
    assert p.qualities[0] in p.qualities && !MeansItself([a, b], n) && n in p.qualities[0].children;
  }

  lemma TakeoverHappens() returns (p: Policy, r: Resources)
    ensures Repair(p, r).Put? && p.reset && p.sort == "top"
    ensures forall n :: n in AllLeafNames(p.qualities) ==> MeansItself(r.definitions, n)
    ensures Repair(p, Stored(r, Repair(p, r).body)) == Repair(p, r)
  {
    var a, b := Definition(1, Quality(1, "A", "", ""), "C", ""), Definition(2, Quality(2, "B", "", ""), "A", "");
    p := Policy([Grouped("G", true, ["A"])], "top", false, 0, true, 5);
    TwoDefinitions(a, b);
    TwoDefinitions(b, a);
    TakeoverNeverSettles(p, b, a);
    NeverSettles(p, [b, a]);
    r := Unscored(p, [b, a]);
  }

  /* ----- one quality ----- */

  lemma OneProjected(d: Definition)
    requires Trimmed(d) == d
    ensures ProjectedDefinitions([d]) == [d]
  {
    assert TrimmedAll([d]) == [d];
    SameElements(ProjectedDefinitions([d]), [d], d);
    OneElement(ProjectedDefinitions([d]), d);
  }

  lemma {:induction false} OneQuality(p: Policy, ds: seq<Definition>, q: Quality)
    requires ds == [Definition(1, q, "A", "")] && q == Quality(1, "A", "", "")
    requires p.qualities == [Single("A", true)] && (p.sort == "top" || p.sort == "bottom")
    ensures Desirable(p, ds) && DefinitionsOk(ds) && Materialized(p, ds) == [Leaf(q, true, [])]
    ensures 1 in TreeOf(Materialized(p, ds)).namesById && "A" in TreeOf(Materialized(p, ds)).idsByName
  {
    var l := Lookup(ds);
    OneLookup(ds[0]);
    assert l["A"].quality.name in Canonical(l, p.qualities) by { assert "A" in LeafNames(p.qualities[0]); }
    assert Undeclared(ds, Canonical(l, p.qualities)) == [];
    assert Reverse(MaterializeAll(l, p.qualities)) == [Leaf(q, true, [])];
    assert Materialized(p, ds) == [Leaf(q, true, [])];
    OneLeaf(q);
    assert AllLeafNames(p.qualities) == ["A"] + AllLeafNames([]);
  }

  lemma OneLookup(d: Definition)
    requires d.quality.name == d.title == "A"
    ensures Lookup([d]) == map["A" := d]
  {
    assert Lookup([]) == map[];
    assert [d][..0] == [];
  }

  lemma OneLeaf(q: Quality)
    requires q.id == 1 && q.name == "A"
    ensures var items := [Leaf(q, true, [])];
            Accepted(items) && 1 in TreeOf(items).namesById && "A" in TreeOf(items).idsByName
  {
    var items := [Leaf(q, true, [])];
    LeafNodes(q, true, "");
    assert items[1..] == [] && SafeName(NameOf(items[0])) && WellShapedItem(items[0], 1);
    assert Nodes(items, []) == [TopIdent(q)];
    assert Ids([TopIdent(q)]) == [1] && Names([TopIdent(q)]) == ["A"];
  }

  /** Unmatched scores left alone. */
  lemma ResetOffHappens() returns (p: Policy, r: Resources)
    ensures Repair(p, r).Put? && !p.reset
    ensures Repair(p, Stored(r, Repair(p, r).body)) == Repair(p, r)
  {
    p := Policy([Single("A", true)], "top", false, 0, false, 5);
    var d := Definition(1, Quality(1, "A", "", ""), "A", "");
    OneQuality(p, [d], d.quality);
    OneProjected(d);
    NeverSettles(p, [d]);
    r := Unscored(p, [d]);
  }

  /* ----- every quality declared, sorted to the bottom ----- */

  lemma AllDeclaredHappens() returns (p: Policy, r: Resources)
    ensures Repair(p, r).Put? && p.reset && p.sort == "bottom"
    ensures forall d :: d in r.definitions ==>
              d.quality.name in AllLeafNames(p.qualities) && MeansItself(r.definitions, d.quality.name)
    ensures Repair(p, Stored(r, Repair(p, r).body)) == Repair(p, r)
  {
    p := Policy([Single("A", true)], "bottom", false, 0, true, 5);
    var d := Definition(1, Quality(1, "A", "", ""), "A", "");
    OneQuality(p, [d], d.quality);
    OneProjected(d);
    OneLookup(d);
    assert AllLeafNames(p.qualities) == ["A"] + AllLeafNames([]);
    NeverSettles(p, [d]);
    r := Unscored(p, [d]);
  }

  /* ----- a quality declared by its title ----- */

  lemma {:induction false} TwoSingles(p: Policy, ds: seq<Definition>, m: string, n: string)
    requires p.qualities == [Single(m, true), Single(n, true)] && p.sort == "top" && SafeName(m) && SafeName(n)
    requires |ds| == 2 && Indexable(ds) && m in Lookup(ds) && n in Lookup(ds) && Lookup(ds)[m] == ds[0] &&
             Lookup(ds)[n] == ds[1]
    ensures Materializable(p, ds)
    ensures Materialized(p, ds) == [Leaf(ds[1].quality, true, []), Leaf(ds[0].quality, true, [])]
  {
    var l := Lookup(ds);
    assert LeafNames(p.qualities[0]) == [m] && LeafNames(p.qualities[1]) == [n];
    assert Reverse(MaterializeAll(l, p.qualities)) == [Leaf(ds[1].quality, true, []), Leaf(ds[0].quality, true, [])];
    assert m in LeafNames(p.qualities[0]) && n in LeafNames(p.qualities[1]);
    var selected := Canonical(l, p.qualities);
    assert ds[0].quality.name in selected && ds[1].quality.name in selected;
    assert ds[1..] == [ds[1]] && ds[1..][1..] == [] && Undeclared([], selected) == [];
    assert Undeclared(ds, selected) == [];
  }

  /** Two qualities, the second declared by a title that is no quality's name. */
  ghost predicate Titled(p: Policy, a: Definition, b: Definition) {
    && DefinitionsOk([a, b]) && Trimmed(a) == a && Trimmed(b) == b && StrLess(a.quality.name, b.quality.name)
    && a.quality.id >= 0 && b.quality.id >= 0 && b.title != b.quality.name && b.title != a.quality.name
    && p.qualities == [Single(a.quality.name, true), Single(b.title, true)] && p.sort == "top" && p.reset
  }

  lemma {:induction false} SingleLeaves(p: Policy, m: string, n: string)
    requires p.qualities == [Single(m, true), Single(n, true)]
    ensures AllLeafNames(p.qualities) == [m, n]
    ensures forall d :: d in p.qualities ==> d.enabled
  {
    assert p.qualities[1..] == [p.qualities[1]] && p.qualities[1..][1..] == [];
    assert AllLeafNames(p.qualities[1..]) == [n] + AllLeafNames([]);
    assert AllLeafNames(p.qualities) == [m] + [n];
  }

  lemma {:induction false} TitledBuilt(p: Policy, a: Definition, b: Definition)
    requires Titled(p, a, b)
    ensures Built(p, [a, b]) && ProjectedDefinitions([a, b]) == [a, b]
    ensures b.title in Lookup([a, b]) && Lookup([a, b])[b.title] == b
  {
    TwoApart(a, b);
    TwoProjected([a, b], a, b);
    TwoLookup(a, b);
    TwoSingles(p, [a, b], a.quality.name, b.title);
    TwoLeaves(b.quality, a.quality, true);
  }

  lemma TitleNeverSettles(p: Policy, a: Definition, b: Definition)
    requires Titled(p, a, b)
    ensures Askable(p, [a, b]) && !Settles(p, [a, b])
  {
    TitledBuilt(p, a, b);
    SingleLeaves(p, a.quality.name, b.title);
    NameListed([a, b], a);
    AskableFrom(p, [a, b]);
    TitleStays(p, [a, b], b.title);
  }

  lemma TitleStays(p: Policy, ds: seq<Definition>, n: string)
    requires n in AllLeafNames(p.qualities) && n in Lookup(ds) && Lookup(ds)[n].quality.name != n
    ensures !Settles(p, ds)
  {
    assert !MeansItself(ds, n);
  }

  lemma TitleHappens() returns (p: Policy, r: Resources)
    ensures Repair(p, r).Put? && p.reset && p.sort == "top"
    ensures |p.qualities| == 2 && p.qualities[1] == Single("T", true)
    ensures |r.definitions| == 2 && r.definitions[1].title == "T"
    ensures Repair(p, Stored(r, Repair(p, r).body)) == Repair(p, r)
  {
    var a, b := Definition(1, Quality(1, "A", "", ""), "A", ""), Definition(2, Quality(2, "B", "", ""), "T", "");
    p := Policy([Single("A", true), Single("T", true)], "top", false, 0, true, 5);
    TwoDefinitions(a, b);
    TitleNeverSettles(p, a, b);
    NeverSettles(p, [a, b]);
    r := Unscored(p, [a, b]);
  }
}
