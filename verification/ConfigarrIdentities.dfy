/** The node identities recorded from the definitions as read and as projected: when the two agree. */
module ConfigarrIdentities {
  import opened Orders
  import opened Options
  import opened ConfigarrTree
  import opened ConfigarrProfile
  import opened ConfigarrRepair

  /* ----- looking a name up ----- */

  predicate Mentions(d: Definition, n: string) { d.quality.name == n || d.title == n }

  /** The last definition that mentions the name. */
  ghost predicate LastMention(ds: seq<Definition>, n: string, i: int) {
    0 <= i < |ds| && Mentions(ds[i], n) && forall j :: i < j < |ds| ==> !Mentions(ds[j], n)
  }

  lemma {:induction false} LookupIs(ds: seq<Definition>, n: string)
    ensures n in Lookup(ds) <==> exists i :: 0 <= i < |ds| && Mentions(ds[i], n)
    ensures n in Lookup(ds) ==> exists i :: LastMention(ds, n, i) && Lookup(ds)[n] == ds[i]
  {
    if ds != [] {
      var front, last := ds[..|ds| - 1], ds[|ds| - 1];
      LookupIs(front, n);
      assert forall i :: 0 <= i < |front| ==> front[i] == ds[i];
      if Mentions(last, n) {
        assert LastMention(ds, n, |ds| - 1) && Lookup(ds)[n] == last;
      } else if n in Lookup(front) {
        var i :| LastMention(front, n, i) && Lookup(front)[n] == front[i];
        assert LastMention(ds, n, i) && Lookup(ds)[n] == ds[i];
      } else if i :| 0 <= i < |ds| && Mentions(ds[i], n) {
        assert front[i] == ds[i];
      }
    }
  }

  /** The projected definitions are the raw ones, trimmed, in strictly rising name order. */
  lemma ProjectedIs(ds: seq<Definition>)
    requires Indexable(ds)
    ensures var ps := ProjectedDefinitions(ds);
            && |ps| == |ds|
            && (forall i, j :: 0 <= i < j < |ps| ==> StrLess(ps[i].quality.name, ps[j].quality.name))
            && (forall d :: d in ds ==> Trimmed(d) in ps)
            && (forall d :: d in ps ==> exists raw :: raw in ds && d == Trimmed(raw))
  {
    var ts, ps := TrimmedAll(ds), ProjectedDefinitions(ds);
    StrOrder();
    forall i, j | 0 <= i < j < |ts| ensures DefinitionLess(ts[i], ts[j]) || DefinitionLess(ts[j], ts[i]) {
      assert QualityNames(ds)[i] != QualityNames(ds)[j];
    }
    SortIncreasing(DefinitionLess, ts);
    forall i, j | 0 <= i < j < |ps| ensures StrLess(ps[i].quality.name, ps[j].quality.name) {
      assert DefinitionLess(ps[i], ps[j]);
    }
    assert |multiset(ts)| == |multiset(ps)|;
    forall d | d in ds ensures Trimmed(d) in ps {
      var i :| 0 <= i < |ds| && ds[i] == d;
      assert ts[i] == Trimmed(d);
      SameElements(ps, ts, Trimmed(d));
    }
    forall d | d in ps ensures exists raw :: raw in ds && d == Trimmed(raw) {
      SameElements(ps, ts, d);
      var i :| 0 <= i < |ts| && ts[i] == d;
      assert ds[i] in ds;
    }
  }

  lemma NameListed(ds: seq<Definition>, d: Definition)
    requires d in ds
    ensures d.quality.name in QualityNames(ds)
  {
    var i :| 0 <= i < |ds| && ds[i] == d;
    assert QualityNames(ds)[i] == d.quality.name;
  }

  lemma ListedName(ds: seq<Definition>, n: string) returns (d: Definition)
    requires n in QualityNames(ds)
    ensures d in ds && d.quality.name == n
  {
    var i :| 0 <= i < |ds| && QualityNames(ds)[i] == n;
    d := ds[i];
  }

  lemma ProjectedName(ds: seq<Definition>, n: string)
    requires Indexable(ds)
    ensures n in QualityNames(ds) <==> n in QualityNames(ProjectedDefinitions(ds))
  {
    var ps := ProjectedDefinitions(ds);
    ProjectedIs(ds);
    if n in QualityNames(ds) {
      var d := ListedName(ds, n);
      NameListed(ps, Trimmed(d));
    }
    if n in QualityNames(ps) {
      var d := ListedName(ps, n);
      var raw :| raw in ds && d == Trimmed(raw);
      NameListed(ds, raw);
    }
  }

  lemma ProjectedNames(ds: seq<Definition>)
    requires Indexable(ds)
    ensures forall n :: n in QualityNames(ds) <==> n in QualityNames(ProjectedDefinitions(ds))
    ensures Distinct(QualityNames(ProjectedDefinitions(ds)))
  {
    var ps := ProjectedDefinitions(ds);
    forall n ensures n in QualityNames(ds) <==> n in QualityNames(ps) { ProjectedName(ds, n); }
    ProjectedIs(ds);
    forall i, j | 0 <= i < j < |ps| ensures QualityNames(ps)[i] != QualityNames(ps)[j] {
      StrAsymmetric(ps[i].quality.name, ps[j].quality.name);
    }
  }

  /** In name order a quality name is only ever taken over by the title of a later one. */
  lemma TakenOverForward(ds: seq<Definition>, n: string)
    requires forall i, j :: 0 <= i < j < |ds| ==> StrLess(ds[i].quality.name, ds[j].quality.name)
    requires n in QualityNames(ds)
    ensures n in Lookup(ds) && (Lookup(ds)[n].quality.name == n || StrLess(n, Lookup(ds)[n].quality.name))
  {
    LookupIs(ds, n);
    var a :| 0 <= a < |ds| && QualityNames(ds)[a] == n;
    assert Mentions(ds[a], n);
    var i :| LastMention(ds, n, i) && Lookup(ds)[n] == ds[i];
    assert a <= i;
  }

  /** A map of a finite set of strings onto itself that never goes down is the identity. */
  lemma {:induction false} OntoRisingIsIdentity(s: set<string>, f: map<string, string>)
    requires f.Keys == s
    requires forall x :: x in s ==> f[x] == x || StrLess(x, f[x])
    requires forall y :: y in s ==> exists x :: x in s && f[x] == y
    ensures forall x :: x in s ==> f[x] == x
  {
    var moved := set x | x in s && f[x] != x;
    if moved != {} {
      var y := Least(moved);
      var x :| x in s && f[x] == y;
      assert x in moved;
      StrAsymmetric(x, y);
    }
    forall x | x in s ensures f[x] == x { assert x !in moved; }
  }

  /* ----- the nodes of a materialised profile ----- */

  lemma {:induction false} NodesMember(items: seq<Item>, path: seq<string>, x: Ident)
    ensures x in Nodes(items, path) <==> exists i :: 0 <= i < |items| && x in NodesOf(items[i], path)
  {
    if items != [] {
      NodesMember(items[1..], path, x);
      assert forall i :: 0 <= i < |items| - 1 ==> items[1..][i] == items[i + 1];
    }
  }

  lemma NodesAt(items: seq<Item>, path: seq<string>, x: Ident) returns (i: nat)
    requires x in Nodes(items, path)
    ensures i < |items| && x in NodesOf(items[i], path)
  {
    NodesMember(items, path, x);
    i :| 0 <= i < |items| && x in NodesOf(items[i], path);
  }

  lemma NodesHas(items: seq<Item>, path: seq<string>, i: nat, x: Ident)
    requires i < |items| && x in NodesOf(items[i], path)
    ensures x in Nodes(items, path)
  {
    NodesMember(items, path, x);
  }

  function TopIdent(q: Quality): Ident { Ident([Segment(QualityKind, q.name)], QualityKind, q.name, q.id) }
  function GroupIdent(name: string, index: nat): Ident {
    Ident([Segment(GroupKind, name)], GroupKind, name, FIRST_GROUP_ID + index)
  }
  function ChildIdent(group: string, q: Quality): Ident {
    Ident([Segment(GroupKind, group), Segment(QualityKind, q.name)], QualityKind, q.name, q.id)
  }

  /** What one declaration contributes. */
  ghost predicate Contributes(l: map<string, Definition>, index: nat, d: Declared, x: Ident)
    requires Resolvable(l, LeafNames(d))
  {
    if d.Single? then x == TopIdent(l[d.name].quality)
    else x == GroupIdent(d.name, index) || exists c :: c in d.children && x == ChildIdent(d.name, l[c].quality)
  }

  lemma LeafNodes(q: Quality, allowed: bool, group: string)
    ensures NodesOf(Leaf(q, allowed, []), []) == [TopIdent(q)]
    ensures NodesOf(Leaf(q, allowed, []), [Segment(GroupKind, group)]) == [ChildIdent(group, q)]
  {
    assert [] + [Segment(QualityKind, q.name)] == [Segment(QualityKind, q.name)];
    assert [Segment(GroupKind, group)] + [Segment(QualityKind, q.name)] ==
        [Segment(GroupKind, group), Segment(QualityKind, q.name)];
  }

  lemma LeavesNodesAt(l: map<string, Definition>, names: seq<string>, allowed: bool, group: string, i: nat)
    requires Resolvable(l, names) && i < |names|
    ensures NodesOf(Reverse(Leaves(l, names, allowed))[i], [Segment(GroupKind, group)]) ==
              [ChildIdent(group, l[names[|names| - 1 - i]].quality)]
  {
    LeafNodes(l[names[|names| - 1 - i]].quality, allowed, group);
  }

  lemma LeafOf(l: map<string, Definition>, names: seq<string>, allowed: bool, group: string, x: Ident)
      returns (c: string)
    requires Resolvable(l, names) && x in Nodes(Reverse(Leaves(l, names, allowed)), [Segment(GroupKind, group)])
    ensures c in names && x == ChildIdent(group, l[c].quality)
  {
    var i := NodesAt(Reverse(Leaves(l, names, allowed)), [Segment(GroupKind, group)], x);
    LeavesNodesAt(l, names, allowed, group, i);
    c := names[|names| - 1 - i];
  }

  lemma LeafAmong(l: map<string, Definition>, names: seq<string>, allowed: bool, group: string, k: nat)
    requires Resolvable(l, names) && k < |names|
    ensures ChildIdent(group, l[names[k]].quality) in
              Nodes(Reverse(Leaves(l, names, allowed)), [Segment(GroupKind, group)])
  {
    LeavesNodesAt(l, names, allowed, group, |names| - 1 - k);
    NodesHas(Reverse(Leaves(l, names, allowed)), [Segment(GroupKind, group)], |names| - 1 - k,
             ChildIdent(group, l[names[k]].quality));
  }

  lemma LeavesNodes(l: map<string, Definition>, names: seq<string>, allowed: bool, group: string, x: Ident)
    requires Resolvable(l, names)
    ensures x in Nodes(Reverse(Leaves(l, names, allowed)), [Segment(GroupKind, group)]) <==>
              exists c :: c in names && x == ChildIdent(group, l[c].quality)
  {
    if x in Nodes(Reverse(Leaves(l, names, allowed)), [Segment(GroupKind, group)]) {
      var c := LeafOf(l, names, allowed, group, x);
    }
    if c :| c in names && x == ChildIdent(group, l[c].quality) {
      var k :| 0 <= k < |names| && names[k] == c;
      LeafAmong(l, names, allowed, group, k);
    }
  }

  lemma MaterializeNodes(l: map<string, Definition>, index: nat, d: Declared, x: Ident)
    requires Resolvable(l, LeafNames(d))
    ensures x in NodesOf(Materialize(l, index, d), []) <==> Contributes(l, index, d, x)
  {
    if d.Single? {
      LeafNodes(l[d.name].quality, d.enabled, "");
    } else {
      assert [] + [Segment(GroupKind, d.name)] == [Segment(GroupKind, d.name)];
      LeavesNodes(l, d.children, d.enabled, d.name, x);
    }
  }

  lemma {:induction false} UndeclaredMember(ds: seq<Definition>, selected: set<string>, x: Ident)
    ensures x in Nodes(Undeclared(ds, selected), []) <==>
              exists d :: d in ds && d.quality.name !in selected && x == TopIdent(d.quality)
  {
    if ds != [] {
      UndeclaredMember(ds[1..], selected, x);
      LeafNodes(ds[0].quality, false, "");
      NodesConcat(if ds[0].quality.name in selected then [] else [Leaf(ds[0].quality, false, [])],
                  Undeclared(ds[1..], selected), []);
      assert forall d :: d in ds <==> d == ds[0] || d in ds[1..];
    }
  }

  lemma ReverseMember(items: seq<Item>, x: Ident)
    ensures x in Nodes(Reverse(items), []) <==> x in Nodes(items, [])
  {
    NodesMember(items, [], x);
    NodesMember(Reverse(items), [], x);
    if i :| 0 <= i < |items| && x in NodesOf(items[i], []) {
      assert x in NodesOf(Reverse(items)[|items| - 1 - i], []);
    }
  }

  lemma AllowedMember(l: map<string, Definition>, ds: seq<Declared>, x: Ident)
    requires AllResolvable(l, ds)
    ensures x in Nodes(Reverse(MaterializeAll(l, ds)), []) <==> exists i :: 0 <= i < |ds| && Contributes(l, i, ds[i], x)
  {
    var all := MaterializeAll(l, ds);
    ReverseMember(all, x);
    NodesMember(all, [], x);
    forall i | 0 <= i < |ds| ensures x in NodesOf(all[i], []) <==> Contributes(l, i, ds[i], x) {
      MaterializeNodes(l, i, ds[i], x);
    }
  }

  /** The nodes of the whole: each declaration's own and, at the top, every quality left over. */
  lemma MaterializedMember(p: Policy, ds: seq<Definition>, x: Ident)
    requires Materializable(p, ds)
    ensures var l := Lookup(ds);
            x in Nodes(Materialized(p, ds), []) <==>
              || (exists i :: 0 <= i < |p.qualities| && Contributes(l, i, p.qualities[i], x))
              || (exists d :: d in ds && d.quality.name !in Canonical(l, p.qualities) && x == TopIdent(d.quality))
  {
    var l := Lookup(ds);
    var all := Reverse(MaterializeAll(l, p.qualities));
    var missing := Undeclared(ds, Canonical(l, p.qualities));
    NodesConcat(all, missing, []);
    NodesConcat(missing, all, []);
    UndeclaredMember(ds, Canonical(l, p.qualities), x);
    AllowedMember(l, p.qualities, x);
  }

  /** In an accepted tree a name belongs to one node. */
  lemma OneNodePerName(items: seq<Item>, x: Ident, y: Ident)
    requires Accepted(items) && x in Nodes(items, []) && y in Nodes(items, []) && x.name == y.name
    ensures x == y
  {
    var ns := Nodes(items, []);
    var i :| 0 <= i < |ns| && ns[i] == x;
    var j :| 0 <= j < |ns| && ns[j] == y;
    assert Names(ns)[i] == Names(ns)[j];
  }

  /* ----- the recorded identities ----- */

  ghost predicate SameQualities(a: seq<Definition>, b: seq<Definition>) {
    forall d :: d in a ==> exists e :: e in b && e.quality.name == d.quality.name && e.quality.id == d.quality.id
  }

  lemma ProjectedQualities(ds: seq<Definition>)
    requires Indexable(ds)
    ensures SameQualities(ds, ProjectedDefinitions(ds)) && SameQualities(ProjectedDefinitions(ds), ds)
  {
    ProjectedIs(ds);
    forall d | d in ds
      ensures exists e ::
                e in ProjectedDefinitions(ds) && e.quality.name == d.quality.name && e.quality.id == d.quality.id
    {
      assert Trimmed(d) in ProjectedDefinitions(ds);
    }
  }

  lemma OneDefinitionPerName(ds: seq<Definition>, d: Definition, e: Definition)
    requires Indexable(ds) && d in ds && e in ds && d.quality.name == e.quality.name
    ensures d == e
  {
    var i :| 0 <= i < |ds| && ds[i] == d;
    var j :| 0 <= j < |ds| && ds[j] == e;
    assert QualityNames(ds)[i] == QualityNames(ds)[j];
  }

  lemma LookupIn(ds: seq<Definition>, n: string)
    requires n in Lookup(ds)
    ensures Lookup(ds)[n] in ds
  {
    LookupIs(ds, n);
  }

  /** The definition of one name is the same quality on both sides. */
  lemma SameId(a: seq<Definition>, b: seq<Definition>, d: Definition, e: Definition)
    requires SameQualities(a, b) && Indexable(b) && d in a && e in b && d.quality.name == e.quality.name
    ensures d.quality.id == e.quality.id
  {
    var f :| f in b && f.quality.name == d.quality.name && f.quality.id == d.quality.id;
    OneDefinitionPerName(b, e, f);
  }

  ghost predicate ChildrenMeanThemselves(p: Policy, ds: seq<Definition>) {
    forall i, n :: 0 <= i < |p.qualities| && p.qualities[i].Grouped? && n in p.qualities[i].children ==>
        MeansItself(ds, n)
  }

  ghost predicate Built(p: Policy, ds: seq<Definition>) { Materializable(p, ds) && Accepted(Materialized(p, ds)) }

  lemma DeclarationStands(p: Policy, ds: seq<Definition>, i: nat, x: Ident)
    requires Materializable(p, ds) && i < |p.qualities| && Contributes(Lookup(ds), i, p.qualities[i], x)
    ensures x in Nodes(Materialized(p, ds), [])
  {
    MaterializedMember(p, ds, x);
  }

  lemma LeftoverStands(p: Policy, ds: seq<Definition>, d: Definition)
    requires Materializable(p, ds) && d in ds && d.quality.name !in Canonical(Lookup(ds), p.qualities)
    ensures TopIdent(d.quality) in Nodes(Materialized(p, ds), [])
  {
    MaterializedMember(p, ds, TopIdent(d.quality));
  }

  /** A quality that stands at the top and one a group lists cannot share their name. */
  lemma NotBothPlaces(p: Policy, ds: seq<Definition>, i: nat, n: string, d: Definition)
    requires Built(p, ds) && i < |p.qualities| && p.qualities[i].Grouped? && n in p.qualities[i].children
    requires MeansItself(ds, n) && d.quality.name == n
    ensures TopIdent(d.quality) !in Nodes(Materialized(p, ds), [])
  {
    var y := ChildIdent(p.qualities[i].name, Lookup(ds)[n].quality);
    DeclarationStands(p, ds, i, y);
    if TopIdent(d.quality) in Nodes(Materialized(p, ds), []) {
      OneNodePerName(Materialized(p, ds), TopIdent(d.quality), y);
    }
  }

  /** A quality standing at the top on one side stands at the top on the other. */
  lemma TopCarries(p: Policy, a: seq<Definition>, b: seq<Definition>, d: Definition)
    requires Built(p, a) && Built(p, b) && SameQualities(a, b)
    requires ChildrenMeanThemselves(p, a) && ChildrenMeanThemselves(p, b)
    requires d in a && TopIdent(d.quality) in Nodes(Materialized(p, a), [])
    ensures TopIdent(d.quality) in Nodes(Materialized(p, b), [])
  {
    var n, lb := d.quality.name, Lookup(b);
    var e :| e in b && e.quality.name == n && e.quality.id == d.quality.id;
    assert TopIdent(e.quality) == TopIdent(d.quality);
    if n in Canonical(lb, p.qualities) {
      var i, m :| 0 <= i < |p.qualities| && m in LeafNames(p.qualities[i]) && n == lb[m].quality.name;
      if p.qualities[i].Grouped? {
        assert MeansItself(b, m) && MeansItself(a, m);
        NotBothPlaces(p, a, i, m, d);
      } else {
        LookupIn(b, m);
        OneDefinitionPerName(b, lb[m], e);
        DeclarationStands(p, b, i, TopIdent(d.quality));
      }
    } else {
      LeftoverStands(p, b, e);
    }
  }

  lemma ContributionCarries(p: Policy, a: seq<Definition>, b: seq<Definition>, i: nat, x: Ident)
    requires Built(p, a) && Built(p, b) && SameQualities(a, b)
    requires ChildrenMeanThemselves(p, a) && ChildrenMeanThemselves(p, b)
    requires i < |p.qualities| && Contributes(Lookup(a), i, p.qualities[i], x)
    ensures x in Nodes(Materialized(p, b), [])
  {
    var la, lb, d := Lookup(a), Lookup(b), p.qualities[i];
    if d.Single? {
      LookupIn(a, d.name);
      DeclarationStands(p, a, i, x);
      TopCarries(p, a, b, la[d.name]);
    } else {
      if x != GroupIdent(d.name, i) {
        var c :| c in d.children && x == ChildIdent(d.name, la[c].quality);
        assert MeansItself(b, c) && MeansItself(a, c);
        LookupIn(a, c);
        LookupIn(b, c);
        SameId(a, b, la[c], lb[c]);
        assert x == ChildIdent(d.name, lb[c].quality);
      }
      DeclarationStands(p, b, i, x);
    }
  }

  lemma NodesCarry(p: Policy, a: seq<Definition>, b: seq<Definition>, x: Ident)
    requires Built(p, a) && Built(p, b) && SameQualities(a, b)
    requires ChildrenMeanThemselves(p, a) && ChildrenMeanThemselves(p, b)
    requires x in Nodes(Materialized(p, a), [])
    ensures x in Nodes(Materialized(p, b), [])
  {
    MaterializedMember(p, a, x);
    if i :| 0 <= i < |p.qualities| && Contributes(Lookup(a), i, p.qualities[i], x) {
      ContributionCarries(p, a, b, i, x);
    } else {
      var d :| d in a && d.quality.name !in Canonical(Lookup(a), p.qualities) && x == TopIdent(d.quality);
      TopCarries(p, a, b, d);
    }
  }

  /** Two declared groups of one name are one declaration. */
  lemma GroupsApart(p: Policy, ds: seq<Definition>, i: nat, j: nat)
    requires Built(p, ds) && i < |p.qualities| && j < |p.qualities|
    requires p.qualities[i].Grouped? && p.qualities[j].Grouped? && p.qualities[i].name == p.qualities[j].name
    ensures i == j
  {
    var g, h := GroupIdent(p.qualities[i].name, i), GroupIdent(p.qualities[j].name, j);
    DeclarationStands(p, ds, i, g);
    DeclarationStands(p, ds, j, h);
    OneNodePerName(Materialized(p, ds), g, h);
  }

  /** What contributes a group's child is a group of that name listing a child of that quality name. */
  lemma ChildContributed(l: map<string, Definition>, j: nat, d: Declared, group: string, q: Quality) returns (c: string)
    requires Resolvable(l, LeafNames(d)) && Contributes(l, j, d, ChildIdent(group, q))
    ensures d.Grouped? && d.name == group && c in d.children && l[c].quality.name == q.name
  {
    var x := ChildIdent(group, q);
    assert |x.path| == 2;
    c :| c in d.children && x == ChildIdent(d.name, l[c].quality);
    assert x.path[0] == Segment(GroupKind, d.name) == Segment(GroupKind, group);
    SegmentNames(GroupKind, d.name, GroupKind, group);
  }

  /** A child standing in a group comes from that group's declaration. */
  lemma ChildComesFrom(p: Policy, ds: seq<Definition>, i: nat, x: Ident, q: Quality) returns (c: string)
    requires Built(p, ds) && i < |p.qualities| && p.qualities[i].Grouped?
    requires x == ChildIdent(p.qualities[i].name, q) && x in Nodes(Materialized(p, ds), [])
    ensures c in p.qualities[i].children && c in Lookup(ds) && Lookup(ds)[c].quality.name == q.name
  {
    var l := Lookup(ds);
    MaterializedMember(p, ds, x);
    assert |x.path| == 2;
    var j :| 0 <= j < |p.qualities| && Contributes(l, j, p.qualities[j], x);
    c := ChildContributed(l, j, p.qualities[j], p.qualities[i].name, q);
    GroupsApart(p, ds, i, j);
    assert c in LeafNames(p.qualities[i]);
  }

  /** If both sides list the same nodes and names mean themselves in reading order, then grouped
      names mean themselves in name order too. */
  lemma SameNodesSameChildren(p: Policy, ds: seq<Definition>, i: nat)
    requires var ps := ProjectedDefinitions(ds); Built(p, ds) && Built(p, ps)
    requires ChildrenMeanThemselves(p, ds)
    requires SameNodes(Materialized(p, ds), Materialized(p, ProjectedDefinitions(ds)))
    requires i < |p.qualities| && p.qualities[i].Grouped?
    ensures forall n :: n in p.qualities[i].children ==> MeansItself(ProjectedDefinitions(ds), n)
  {
    var ps, d := ProjectedDefinitions(ds), p.qualities[i];
    var l, lp := Lookup(ds), Lookup(ps);
    ProjectedIs(ds);
    ProjectedNames(ds);
    assert LeafNames(d) == d.children;
    var f := map n | n in d.children :: lp[n].quality.name;
    forall n | n in d.children ensures f[n] == n || StrLess(n, f[n]) {
      assert MeansItself(ds, n);
      LookupIn(ds, n);
      NameListed(ds, l[n]);
      TakenOverForward(ps, n);
    }
    forall n | n in d.children ensures exists c :: c in f.Keys && f[c] == n {
      var x := ChildIdent(d.name, l[n].quality);
      assert MeansItself(ds, n) && Contributes(l, i, d, x);
      MaterializedMember(p, ds, x);
      var c := ChildComesFrom(p, ps, i, x, l[n].quality);
      assert f[c] == n;
    }
    OntoRisingIsIdentity(f.Keys, f);
    forall n | n in d.children ensures MeansItself(ps, n) { assert f[n] == n; }
  }

  ghost predicate SameNodes(a: seq<Item>, b: seq<Item>) { forall x :: x in Nodes(a, []) <==> x in Nodes(b, []) }

  /** Equal identity listings list the same nodes, and conversely. */
  lemma IdentitiesEqual(a: seq<Item>, b: seq<Item>)
    requires Accepted(a) && Accepted(b)
    ensures TreeOf(a).identities == TreeOf(b).identities <==> SameNodes(a, b)
  {
    var m, n := Nodes(a, []), Nodes(b, []);
    if TreeOf(a).identities == TreeOf(b).identities {
      forall x ensures x in m <==> x in n {
        SameElements(Sort(IdentLess, m), m, x);
        SameElements(Sort(IdentLess, n), n, x);
      }
      assert SameNodes(a, b);
    }
    if SameNodes(a, b) { SameListing(m, n, a, b); }
  }

  /** The identities recorded from the raw and from the projected definitions agree exactly when
      grouped names mean themselves in name order, given that they do in reading order. */
  lemma IdentitiesAgree(p: Policy, ds: seq<Definition>)
    requires Built(p, ds) && Built(p, ProjectedDefinitions(ds)) && ChildrenMeanThemselves(p, ds)
    ensures (TreeOf(Materialized(p, ds)).identities == TreeOf(Materialized(p, ProjectedDefinitions(ds))).identities)
            == ChildrenMeanThemselves(p, ProjectedDefinitions(ds))
  {
    var ps := ProjectedDefinitions(ds);
    var a, b := Materialized(p, ds), Materialized(p, ps);
    IdentitiesEqual(a, b);
    ProjectedQualities(ds);
    if ChildrenMeanThemselves(p, ps) {
      forall x ensures x in Nodes(a, []) <==> x in Nodes(b, []) {
        if x in Nodes(a, []) { NodesCarry(p, ds, ps, x); }
        if x in Nodes(b, []) { NodesCarry(p, ps, ds, x); }
      }
      assert SameNodes(a, b);
    }
    if SameNodes(a, b) {
      forall i, n | 0 <= i < |p.qualities| && p.qualities[i].Grouped? && n in p.qualities[i].children
        ensures MeansItself(ps, n) {
        SameNodesSameChildren(p, ds, i);
      }
    }
  }
}
