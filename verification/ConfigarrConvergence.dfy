/** The repair converges: after one PUT the profile projects to what the declaration asks for,
    exactly when the declaration means what it says. */
module ConfigarrConvergence {
  import opened Orders
  import opened Options
  import opened ConfigarrTree
  import opened ConfigarrProfile
  import opened ConfigarrRepair
  import opened ConfigarrIdentities

  /* ----- projecting item by item ----- */

  lemma {:induction false} ProjectAllAt(items: seq<Item>, i: nat)
    requires i < |items|
    ensures ProjectAll(items)[i] == Project(items[i])
  {
    if i > 0 { ProjectAllAt(items[1..], i - 1); }
  }

  lemma {:induction false} ProjectAllConcat(a: seq<Item>, b: seq<Item>)
    ensures ProjectAll(a + b) == ProjectAll(a) + ProjectAll(b)
  {
    if a == [] {
      assert a + b == b;
    } else {
      assert (a + b)[1..] == a[1..] + b;
      ProjectAllConcat(a[1..], b);
    }
  }

  lemma {:induction false} WithAllowedUniform(ns: seq<Node>, all: bool, asked: bool)
    requires forall n :: n in ns ==> n.allowed == all
    ensures WithAllowed(ns, asked) == if all == asked then ns else []
  {
    if ns != [] {
      var front, last := ns[..|ns| - 1], ns[|ns| - 1];
      assert ns == front + [last] && last in ns;
      WithAllowedUniform(front, all, asked);
    }
  }

  lemma {:induction false} WithAllowedConcat(a: seq<Node>, b: seq<Node>, asked: bool)
    ensures WithAllowed(a + b, asked) == WithAllowed(a, asked) + WithAllowed(b, asked)
  {
    if b == [] {
      assert a + b == a;
    } else {
      assert (a + b)[..|a + b| - 1] == a + b[..|b| - 1];
      WithAllowedConcat(a, b[..|b| - 1], asked);
    }
  }

  /* ----- the two blocks of a materialised profile ----- */

  ghost function Chosen(p: Policy, ds: seq<Definition>): seq<Node>
    requires Materializable(p, ds)
  {
    ProjectAll(Reverse(MaterializeAll(Lookup(ds), p.qualities)))
  }

  ghost function LeftOver(p: Policy, ds: seq<Definition>): seq<Item>
    requires Materializable(p, ds)
  {
    Undeclared(ds, Canonical(Lookup(ds), p.qualities))
  }

  ghost predicate AllEnabled(p: Policy) { forall d :: d in p.qualities ==> d.enabled }

  lemma ProjectReverse(items: seq<Item>)
    ensures ProjectAll(Reverse(items)) == Reverse(ProjectAll(items))
  {
    forall i | 0 <= i < |items| ensures ProjectAll(Reverse(items))[i] == Reverse(ProjectAll(items))[i] {
      ProjectAllAt(Reverse(items), i);
      ProjectAllAt(items, |items| - 1 - i);
    }
  }

  lemma ProjectedDeclared(l: map<string, Definition>, ds: seq<Declared>, i: nat)
    requires AllResolvable(l, ds) && i < |ds|
    ensures var k := |ds| - 1 - i; ProjectAll(Reverse(MaterializeAll(l, ds)))[i] == Project(Materialize(l, k, ds[k]))
  {
    ProjectReverse(MaterializeAll(l, ds));
    ProjectAllAt(MaterializeAll(l, ds), |ds| - 1 - i);
  }

  lemma ChosenAt(p: Policy, ds: seq<Definition>, i: nat)
    requires Materializable(p, ds) && i < |p.qualities|
    ensures var k := |p.qualities| - 1 - i; Chosen(p, ds)[i] == Project(Materialize(Lookup(ds), k, p.qualities[k]))
  {
    ProjectedDeclared(Lookup(ds), p.qualities, i);
  }

  lemma ChosenAllowed(p: Policy, ds: seq<Definition>)
    requires Materializable(p, ds) && AllEnabled(p)
    ensures forall n :: n in Chosen(p, ds) ==> n.allowed
  {
    forall i | 0 <= i < |p.qualities| ensures Chosen(p, ds)[i].allowed { ChosenAt(p, ds, i); }
  }

  lemma {:induction false} LeftOverRefused(ds: seq<Definition>, selected: set<string>)
    ensures forall n :: n in ProjectAll(Undeclared(ds, selected)) ==> !n.allowed
  {
    if ds != [] {
      LeftOverRefused(ds[1..], selected);
      ProjectAllConcat(if ds[0].quality.name in selected then [] else [Leaf(ds[0].quality, false, [])],
                       Undeclared(ds[1..], selected));
    }
  }

  /** The enabled block is what was declared, the disabled block what is left over. */
  lemma BlocksAre(p: Policy, ds: seq<Definition>)
    requires Materializable(p, ds) && AllEnabled(p)
    ensures var ns := ProjectAll(Materialized(p, ds)); var rest := ProjectAll(LeftOver(p, ds));
            && ns == (if p.sort == "bottom" then Chosen(p, ds) + rest else rest + Chosen(p, ds))
            && WithAllowed(ns, true) == Chosen(p, ds) && WithAllowed(ns, false) == rest
            && (forall n :: n in Chosen(p, ds) ==> n.allowed) && (forall n :: n in rest ==> !n.allowed)
  {
    var mine, rest := Chosen(p, ds), ProjectAll(LeftOver(p, ds));
    ChosenAllowed(p, ds);
    LeftOverRefused(ds, Canonical(Lookup(ds), p.qualities));
    ProjectAllConcat(Reverse(MaterializeAll(Lookup(ds), p.qualities)), LeftOver(p, ds));
    ProjectAllConcat(LeftOver(p, ds), Reverse(MaterializeAll(Lookup(ds), p.qualities)));
    WithAllowedConcat(mine, rest, true);
    WithAllowedConcat(rest, mine, true);
    WithAllowedConcat(mine, rest, false);
    WithAllowedConcat(rest, mine, false);
    WithAllowedUniform(mine, true, true);
    WithAllowedUniform(mine, true, false);
    WithAllowedUniform(rest, false, true);
    WithAllowedUniform(rest, false, false);
  }

  /** The order reads back as declared, except that nothing left over makes `bottom` read as `top`. */
  lemma SortReadsBack(p: Policy, ds: seq<Definition>)
    requires Materializable(p, ds) && AllEnabled(p) && p.qualities != []
    ensures SortName(ProjectAll(Materialized(p, ds))) == p.sort <==> p.sort == "top" || LeftOver(p, ds) != []
  {
    BlocksAre(p, ds);
    var mine, rest := Chosen(p, ds), ProjectAll(LeftOver(p, ds));
    TwoBlocks(mine, rest);
  }

  lemma TwoBlocks(mine: seq<Node>, rest: seq<Node>)
    requires mine != [] && (forall n :: n in mine ==> n.allowed) && (forall n :: n in rest ==> !n.allowed)
    ensures SortName(rest + mine) == "top"
    ensures SortName(mine + rest) == if rest == [] then "top" else "bottom"
  {
    BlocksMeans(rest + mine, true);
    BlocksMeans(mine + rest, true);
    BlocksMeans(mine + rest, false);
    if rest == [] {
      assert mine + rest == mine;
    } else {
      assert (mine + rest)[0] == mine[0] && (mine + rest)[|mine|] == rest[0];
      assert mine[0] in mine && rest[0] in rest;
    }
  }

  /* ----- the enabled block ----- */

  ghost predicate NamesMean(ds: seq<Definition>, names: seq<string>) { forall n :: n in names ==> MeansItself(ds, n) }

  ghost predicate LeavesMeanThemselves(p: Policy, ds: seq<Definition>) {
    forall i :: 0 <= i < |p.qualities| ==> NamesMean(ds, LeafNames(p.qualities[i]))
  }

  function ChildNodes(names: seq<string>): seq<Node> {
    seq(|names|, i requires 0 <= i < |names| => QualityNode(names[i], true))
  }

  lemma LeavesReadBack(l: map<string, Definition>, names: seq<string>)
    requires Resolvable(l, names)
    ensures ProjectAll(Reverse(Leaves(l, names, true))) == Reverse(ChildNodes(names)) <==>
              forall n :: n in names ==> l[n].quality.name == n
  {
    var a, b := ProjectAll(Reverse(Leaves(l, names, true))), Reverse(ChildNodes(names));
    forall i | 0 <= i < |names|
      ensures var n := names[|names| - 1 - i];
              a[i] == QualityNode(l[n].quality.name, true) && b[i] == QualityNode(n, true)
    {
      ProjectAllAt(Reverse(Leaves(l, names, true)), i);
    }
    if a == b {
      forall n | n in names ensures l[n].quality.name == n {
        var k :| 0 <= k < |names| && names[k] == n;
        assert a[|names| - 1 - k] == b[|names| - 1 - k];
      }
    }
  }

  lemma DeclaredReadsBack(ds: seq<Definition>, index: nat, d: Declared)
    requires Resolvable(Lookup(ds), LeafNames(d)) && d.enabled
    ensures Project(Materialize(Lookup(ds), index, d)) == DeclaredNode(d) <==> NamesMean(ds, LeafNames(d))
  {
    if d.Grouped? {
      LeavesReadBack(Lookup(ds), d.children);
      assert ChildNodes(d.children) ==
        seq(|d.children|, i requires 0 <= i < |d.children| => QualityNode(d.children[i], true));
    } else {
      assert LeafNames(d)[0] == d.name;
    }
  }

  lemma ReadsBackAt(ds: seq<Definition>, declared: seq<Declared>, k: nat)
    requires AllResolvable(Lookup(ds), declared) && k < |declared| && declared[k].enabled
    ensures ProjectAll(MaterializeAll(Lookup(ds), declared))[k] == DeclaredNodes(declared)[k] <==>
              NamesMean(ds, LeafNames(declared[k]))
  {
    ProjectAllAt(MaterializeAll(Lookup(ds), declared), k);
    DeclaredReadsBack(ds, k, declared[k]);
  }

  lemma AllReadBack(p: Policy, ds: seq<Definition>)
    requires Materializable(p, ds) && AllEnabled(p)
    ensures ProjectAll(MaterializeAll(Lookup(ds), p.qualities)) == DeclaredNodes(p.qualities) <==>
              LeavesMeanThemselves(p, ds)
  {
    var a, b := ProjectAll(MaterializeAll(Lookup(ds), p.qualities)), DeclaredNodes(p.qualities);
    forall k | 0 <= k < |p.qualities| ensures a[k] == b[k] <==> NamesMean(ds, LeafNames(p.qualities[k])) {
      assert p.qualities[k] in p.qualities;
      ReadsBackAt(ds, p.qualities, k);
    }
  }

  lemma ReverseSame<T>(a: seq<T>, b: seq<T>)
    ensures Reverse(a) == Reverse(b) <==> a == b
  {
    if Reverse(a) == Reverse(b) {
      forall k | 0 <= k < |a| ensures a[k] == b[k] { assert Reverse(a)[|a| - 1 - k] == Reverse(b)[|a| - 1 - k]; }
    }
  }

  /** The enabled block reads back as declared exactly when every declared name is the name of
      the quality it resolves to. */
  lemma EnabledReadsBack(p: Policy, ds: seq<Definition>)
    requires Materializable(p, ds) && AllEnabled(p)
    ensures Chosen(p, ds) == Reverse(DeclaredNodes(p.qualities)) <==> LeavesMeanThemselves(p, ds)
  {
    ProjectReverse(MaterializeAll(Lookup(ds), p.qualities));
    AllReadBack(p, ds);
    ReverseSame(ProjectAll(MaterializeAll(Lookup(ds), p.qualities)), DeclaredNodes(p.qualities));
  }

  /* ----- the quality names ----- */

  lemma {:induction false} AllNamesConcat(a: seq<Node>, b: seq<Node>)
    ensures AllNames(a + b) == AllNames(a) + AllNames(b)
  {
    if a == [] {
      assert a + b == b;
    } else {
      assert (a + b)[1..] == a[1..] + b;
      AllNamesConcat(a[1..], b);
    }
  }

  lemma NamesConcat(a: seq<Ident>, b: seq<Ident>)
    ensures Names(a + b) == Names(a) + Names(b)
  {
  }

  lemma {:induction false} NamesOneBelow(x: Item, path: seq<string>)
    ensures multiset(NamesBelow(Project(x))) <= multiset(Names(NodesOf(x, path)))
    decreases x
  {
    if x.Group? {
      var down := IdentOf(x, path).path;
      NamesAmongNodes(x.children, down);
      NamesConcat([IdentOf(x, path)], Nodes(x.children, down));
    } else {
      assert Names(NodesOf(x, path)) == [x.quality.name];
    }
  }

  /** Every projected quality name is the name of a recorded node, counted as often at most. */
  lemma {:induction false} NamesAmongNodes(items: seq<Item>, path: seq<string>)
    ensures multiset(AllNames(ProjectAll(items))) <= multiset(Names(Nodes(items, path)))
    decreases items
  {
    if items != [] {
      NamesOneBelow(items[0], path);
      NamesAmongNodes(items[1..], path);
      NamesConcat(NodesOf(items[0], path), Nodes(items[1..], path));
    }
  }

  lemma DistinctCounts<K>(s: seq<K>, x: K)
    requires Distinct(s)
    ensures multiset(s)[x] <= 1
  {
    if k :| 0 <= k < |s| && s[k] == x {
      assert s == s[..k] + [x] + s[k + 1..];
      assert x !in s[..k] && x !in s[k + 1..];
    } else {
      assert x !in s;
    }
  }

  lemma CountsDistinct<K(!new)>(s: seq<K>)
    requires forall x :: multiset(s)[x] <= 1
    ensures Distinct(s)
  {
    forall i, j | 0 <= i < j < |s| ensures s[i] != s[j] {
      assert s == s[..j] + [s[j]] + s[j + 1..] && s[..j][i] == s[i];
      assert multiset(s)[s[j]] <= 1;
    }
  }

  lemma NamesDistinct(items: seq<Item>)
    requires Accepted(items)
    ensures Distinct(AllNames(ProjectAll(items)))
  {
    var names := Names(Nodes(items, []));
    NamesAmongNodes(items, []);
    forall x ensures multiset(AllNames(ProjectAll(items)))[x] <= 1 { DistinctCounts(names, x); }
    CountsDistinct(AllNames(ProjectAll(items)));
  }

  lemma {:induction false} AllNamesHas(ns: seq<Node>, i: nat, n: string)
    requires i < |ns| && n in NamesBelow(ns[i])
    ensures n in AllNames(ns)
  {
    if i > 0 { AllNamesHas(ns[1..], i - 1, n); }
  }

  lemma {:induction false} AllNamesAt(ns: seq<Node>, n: string) returns (i: nat)
    requires n in AllNames(ns)
    ensures i < |ns| && n in NamesBelow(ns[i])
  {
    if n in NamesBelow(ns[0]) {
      i := 0;
    } else {
      i := AllNamesAt(ns[1..], n);
      i := i + 1;
    }
  }

  lemma LeafNameAt(l: map<string, Definition>, names: seq<string>, allowed: bool, i: nat)
    requires Resolvable(l, names) && i < |names|
    ensures NamesBelow(ProjectAll(Reverse(Leaves(l, names, allowed)))[i]) == [l[names[|names| - 1 - i]].quality.name]
  {
    ProjectAllAt(Reverse(Leaves(l, names, allowed)), i);
  }

  lemma LeavesNames(l: map<string, Definition>, names: seq<string>, allowed: bool, n: string)
    requires Resolvable(l, names)
    ensures n in AllNames(ProjectAll(Reverse(Leaves(l, names, allowed)))) <==> n in CanonicalOf(l, names)
  {
    var ns := ProjectAll(Reverse(Leaves(l, names, allowed)));
    if n in AllNames(ns) {
      var i := AllNamesAt(ns, n);
      LeafNameAt(l, names, allowed, i);
      assert names[|names| - 1 - i] in names;
    }
    if n in CanonicalOf(l, names) {
      var k :| 0 <= k < |names| && l[names[k]].quality.name == n;
      LeafNameAt(l, names, allowed, |names| - 1 - k);
      AllNamesHas(ns, |names| - 1 - k, n);
    }
  }

  lemma DeclaredNames(l: map<string, Definition>, index: nat, d: Declared, n: string)
    requires Resolvable(l, LeafNames(d))
    ensures n in NamesBelow(Project(Materialize(l, index, d))) <==> n in CanonicalOf(l, LeafNames(d))
  {
    if d.Grouped? { LeavesNames(l, d.children, d.enabled, n); }
  }

  lemma ChosenNamesAt(p: Policy, ds: seq<Definition>, i: nat, n: string)
    requires Materializable(p, ds) && i < |p.qualities|
    ensures n in NamesBelow(Chosen(p, ds)[i]) <==>
              n in CanonicalOf(Lookup(ds), LeafNames(p.qualities[|p.qualities| - 1 - i]))
  {
    ChosenAt(p, ds, i);
    DeclaredNames(Lookup(ds), |p.qualities| - 1 - i, p.qualities[|p.qualities| - 1 - i], n);
  }

  lemma CanonicalAt(l: map<string, Definition>, ds: seq<Declared>, n: string) returns (k: nat)
    requires AllResolvable(l, ds) && n in Canonical(l, ds)
    ensures k < |ds| && n in CanonicalOf(l, LeafNames(ds[k]))
  {
    k :| 0 <= k < |ds| && exists m :: m in LeafNames(ds[k]) && n == l[m].quality.name;
  }

  lemma CanonicalHas(l: map<string, Definition>, ds: seq<Declared>, k: nat, n: string)
    requires AllResolvable(l, ds) && k < |ds| && n in CanonicalOf(l, LeafNames(ds[k]))
    ensures n in Canonical(l, ds)
  {
  }

  lemma ChosenNamesOnly(p: Policy, ds: seq<Definition>, n: string)
    requires Materializable(p, ds) && n in AllNames(Chosen(p, ds))
    ensures n in Canonical(Lookup(ds), p.qualities)
  {
    var i := AllNamesAt(Chosen(p, ds), n);
    ChosenNamesAt(p, ds, i, n);
    CanonicalHas(Lookup(ds), p.qualities, |p.qualities| - 1 - i, n);
  }

  lemma ChosenNamesAll(p: Policy, ds: seq<Definition>, n: string)
    requires Materializable(p, ds) && n in Canonical(Lookup(ds), p.qualities)
    ensures n in AllNames(Chosen(p, ds))
  {
    var k := CanonicalAt(Lookup(ds), p.qualities, n);
    ChosenNamesAt(p, ds, |p.qualities| - 1 - k, n);
    AllNamesHas(Chosen(p, ds), |p.qualities| - 1 - k, n);
  }

  lemma ChosenNames(p: Policy, ds: seq<Definition>, n: string)
    requires Materializable(p, ds)
    ensures n in AllNames(Chosen(p, ds)) <==> n in Canonical(Lookup(ds), p.qualities)
  {
    if n in AllNames(Chosen(p, ds)) { ChosenNamesOnly(p, ds, n); }
    if n in Canonical(Lookup(ds), p.qualities) { ChosenNamesAll(p, ds, n); }
  }

  lemma FirstLeftOver(ds: seq<Definition>, selected: set<string>)
    requires ds != []
    ensures AllNames(ProjectAll(Undeclared(ds, selected))) ==
              (if ds[0].quality.name in selected then [] else [ds[0].quality.name]) +
                  AllNames(ProjectAll(Undeclared(ds[1..], selected)))
  {
    var first := if ds[0].quality.name in selected then [] else [Leaf(ds[0].quality, false, [])];
    var rest := Undeclared(ds[1..], selected);
    ProjectAllConcat(first, rest);
    AllNamesConcat(ProjectAll(first), ProjectAll(rest));
    if ds[0].quality.name !in selected {
      assert ProjectAll(first) == [QualityNode(ds[0].quality.name, false)];
      assert AllNames(ProjectAll(first)) == [ds[0].quality.name] + AllNames([]);
    }
  }

  lemma {:induction false} LeftOverNames(ds: seq<Definition>, selected: set<string>, n: string)
    ensures n in AllNames(ProjectAll(Undeclared(ds, selected))) <==> n in QualityNames(ds) && n !in selected
  {
    if ds != [] {
      LeftOverNames(ds[1..], selected, n);
      FirstLeftOver(ds, selected);
      assert QualityNames(ds) == [ds[0].quality.name] + QualityNames(ds[1..]);
    }
  }

  lemma CanonicalListed(p: Policy, ds: seq<Definition>, n: string)
    requires Materializable(p, ds) && n in Canonical(Lookup(ds), p.qualities)
    ensures n in QualityNames(ds)
  {
    var k, m :| 0 <= k < |p.qualities| && m in LeafNames(p.qualities[k]) && n == Lookup(ds)[m].quality.name;
    LookupIn(ds, m);
    NameListed(ds, Lookup(ds)[m]);
  }

  /** Every quality of the service reads back once, whatever was declared. */
  lemma NamesReadBack(p: Policy, ds: seq<Definition>)
    requires Built(p, ds) && AllEnabled(p)
    ensures Sort(StrLess, AllNames(ProjectAll(Materialized(p, ds)))) ==
              Sort(StrLess, QualityNames(ProjectedDefinitions(ds)))
  {
    var mine, rest := Chosen(p, ds), ProjectAll(LeftOver(p, ds));
    BlocksAre(p, ds);
    AllNamesConcat(mine, rest);
    AllNamesConcat(rest, mine);
    NamesDistinct(Materialized(p, ds));
    ProjectedNames(ds);
    var all, wanted := AllNames(ProjectAll(Materialized(p, ds))), QualityNames(ProjectedDefinitions(ds));
    forall n ensures n in all <==> n in wanted {
      ChosenNames(p, ds, n);
      LeftOverNames(ds, Canonical(Lookup(ds), p.qualities), n);
      if n in Canonical(Lookup(ds), p.qualities) { CanonicalListed(p, ds, n); }
    }
    SortNames(all, wanted);
  }

  lemma {:induction false} AllLeafMember(ds: seq<Declared>, n: string)
    ensures n in AllLeafNames(ds) <==> exists i :: 0 <= i < |ds| && n in LeafNames(ds[i])
  {
    if ds != [] {
      AllLeafMember(ds[1..], n);
      assert forall i :: 0 <= i < |ds| - 1 ==> ds[1..][i] == ds[i + 1];
    }
  }

  /** Names that mean themselves are the names they stand for. */
  lemma CanonicalIsDeclared(p: Policy, ds: seq<Definition>, n: string)
    requires Materializable(p, ds) && LeavesMeanThemselves(p, ds)
    ensures n in Canonical(Lookup(ds), p.qualities) <==> n in AllLeafNames(p.qualities)
  {
    AllLeafMember(p.qualities, n);
    if n in AllLeafNames(p.qualities) {
      var i :| 0 <= i < |p.qualities| && n in LeafNames(p.qualities[i]);
      assert MeansItself(ds, n);
    }
    if n in Canonical(Lookup(ds), p.qualities) {
      var k, m :| 0 <= k < |p.qualities| && m in LeafNames(p.qualities[k]) && n == Lookup(ds)[m].quality.name;
      assert MeansItself(ds, m);
    }
  }

  lemma LeftOverDistinct(p: Policy, ds: seq<Definition>)
    requires Built(p, ds) && AllEnabled(p)
    ensures Distinct(AllNames(ProjectAll(LeftOver(p, ds))))
  {
    var mine, rest := Chosen(p, ds), ProjectAll(LeftOver(p, ds));
    BlocksAre(p, ds);
    AllNamesConcat(mine, rest);
    AllNamesConcat(rest, mine);
    NamesDistinct(Materialized(p, ds));
    PartDistinct(AllNames(mine), AllNames(rest));
  }

  /** The names a declaration leaves over. */
  ghost function NamesLeft(p: Policy, ds: seq<Definition>): set<string> {
    (set n | n in QualityNames(ProjectedDefinitions(ds))) - (set n | n in AllLeafNames(p.qualities))
  }

  lemma LeftOverIs(p: Policy, ds: seq<Definition>, n: string)
    requires Built(p, ds) && AllEnabled(p) && LeavesMeanThemselves(p, ds)
    ensures n in AllNames(ProjectAll(LeftOver(p, ds))) <==> n in NamesLeft(p, ds)
  {
    ProjectedName(ds, n);
    LeftOverNames(ds, Canonical(Lookup(ds), p.qualities), n);
    CanonicalIsDeclared(p, ds, n);
  }

  /** The disabled names read back as every quality not declared. */
  lemma DisabledReadsBack(p: Policy, ds: seq<Definition>)
    requires Built(p, ds) && AllEnabled(p) && LeavesMeanThemselves(p, ds)
    ensures Sort(StrLess, AllNames(WithAllowed(ProjectAll(Materialized(p, ds)), false))) == Ascending(NamesLeft(p, ds))
  {
    var names := AllNames(ProjectAll(LeftOver(p, ds)));
    BlocksAre(p, ds);
    LeftOverDistinct(p, ds);
    forall n ensures n in names <==> n in NamesLeft(p, ds) { LeftOverIs(p, ds, n); }
    SortIsAscending(names, NamesLeft(p, ds));
  }

  lemma PartDistinct<K>(a: seq<K>, b: seq<K>)
    requires Distinct(a + b) || Distinct(b + a)
    ensures Distinct(b)
  {
    forall i, j | 0 <= i < j < |b| ensures b[i] != b[j] {
      assert (a + b)[|a| + i] == b[i] && (a + b)[|a| + j] == b[j];
      assert (b + a)[i] == b[i] && (b + a)[j] == b[j];
    }
  }

  /* ----- the format assignment ----- */

  lemma {:induction false} OwnedCounts(fs: seq<FormatItem>, x: FormatItem)
    ensures multiset(OwnedItems(fs))[x] == if x.name == OWNED_FORMAT_NAME then multiset(fs)[x] else 0
  {
    if fs != [] {
      assert fs == [fs[0]] + fs[1..];
      OwnedCounts(fs[1..], x);
    }
  }

  lemma {:induction false} OwnedOnly(fs: seq<FormatItem>, k: nat)
    requires k < |fs| && Distinct(ItemNames(fs)) && fs[k].name == OWNED_FORMAT_NAME
    ensures OwnedItems(fs) == [fs[k]]
  {
    assert fs == [fs[0]] + fs[1..];
    assert ItemNames(fs) == [fs[0].name] + ItemNames(fs[1..]);
    PartDistinct([fs[0].name], ItemNames(fs[1..]));
    if k > 0 {
      assert ItemNames(fs)[0] != ItemNames(fs)[k];
      OwnedOnly(fs[1..], k - 1);
    } else {
      NoneOwned(fs[1..]) by {
        forall i | 0 <= i < |fs| - 1 ensures fs[1..][i].name != OWNED_FORMAT_NAME {
          assert ItemNames(fs)[0] != ItemNames(fs)[i + 1];
        }
      }
    }
  }

  lemma {:induction false} NoneOwned(fs: seq<FormatItem>)
    requires forall i :: 0 <= i < |fs| ==> fs[i].name != OWNED_FORMAT_NAME
    ensures OwnedItems(fs) == []
  {
    if fs != [] { NoneOwned(fs[1..]); }
  }

  lemma RepairItemsAre(fs: seq<Format>, score: int)
    requires FormatsOk(fs)
    ensures var items := RepairFormats(fs, score);
            FormatItemsOk(items) && forall x :: x in items ==> x.name == OWNED_FORMAT_NAME || x.score == 0
  {
    var items := RepairFormats(fs, score);
    assert ItemNames(items) == FormatNames(fs) && ItemFormats(items) == FormatIds(fs);
  }

  lemma OwnedAt(fs: seq<Format>, score: int) returns (k: nat)
    requires FormatsOk(fs) && OwnedFormat(fs).Some?
    ensures k < |fs| && RepairFormats(fs, score)[k] == FormatItem(OwnedFormat(fs).value, OWNED_FORMAT_NAME, score)
  {
    var f :| f in fs && f.name == OWNED_FORMAT_NAME && f.id == OwnedFormat(fs).value;
    k :| 0 <= k < |fs| && fs[k] == f;
  }

  lemma OwnedElements(a: seq<FormatItem>, b: seq<FormatItem>)
    requires multiset(a) == multiset(b)
    ensures multiset(OwnedItems(a)) == multiset(OwnedItems(b))
  {
    forall x ensures multiset(OwnedItems(a))[x] == multiset(OwnedItems(b))[x] {
      OwnedCounts(a, x);
      OwnedCounts(b, x);
    }
  }

  /** Sorting moves the owned items no more than any other. */
  lemma OwnedSorted(items: seq<FormatItem>, k: nat)
    requires Distinct(ItemNames(items)) && k < |items| && items[k].name == OWNED_FORMAT_NAME
    ensures OwnedItems(Sort(FormatLess, items)) == [items[k]]
  {
    OwnedOnly(items, k);
    OwnedElements(Sort(FormatLess, items), items);
    OneElement(OwnedItems(Sort(FormatLess, items)), items[k]);
  }

  /** The owned assignment reads back alone, with the declared score; every other score is zero. */
  lemma FormatsReadBack(fs: seq<Format>, score: int)
    requires FormatsOk(fs) && OwnedFormat(fs).Some?
    ensures var items := RepairFormats(fs, score);
            && FormatItemsOk(items)
            && OwnedItems(Sort(FormatLess, items)) == [FormatItem(OwnedFormat(fs).value, OWNED_FORMAT_NAME, score)]
            && (forall f :: f in Sort(FormatLess, items) ==> f.name == OWNED_FORMAT_NAME || f.score == 0)
  {
    var items := RepairFormats(fs, score);
    RepairItemsAre(fs, score);
    var k := OwnedAt(fs, score);
    OwnedSorted(items, k);
    forall x | x in Sort(FormatLess, items) ensures x in items { SameElements(Sort(FormatLess, items), items, x); }
  }

  lemma OneElement<T>(s: seq<T>, x: T)
    requires multiset(s) == multiset([x])
    ensures s == [x]
  {
    assert |s| == |multiset(s)| == 1;
    assert s[0] in multiset(s);
  }

  /* ----- after the PUT ----- */

  /** Everything the repair needs is there. */
  ghost predicate Repairable(p: Policy, r: Resources) {
    && Readable(r) && OwnedProfile(r.profiles).Some?
    && Desirable(p, ProjectedDefinitions(r.definitions)) && Buildable(p, r)
  }

  lemma {:induction false} OwnedProfileIs(ps: seq<Profile>, i: nat)
    requires UniqueNames(ProfileNames(ps)) && i < |ps| && ps[i].name == OWNED_PROFILE_NAME
    ensures OwnedProfile(ps) == Some(ps[i])
  {
    assert ProfileNames(ps)[i] == OWNED_PROFILE_NAME;
    var found := OwnedProfile(ps);
    assert found.Some? && found.value in ps && found.value.name == OWNED_PROFILE_NAME;
    var j :| 0 <= j < |ps| && ps[j] == found.value;
    assert ProfileNames(ps)[j] == ps[j].name && ProfileNames(ps)[i] == ps[i].name;
  }

  /** A PUT of the owned profile replaces it and nothing else. */
  lemma StoredIs(r: Resources, body: Profile, live: Profile)
    requires ProfilesOk(r.profiles) && OwnedProfile(r.profiles) == Some(live) && body.id == live.id &&
             body.name == live.name
    ensures var ps := Stored(r, body).profiles;
            && ProfilesOk(ps) && OwnedProfile(ps) == Some(body) && |ps| == |r.profiles|
            && (forall k :: 0 <= k < |ps| ==> ps[k] == if r.profiles[k] == live then body else r.profiles[k])
  {
    var ps, qs := r.profiles, Stored(r, body).profiles;
    var i :| 0 <= i < |ps| && ps[i] == live;
    forall k | 0 <= k < |ps| ensures ps[k].id == live.id <==> k == i {
      assert ProfileIds(ps)[k] == ps[k].id && ProfileIds(ps)[i] == live.id;
    }
    assert ProfileNames(qs) == ProfileNames(ps) && ProfileIds(qs) == ProfileIds(ps);
    OwnedProfileIs(qs, i);
  }

  lemma CutoffReadsBack(items: seq<Item>, name: string)
    requires Accepted(items) && name in TreeOf(items).idsByName
    ensures var t := TreeOf(items); t.idsByName[name] in t.namesById && t.namesById[t.idsByName[name]] == name
  {
    AcceptedMaps(items);
  }

  lemma BodyReadable(p: Policy, r: Resources)
    requires Repairable(p, r)
    ensures ProfileOk(RepairBody(p, r, OwnedProfile(r.profiles).value))
  {
    FormatsReadBack(r.formats, p.formatScore);
    CutoffReadsBack(Materialized(p, r.definitions), p.qualities[0].name);
  }

  lemma LeavesMean(p: Policy, ds: seq<Definition>)
    ensures LeavesMeanThemselves(p, ds) <==> forall n :: n in AllLeafNames(p.qualities) ==> MeansItself(ds, n)
  {
    forall n ensures n in AllLeafNames(p.qualities) <==>
        exists i :: 0 <= i < |p.qualities| && n in LeafNames(p.qualities[i]) {
      AllLeafMember(p.qualities, n);
    }
  }

  lemma ChildrenMean(p: Policy, ds: seq<Definition>)
    ensures ChildrenMeanThemselves(p, ds) <==>
              forall d, n :: d in p.qualities && d.Grouped? && n in d.children ==> MeansItself(ds, n)
  {
    if ChildrenMeanThemselves(p, ds) {
      forall d, n | d in p.qualities && d.Grouped? && n in d.children ensures MeansItself(ds, n) {
        var i :| 0 <= i < |p.qualities| && p.qualities[i] == d;
      }
    }
  }

  lemma {:induction false} LeftOverEmpty(ds: seq<Definition>, selected: set<string>)
    ensures Undeclared(ds, selected) != [] <==> exists d :: d in ds && d.quality.name !in selected
  {
    if ds != [] {
      LeftOverEmpty(ds[1..], selected);
      assert forall d :: d in ds <==> d == ds[0] || d in ds[1..];
    }
  }

  lemma SomethingLeft(p: Policy, ds: seq<Definition>)
    requires Materializable(p, ds) && LeavesMeanThemselves(p, ds)
    ensures LeftOver(p, ds) != [] <==> exists d :: d in ds && d.quality.name !in AllLeafNames(p.qualities)
  {
    LeftOverEmpty(ds, Canonical(Lookup(ds), p.qualities));
    forall n ensures n in Canonical(Lookup(ds), p.qualities) <==> n in AllLeafNames(p.qualities) {
      CanonicalIsDeclared(p, ds, n);
    }
  }

  /** The condition, read off the blocks of the materialised profile. */
  ghost predicate ReadsBack(p: Policy, ds: seq<Definition>)
    requires Materializable(p, ds)
  {
    && p.reset && (p.sort == "top" || LeftOver(p, ds) != [])
    && LeavesMeanThemselves(p, ds) && ChildrenMeanThemselves(p, ProjectedDefinitions(ds))
  }

  lemma SettlesIs(p: Policy, ds: seq<Definition>)
    requires Materializable(p, ds)
    ensures Settles(p, ds) <==> ReadsBack(p, ds)
  {
    LeavesMean(p, ds);
    ChildrenMean(p, ProjectedDefinitions(ds));
    if LeavesMeanThemselves(p, ds) { SomethingLeft(p, ds); }
  }

  lemma LeavesCoverChildren(p: Policy, ds: seq<Definition>)
    requires LeavesMeanThemselves(p, ds)
    ensures ChildrenMeanThemselves(p, ds)
  {
    forall i, n | 0 <= i < |p.qualities| && p.qualities[i].Grouped? && n in p.qualities[i].children
      ensures MeansItself(ds, n) {
      assert n in LeafNames(p.qualities[i]);
    }
  }

  /** What of the repaired profile reads back as desired whatever was declared. */
  ghost predicate AgreesAnyway(a: Comparable, b: Comparable) {
    && a.name == b.name && a.upgradeAllowed == b.upgradeAllowed && a.cutoff == b.cutoff
    && a.minFormatScore == b.minFormatScore && a.cutoffFormatScore == b.cutoffFormatScore
    && a.minUpgradeFormatScore == b.minUpgradeFormatScore && a.qualityNames == b.qualityNames
    && a.assignments == b.assignments && a.assignment == b.assignment
  }

  lemma FieldsDecide(a: Comparable, b: Comparable)
    requires AgreesAnyway(a, b)
    ensures a == b <==> a.reset == b.reset && a.sort == b.sort && a.disabledNames == b.disabledNames &&
                        a.enabled == b.enabled && a.identities == b.identities
  {
  }

  lemma BodyAgreesAnyway(p: Policy, r: Resources)
    requires Repairable(p, r) && ProfileOk(RepairBody(p, r, OwnedProfile(r.profiles).value))
    ensures AgreesAnyway(DeclaredOf(RepairBody(p, r, OwnedProfile(r.profiles).value)),
                         DesiredOf(p, ProjectedDefinitions(r.definitions), OwnedFormat(r.formats)))
  {
    FormatsReadBack(r.formats, p.formatScore);
    CutoffReadsBack(Materialized(p, r.definitions), p.qualities[0].name);
    NamesReadBack(p, r.definitions);
  }

  /** How the rest of the repaired profile reads back. */
  lemma BodyReadsBack(p: Policy, r: Resources)
    requires Repairable(p, r) && ProfileOk(RepairBody(p, r, OwnedProfile(r.profiles).value))
    ensures var a := DeclaredOf(RepairBody(p, r, OwnedProfile(r.profiles).value)); var ds := r.definitions;
            && a.reset && a.enabled == Chosen(p, ds)
            && (a.sort == p.sort <==> p.sort == "top" || LeftOver(p, ds) != [])
            && a.disabledNames == Sort(StrLess, AllNames(WithAllowed(ProjectAll(Materialized(p, ds)), false)))
            && a.identities == TreeOf(Materialized(p, ds)).identities
  {
    FormatsReadBack(r.formats, p.formatScore);
    BlocksAre(p, r.definitions);
    SortReadsBack(p, r.definitions);
  }

  /** The repaired profile projects to what is desired exactly when the declaration settles. */
  lemma BodyMatches(p: Policy, r: Resources)
    requires Repairable(p, r) && ProfileOk(RepairBody(p, r, OwnedProfile(r.profiles).value))
    ensures Matches(p, r, RepairBody(p, r, OwnedProfile(r.profiles).value)) <==> Settles(p, r.definitions)
  {
    var ds := r.definitions;
    var a := DeclaredOf(RepairBody(p, r, OwnedProfile(r.profiles).value));
    var b := DesiredOf(p, ProjectedDefinitions(ds), OwnedFormat(r.formats));
    SettlesIs(p, ds);
    BodyAgreesAnyway(p, r);
    FieldsDecide(a, b);
    BodyReadsBack(p, r);
    EnabledReadsBack(p, ds);
    if LeavesMeanThemselves(p, ds) {
      DisabledReadsBack(p, ds);
      LeavesCoverChildren(p, ds);
      IdentitiesAgree(p, ds);
    }
  }

  lemma PutMeans(p: Policy, r: Resources)
    requires Repair(p, r).Put?
    ensures Repairable(p, r) && Repair(p, r).body == RepairBody(p, r, OwnedProfile(r.profiles).value)
  {
  }

  lemma NextRun(p: Policy, r: Resources, body: Profile)
    requires Repairable(p, r) && OwnedProfile(r.profiles) == Some(body) && RepairBody(p, r, body) == body
    ensures Repair(p, r) == if Matches(p, r, body) then NoRepair else Put(body)
  {
  }

  /** One PUT is a fixpoint: it touches seven fields of one profile, what it leaves is readable, and
      the next run has nothing to repair exactly when the declaration settles. Otherwise the
      next run sends the very same PUT again. */
  lemma RepairConverges(p: Policy, r: Resources)
    requires Repair(p, r).Put?
    ensures var body, live := Repair(p, r).body, OwnedProfile(r.profiles).value;
            && live == body.(upgradeAllowed := live.upgradeAllowed, cutoff := live.cutoff,
                             minFormatScore := live.minFormatScore,
                             cutoffFormatScore := live.cutoffFormatScore,
                             minUpgradeFormatScore := live.minUpgradeFormatScore,
                             items := live.items, formatItems := live.formatItems)
            && OwnedProfile(Stored(r, body).profiles) == Some(body)
            && Repair(p, Stored(r, body)) == if Settles(p, r.definitions) then NoRepair else Put(body)
  {
    PutMeans(p, r);
    var live := OwnedProfile(r.profiles).value;
    var body := RepairBody(p, r, live);
    StoredIs(r, body, live);
    BodyReadable(p, r);
    BodyMatches(p, r);
    NextRun(p, Stored(r, body), body);
  }

  /** The service after a number of runs, each PUT stored before the next. */
  ghost function AfterRuns(p: Policy, r: Resources, n: nat): Resources {
    if n == 0 then r
    else
      var before := AfterRuns(p, r, n - 1);
      if Repair(p, before).Put? then Stored(before, Repair(p, before).body) else before
  }

  lemma StoredDefinitions(r: Resources, body: Profile)
    ensures Stored(r, body).definitions == r.definitions
  {
  }

  /** After the first PUT every run is quiet, or every run sends that PUT again. */
  lemma {:induction false} EveryRun(p: Policy, r: Resources, n: nat)
    requires Repair(p, r).Put? && n > 0
    ensures AfterRuns(p, r, n).definitions == r.definitions
    ensures Repair(p, AfterRuns(p, r, n)) == if Settles(p, r.definitions) then NoRepair else Repair(p, r)
    decreases n
  {
    var before := AfterRuns(p, r, n - 1);
    if n > 1 { EveryRun(p, r, n - 1); } else { assert before == r; }
    if Repair(p, before).Put? {
      RepairConverges(p, before);
      StoredDefinitions(before, Repair(p, before).body);
    }
  }

  /** A declaration that leaves unmatched scores alone is repaired on every run: the projection
      reports scores as reset, and every body sets them to zero. */
  lemma ResetOffNeverSettles(p: Policy, r: Resources)
    requires Repair(p, r).Put? && !p.reset
    ensures Repair(p, Stored(r, Repair(p, r).body)) == Repair(p, r)
  {
    RepairConverges(p, r);
  }
}
