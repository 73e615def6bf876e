/** `_configarr_profile_tree`: the strict projection of a quality-profile tree. */
module ConfigarrTree {
  import opened Orders
  import opened Options

  const MAX_DEPTH: nat := 16
  const MAX_NODES: nat := 512

  /** A quality as the API lists it: `extra` is what the platform does not project. */
  datatype Quality = Quality(id: int, name: string, details: string, extra: string)

  datatype Item =
    | Leaf(quality: Quality, allowed: bool, children: seq<Item>)
    | Group(id: int, name: string, allowed: bool, children: seq<Item>)

  /** The projected tree. */
  datatype Node =
    | QualityNode(name: string, allowed: bool)
    | GroupNode(name: string, allowed: bool, items: seq<Node>)

  datatype Kind = QualityKind | GroupKind

  datatype Ident = Ident(path: seq<string>, kind: Kind, name: string, id: int)

  /** `required_string`. */
  predicate SafeName(s: string) { s != "" && '\0' !in s && '\r' !in s && '\n' !in s }

  function KindOf(x: Item): Kind { if x.Leaf? then QualityKind else GroupKind }
  function NameOf(x: Item): string { if x.Leaf? then x.quality.name else x.name }
  function IdOf(x: Item): int { if x.Leaf? then x.quality.id else x.id }

  function Segment(k: Kind, name: string): string { (if k.QualityKind? then "quality:" else "group:") + name }

  function IdentOf(x: Item, path: seq<string>): Ident {
    Ident(path + [Segment(KindOf(x), NameOf(x))], KindOf(x), NameOf(x), IdOf(x))
  }

  /** Every node below, parents first. */
  function Nodes(items: seq<Item>, path: seq<string>): seq<Ident>
    decreases items
  {
    if items == [] then [] else NodesOf(items[0], path) + Nodes(items[1..], path)
  }

  function NodesOf(x: Item, path: seq<string>): seq<Ident>
    decreases x
  {
    [IdentOf(x, path)] + (if x.Group? then Nodes(x.children, IdentOf(x, path).path) else [])
  }

  /** What each node must be on its own, its depth included. */
  predicate WellShaped(items: seq<Item>, depth: nat)
    decreases items
  {
    items == [] || (WellShapedItem(items[0], depth) && WellShaped(items[1..], depth))
  }

  predicate WellShapedItem(x: Item, depth: nat)
    decreases x
  {
    && depth <= MAX_DEPTH
    && SafeName(NameOf(x))
    && IdOf(x) >= (if x.Leaf? then 0 else 1)
    && (if x.Leaf? then x.children == [] else x.children != [] && WellShaped(x.children, depth + 1))
  }

  function Ids(ns: seq<Ident>): seq<int> { seq(|ns|, i requires 0 <= i < |ns| => ns[i].id) }
  function Names(ns: seq<Ident>): seq<string> { seq(|ns|, i requires 0 <= i < |ns| => ns[i].name) }

  /** What the nodes must be together: few enough, and no id or name twice. */
  ghost predicate Unambiguous(ns: seq<Ident>) { |ns| <= MAX_NODES && Distinct(Ids(ns)) && Distinct(Names(ns)) }

  /** A dictionary filled pair by pair. */
  function Indexed<K, V>(ks: seq<K>, vs: seq<V>): map<K, V>
    requires |ks| == |vs|
  {
    if ks == [] then map[] else Indexed(ks[..|ks| - 1], vs[..|vs| - 1])[ks[|ks| - 1] := vs[|vs| - 1]]
  }

  ghost predicate Indexes<K, V>(m: map<K, V>, ks: seq<K>, vs: seq<V>)
    requires |ks| == |vs|
  {
    && (forall i :: 0 <= i < |ks| ==> ks[i] in m && m[ks[i]] == vs[i])
    && (forall k :: k in m ==> k in ks)
  }

  lemma {:induction false} IndexedIs<K, V>(ks: seq<K>, vs: seq<V>)
    requires |ks| == |vs| && Distinct(ks)
    ensures Indexes(Indexed(ks, vs), ks, vs)
  {
    if ks != [] {
      var kf, vf := ks[..|ks| - 1], vs[..|vs| - 1];
      assert ks == kf + [ks[|ks| - 1]];
      IndexedIs(kf, vf);
    }
  }

  lemma IndexesUnique<K, V>(m: map<K, V>, n: map<K, V>, ks: seq<K>, vs: seq<V>)
    requires |ks| == |vs| && Indexes(m, ks, vs) && Indexes(n, ks, vs)
    ensures m == n
  {
    forall k ensures k in m <==> k in n {}
    forall k | k in m ensures m[k] == n[k] {
      var i :| 0 <= i < |ks| && ks[i] == k;
    }
  }

  lemma IndexesAppend<K, V>(m: map<K, V>, ks: seq<K>, vs: seq<V>, k: K, v: V)
    requires |ks| == |vs| && Indexes(m, ks, vs) && Distinct(ks) && k !in m
    ensures Indexes(m[k := v], ks + [k], vs + [v]) && Distinct(ks + [k])
  {
    assert k !in ks;
  }

  ghost predicate Accepted(items: seq<Item>) { WellShaped(items, 1) && Unambiguous(Nodes(items, [])) }

  /* ----- an acceptable tree, by path ----- */

  /** The node at a path of positions. */
  function ItemAt(items: seq<Item>, path: seq<nat>): Option<Item>
    decreases |path|
  {
    if path == [] || path[0] >= |items| then None
    else if |path| == 1 then Some(items[path[0]])
    else ItemAt(items[path[0]].children, path[1..])
  }

  /** What is asked of a node at a depth: at most sixteen deep, a safe name, a leaf with nothing below it
      and no negative id, a group with something below it and a positive one. */
  predicate NodeOk(x: Item, depth: nat) {
    depth <= 16 && IdOf(x) >= 0 && NameOf(x) != "" && (forall ch :: ch in NameOf(x) ==> ch !in "\0\r\n") &&
    (if x.Leaf? then x.children == [] else x.children != [] && IdOf(x) > 0)
  }

  ghost predicate NodesOk(items: seq<Item>, depth: nat) {
    forall path :: ItemAt(items, path).Some? ==> NodeOk(ItemAt(items, path).value, depth + |path| - 1)
  }

  lemma {:induction false} ShapedEach(items: seq<Item>, depth: nat)
    ensures WellShaped(items, depth) <==> forall i :: 0 <= i < |items| ==> WellShapedItem(items[i], depth)
    decreases |items|
  {
    if items != [] {
      ShapedEach(items[1..], depth);
      assert forall i :: 0 < i < |items| ==> items[i] == items[1..][i - 1];
      if forall i :: 0 <= i < |items| ==> WellShapedItem(items[i], depth) {
        forall i | 0 <= i < |items| - 1 ensures WellShapedItem(items[1..][i], depth) {
          assert items[i + 1] == items[1..][i];
        }
      }
    }
  }

  lemma {:induction false} ShapedAt(items: seq<Item>, depth: nat, path: seq<nat>)
    requires WellShaped(items, depth) && ItemAt(items, path).Some?
    ensures NodeOk(ItemAt(items, path).value, depth + |path| - 1)
    decreases |path|
  {
    ShapedEach(items, depth);
    assert WellShapedItem(items[path[0]], depth);
    if |path| > 1 { ShapedAt(items[path[0]].children, depth + 1, path[1..]); }
  }

  lemma ChildAt(items: seq<Item>, i: nat, path: seq<nat>)
    requires i < |items| && path != []
    ensures ItemAt(items, [i] + path) == ItemAt(items[i].children, path)
  {
    assert ([i] + path)[1..] == path;
  }

  lemma BelowOk(items: seq<Item>, depth: nat, i: nat)
    requires NodesOk(items, depth) && i < |items|
    ensures NodeOk(items[i], depth) && NodesOk(items[i].children, depth + 1)
  {
    var x := items[i];
    assert ItemAt(items, [i]) == Some(x);
    forall path | ItemAt(x.children, path).Some?
      ensures NodeOk(ItemAt(x.children, path).value, depth + 1 + |path| - 1)
    {
      ChildAt(items, i, path);
      assert ItemAt(items, [i] + path).Some?;
    }
  }

  lemma {:induction false} OkShaped(items: seq<Item>, depth: nat)
    requires NodesOk(items, depth)
    ensures WellShaped(items, depth)
    decreases items
  {
    forall i | 0 <= i < |items| ensures WellShapedItem(items[i], depth) {
      BelowOk(items, depth, i);
      OkShaped(items[i].children, depth + 1);
    }
    ShapedEach(items, depth);
  }

  /** A tree is acceptable exactly when every node is, wherever it stands, and there are at most 512, no two
      of one id or one name. */
  lemma AcceptedExactly(items: seq<Item>)
    ensures Accepted(items) <==>
              && NodesOk(items, 1)
              && |Nodes(items, [])| <= 512 && Distinct(Ids(Nodes(items, []))) && Distinct(Names(Nodes(items, [])))
  {
    if WellShaped(items, 1) {
      forall path | ItemAt(items, path).Some? ensures NodeOk(ItemAt(items, path).value, 1 + |path| - 1) {
        ShapedAt(items, 1, path);
      }
    }
    if NodesOk(items, 1) { OkShaped(items, 1); }
  }

  function ProjectAll(items: seq<Item>): (r: seq<Node>)
    ensures |r| == |items|
    decreases items
  {
    if items == [] then [] else [Project(items[0])] + ProjectAll(items[1..])
  }

  function Project(x: Item): Node
    decreases x
  {
    if x.Leaf? then QualityNode(x.quality.name, x.allowed) else GroupNode(x.name, x.allowed, ProjectAll(x.children))
  }

  /** What `_configarr_profile_tree` keeps as its walk goes down and along. */
  class TreeProjection {
    var identities: seq<Ident>
    var namesById: map<int, string>
    var idsByName: map<string, int>
    var nodeCount: nat

    constructor ()
      ensures Valid() && identities == []
    {
      identities, namesById, idsByName, nodeCount := [], map[], map[], 0;
    }

    /** The maps record exactly the nodes seen. */
    ghost predicate Valid()
      reads this
    {
      && Unambiguous(identities) && nodeCount == |identities|
      && Indexes(namesById, Ids(identities), Names(identities))
      && Indexes(idsByName, Names(identities), Ids(identities))
    }

    /** Record one node unless it is one too many or repeats an id or a name. */
    method Enter(n: Ident) returns (ok: bool)
      requires Valid()
      modifies this
      ensures ok ==> Valid() && identities == old(identities) + [n]
      ensures !ok ==> !Unambiguous(old(identities) + [n])
    {
      ghost var ids, names := Ids(identities), Names(identities);
      assert Ids(identities + [n]) == ids + [n.id] && Names(identities + [n]) == names + [n.name];
      if nodeCount + 1 > MAX_NODES { return false; }
      if n.id in namesById {
        Repeats(ids, n.id);
        return false;
      }
      if n.name in idsByName {
        Repeats(names, n.name);
        return false;
      }
      IndexesAppend(namesById, ids, names, n.id, n.name);
      IndexesAppend(idsByName, names, ids, n.name, n.id);
      nodeCount := nodeCount + 1;
      namesById, idsByName := namesById[n.id := n.name], idsByName[n.name := n.id];
      identities := identities + [n];
      ok := true;
    }

    /** One node and everything below it; None when `_configarr_profile_tree` raises. */
    method ProjectItem(x: Item, path: seq<string>, depth: nat) returns (r: Option<Node>)
      requires Valid()
      modifies this
      ensures r.Some? ==>
                Valid() && WellShapedItem(x, depth) && identities == old(identities) + NodesOf(x, path) &&
                r.value == Project(x)
      ensures r.None? ==> !(WellShapedItem(x, depth) && Unambiguous(old(identities) + NodesOf(x, path)))
      decreases x
    {
      var n := IdentOf(x, path);
      ghost var first := identities + [n];
      ghost var rest := NodesOf(x, path)[1..];
      assert identities + NodesOf(x, path) == first + rest;
      PrefixUnambiguous(first, rest);
      if depth > MAX_DEPTH { return None; }
      if !SafeName(NameOf(x)) || (x.Leaf? && x.children != []) || (x.Group? && x.children == []) { return None; }
      if IdOf(x) < (if x.Leaf? then 0 else 1) { return None; }
      var ok := Enter(n);
      if !ok { return None; }
      if x.Leaf? {
        return Some(QualityNode(x.quality.name, x.allowed));
      }
      assert rest == Nodes(x.children, n.path);
      var children := ProjectItems(x.children, n.path, depth + 1);
      if children.None? { return None; }
      r := Some(GroupNode(x.name, x.allowed, children.value));
    }

    method ProjectItems(items: seq<Item>, path: seq<string>, depth: nat) returns (r: Option<seq<Node>>)
      requires Valid()
      modifies this
      ensures r.Some? ==> Valid() && WellShaped(items, depth) && identities == old(identities) + Nodes(items, path)
      ensures r.Some? ==> r.value == ProjectAll(items)
      ensures r.None? ==> !(WellShaped(items, depth) && Unambiguous(old(identities) + Nodes(items, path)))
      decreases items
    {
      if items == [] {
        return Some([]);
      }
      ghost var all := identities + Nodes(items, path);
      ghost var first := identities + NodesOf(items[0], path);
      assert all == first + Nodes(items[1..], path);
      PrefixUnambiguous(first, Nodes(items[1..], path));
      var head := ProjectItem(items[0], path, depth);
      if head.None? { return None; }
      var tail := ProjectItems(items[1..], path, depth);
      if tail.None? { return None; }
      r := Some([head.value] + tail.value);
    }
  }

  lemma PrefixUnambiguous(a: seq<Ident>, b: seq<Ident>)
    ensures Unambiguous(a + b) ==> Unambiguous(a)
  {
    assert Ids(a + b) == Ids(a) + Ids(b) && Names(a + b) == Names(a) + Names(b);
    PrefixDistinct(Ids(a), Ids(b));
    PrefixDistinct(Names(a), Names(b));
  }

  lemma PrefixDistinct<K>(a: seq<K>, b: seq<K>)
    ensures Distinct(a + b) ==> Distinct(a)
  {
    if Distinct(a + b) {
      forall i, j | 0 <= i < j < |a| ensures a[i] != a[j] { assert (a + b)[i] == a[i] && (a + b)[j] == a[j]; }
    }
  }

  lemma Repeats<K>(ks: seq<K>, k: K)
    requires k in ks
    ensures !Distinct(ks + [k])
  {
    var i :| 0 <= i < |ks| && ks[i] == k;
    assert (ks + [k])[i] == (ks + [k])[|ks|];
  }

  datatype Tree = Tree(items: seq<Node>, identities: seq<Ident>, namesById: map<int, string>,
                       idsByName: map<string, int>)

  predicate IdentLess(a: Ident, b: Ident) { PathLess(a.path, b.path) }

  function TreeOf(items: seq<Item>): Tree {
    var ns := Nodes(items, []);
    Tree(ProjectAll(items), Sort(IdentLess, ns), Indexed(Ids(ns), Names(ns)), Indexed(Names(ns), Ids(ns)))
  }

  /** A map filled from a listing of nodes takes each to its counterpart and holds nothing else. */
  lemma FilledFromNodes(ns: seq<Ident>, x: Ident)
    requires Unambiguous(ns) && x in ns
    ensures var m := Indexed(Ids(ns), Names(ns)); x.id in m && m[x.id] == x.name
    ensures var m := Indexed(Names(ns), Ids(ns)); x.name in m && m[x.name] == x.id
  {
    IndexedIs(Ids(ns), Names(ns));
    IndexedIs(Names(ns), Ids(ns));
    var i :| 0 <= i < |ns| && ns[i] == x;
    assert Ids(ns)[i] == x.id && Names(ns)[i] == x.name;
  }

  lemma NodeOfId(ns: seq<Ident>, id: int)
    requires Unambiguous(ns) && id in Indexed(Ids(ns), Names(ns))
    ensures exists x :: x in ns && x.id == id
  {
    IndexedIs(Ids(ns), Names(ns));
    var i :| 0 <= i < |ns| && Ids(ns)[i] == id;
    assert ns[i] in ns;
  }

  lemma NodeOfName(ns: seq<Ident>, n: string)
    requires Unambiguous(ns) && n in Indexed(Names(ns), Ids(ns))
    ensures exists x :: x in ns && x.name == n
  {
    IndexedIs(Names(ns), Ids(ns));
    var i :| 0 <= i < |ns| && Names(ns)[i] == n;
    assert ns[i] in ns;
  }

  /** In an accepted tree the two maps are mutual inverses over exactly all nodes. */
  lemma AcceptedMaps(items: seq<Item>)
    requires Accepted(items)
    ensures var t := TreeOf(items);
            && |t.identities| <= MAX_NODES
            && (forall x :: x in t.identities ==> x.id in t.namesById && t.namesById[x.id] == x.name)
            && (forall x :: x in t.identities ==> x.name in t.idsByName && t.idsByName[x.name] == x.id)
            && (forall id :: id in t.namesById ==> exists x :: x in t.identities && x.id == id)
            && (forall n :: n in t.idsByName ==> exists x :: x in t.identities && x.name == n)
  {
    var ns, t := Nodes(items, []), TreeOf(items);
    assert |multiset(ns)| == |multiset(t.identities)|;
    forall x ensures x in ns <==> x in t.identities { SameElements(t.identities, ns, x); }
    forall x | x in t.identities
      ensures x.id in t.namesById && t.namesById[x.id] == x.name && x.name in t.idsByName && t.idsByName[x.name] == x.id
    {
      FilledFromNodes(ns, x);
    }
    forall id | id in t.namesById ensures exists x :: x in t.identities && x.id == id { NodeOfId(ns, id); }
    forall n | n in t.idsByName ensures exists x :: x in t.identities && x.name == n { NodeOfName(ns, n); }
  }

  lemma {:induction false} PathsWithin(items: seq<Item>, path: seq<string>)
    requires WellShaped(items, |path| + 1)
    ensures forall x :: x in Nodes(items, path) ==> |x.path| <= MAX_DEPTH
    decreases items
  {
    if items != [] {
      PathsWithin(items[1..], path);
      if items[0].Group? { PathsWithin(items[0].children, IdentOf(items[0], path).path); }
    }
  }

  /** An accepted tree is at most 16 deep. */
  lemma AcceptedDepth(items: seq<Item>)
    requires Accepted(items)
    ensures forall x :: x in TreeOf(items).identities ==> |x.path| <= MAX_DEPTH
  {
    PathsWithin(items, []);
    forall x | x in TreeOf(items).identities ensures x in Nodes(items, []) {
      SameElements(TreeOf(items).identities, Nodes(items, []), x);
    }
  }

  /** `_configarr_profile_tree` computes the tree exactly when the items are acceptable. */
  method ProfileTree(items: seq<Item>) returns (r: Option<Tree>)
    ensures r.Some? <==> Accepted(items)
    ensures r.Some? ==> r.value == TreeOf(items)
  {
    var p := new TreeProjection();
    var nodes := p.ProjectItems(items, [], 1);
    assert [] + Nodes(items, []) == Nodes(items, []);
    if nodes.None? { return None; }
    ghost var ids, names := Ids(p.identities), Names(p.identities);
    IndexedIs(ids, names);
    IndexedIs(names, ids);
    IndexesUnique(p.namesById, Indexed(ids, names), ids, names);
    IndexesUnique(p.idsByName, Indexed(names, ids), names, ids);
    r := Some(Tree(nodes.value, Sort(IdentLess, p.identities), p.namesById, p.idsByName));
  }

  /* ----- reordering siblings ----- */

  /** `b` is `a` with siblings rearranged, at this level and at any below. */
  ghost predicate Reorders(a: seq<Item>, b: seq<Item>)
    decreases a
  {
    |a| == |b| && (a == [] || exists j :: 0 <= j < |b| && Similar(a[0], b[j]) && Reorders(a[1..], b[..j] + b[j + 1..]))
  }

  ghost predicate Similar(x: Item, y: Item)
    decreases x
  {
    match x
    case Leaf(q, allowed, children) => y.Leaf? && y.quality == q && y.allowed == allowed &&
        Reorders(children, y.children)
    case Group(id, name, allowed, children) =>
      y.Group? && y.id == id && y.name == name && y.allowed == allowed && Reorders(children, y.children)
  }

  lemma {:induction false} NodesConcat(a: seq<Item>, b: seq<Item>, path: seq<string>)
    ensures Nodes(a + b, path) == Nodes(a, path) + Nodes(b, path)
  {
    if a == [] {
      assert a + b == b;
    } else {
      assert (a + b)[1..] == a[1..] + b;
      NodesConcat(a[1..], b, path);
    }
  }

  lemma {:induction false} WellShapedConcat(a: seq<Item>, b: seq<Item>, depth: nat)
    ensures WellShaped(a + b, depth) <==> WellShaped(a, depth) && WellShaped(b, depth)
  {
    if a == [] {
      assert a + b == b;
    } else {
      assert (a + b)[1..] == a[1..] + b;
      WellShapedConcat(a[1..], b, depth);
    }
  }

  lemma NodesSplit(b: seq<Item>, j: nat, path: seq<string>)
    requires j < |b|
    ensures multiset(Nodes(b, path)) == multiset(NodesOf(b[j], path)) + multiset(Nodes(b[..j] + b[j + 1..], path))
  {
    assert b == b[..j] + ([b[j]] + b[j + 1..]);
    NodesConcat(b[..j], [b[j]] + b[j + 1..], path);
    assert ([b[j]] + b[j + 1..])[1..] == b[j + 1..];
    NodesConcat(b[..j], b[j + 1..], path);
  }

  lemma WellShapedSplit(b: seq<Item>, j: nat, depth: nat)
    requires j < |b|
    ensures WellShaped(b, depth) <==> WellShapedItem(b[j], depth) && WellShaped(b[..j] + b[j + 1..], depth)
  {
    assert b == b[..j] + ([b[j]] + b[j + 1..]);
    WellShapedConcat(b[..j], [b[j]] + b[j + 1..], depth);
    assert ([b[j]] + b[j + 1..])[1..] == b[j + 1..];
    WellShapedConcat(b[..j], b[j + 1..], depth);
  }

  lemma {:induction false} ReordersKeeps(a: seq<Item>, b: seq<Item>, path: seq<string>, depth: nat)
    requires Reorders(a, b)
    ensures multiset(Nodes(a, path)) == multiset(Nodes(b, path))
    ensures WellShaped(a, depth) <==> WellShaped(b, depth)
    decreases a
  {
    if a != [] {
      var j :| 0 <= j < |b| && Similar(a[0], b[j]) && Reorders(a[1..], b[..j] + b[j + 1..]);
      SimilarKeeps(a[0], b[j], path, depth);
      ReordersKeeps(a[1..], b[..j] + b[j + 1..], path, depth);
      NodesSplit(b, j, path);
      WellShapedSplit(b, j, depth);
    }
  }

  lemma {:induction false} SimilarKeeps(x: Item, y: Item, path: seq<string>, depth: nat)
    requires Similar(x, y)
    ensures multiset(NodesOf(x, path)) == multiset(NodesOf(y, path))
    ensures WellShapedItem(x, depth) <==> WellShapedItem(y, depth)
    decreases x
  {
    ReordersKeeps(x.children, y.children, IdentOf(x, path).path, depth + 1);
  }

  lemma DistinctPermutes(a: seq<Ident>, b: seq<Ident>)
    requires multiset(a) == multiset(b) && Unambiguous(a)
    ensures Unambiguous(b)
  {
    assert |multiset(a)| == |multiset(b)|;
    assert |a| == |b|;
    forall i, j | 0 <= i < j < |b| ensures Ids(b)[i] != Ids(b)[j] && Names(b)[i] != Names(b)[j] {
      TwoOf(a, b, i, j);
    }
  }

  /** Two positions of a permutation stand at two positions of the original. */
  lemma TwoOf(a: seq<Ident>, b: seq<Ident>, i: nat, j: nat)
    requires multiset(a) == multiset(b) && i < j < |b| && Unambiguous(a)
    ensures b[i].id != b[j].id && b[i].name != b[j].name
  {
    SameElements(a, b, b[i]);
    SameElements(a, b, b[j]);
    var p :| 0 <= p < |a| && a[p] == b[i];
    var q :| 0 <= q < |a| && a[q] == b[j];
    CountOne(a, p);
    if p == q {
      CountTwo(b, i, j);
    } else {
      assert Ids(a)[p] != Ids(a)[q] && Names(a)[p] != Names(a)[q];
    }
  }

  lemma CountOne(a: seq<Ident>, q: nat)
    requires q < |a| && Unambiguous(a)
    ensures multiset(a)[a[q]] == 1
  {
    forall k | 0 <= k < |a| && k != q ensures a[k] != a[q] {
      assert k < q ==> Ids(a)[k] != Ids(a)[q];
      assert q < k ==> Ids(a)[q] != Ids(a)[k];
    }
    assert a == a[..q] + [a[q]] + a[q + 1..];
    assert a[q] !in a[..q] && a[q] !in a[q + 1..];
  }

  lemma CountTwo(b: seq<Ident>, i: nat, j: nat)
    requires i < j < |b| && b[i] == b[j]
    ensures multiset(b)[b[i]] >= 2
  {
    assert b == b[..j] + [b[j]] + b[j + 1..] && b[..j][i] == b[j];
  }

  /** In an unambiguous listing the paths order any two nodes, given that a path ends in its
      node's own segment. */
  lemma PathsDiffer(ns: seq<Ident>)
    requires Unambiguous(ns)
    requires forall n :: n in ns ==> n.path != [] && n.path[|n.path| - 1] == Segment(n.kind, n.name)
    ensures forall i, j :: 0 <= i < j < |ns| ==> IdentLess(ns[i], ns[j]) || IdentLess(ns[j], ns[i])
  {
    PathOrder();
    forall i, j | 0 <= i < j < |ns| ensures IdentLess(ns[i], ns[j]) || IdentLess(ns[j], ns[i]) {
      var x, y := ns[i], ns[j];
      assert x in ns && y in ns && Names(ns)[i] != Names(ns)[j];
      if x.path == y.path { SegmentNames(x.kind, x.name, y.kind, y.name); }
    }
  }

  lemma SegmentNames(k: Kind, a: string, m: Kind, b: string)
    requires Segment(k, a) == Segment(m, b)
    ensures a == b && k == m
  {
    var s := Segment(k, a);
    assert s[0] == (if k.QualityKind? then 'q' else 'g');
    assert s[0] == (if m.QualityKind? then 'q' else 'g');
    var p := if k.QualityKind? then "quality:" else "group:";
    assert s[|p|..] == a && s[|p|..] == b;
  }

  lemma {:induction false} NodesPaths(items: seq<Item>, path: seq<string>)
    ensures forall n :: n in Nodes(items, path) ==> n.path != [] && n.path[|n.path| - 1] == Segment(n.kind, n.name)
    decreases items
  {
    if items != [] {
      NodesPaths(items[1..], path);
      if items[0].Group? { NodesPaths(items[0].children, IdentOf(items[0], path).path); }
    }
  }

  /** Reordering siblings anywhere changes neither acceptance nor the recorded identities. */
  lemma IdentitiesIgnoreOrder(a: seq<Item>, b: seq<Item>)
    requires Reorders(a, b)
    ensures Accepted(a) <==> Accepted(b)
    ensures Accepted(a) ==> TreeOf(a).identities == TreeOf(b).identities
  {
    ReordersKeeps(a, b, [], 1);
    var m, n := Nodes(a, []), Nodes(b, []);
    if Accepted(a) { DistinctPermutes(m, n); }
    if Accepted(b) { DistinctPermutes(n, m); }
    forall x ensures x in m <==> x in n { SameElements(m, n, x); }
    if Accepted(a) { SameListing(m, n, a, b); }
  }

  lemma SameListing(m: seq<Ident>, n: seq<Ident>, a: seq<Item>, b: seq<Item>)
    requires m == Nodes(a, []) && n == Nodes(b, []) && Unambiguous(m) && Unambiguous(n)
    requires forall x :: x in m <==> x in n
    ensures Sort(IdentLess, m) == Sort(IdentLess, n)
  {
    NodesPaths(a, []);
    NodesPaths(b, []);
    PathsDiffer(m);
    PathsDiffer(n);
    PathOrder();
    SortCanonical(IdentLess, m, n);
  }
}
