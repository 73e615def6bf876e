/** The quality profile a declaration asks for, the one that is live, and the PUT body that
    takes the second to the first. */
module ConfigarrProfile {
  import opened Orders
  import opened Options
  import opened ConfigarrTree

  const OWNED_PROFILE_NAME := "HD Bluray + WEB 1080p"
  const OWNED_FORMAT_NAME := "NAS Repack or Proper"
  const FIRST_GROUP_ID := 1000

  /** A live quality definition; `rest` is everything the profile never looks at. */
  datatype Definition = Definition(id: int, quality: Quality, title: string, rest: string)

  /** One declared quality, or a group of them. */
  datatype Declared = Single(name: string, enabled: bool) | Grouped(name: string, enabled: bool, children: seq<string>)

  datatype Policy = Policy(qualities: seq<Declared>, sort: string, upgradeAllowed: bool,
                           minFormatScore: int, reset: bool, formatScore: int)

  datatype FormatItem = FormatItem(format: int, name: string, score: int)
  datatype Format = Format(id: int, name: string, rest: string)

  /** A live profile; `rest` is every field the repair leaves alone. */
  datatype Profile = Profile(id: int, name: string, upgradeAllowed: bool, cutoff: int, minFormatScore: int,
                             cutoffFormatScore: int, minUpgradeFormatScore: int, items: seq<Item>,
                             formatItems: seq<FormatItem>, rest: string)

  /** One service's readback. */
  datatype Resources = Resources(profiles: seq<Profile>, definitions: seq<Definition>, formats: seq<Format>)

  function Reverse<T>(s: seq<T>): (r: seq<T>)
    ensures |r| == |s| && forall i :: 0 <= i < |s| ==> r[i] == s[|s| - 1 - i]
  {
    seq(|s|, i requires 0 <= i < |s| => s[|s| - 1 - i])
  }

  /* ----- materialising a declaration ----- */

  function QualityNames(ds: seq<Definition>): seq<string> { seq(|ds|, i requires 0 <= i < |ds| => ds[i].quality.name) }

  /** Every spelling that resolves: quality names and titles, the last definition winning. */
  function Lookup(ds: seq<Definition>): map<string, Definition> {
    if ds == [] then map[]
    else
      var last := ds[|ds| - 1];
      Lookup(ds[..|ds| - 1])[last.quality.name := last][last.title := last]
  }

  ghost predicate Indexable(ds: seq<Definition>) {
    (forall d :: d in ds ==> SafeName(d.quality.name) && SafeName(d.title)) && Distinct(QualityNames(ds))
  }

  function LeafNames(d: Declared): seq<string> { if d.Single? then [d.name] else d.children }

  function AllLeafNames(ds: seq<Declared>): seq<string> {
    if ds == [] then [] else LeafNames(ds[0]) + AllLeafNames(ds[1..])
  }

  predicate Resolvable(l: map<string, Definition>, names: seq<string>) { forall n :: n in names ==> n in l }

  function Leaves(l: map<string, Definition>, names: seq<string>, allowed: bool): seq<Item>
    requires Resolvable(l, names)
  {
    seq(|names|, i requires 0 <= i < |names| => Leaf(l[names[i]].quality, allowed, []))
  }

  function Materialize(l: map<string, Definition>, index: nat, d: Declared): Item
    requires Resolvable(l, LeafNames(d))
  {
    if d.Single? then Leaf(l[d.name].quality, d.enabled, [])
    else Group(FIRST_GROUP_ID + index, d.name, d.enabled, Reverse(Leaves(l, d.children, d.enabled)))
  }

  predicate AllResolvable(l: map<string, Definition>, ds: seq<Declared>) {
    forall i :: 0 <= i < |ds| ==> SafeName(ds[i].name) && Resolvable(l, LeafNames(ds[i]))
  }

  function MaterializeAll(l: map<string, Definition>, ds: seq<Declared>): seq<Item>
    requires AllResolvable(l, ds)
  {
    seq(|ds|, i requires 0 <= i < |ds| => Materialize(l, i, ds[i]))
  }

  ghost function Canonical(l: map<string, Definition>, ds: seq<Declared>): set<string>
    requires AllResolvable(l, ds)
  {
    set i, n | 0 <= i < |ds| && n in LeafNames(ds[i]) :: l[n].quality.name
  }

  function Undeclared(ds: seq<Definition>, selected: set<string>): seq<Item> {
    if ds == [] then []
    else
      (if ds[0].quality.name in selected then [] else [Leaf(ds[0].quality, false, [])]) +
      Undeclared(ds[1..], selected)
  }

  ghost predicate Materializable(p: Policy, ds: seq<Definition>) {
    Indexable(ds) && AllResolvable(Lookup(ds), p.qualities) && (p.sort == "top" || p.sort == "bottom")
  }

  ghost function Materialized(p: Policy, ds: seq<Definition>): seq<Item>
    requires Materializable(p, ds)
  {
    var l := Lookup(ds);
    var allowed := Reverse(MaterializeAll(l, p.qualities));
    var missing := Undeclared(ds, Canonical(l, p.qualities));
    if p.sort == "bottom" then allowed + missing else missing + allowed
  }

  lemma NamesGrow(ds: seq<Definition>, i: nat)
    requires i < |ds|
    ensures QualityNames(ds[..i + 1]) == QualityNames(ds[..i]) + [ds[i].quality.name]
    ensures Lookup(ds[..i + 1]) == Lookup(ds[..i])[ds[i].quality.name := ds[i]][ds[i].title := ds[i]]
  {
    assert ds[..i + 1][..i] == ds[..i];
  }

  lemma IndexableGrows(ds: seq<Definition>, i: nat)
    requires i < |ds| && Indexable(ds[..i])
    ensures Indexable(ds[..i + 1]) <==>
              SafeName(ds[i].quality.name) && SafeName(ds[i].title) && ds[i].quality.name !in QualityNames(ds[..i])
  {
    NamesGrow(ds, i);
    var names := QualityNames(ds[..i]);
    assert ds[..i + 1] == ds[..i] + [ds[i]];
    assert ds[i] in ds[..i + 1];
    if ds[i].quality.name in names { Repeats(names, ds[i].quality.name); }
  }

  lemma IndexablePrefix(ds: seq<Definition>, i: nat)
    requires i <= |ds| && Indexable(ds)
    ensures Indexable(ds[..i])
  {
    assert QualityNames(ds[..i]) + QualityNames(ds[i..]) == QualityNames(ds);
    PrefixDistinct(QualityNames(ds[..i]), QualityNames(ds[i..]));
  }

  /** `_configarr_definition_lookup`: None when a name repeats or is unusable. */
  method DefinitionLookup(ds: seq<Definition>) returns (r: Option<map<string, Definition>>)
    ensures r == if Indexable(ds) then Some(Lookup(ds)) else None
  {
    var names: set<string> := {};
    var lookup: map<string, Definition> := map[];
    for i := 0 to |ds|
      invariant Indexable(ds[..i]) && lookup == Lookup(ds[..i])
      invariant forall n :: n in names <==> n in QualityNames(ds[..i])
    {
      var d := ds[i];
      IndexableGrows(ds, i);
      NamesGrow(ds, i);
      if !SafeName(d.quality.name) || !SafeName(d.title) || d.quality.name in names {
        if Indexable(ds) { IndexablePrefix(ds, i + 1); }
        return None;
      }
      names := names + {d.quality.name};
      lookup := lookup[d.quality.name := d][d.title := d];
    }
    assert ds[..|ds|] == ds;
    r := Some(lookup);
  }

  function CanonicalOf(l: map<string, Definition>, names: seq<string>): set<string>
    requires Resolvable(l, names)
  {
    set n | n in names :: l[n].quality.name
  }

  method ResolveNames(l: map<string, Definition>, names: seq<string>, allowed: bool)
      returns (r: Option<(seq<Item>, set<string>)>)
    ensures r == if Resolvable(l, names) then Some((Leaves(l, names, allowed), CanonicalOf(l, names))) else None
  {
    var selected: set<string> := {};
    var leaves: seq<Item> := [];
    for j := 0 to |names|
      invariant Resolvable(l, names[..j])
      invariant leaves == Leaves(l, names[..j], allowed) && selected == CanonicalOf(l, names[..j])
    {
      assert names[..j + 1] == names[..j] + [names[j]];
      if names[j] !in l { return None; }
      selected := selected + {l[names[j]].quality.name};
      leaves := leaves + [Leaf(l[names[j]].quality, allowed, [])];
    }
    assert names[..|names|] == names;
    r := Some((leaves, selected));
  }

  method UndeclaredItems(ds: seq<Definition>, selected: set<string>) returns (missing: seq<Item>)
    ensures missing == Undeclared(ds, selected)
  {
    missing := [];
    for i := 0 to |ds|
      invariant missing + Undeclared(ds[i..], selected) == Undeclared(ds, selected)
    {
      assert ds[i..][0] == ds[i] && ds[i..][1..] == ds[i + 1..];
      ghost var rest := Undeclared(ds[i + 1..], selected);
      assert missing + ([Leaf(ds[i].quality, false, [])] + rest) == missing + [Leaf(ds[i].quality, false, [])] + rest;
      assert missing + ([] + rest) == missing + rest;
      if ds[i].quality.name !in selected {
        missing := missing + [Leaf(ds[i].quality, false, [])];
      }
    }
  }

  /** `_configarr_materialized_profile_items`, appending item by item; None when it raises. */
  method MaterializedItems(p: Policy, ds: seq<Definition>) returns (r: Option<seq<Item>>)
    ensures r == if Materializable(p, ds) then Some(Materialized(p, ds)) else None
  {
    var found := DefinitionLookup(ds);
    if found.None? { return None; }
    var l := found.value;
    var selected: set<string> := {};
    var allowed: seq<Item> := [];
    for i := 0 to |p.qualities|
      invariant AllResolvable(l, p.qualities[..i])
      invariant allowed == MaterializeAll(l, p.qualities[..i])
      invariant selected == Canonical(l, p.qualities[..i])
    {
      var d := p.qualities[i];
      if !SafeName(d.name) { return None; }
      var leaves := ResolveNames(l, LeafNames(d), d.enabled);
      if leaves.None? { return None; }
      CanonicalGrows(l, p.qualities[..i], d);
      assert p.qualities[..i + 1] == p.qualities[..i] + [d];
      selected := selected + leaves.value.1;
      allowed := allowed +
        [if d.Grouped? then Group(FIRST_GROUP_ID + i, d.name, d.enabled, Reverse(leaves.value.0))
        else leaves.value.0[0]];
    }
    assert p.qualities[..|p.qualities|] == p.qualities;
    var missing := UndeclaredItems(ds, selected);
    if p.sort == "bottom" { return Some(Reverse(allowed) + missing); }
    if p.sort != "top" { return None; }
    r := Some(missing + Reverse(allowed));
  }

  lemma CanonicalGrows(l: map<string, Definition>, ds: seq<Declared>, d: Declared)
    requires AllResolvable(l, ds) && SafeName(d.name) && Resolvable(l, LeafNames(d))
    ensures AllResolvable(l, ds + [d])
    ensures Canonical(l, ds + [d]) == Canonical(l, ds) + CanonicalOf(l, LeafNames(d))
    ensures MaterializeAll(l, ds + [d]) == MaterializeAll(l, ds) + [Materialize(l, |ds|, d)]
  {
    var next := ds + [d];
    forall x ensures x in Canonical(l, next) <==> x in Canonical(l, ds) + CanonicalOf(l, LeafNames(d)) {
      if x in Canonical(l, next) {
        var i, n :| 0 <= i < |next| && n in LeafNames(next[i]) && x == l[n].quality.name;
        if i < |ds| { assert next[i] == ds[i]; }
      }
      if x in Canonical(l, ds) {
        var i, n :| 0 <= i < |ds| && n in LeafNames(ds[i]) && x == l[n].quality.name;
        assert next[i] == ds[i];
      }
      if x in CanonicalOf(l, LeafNames(d)) {
        var n :| n in LeafNames(d) && x == l[n].quality.name;
        assert next[|ds|] == d;
      }
    }
  }
}
