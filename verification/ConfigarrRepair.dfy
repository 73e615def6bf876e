/** Projections of the live profile and of the declaration, and the repair that closes the gap. */
module ConfigarrRepair {
  import opened Orders
  import opened Options
  import opened ConfigarrTree
  import opened ConfigarrProfile

  /* ----- what is read back ----- */

  ghost predicate UniqueNames(names: seq<string>) { Distinct(names) && forall n :: n in names ==> SafeName(n) }

  function ProfileNames(ps: seq<Profile>): seq<string> { seq(|ps|, i requires 0 <= i < |ps| => ps[i].name) }
  function ProfileIds(ps: seq<Profile>): seq<int> { seq(|ps|, i requires 0 <= i < |ps| => ps[i].id) }
  function DefinitionIds(ds: seq<Definition>): seq<int> { seq(|ds|, i requires 0 <= i < |ds| => ds[i].id) }
  function QualityIds(ds: seq<Definition>): seq<int> { seq(|ds|, i requires 0 <= i < |ds| => ds[i].quality.id) }
  function FormatNames(fs: seq<Format>): seq<string> { seq(|fs|, i requires 0 <= i < |fs| => fs[i].name) }
  function FormatIds(fs: seq<Format>): seq<int> { seq(|fs|, i requires 0 <= i < |fs| => fs[i].id) }
  function ItemNames(fs: seq<FormatItem>): seq<string> { seq(|fs|, i requires 0 <= i < |fs| => fs[i].name) }
  function ItemFormats(fs: seq<FormatItem>): seq<int> { seq(|fs|, i requires 0 <= i < |fs| => fs[i].format) }

  ghost predicate ProfilesOk(ps: seq<Profile>) { ps != [] && UniqueNames(ProfileNames(ps)) && Distinct(ProfileIds(ps)) }

  ghost predicate DefinitionsOk(ds: seq<Definition>) {
    ds != [] && Indexable(ds) && Distinct(DefinitionIds(ds)) && Distinct(QualityIds(ds))
  }

  ghost predicate FormatsOk(fs: seq<Format>) { UniqueNames(FormatNames(fs)) && Distinct(FormatIds(fs)) }

  ghost predicate FormatItemsOk(fs: seq<FormatItem>) { UniqueNames(ItemNames(fs)) && Distinct(ItemFormats(fs)) }

  ghost predicate ProfileOk(p: Profile) {
    Accepted(p.items) && p.cutoff in TreeOf(p.items).namesById && FormatItemsOk(p.formatItems)
  }

  /** The at-most-one profile this platform owns. */
  function OwnedProfile(ps: seq<Profile>): (r: Option<Profile>)
    ensures r.Some? ==> r.value in ps && r.value.name == OWNED_PROFILE_NAME
    ensures r.None? ==> OWNED_PROFILE_NAME !in ProfileNames(ps)
  {
    if ps == [] then None
    else if ps[0].name == OWNED_PROFILE_NAME then Some(ps[0])
    else
      assert ProfileNames(ps) == [ps[0].name] + ProfileNames(ps[1..]);
      OwnedProfile(ps[1..])
  }

  function OwnedFormat(fs: seq<Format>): (r: Option<int>)
    ensures r.Some? <==> OWNED_FORMAT_NAME in FormatNames(fs)
    ensures r.Some? ==> exists f :: f in fs && f.name == OWNED_FORMAT_NAME && f.id == r.value
  {
    if fs == [] then None
    else
      assert FormatNames(fs) == [fs[0].name] + FormatNames(fs[1..]);
      if fs[0].name == OWNED_FORMAT_NAME then Some(fs[0].id) else OwnedFormat(fs[1..])
  }

  /** The strict readback: everything a projection refuses is refused here. */
  ghost predicate Readable(r: Resources) {
    && ProfilesOk(r.profiles) && DefinitionsOk(r.definitions) && FormatsOk(r.formats)
    && (OwnedProfile(r.profiles).Some? ==> ProfileOk(OwnedProfile(r.profiles).value))
  }

  /** Definitions as the projection keeps them: trimmed and in name order. */
  function Trimmed(d: Definition): Definition { d.(quality := d.quality.(extra := ""), rest := "") }

  function TrimmedAll(ds: seq<Definition>): seq<Definition> { seq(|ds|, i requires 0 <= i < |ds| => Trimmed(ds[i])) }

  predicate DefinitionLess(a: Definition, b: Definition) { StrLess(a.quality.name, b.quality.name) }

  function ProjectedDefinitions(ds: seq<Definition>): seq<Definition> { Sort(DefinitionLess, TrimmedAll(ds)) }

  /* ----- the comparable form ----- */

  datatype Assignment = Assignment(format: Option<int>, name: string, score: int)

  datatype Comparable = Comparable(
    name: string, upgradeAllowed: bool, cutoff: string, minFormatScore: int, cutoffFormatScore: int,
    minUpgradeFormatScore: int, reset: bool, sort: string, qualityNames: seq<string>, disabledNames: seq<string>,
    enabled: seq<Node>, identities: seq<Ident>, assignments: nat, assignment: Option<Assignment>)

  function NamesBelow(n: Node): seq<string>
    decreases n
  {
    if n.QualityNode? then [n.name] else AllNames(n.items)
  }

  function AllNames(ns: seq<Node>): seq<string>
    decreases ns
  {
    if ns == [] then [] else NamesBelow(ns[0]) + AllNames(ns[1..])
  }

  function WithAllowed(ns: seq<Node>, allowed: bool): seq<Node> {
    if ns == [] then []
    else
      var last := ns[|ns| - 1];
      WithAllowed(ns[..|ns| - 1], allowed) + (if last.allowed == allowed then [last] else [])
  }

  predicate AnyAllowed(ns: seq<Node>, allowed: bool) {
    ns != [] && (AnyAllowed(ns[..|ns| - 1], allowed) || ns[|ns| - 1].allowed == allowed)
  }

  /** No item of the other kind stands after one that is `first`. */
  predicate Blocks(ns: seq<Node>, first: bool) {
    ns == [] || (Blocks(ns[..|ns| - 1], first) && (ns[|ns| - 1].allowed == first || !AnyAllowed(ns[..|ns| - 1], first)))
  }

  function SortName(ns: seq<Node>): string {
    if Blocks(ns, true) then "top" else if Blocks(ns, false) then "bottom" else "nonconforming"
  }

  lemma {:induction false} AnyAllowedMeans(ns: seq<Node>, allowed: bool)
    ensures AnyAllowed(ns, allowed) <==> exists k :: 0 <= k < |ns| && ns[k].allowed == allowed
  {
    if ns != [] {
      var front := ns[..|ns| - 1];
      AnyAllowedMeans(front, allowed);
      assert forall k :: 0 <= k < |front| ==> front[k] == ns[k];
      if k :| 0 <= k < |ns| && ns[k].allowed == allowed { assert k < |front| ==> front[k].allowed == allowed; }
    }
  }

  /** Sorted to the top: every allowed item is followed by allowed items only; to the bottom, conversely. */
  lemma {:induction false} BlocksMeans(ns: seq<Node>, first: bool)
    ensures Blocks(ns, first) <==> forall i, j :: 0 <= i < j < |ns| && ns[i].allowed == first ==> ns[j].allowed == first
  {
    if ns != [] {
      var front, last := ns[..|ns| - 1], ns[|ns| - 1];
      BlocksMeans(front, first);
      AnyAllowedMeans(front, first);
      assert forall k :: 0 <= k < |front| ==> front[k] == ns[k];
      if k :| 0 <= k < |front| && front[k].allowed == first {
        assert ns[k].allowed == first;
      }
    }
  }

  lemma OrderGrows(ns: seq<Node>, i: nat, kind: bool)
    requires i < |ns|
    ensures WithAllowed(ns[..i + 1], kind) == WithAllowed(ns[..i], kind) +
            (if ns[i].allowed == kind then [ns[i]] else [])
    ensures AnyAllowed(ns[..i + 1], kind) == (AnyAllowed(ns[..i], kind) || ns[i].allowed == kind)
    ensures Blocks(ns[..i + 1], kind) ==
              (Blocks(ns[..i], kind) && (ns[i].allowed == kind || !AnyAllowed(ns[..i], kind)))
  {
    assert ns[..i + 1][..i] == ns[..i] && ns[..i + 1][i] == ns[i];
  }

  /** `_configarr_projected_item_order`: the two blocks, and the order they stand in. */
  method ProjectedItemOrder(ns: seq<Node>) returns (enabled: seq<Node>, disabled: seq<Node>, sort: string)
    ensures enabled == WithAllowed(ns, true) && disabled == WithAllowed(ns, false) && sort == SortName(ns)
  {
    enabled, disabled := [], [];
    var enabledStarted, disabledStarted, top, bottom := false, false, true, true;
    for i := 0 to |ns|
      invariant enabled == WithAllowed(ns[..i], true) && disabled == WithAllowed(ns[..i], false)
      invariant enabledStarted == AnyAllowed(ns[..i], true) && disabledStarted == AnyAllowed(ns[..i], false)
      invariant top == Blocks(ns[..i], true) && bottom == Blocks(ns[..i], false)
    {
      OrderGrows(ns, i, true);
      OrderGrows(ns, i, false);
      if ns[i].allowed {
        if disabledStarted { bottom := false; }
        enabledStarted := true;
        enabled := enabled + [ns[i]];
      } else {
        if enabledStarted { top := false; }
        disabledStarted := true;
        disabled := disabled + [ns[i]];
      }
    }
    assert ns[..|ns|] == ns;
    sort := if top then "top" else if bottom then "bottom" else "nonconforming";
  }

  predicate FormatLess(a: FormatItem, b: FormatItem) { StrLess(a.name, b.name) }

  function OwnedItems(fs: seq<FormatItem>): seq<FormatItem> {
    if fs == [] then [] else (if fs[0].name == OWNED_FORMAT_NAME then [fs[0]] else []) + OwnedItems(fs[1..])
  }

  /** The owned projection and then the declared projection of one live profile. */
  ghost function DeclaredOf(p: Profile): Comparable
    requires ProfileOk(p)
  {
    var t := TreeOf(p.items);
    var fs := Sort(FormatLess, p.formatItems);
    var owned := OwnedItems(fs);
    Comparable(
      p.name, p.upgradeAllowed, t.namesById[p.cutoff], p.minFormatScore, p.cutoffFormatScore, p.minUpgradeFormatScore,
      forall f :: f in fs ==> f.name == OWNED_FORMAT_NAME || f.score == 0,
      SortName(t.items),
      Sort(StrLess, AllNames(t.items)), Sort(StrLess, AllNames(WithAllowed(t.items, false))),
      WithAllowed(t.items, true),
      t.identities, |owned|,
      if |owned| == 1 then Some(Assignment(Some(owned[0].format), owned[0].name, owned[0].score)) else None)
  }

  /* ----- the desired form ----- */

  function DeclaredNode(d: Declared): Node {
    if d.Single? then QualityNode(d.name, true)
    else GroupNode(d.name, true,
                   Reverse(seq(|d.children|, i requires 0 <= i < |d.children| => QualityNode(d.children[i], true))))
  }

  function DeclaredNodes(ds: seq<Declared>): seq<Node> { seq(|ds|, i requires 0 <= i < |ds| => DeclaredNode(ds[i])) }

  /** What the desired projection asks of the declaration against the projected definitions. */
  ghost predicate Desirable(p: Policy, ds: seq<Definition>) {
    && Materializable(p, ds) && Accepted(Materialized(p, ds))
    && (forall d :: d in p.qualities ==> d.enabled)
    && Distinct(AllLeafNames(p.qualities)) && p.qualities != []
  }

  ghost function DesiredOf(p: Policy, ds: seq<Definition>, formatId: Option<int>): Comparable
    requires Desirable(p, ds)
  {
    Comparable(OWNED_PROFILE_NAME, p.upgradeAllowed, p.qualities[0].name, p.minFormatScore, 1, 1, p.reset, p.sort,
      Sort(StrLess, QualityNames(ds)),
      Ascending((set n | n in QualityNames(ds)) - (set n | n in AllLeafNames(p.qualities))),
      Reverse(DeclaredNodes(p.qualities)),
      TreeOf(Materialized(p, ds)).identities,
      1, Some(Assignment(formatId, OWNED_FORMAT_NAME, p.formatScore)))
  }

  /* ----- the repair ----- */

  datatype Remedy = Raises | NoRepair | Put(body: Profile)

  function RepairFormats(fs: seq<Format>, score: int): seq<FormatItem> {
    seq(|fs|, i requires 0 <= i < |fs| =>
      FormatItem(fs[i].id, fs[i].name, if fs[i].name == OWNED_FORMAT_NAME then score else 0))
  }

  /** The full body of the PUT: the profile as read with seven fields replaced. */
  ghost function RepairBody(p: Policy, r: Resources, live: Profile): Profile
    requires Buildable(p, r)
  {
    var items := Materialized(p, r.definitions);
    live.(upgradeAllowed := p.upgradeAllowed, cutoff := TreeOf(items).idsByName[p.qualities[0].name],
          minFormatScore := p.minFormatScore, cutoffFormatScore := 1, minUpgradeFormatScore := 1,
          items := items, formatItems := RepairFormats(r.formats, p.formatScore))
  }

  /** `_configarr_repair_format_items`; None when the owned format is missing. */
  method RepairFormatItems(fs: seq<Format>, score: int) returns (r: Option<seq<FormatItem>>)
    ensures r == if OwnedFormat(fs).Some? then Some(RepairFormats(fs, score)) else None
  {
    var items: seq<FormatItem> := [];
    var owned := false;
    for i := 0 to |fs|
      invariant items == RepairFormats(fs[..i], score)
      invariant owned <==> exists k :: 0 <= k < i && fs[k].name == OWNED_FORMAT_NAME
    {
      items := items + [FormatItem(fs[i].id, fs[i].name, if fs[i].name == OWNED_FORMAT_NAME then score else 0)];
      owned := owned || fs[i].name == OWNED_FORMAT_NAME;
    }
    assert fs[..|fs|] == fs;
    assert owned <==> OwnedFormat(fs).Some? by {
      forall k | 0 <= k < |fs| ensures FormatNames(fs)[k] == fs[k].name {}
    }
    r := if owned then Some(items) else None;
  }

  /** `_configarr_repair_items`: the materialised items and the id the cutoff has among them. */
  method RepairItems(p: Policy, ds: seq<Definition>, cutoff: string) returns (r: Option<(seq<Item>, int)>)
    ensures r.Some? <==>
              Materializable(p, ds) && Accepted(Materialized(p, ds)) && cutoff in TreeOf(Materialized(p, ds)).idsByName
    ensures r.Some? ==> r.value == (Materialized(p, ds), TreeOf(Materialized(p, ds)).idsByName[cutoff])
  {
    var items := MaterializedItems(p, ds);
    if items.None? { return None; }
    var tree := ProfileTree(items.value);
    if tree.None? || cutoff !in tree.value.idsByName { return None; }
    r := Some((items.value, tree.value.idsByName[cutoff]));
  }

  /** The live profile projects to what the declaration asks for. */
  ghost predicate Matches(p: Policy, r: Resources, live: Profile)
    requires ProfileOk(live) && Desirable(p, ProjectedDefinitions(r.definitions))
  {
    DeclaredOf(live) == DesiredOf(p, ProjectedDefinitions(r.definitions), OwnedFormat(r.formats))
  }

  /** A body can be built: the raw definitions make an acceptable tree, the cutoff is one of its
      nodes, and the owned format exists. */
  ghost predicate Buildable(p: Policy, r: Resources) {
    && Materializable(p, r.definitions) && Accepted(Materialized(p, r.definitions)) && p.qualities != []
    && p.qualities[0].name in TreeOf(Materialized(p, r.definitions)).idsByName
    && OwnedFormat(r.formats).Some?
  }

  /** `acquisition_configarr_profile_repair_bodies` for one service. */
  ghost function Repair(p: Policy, r: Resources): Remedy {
    if !Readable(r) || !Desirable(p, ProjectedDefinitions(r.definitions)) then Raises
    else if OwnedProfile(r.profiles).None? then NoRepair
    else
      var live := OwnedProfile(r.profiles).value;
      if Matches(p, r, live) then NoRepair
      else if !Buildable(p, r) then Raises
      else Put(RepairBody(p, r, live))
  }

  /** The service after it stored `body` over the profile of that id. */
  function Stored(r: Resources, body: Profile): Resources {
    r.(profiles := seq(|r.profiles|, i requires 0 <= i < |r.profiles| =>
         if r.profiles[i].id == body.id then body else r.profiles[i]))
  }

  /** Declared leaf names that mean the quality of that very name, in a given order of definitions. */
  ghost predicate MeansItself(ds: seq<Definition>, n: string) { n in Lookup(ds) && Lookup(ds)[n].quality.name == n }

  /** When one repair is enough. */
  ghost predicate Settles(p: Policy, defs: seq<Definition>) {
    && p.reset
    && (p.sort == "top" || exists d :: d in defs && d.quality.name !in AllLeafNames(p.qualities))
    && (forall n :: n in AllLeafNames(p.qualities) ==> MeansItself(defs, n))
    && (forall d, n :: d in p.qualities && d.Grouped? && n in d.children ==> MeansItself(ProjectedDefinitions(defs), n))
  }
}
