/** Which live profiles are left alone, field by field. */
module ConfigarrQuiet {
  import opened Orders
  import opened Options
  import opened ConfigarrTree
  import opened ConfigarrProfile
  import opened ConfigarrRepair
  import opened ConfigarrIdentities
  import opened ConfigarrConvergence

  /** The names of the qualities below items of one kind. */
  function NamesOf(items: seq<Item>, allowed: bool): seq<string> { AllNames(WithAllowed(ProjectAll(items), allowed)) }

  /** Every name once, and no other. */
  ghost predicate Holds(names: seq<string>, wanted: seq<string>) {
    Distinct(names) && forall n :: n in names <==> n in wanted
  }

  /** After the first item of one kind only items of that kind follow. */
  ghost predicate Follow(items: seq<Item>, allowed: bool) {
    forall i, j :: 0 <= i < j < |items| && Allows(items[i]) == allowed ==> Allows(items[j]) == allowed
  }

  function Allows(x: Item): bool { x.allowed }

  /** The scores and the upgrade setting are the declared ones. */
  predicate ScoresAsDeclared(p: Policy, live: Profile) {
    live.upgradeAllowed == p.upgradeAllowed && live.minFormatScore == p.minFormatScore &&
    live.cutoffFormatScore == 1 && live.minUpgradeFormatScore == 1
  }

  /** The cutoff is the id of the node named like the first declared entry. */
  ghost predicate CutoffAsDeclared(p: Policy, live: Profile)
    requires p.qualities != []
  {
    exists x :: x in Nodes(live.items, []) && x.id == live.cutoff && x.name == p.qualities[0].name
  }

  ghost predicate OwnsFormat(p: Policy, r: Resources, live: Profile) {
    exists f :: f in r.formats && f.name == OWNED_FORMAT_NAME &&
                FormatItem(f.id, OWNED_FORMAT_NAME, p.formatScore) in live.formatItems
  }

  /** The owned format carries its id and the declared score, and the others are zero exactly when the
      declaration resets them. */
  ghost predicate FormatsAsDeclared(p: Policy, r: Resources, live: Profile) {
    OwnsFormat(p, r, live) && (p.reset <==> AllReset(live.formatItems))
  }

  /** Allowed items last for `top`, first for `bottom`; all of one kind counts as `top`. */
  ghost predicate OrderAsDeclared(p: Policy, live: Profile) {
    if p.sort == "top" then Follow(live.items, true)
    else (Follow(live.items, false) && !Follow(live.items, true))
  }

  /** Nothing else is refused than what nothing declares. */
  ghost predicate RefusedAsDeclared(p: Policy, ds: seq<Definition>, live: Profile) {
    Distinct(NamesOf(live.items, false)) && forall n :: n in NamesOf(live.items, false) <==> n in Undeclared(p, ds)
  }

  /** The items are the declared block, the others refused, in the declared order; the nodes are those of
      the tree the declaration builds. */
  ghost predicate ItemsAsDeclared(p: Policy, r: Resources, live: Profile)
    requires Desirable(p, ProjectedDefinitions(r.definitions))
  {
    && WithAllowed(ProjectAll(live.items), true) == Reverse(DeclaredNodes(p.qualities))
    && Holds(AllNames(ProjectAll(live.items)), QualityNames(r.definitions))
    && RefusedAsDeclared(p, r.definitions, live)
    && OrderAsDeclared(p, live)
    && SameNodes(live.items, Materialized(p, ProjectedDefinitions(r.definitions)))
  }

  /* ----- the fields that are compared ----- */

  lemma ListsSame(a: seq<string>, b: seq<string>)
    requires Distinct(b)
    ensures Sort(StrLess, a) == Sort(StrLess, b) <==> Holds(a, b)
  {
    if Sort(StrLess, a) == Sort(StrLess, b) {
      assert multiset(a) == multiset(b);
      forall x ensures multiset(a)[x] <= 1 { DistinctCounts(b, x); }
      CountsDistinct(a);
      forall n ensures n in a <==> n in b { SameElements(a, b, n); }
    }
    if Holds(a, b) {
      var s := set n | n in b;
      SortIsAscending(a, s);
      SortIsAscending(b, s);
    }
  }

  lemma AscendingSorted(s: set<string>)
    ensures Distinct(Ascending(s)) && Sort(StrLess, Ascending(s)) == Ascending(s)
  {
    IncreasingDistinct(Ascending(s));
    SortIsAscending(Ascending(s), s);
  }

  lemma QualityNamesSame(live: Profile, ds: seq<Definition>)
    requires Indexable(ds)
    ensures Sort(StrLess, AllNames(ProjectAll(live.items))) ==
              Sort(StrLess, QualityNames(ProjectedDefinitions(ds))) <==>
              Holds(AllNames(ProjectAll(live.items)), QualityNames(ds))
  {
    ProjectedNames(ds);
    ListsSame(AllNames(ProjectAll(live.items)), QualityNames(ProjectedDefinitions(ds)));
  }

  /** The qualities nothing declares. */
  function Undeclared(p: Policy, ds: seq<Definition>): set<string> {
    (set n | n in QualityNames(ds)) - (set n | n in AllLeafNames(p.qualities))
  }

  lemma DisabledSame(p: Policy, ds: seq<Definition>, live: Profile)
    requires Indexable(ds)
    ensures Sort(StrLess, NamesOf(live.items, false)) == Ascending(Undeclared(p, ProjectedDefinitions(ds))) <==>
              RefusedAsDeclared(p, ds, live)
  {
    UndeclaredSame(p, ds);
    AscendingSorted(Undeclared(p, ds));
    ListsSame(NamesOf(live.items, false), Ascending(Undeclared(p, ds)));
  }

  lemma UndeclaredSame(p: Policy, ds: seq<Definition>)
    requires Indexable(ds)
    ensures Undeclared(p, ProjectedDefinitions(ds)) == Undeclared(p, ds)
  {
    ProjectedNames(ds);
  }

  lemma FollowsMeans(items: seq<Item>, allowed: bool)
    ensures Blocks(ProjectAll(items), allowed) <==> Follow(items, allowed)
  {
    var ns := ProjectAll(items);
    BlocksMeans(ns, allowed);
    forall i | 0 <= i < |items| ensures ns[i].allowed == Allows(items[i]) { ProjectAllAt(items, i); }
  }

  lemma SortSame(p: Policy, live: Profile)
    requires p.sort == "top" || p.sort == "bottom"
    ensures SortName(ProjectAll(live.items)) == p.sort <==> OrderAsDeclared(p, live)
  {
    FollowsMeans(live.items, true);
    FollowsMeans(live.items, false);
  }

  lemma CutoffSame(p: Policy, live: Profile)
    requires ProfileOk(live) && p.qualities != []
    ensures TreeOf(live.items).namesById[live.cutoff] == p.qualities[0].name <==> CutoffAsDeclared(p, live)
  {
    var t, ns := TreeOf(live.items), Nodes(live.items, []);
    AcceptedMaps(live.items);
    forall x ensures x in ns <==> x in t.identities { SameElements(t.identities, ns, x); }
    if t.namesById[live.cutoff] == p.qualities[0].name {
      var x :| x in t.identities && x.id == live.cutoff;
      assert x in ns;
    }
  }

  /** Every format but the owned one scores zero. */
  ghost predicate AllReset(fs: seq<FormatItem>) { forall f :: f in fs ==> f.name == OWNED_FORMAT_NAME || f.score == 0 }

  lemma ResetSame(live: Profile)
    ensures AllReset(Sort(FormatLess, live.formatItems)) <==> AllReset(live.formatItems)
  {
    forall f ensures f in Sort(FormatLess, live.formatItems) <==> f in live.formatItems {
      SameElements(Sort(FormatLess, live.formatItems), live.formatItems, f);
    }
  }

  lemma FormatNamed(fs: seq<Format>, f: Format)
    requires FormatsOk(fs) && f in fs && f.name == OWNED_FORMAT_NAME
    ensures OwnedFormat(fs) == Some(f.id)
  {
    var i :| 0 <= i < |fs| && fs[i] == f;
    assert FormatNames(fs)[i] == OWNED_FORMAT_NAME;
    var g :| g in fs && g.name == OWNED_FORMAT_NAME && g.id == OwnedFormat(fs).value;
    var j :| 0 <= j < |fs| && fs[j] == g;
    assert FormatNames(fs)[j] == OWNED_FORMAT_NAME;
  }

  /** The compared assignment is the one owned item, or none. */
  lemma OwnedIs(items: seq<FormatItem>, x: FormatItem)
    requires Distinct(ItemNames(items)) && x in items && x.name == OWNED_FORMAT_NAME
    ensures OwnedItems(Sort(FormatLess, items)) == [x]
  {
    var k :| 0 <= k < |items| && items[k] == x;
    OwnedSorted(items, k);
  }

  lemma NoneOwnedIs(items: seq<FormatItem>)
    requires forall x :: x in items ==> x.name != OWNED_FORMAT_NAME
    ensures OwnedItems(Sort(FormatLess, items)) == []
  {
    var sorted := Sort(FormatLess, items);
    forall i | 0 <= i < |sorted| ensures sorted[i].name != OWNED_FORMAT_NAME { SameElements(sorted, items, sorted[i]); }
    NoneOwned(Sort(FormatLess, items));
  }

  /** The assignment part of the two comparable forms. */
  ghost predicate AssignmentSame(p: Policy, r: Resources, live: Profile) {
    var owned := OwnedItems(Sort(FormatLess, live.formatItems));
    |owned| == 1 &&
    Assignment(Some(owned[0].format), owned[0].name, owned[0].score) ==
      Assignment(OwnedFormat(r.formats), OWNED_FORMAT_NAME, p.formatScore)
  }

  lemma AssignmentIs(p: Policy, r: Resources, live: Profile)
    requires FormatsOk(r.formats) && FormatItemsOk(live.formatItems)
    ensures AssignmentSame(p, r, live) <==> OwnsFormat(p, r, live)
  {
    if f :| f in r.formats && f.name == OWNED_FORMAT_NAME &&
            FormatItem(f.id, OWNED_FORMAT_NAME, p.formatScore) in live.formatItems {
      FormatNamed(r.formats, f);
      OwnedIs(live.formatItems, FormatItem(f.id, OWNED_FORMAT_NAME, p.formatScore));
    }
    if AssignmentSame(p, r, live) { AssignmentFrom(p, r, live); }
  }

  lemma AssignmentFrom(p: Policy, r: Resources, live: Profile)
    requires FormatsOk(r.formats) && FormatItemsOk(live.formatItems) && AssignmentSame(p, r, live)
    ensures OwnsFormat(p, r, live)
  {
    if forall x :: x in live.formatItems ==> x.name != OWNED_FORMAT_NAME { NoneOwnedIs(live.formatItems); }
    var x :| x in live.formatItems && x.name == OWNED_FORMAT_NAME;
    OwnedIs(live.formatItems, x);
    var f :| f in r.formats && f.name == OWNED_FORMAT_NAME && f.id == OwnedFormat(r.formats).value;
  }

  /* ----- the comparison ----- */

  /** The live profile is the declared one. */
  ghost predicate AsDeclared(p: Policy, r: Resources, live: Profile)
    requires Desirable(p, ProjectedDefinitions(r.definitions))
  {
    && ScoresAsDeclared(p, live) && CutoffAsDeclared(p, live)
    && FormatsAsDeclared(p, r, live) && ItemsAsDeclared(p, r, live)
  }

  /** The item fields of the two comparable forms. */
  ghost predicate ItemFields(p: Policy, r: Resources, live: Profile, a: Comparable, b: Comparable)
    requires Desirable(p, ProjectedDefinitions(r.definitions))
  {
    && a.sort == SortName(ProjectAll(live.items)) && b.sort == p.sort
    && a.qualityNames == Sort(StrLess, AllNames(ProjectAll(live.items)))
    && b.qualityNames == Sort(StrLess, QualityNames(ProjectedDefinitions(r.definitions)))
    && a.disabledNames == Sort(StrLess, NamesOf(live.items, false))
    && b.disabledNames == Ascending(Undeclared(p, ProjectedDefinitions(r.definitions)))
    && a.enabled == WithAllowed(ProjectAll(live.items), true) && b.enabled == Reverse(DeclaredNodes(p.qualities))
    && a.identities == TreeOf(live.items).identities
    && b.identities == TreeOf(Materialized(p, ProjectedDefinitions(r.definitions))).identities
  }

  lemma FieldsAre(p: Policy, r: Resources, live: Profile)
    requires Readable(r) && ProfileOk(live) && Desirable(p, ProjectedDefinitions(r.definitions))
    ensures ItemFields(p, r, live, DeclaredOf(live),
                       DesiredOf(p, ProjectedDefinitions(r.definitions), OwnedFormat(r.formats)))
  {
  }

  ghost predicate SameItems(a: Comparable, b: Comparable) {
    && a.sort == b.sort && a.qualityNames == b.qualityNames && a.disabledNames == b.disabledNames
    && a.enabled == b.enabled && a.identities == b.identities
  }

  lemma ItemsSame(p: Policy, r: Resources, live: Profile, a: Comparable, b: Comparable)
    requires Indexable(r.definitions) && Accepted(live.items) && Desirable(p, ProjectedDefinitions(r.definitions))
    requires ItemFields(p, r, live, a, b)
    ensures SameItems(a, b) <==> ItemsAsDeclared(p, r, live)
  {
    var ds := r.definitions;
    SortSame(p, live);
    QualityNamesSame(live, ds);
    DisabledSame(p, ds, live);
    IdentitiesEqual(live.items, Materialized(p, ProjectedDefinitions(ds)));
  }

  ghost predicate SameRest(a: Comparable, b: Comparable) {
    && a.name == b.name && a.upgradeAllowed == b.upgradeAllowed && a.cutoff == b.cutoff
    && a.minFormatScore == b.minFormatScore && a.cutoffFormatScore == b.cutoffFormatScore
    && a.minUpgradeFormatScore == b.minUpgradeFormatScore && a.reset == b.reset
    && a.assignments == b.assignments && a.assignment == b.assignment
  }

  /** The other fields of the two comparable forms. */
  ghost predicate RestFields(p: Policy, r: Resources, live: Profile, a: Comparable, b: Comparable)
    requires ProfileOk(live) && p.qualities != []
  {
    && a.name == live.name && b.name == OWNED_PROFILE_NAME
    && a.upgradeAllowed == live.upgradeAllowed && b.upgradeAllowed == p.upgradeAllowed
    && a.cutoff == TreeOf(live.items).namesById[live.cutoff] && b.cutoff == p.qualities[0].name
    && a.minFormatScore == live.minFormatScore && b.minFormatScore == p.minFormatScore
    && a.cutoffFormatScore == live.cutoffFormatScore && b.cutoffFormatScore == 1
    && a.minUpgradeFormatScore == live.minUpgradeFormatScore && b.minUpgradeFormatScore == 1
    && a.reset == AllReset(Sort(FormatLess, live.formatItems)) && b.reset == p.reset
    && (a.assignments == b.assignments && a.assignment == b.assignment <==> AssignmentSame(p, r, live))
  }

  lemma RestFieldsAre(p: Policy, r: Resources, live: Profile)
    requires Readable(r) && ProfileOk(live) && Desirable(p, ProjectedDefinitions(r.definitions))
    ensures RestFields(p, r, live, DeclaredOf(live),
                       DesiredOf(p, ProjectedDefinitions(r.definitions), OwnedFormat(r.formats)))
  {
  }

  lemma RestSame(p: Policy, r: Resources, live: Profile, a: Comparable, b: Comparable)
    requires FormatsOk(r.formats) && ProfileOk(live) && p.qualities != [] && RestFields(p, r, live, a, b)
    requires live.name == OWNED_PROFILE_NAME
    ensures SameRest(a, b) <==>
              ScoresAsDeclared(p, live) && CutoffAsDeclared(p, live) && FormatsAsDeclared(p, r, live)
  {
    CutoffSame(p, live);
    ResetSame(live);
    AssignmentIs(p, r, live);
  }

  /** The comparison of the two whole projections, as the profile's own fields. */
  lemma MatchesExactly(p: Policy, r: Resources, live: Profile)
    requires Readable(r) && ProfileOk(live) && Desirable(p, ProjectedDefinitions(r.definitions))
    requires live.name == OWNED_PROFILE_NAME
    ensures Matches(p, r, live) <==> AsDeclared(p, r, live)
  {
    var a, b := DeclaredOf(live), DesiredOf(p, ProjectedDefinitions(r.definitions), OwnedFormat(r.formats));
    FieldsAre(p, r, live);
    ItemsSame(p, r, live, a, b);
    RestFieldsAre(p, r, live);
    RestSame(p, r, live, a, b);
    SameFields(a, b);
  }

  /** A run leaves a readable service alone exactly when it has no owned profile or the owned one is the
      declared one in every field; otherwise it sends a PUT exactly when a body can be built. */
  lemma QuietExactly(p: Policy, r: Resources)
    requires Readable(r) && Desirable(p, ProjectedDefinitions(r.definitions))
    ensures Repair(p, r) == NoRepair <==>
              OwnedProfile(r.profiles).None? || AsDeclared(p, r, OwnedProfile(r.profiles).value)
    ensures Repair(p, r).Put? <==>
              && OwnedProfile(r.profiles).Some? && !AsDeclared(p, r, OwnedProfile(r.profiles).value)
              && Buildable(p, r)
  {
    if OwnedProfile(r.profiles).Some? { MatchesExactly(p, r, OwnedProfile(r.profiles).value); }
  }

  lemma SameFields(a: Comparable, b: Comparable)
    ensures a == b <==> SameItems(a, b) && SameRest(a, b)
  {
  }
}
