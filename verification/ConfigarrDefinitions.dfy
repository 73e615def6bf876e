/** Quality-definition sizes: the predicate the role waits on, and the report it ends with. */
module ConfigarrDefinitions {
  import opened Orders
  import opened Options

  /** Sizes as the API gives them: any may be null. */
  datatype Sizes = Sizes(minSize: Option<real>, preferredSize: Option<real>, maxSize: Option<real>)

  datatype Definition = Definition(id: int, name: string, details: string, title: string, weight: int, sizes: Sizes)

  /** One entry of a pinned source document; a title only when the document states one. */
  datatype Entry = Entry(minSize: real, preferredSize: real, maxSize: real, title: Option<string>)

  type Source = map<string, Entry>

  function Wanted(e: Entry): Sizes { Sizes(Some(e.minSize), Some(e.preferredSize), Some(e.maxSize)) }

  /** One side of a comparable pair. */
  datatype Pair = Pair(quality: string, sizes: Sizes, title: Option<string>)

  /** What no source owns; sizes and title only where nothing declares them. */
  datatype Opaque = Opaque(id: int, name: string, details: string, title: Option<string>, weight: int,
                           sizes: Option<Sizes>)

  function DefinitionNames(ds: seq<Definition>): seq<string> { seq(|ds|, i requires 0 <= i < |ds| => ds[i].name) }

  /** The sizes of every declared definition are the declared ones. */
  predicate AllSettled(ds: seq<Definition>, source: Source) {
    forall d :: d in ds && d.name in source ==> d.sizes == Wanted(source[d.name])
  }

  predicate TitlesAgree(ds: seq<Definition>, source: Source) {
    forall d :: d in ds && d.name in source && source[d.name].title.Some? ==> source[d.name].title.value == d.title
  }

  /** `acquisition_configarr_quality_definitions_settled`, size by size. */
  method Settled(ds: seq<Definition>, source: Source) returns (ok: bool)
    ensures ok <==> AllSettled(ds, source)
  {
    for i := 0 to |ds|
      invariant AllSettled(ds[..i], source)
    {
      var d := ds[i];
      assert ds[..i + 1] == ds[..i] + [d] && d in ds;
      if d.name in source {
        var e := source[d.name];
        if d.sizes.minSize != Some(e.minSize) { return false; }
        if d.sizes.preferredSize != Some(e.preferredSize) { return false; }
        if d.sizes.maxSize != Some(e.maxSize) { return false; }
      }
    }
    assert ds[..|ds|] == ds;
    ok := true;
  }

  /** One definition's side of the comparison: what is live, or what its entry declares. */
  function PairOf(live: bool, d: Definition, e: Entry): Pair {
    if live then Pair(d.name, d.sizes, if e.title.Some? then Some(d.title) else None)
    else Pair(d.name, Wanted(e), e.title)
  }

  function OpaqueOf(d: Definition, source: Source): Opaque {
    Opaque(d.id, d.name, d.details,
           if d.name in source && source[d.name].title.Some? then None else Some(d.title), d.weight,
           if d.name in source then None else Some(d.sizes))
  }

  function Pairs(live: bool, ds: seq<Definition>, source: Source): seq<Pair> {
    if ds == [] then []
    else
      var d := ds[|ds| - 1];
      Pairs(live, ds[..|ds| - 1], source) + if d.name in source then [PairOf(live, d, source[d.name])] else []
  }

  function OpaqueItems(ds: seq<Definition>, source: Source): seq<Opaque> {
    seq(|ds|, i requires 0 <= i < |ds| => OpaqueOf(ds[i], source))
  }

  predicate PairLess(a: Pair, b: Pair) { StrLess(a.quality, b.quality) }
  predicate OpaqueLess(a: Opaque, b: Opaque) { StrLess(a.name, b.name) || (a.name == b.name && a.id < b.id) }

  /** `_configarr_service_invariants`: three lists filled in one pass, then sorted. */
  method ServiceInvariants(ds: seq<Definition>, source: Source)
      returns (current: seq<Pair>, desired: seq<Pair>, context: seq<Opaque>)
    ensures current == Sort(PairLess, Pairs(true, ds, source))
    ensures desired == Sort(PairLess, Pairs(false, ds, source))
    ensures context == Sort(OpaqueLess, OpaqueItems(ds, source))
  {
    current, desired, context := [], [], [];
    for i := 0 to |ds|
      invariant current == Pairs(true, ds[..i], source)
      invariant desired == Pairs(false, ds[..i], source)
      invariant context == OpaqueItems(ds[..i], source)
    {
      var d := ds[i];
      assert ds[..i + 1][..i] == ds[..i];
      var opaqueItem := Opaque(d.id, d.name, d.details, Some(d.title), d.weight, None);
      if d.name !in source {
        opaqueItem := opaqueItem.(sizes := Some(d.sizes));
      } else {
        var e := source[d.name];
        var mine, theirs := Pair(d.name, d.sizes, None), Pair(d.name, Wanted(e), None);
        if e.title.Some? {
          mine, theirs := mine.(title := Some(d.title)), theirs.(title := e.title);
          opaqueItem := opaqueItem.(title := None);
        }
        current, desired := current + [mine], desired + [theirs];
      }
      context := context + [opaqueItem];
    }
    assert ds[..|ds|] == ds;
    current, desired, context := Sort(PairLess, current), Sort(PairLess, desired), Sort(OpaqueLess, context);
  }

  /* ----- the report ----- */

  datatype Difference = Difference(quality: string, current: Option<Pair>, desired: Option<Pair>)

  /** A dictionary keyed by quality name, the last writer winning. */
  function ByName(ps: seq<Pair>): map<string, Pair> {
    if ps == [] then map[] else ByName(ps[..|ps| - 1])[ps[|ps| - 1].quality := ps[|ps| - 1]]
  }

  function Differing(names: seq<string>, a: map<string, Pair>, b: map<string, Pair>): seq<Difference> {
    if names == [] then []
    else
      (if Get(a, names[0]) != Get(b, names[0]) then [Difference(names[0], Get(a, names[0]), Get(b, names[0]))]
       else []) +
      Differing(names[1..], a, b)
  }

  /** One service's entry of `acquisition_configarr_quality_definition_difference`. */
  ghost function ServiceDifference(current: seq<Pair>, desired: seq<Pair>): seq<Difference> {
    var a, b := ByName(current), ByName(desired);
    Differing(Ascending(a.Keys + b.Keys), a, b)
  }

  /* ----- what the lists hold ----- */

  ghost predicate Listed(live: bool, ds: seq<Definition>, source: Source, p: Pair) {
    exists d :: d in ds && d.name in source && p == PairOf(live, d, source[d.name])
  }

  lemma {:induction false} PairsMember(live: bool, ds: seq<Definition>, source: Source, p: Pair)
    ensures p in Pairs(live, ds, source) <==> Listed(live, ds, source, p)
  {
    if ds != [] {
      var front, last := ds[..|ds| - 1], ds[|ds| - 1];
      assert ds == front + [last];
      PairsMember(live, front, source, p);
    }
  }

  lemma {:induction false} ByNameIs(ps: seq<Pair>, n: string)
    ensures n in ByName(ps) <==> exists p :: p in ps && p.quality == n
    ensures n in ByName(ps) ==> ByName(ps)[n] in ps && ByName(ps)[n].quality == n
  {
    if ps != [] {
      var front, last := ps[..|ps| - 1], ps[|ps| - 1];
      assert ps == front + [last];
      ByNameIs(front, n);
    }
  }

  lemma SameDefinition(ds: seq<Definition>, d: Definition, e: Definition)
    requires Distinct(DefinitionNames(ds)) && d in ds && e in ds && d.name == e.name
    ensures d == e
  {
    var i :| 0 <= i < |ds| && ds[i] == d;
    var j :| 0 <= j < |ds| && ds[j] == e;
    assert DefinitionNames(ds)[i] == DefinitionNames(ds)[j];
  }

  lemma RisingApart(names: seq<string>, i: int, j: int)
    requires Distinct(names) && 0 <= i < j < |names|
    ensures StrLess(names[i], names[j]) || StrLess(names[j], names[i])
  {
    StrOrder();
  }

  lemma NamesApart(ds: seq<Definition>, source: Source, a: Opaque, b: Opaque)
    requires Distinct(DefinitionNames(ds)) && a in OpaqueItems(ds, source) && b in OpaqueItems(ds, source)
    requires a.name == b.name
    ensures a == b
  {
    var items := OpaqueItems(ds, source);
    var i :| 0 <= i < |items| && items[i] == a;
    var j :| 0 <= j < |items| && items[j] == b;
    assert DefinitionNames(ds)[i] == a.name && DefinitionNames(ds)[j] == b.name;
  }

  /** The context stands in strictly rising name order. */
  lemma ContextRises(ds: seq<Definition>, source: Source)
    requires Distinct(DefinitionNames(ds))
    ensures var context := Sort(OpaqueLess, OpaqueItems(ds, source));
            forall i, j :: 0 <= i < j < |context| ==> StrLess(context[i].name, context[j].name)
  {
    var items := OpaqueItems(ds, source);
    StrOrder();
    forall i, j | 0 <= i < j < |items| ensures OpaqueLess(items[i], items[j]) || OpaqueLess(items[j], items[i]) {
      assert DefinitionNames(ds)[i] == items[i].name && DefinitionNames(ds)[j] == items[j].name;
      RisingApart(DefinitionNames(ds), i, j);
    }
    SortIncreasing(OpaqueLess, items);
    var context := Sort(OpaqueLess, items);
    forall i, j | 0 <= i < j < |context| ensures StrLess(context[i].name, context[j].name) {
      assert OpaqueLess(context[i], context[j]);
      SameElements(context, items, context[i]);
      SameElements(context, items, context[j]);
      if context[i].name == context[j].name { NamesApart(ds, source, context[i], context[j]); }
    }
  }

  /** Looking a name up in the sorted pairs finds the pair of the definition of that name. */
  lemma FoundByName(live: bool, ds: seq<Definition>, source: Source, d: Definition)
    requires Distinct(DefinitionNames(ds)) && d in ds
    ensures Get(ByName(Sort(PairLess, Pairs(live, ds, source))), d.name) ==
              if d.name in source then Some(PairOf(live, d, source[d.name])) else None
  {
    var ps := Pairs(live, ds, source);
    var sorted := Sort(PairLess, ps);
    ByNameIs(sorted, d.name);
    if d.name in source {
      var p := PairOf(live, d, source[d.name]);
      PairsMember(live, ds, source, p);
      assert Listed(live, ds, source, p);
      SameElements(sorted, ps, p);
    }
    if d.name in ByName(sorted) {
      var p := ByName(sorted)[d.name];
      SameElements(sorted, ps, p);
      PairsMember(live, ds, source, p);
      var e :| e in ds && e.name in source && p == PairOf(live, e, source[e.name]);
      SameDefinition(ds, d, e);
    }
  }

  /** A name is looked up successfully only when a declared definition carries it. */
  lemma FoundIsDeclared(live: bool, ds: seq<Definition>, source: Source, n: string)
    requires n in ByName(Sort(PairLess, Pairs(live, ds, source)))
    ensures exists d :: d in ds && d.name == n && n in source
  {
    var sorted := Sort(PairLess, Pairs(live, ds, source));
    ByNameIs(sorted, n);
    SameElements(sorted, Pairs(live, ds, source), ByName(sorted)[n]);
    PairsMember(live, ds, source, ByName(sorted)[n]);
  }

  lemma {:induction false} DifferingMember(names: seq<string>, a: map<string, Pair>, b: map<string, Pair>,
                                           x: Difference)
    ensures x in Differing(names, a, b) <==>
              x.quality in names && x == Difference(x.quality, Get(a, x.quality), Get(b, x.quality)) &&
                  x.current != x.desired
  {
    if names != [] { DifferingMember(names[1..], a, b, x); }
  }

  /** A definition whose sizes or stated title are not the declared ones. */
  ghost predicate Off(d: Definition, source: Source) {
    && d.name in source
    && (d.sizes != Wanted(source[d.name]) || (source[d.name].title.Some? && source[d.name].title.value != d.title))
  }

  ghost function Report(ds: seq<Definition>, source: Source): seq<Difference> {
    ServiceDifference(Sort(PairLess, Pairs(true, ds, source)), Sort(PairLess, Pairs(false, ds, source)))
  }

  function Reported(d: Definition, source: Source): Difference
    requires d.name in source
  {
    Difference(d.name, Some(PairOf(true, d, source[d.name])), Some(PairOf(false, d, source[d.name])))
  }

  lemma ReportedIsOff(ds: seq<Definition>, source: Source, x: Difference) returns (d: Definition)
    requires Distinct(DefinitionNames(ds)) && x in Report(ds, source)
    ensures d in ds && Off(d, source) && x == Reported(d, source)
  {
    var a, b := ByName(Sort(PairLess, Pairs(true, ds, source))), ByName(Sort(PairLess, Pairs(false, ds, source)));
    DifferingMember(Ascending(a.Keys + b.Keys), a, b, x);
    if x.quality in a {
      FoundIsDeclared(true, ds, source, x.quality);
    } else {
      FoundIsDeclared(false, ds, source, x.quality);
    }
    d :| d in ds && d.name == x.quality && d.name in source;
    FoundByName(true, ds, source, d);
    FoundByName(false, ds, source, d);
  }

  lemma OffIsReported(ds: seq<Definition>, source: Source, d: Definition)
    requires Distinct(DefinitionNames(ds)) && d in ds && Off(d, source)
    ensures Reported(d, source) in Report(ds, source)
  {
    var a, b := ByName(Sort(PairLess, Pairs(true, ds, source))), ByName(Sort(PairLess, Pairs(false, ds, source)));
    FoundByName(true, ds, source, d);
    FoundByName(false, ds, source, d);
    assert d.name in a.Keys + b.Keys;
    DifferingMember(Ascending(a.Keys + b.Keys), a, b, Reported(d, source));
  }

  /** The report names exactly the definitions that are off, each with both its sides. */
  lemma ReportsExactly(ds: seq<Definition>, source: Source, x: Difference)
    requires Distinct(DefinitionNames(ds))
    ensures x in Report(ds, source) <==> exists d :: d in ds && Off(d, source) && x == Reported(d, source)
  {
    if x in Report(ds, source) { var d := ReportedIsOff(ds, source, x); }
    if d :| d in ds && Off(d, source) && x == Reported(d, source) { OffIsReported(ds, source, d); }
  }

  /** The wait and the report agree: nothing is reported exactly when the wait is over and every
      stated title is the live one. */
  lemma WaitAndReportAgree(ds: seq<Definition>, source: Source)
    requires Distinct(DefinitionNames(ds))
    ensures Report(ds, source) == [] <==> AllSettled(ds, source) && TitlesAgree(ds, source)
  {
    if Report(ds, source) != [] {
      var x := Report(ds, source)[0];
      assert x in Report(ds, source);
      ReportsExactly(ds, source, x);
    }
    forall d | d in ds && Off(d, source) ensures Report(ds, source) != [] {
      ReportsExactly(ds, source, Reported(d, source));
    }
  }

  lemma {:induction false} SettledPairs(ds: seq<Definition>, source: Source)
    ensures Pairs(true, ds, source) == Pairs(false, ds, source) <==> forall d :: d in ds ==> !Off(d, source)
  {
    if ds != [] {
      var front, last := ds[..|ds| - 1], ds[|ds| - 1];
      assert ds == front + [last];
      SettledPairs(front, source);
      PairsAlign(front, source);
      var f, g := Pairs(true, front, source), Pairs(false, front, source);
      if last.name in source {
        var x, y := PairOf(true, last, source[last.name]), PairOf(false, last, source[last.name]);
        assert (f + [x])[..|f|] == f && (g + [y])[..|g|] == g;
        assert (f + [x])[|f|] == x && (g + [y])[|g|] == y;
        assert x == y <==> !Off(last, source);
        assert Pairs(true, ds, source) == f + [x] && Pairs(false, ds, source) == g + [y];
      } else {
        assert Pairs(true, ds, source) == f && Pairs(false, ds, source) == g;
      }
    }
  }

  lemma {:induction false} PairsAlign(ds: seq<Definition>, source: Source)
    ensures |Pairs(true, ds, source)| == |Pairs(false, ds, source)|
  {
    if ds != [] { PairsAlign(ds[..|ds| - 1], source); }
  }

  /** The equality the role asserts at the end is the empty report. */
  lemma EqualIsEmptyReport(ds: seq<Definition>, source: Source)
    requires Distinct(DefinitionNames(ds))
    ensures Sort(PairLess, Pairs(true, ds, source)) == Sort(PairLess, Pairs(false, ds, source)) <==>
              Report(ds, source) == []
  {
    var a, b := Sort(PairLess, Pairs(true, ds, source)), Sort(PairLess, Pairs(false, ds, source));
    WaitAndReportAgree(ds, source);
    SettledPairs(ds, source);
    if Report(ds, source) != [] {
      var x := Report(ds, source)[0];
      assert x in Report(ds, source);
      DifferingMember(Ascending(ByName(a).Keys + ByName(b).Keys), ByName(a), ByName(b), x);
    }
  }

  /* ----- nothing is lost between the pair and the context ----- */

  /** A definition put back together from its context item and its live pair. */
  function Rebuilt(o: Opaque, live: Option<Pair>): Definition {
    var none := Sizes(None, None, None);
    Definition(o.id, o.name, o.details,
      if o.title.Some? then o.title.value else if live.Some? && live.value.title.Some? then live.value.title.value
      else "",
      o.weight,
      if o.sizes.Some? then o.sizes.value else if live.Some? then live.value.sizes else none)
  }

  lemma ContextMember(ds: seq<Definition>, source: Source, o: Opaque)
    ensures o in Sort(OpaqueLess, OpaqueItems(ds, source)) <==> exists d :: d in ds && o == OpaqueOf(d, source)
  {
    var items := OpaqueItems(ds, source);
    SameElements(Sort(OpaqueLess, items), items, o);
    if o in items {
      var i :| 0 <= i < |items| && items[i] == o;
      assert ds[i] in ds;
    }
    if d :| d in ds && o == OpaqueOf(d, source) {
      var i :| 0 <= i < |ds| && ds[i] == d;
      assert items[i] == o;
    }
  }

  lemma RebuildsIt(ds: seq<Definition>, source: Source, d: Definition)
    requires Distinct(DefinitionNames(ds)) && d in ds
    ensures Rebuilt(OpaqueOf(d, source), Get(ByName(Sort(PairLess, Pairs(true, ds, source))), d.name)) == d
  {
    FoundByName(true, ds, source, d);
  }

  /** Splitting a readback into pairs and context loses nothing: the context lists one item per
      definition, and with the live pair of its name each is rebuilt exactly. */
  lemma NothingLost(ds: seq<Definition>, source: Source)
    requires Distinct(DefinitionNames(ds))
    ensures |Sort(OpaqueLess, OpaqueItems(ds, source))| == |ds|
    ensures forall d :: d in ds <==> exists o ::
              o in Sort(OpaqueLess, OpaqueItems(ds, source)) && d == Recovered(ds, source, o)
  {
    var context := Sort(OpaqueLess, OpaqueItems(ds, source));
    assert |multiset(OpaqueItems(ds, source))| == |multiset(context)|;
    forall d | d in ds ensures OpaqueOf(d, source) in context && Recovered(ds, source, OpaqueOf(d, source)) == d {
      ContextMember(ds, source, OpaqueOf(d, source));
      RebuildsIt(ds, source, d);
    }
    forall o | o in context ensures Recovered(ds, source, o) in ds {
      ContextMember(ds, source, o);
      var d :| d in ds && o == OpaqueOf(d, source);
      RebuildsIt(ds, source, d);
    }
  }

  function Recovered(ds: seq<Definition>, source: Source, o: Opaque): Definition {
    Rebuilt(o, Get(ByName(Sort(PairLess, Pairs(true, ds, source))), o.name))
  }
}
