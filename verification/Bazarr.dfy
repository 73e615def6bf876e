/** Bazarr's owned settings: how the live and the declared side of a provider are paired, and the
    walk that names what differs without naming a value. */
module Bazarr {
  import opened Options
  import Messages

  datatype Json =
    | Null
    | Bool(b: bool)
    | Int(i: int)
    | Float(x: real)
    | Str(s: string)
    | List(items: seq<Json>)
    | Obj(fields: map<string, Json>)

  predicate Numeric(v: Json) { v.Bool? || v.Int? || v.Float? }

  function Number(v: Json): real
    requires Numeric(v)
  {
    match v case Bool(b) => if b then 1.0 else 0.0 case Int(i) => i as real case Float(x) => x
  }

  /** Python's `==`: numbers of any type by value, containers element by element. */
  predicate Equal(a: Json, b: Json)
    decreases a
  {
    if Numeric(a) && Numeric(b) then Number(a) == Number(b)
    else
      match a
      case Null => b.Null?
      case Str(s) => b == Str(s)
      case List(xs) => b.List? && |xs| == |b.items| && forall i :: 0 <= i < |xs| ==> Equal(xs[i], b.items[i])
      case Obj(m) => b.Obj? && m.Keys == b.fields.Keys && forall k :: k in m ==> Equal(m[k], b.fields[k])
      case _ => false
  }

  lemma {:induction false} EqualReflexive(a: Json)
    ensures Equal(a, a)
    decreases a
  {
    match a
    case List(xs) => forall i | 0 <= i < |xs| ensures Equal(xs[i], xs[i]) { EqualReflexive(xs[i]); }
    case Obj(m) => forall k | k in m ensures Equal(m[k], m[k]) { EqualReflexive(m[k]); }
    case _ =>
  }

  /* ----- the difference walk ----- */

  predicate Lower(ch: char) { 'a' <= ch <= 'z' }
  predicate Identifier(s: string) {
    s != "" && Lower(s[0]) && forall i :: 0 < i < |s| ==> Lower(s[i]) || '0' <= s[i] <= '9' || s[i] == '_'
  }

  predicate DottedAt(s: string, i: nat)
    requires i < |s|
  {
    s[i] == '.' && Identifier(s[..i]) && Identifier(s[i + 1..])
  }

  /** A key that may be printed: one or two identifiers joined by a dot. */
  predicate Nameable(s: string) { Identifier(s) || exists i :: 0 <= i < |s| && DottedAt(s, i) }

  datatype Segment = Key(name: string) | Position(index: nat)

  function SegmentOf(key: string, index: nat): Segment { if Nameable(key) then Key(key) else Position(index) }

  type Path = seq<Segment>

  /** The order a set of keys is walked in; Python sorts by `repr`. Nothing depends on which order
      it is, only that every key comes once. */
  type Listing = set<string> -> seq<string>

  ghost predicate Lists(keys: set<string>, s: seq<string>) {
    (forall i, j :: 0 <= i < j < |s| ==> s[i] != s[j]) && forall k :: k in s <==> k in keys
  }

  function Union(a: map<string, Json>, b: map<string, Json>): set<string> { a.Keys + b.Keys }

  function Differences(l: Listing, a: Json, b: Json, path: Path): seq<Path>
    decreases a, 1
  {
    if !a.Obj? || !b.Obj? then (if Equal(a, b) then [] else [path])
    else FieldDifferences(l, l(Union(a.fields, b.fields)), 0, a, b, path)
  }

  function FieldDifferences(l: Listing, keys: seq<string>, index: nat, a: Json, b: Json, path: Path): seq<Path>
    requires a.Obj? && b.Obj? && index <= |keys|
    decreases a, 0, |keys| - index
  {
    if index == |keys| then []
    else
      var key := keys[index];
      var child := path + [SegmentOf(key, index)];
      (if key !in a.fields || key !in b.fields then [child] else Differences(l, a.fields[key], b.fields[key], child)) +
      FieldDifferences(l, keys, index + 1, a, b, path)
  }

  ghost predicate Complete(l: Listing) { forall keys: set<string> :: Lists(keys, l(keys)) }

  /** The list the walk appends to. */
  class Report {
    var differences: seq<Path>

    constructor ()
      ensures differences == []
    {
      differences := [];
    }

    /** `_bazarr_differences`. */
    method Walk(l: Listing, a: Json, b: Json, path: Path)
      modifies this
      ensures differences == old(differences) + Differences(l, a, b, path)
      decreases a
    {
      if !a.Obj? || !b.Obj? {
        if !Equal(a, b) { differences := differences + [path]; }
        return;
      }
      var keys := l(Union(a.fields, b.fields));
      for index := 0 to |keys|
        invariant differences + FieldDifferences(l, keys, index, a, b, path) ==
                  old(differences) + FieldDifferences(l, keys, 0, a, b, path)
      {
        var key := keys[index];
        var child := path + [SegmentOf(key, index)];
        ghost var rest := FieldDifferences(l, keys, index + 1, a, b, path);
        if key !in a.fields || key !in b.fields {
          assert differences + ([child] + rest) == differences + [child] + rest;
          differences := differences + [child];
        } else {
          ghost var below := Differences(l, a.fields[key], b.fields[key], child);
          assert differences + (below + rest) == differences + below + rest;
          Walk(l, a.fields[key], b.fields[key], child);
        }
      }
    }
  }

  /* ----- what the walk reports ----- */

  /** Following the keys leads to something on one side only, or to two different leaves. */
  predicate Differs(a: Json, b: Json, keys: seq<string>)
    decreases |keys|
  {
    if keys == [] then (!a.Obj? || !b.Obj?) && !Equal(a, b)
    else
      a.Obj? && b.Obj? && keys[0] in Union(a.fields, b.fields) &&
      (if keys[0] !in a.fields || keys[0] !in b.fields then |keys| == 1
       else Differs(a.fields[keys[0]], b.fields[keys[0]], keys[1..]))
  }

  function PositionOf(s: seq<string>, k: string): (i: nat)
    requires k in s
    ensures i < |s| && s[i] == k
  {
    if s[0] == k then 0 else 1 + PositionOf(s[1..], k)
  }

  /** The path printed for a chain of keys that leads to a difference. */
  function Printed(l: Listing, a: Json, b: Json, keys: seq<string>): Path
    requires Differs(a, b, keys)
    decreases |keys|
  {
    if keys == [] then []
    else
      var k, listed := keys[0], l(Union(a.fields, b.fields));
      [SegmentOf(k, if k in listed then PositionOf(listed, k) else 0)] +
      (if k in a.fields && k in b.fields then Printed(l, a.fields[k], b.fields[k], keys[1..]) else [])
  }

  ghost predicate Reported(l: Listing, a: Json, b: Json, path: Path, p: Path) {
    exists keys :: Differs(a, b, keys) && p == path + Printed(l, a, b, keys)
  }

  /** Reported through this one key. */
  ghost predicate ReportedAt(l: Listing, a: Json, b: Json, path: Path, key: string, index: nat, p: Path)
    requires a.Obj? && b.Obj? && key in Union(a.fields, b.fields)
  {
    var child := path + [SegmentOf(key, index)];
    if key in a.fields && key in b.fields then Reported(l, a.fields[key], b.fields[key], child, p) else p == child
  }

  lemma ReportedSplits(l: Listing, a: Json, b: Json, path: Path, p: Path)
    requires Complete(l) && a.Obj? && b.Obj?
    ensures var keys := l(Union(a.fields, b.fields));
            Reported(l, a, b, path, p) <==> exists i ::
              0 <= i < |keys| && keys[i] in Union(a.fields, b.fields) && ReportedAt(l, a, b, path, keys[i], i, p)
  {
    var listed := l(Union(a.fields, b.fields));
    assert Lists(Union(a.fields, b.fields), listed);
    if Reported(l, a, b, path, p) {
      var keys :| Differs(a, b, keys) && p == path + Printed(l, a, b, keys);
      if keys != [] {
        var i := PositionOf(listed, keys[0]);
        ReportedThrough(l, a, b, path, keys, i, p);
      } else {
        assert false;
      }
    }
    if i :| 0 <= i < |listed| && listed[i] in Union(a.fields, b.fields) && ReportedAt(l, a, b, path, listed[i], i, p) {
      ReportedUp(l, a, b, path, i, p);
    }
  }

  lemma ReportedThrough(l: Listing, a: Json, b: Json, path: Path, keys: seq<string>, i: nat, p: Path)
    requires a.Obj? && b.Obj? && keys != [] && Differs(a, b, keys) && p == path + Printed(l, a, b, keys)
    requires keys[0] in l(Union(a.fields, b.fields)) && i == PositionOf(l(Union(a.fields, b.fields)), keys[0])
    ensures ReportedAt(l, a, b, path, keys[0], i, p)
  {
    var k := keys[0];
    if k in a.fields && k in b.fields {
      var rest := Printed(l, a.fields[k], b.fields[k], keys[1..]);
      assert p == path + [SegmentOf(k, i)] + rest;
    }
  }

  lemma SamePosition(s: seq<string>, i: nat)
    requires i < |s| && forall i, j :: 0 <= i < j < |s| ==> s[i] != s[j]
    ensures PositionOf(s, s[i]) == i
  {
    var j := PositionOf(s, s[i]);
    assert s[j] == s[i];
  }

  lemma ReportedUp(l: Listing, a: Json, b: Json, path: Path, i: nat, p: Path)
    requires a.Obj? && b.Obj? && Lists(Union(a.fields, b.fields), l(Union(a.fields, b.fields)))
    requires var keys := l(Union(a.fields, b.fields)); i < |keys| && ReportedAt(l, a, b, path, keys[i], i, p)
    ensures Reported(l, a, b, path, p)
  {
    var listed := l(Union(a.fields, b.fields));
    var k := listed[i];
    SamePosition(listed, i);
    if k in a.fields && k in b.fields {
      var rest :| Differs(a.fields[k], b.fields[k], rest) &&
          p == path + [SegmentOf(k, i)] + Printed(l, a.fields[k], b.fields[k], rest);
      var keys := [k] + rest;
      assert keys[1..] == rest;
      assert Differs(a, b, keys);
      assert p == path + Printed(l, a, b, keys);
    } else {
      assert Differs(a, b, [k]);
      assert p == path + Printed(l, a, b, [k]);
    }
  }

  /** The walk reports exactly the chains of keys that lead to a difference, each as printed. */
  lemma {:induction false} WalkExactly(l: Listing, a: Json, b: Json, path: Path, p: Path)
    requires Complete(l)
    ensures p in Differences(l, a, b, path) <==> Reported(l, a, b, path, p)
    decreases a, 1
  {
    if !a.Obj? || !b.Obj? {
      LeafReported(l, a, b, path, p);
    } else {
      var keys := l(Union(a.fields, b.fields));
      assert Lists(Union(a.fields, b.fields), keys);
      FieldsExactly(l, keys, 0, a, b, path, p);
      ReportedSplits(l, a, b, path, p);
    }
  }

  lemma LeafReported(l: Listing, a: Json, b: Json, path: Path, p: Path)
    requires !a.Obj? || !b.Obj?
    ensures Reported(l, a, b, path, p) <==> !Equal(a, b) && p == path
  {
    if !Equal(a, b) {
      assert Differs(a, b, []);
      assert path == path + Printed(l, a, b, []);
    }
  }

  lemma {:induction false} FieldsExactly(l: Listing, keys: seq<string>, index: nat, a: Json, b: Json, path: Path,
                                         p: Path)
    requires Complete(l) && a.Obj? && b.Obj? && index <= |keys| &&
             forall k :: k in keys ==> k in Union(a.fields, b.fields)
    ensures p in FieldDifferences(l, keys, index, a, b, path) <==>
              exists i :: index <= i < |keys| && ReportedAt(l, a, b, path, keys[i], i, p)
    decreases a, 0, |keys| - index
  {
    if index < |keys| {
      var key := keys[index];
      FieldsExactly(l, keys, index + 1, a, b, path, p);
      if key in a.fields && key in b.fields {
        WalkExactly(l, a.fields[key], b.fields[key], path + [SegmentOf(key, index)], p);
      }
    }
  }

  /** Two values that are not equal differ somewhere. */
  lemma {:induction false} SomewhereDiffers(a: Json, b: Json) returns (keys: seq<string>)
    requires !Equal(a, b)
    ensures Differs(a, b, keys)
    decreases a
  {
    keys := [];
    if a.Obj? && b.Obj? {
      if k :| k in Union(a.fields, b.fields) && (k !in a.fields || k !in b.fields) {
        keys := [k];
      } else {
        assert a.fields.Keys == b.fields.Keys;
        var k :| k in a.fields && !Equal(a.fields[k], b.fields[k]);
        var rest := SomewhereDiffers(a.fields[k], b.fields[k]);
        keys := [k] + rest;
        assert keys[1..] == rest;
      }
    }
  }

  lemma {:induction false} DiffersUnequal(a: Json, b: Json, keys: seq<string>)
    requires Differs(a, b, keys)
    ensures !Equal(a, b)
    decreases |keys|
  {
    if keys != [] && keys[0] in a.fields && keys[0] in b.fields {
      DiffersUnequal(a.fields[keys[0]], b.fields[keys[0]], keys[1..]);
    }
  }

  /** Nothing is reported exactly when the two sides are equal. */
  lemma EmptyIsEqual(l: Listing, a: Json, b: Json)
    requires Complete(l)
    ensures Differences(l, a, b, []) == [] <==> Equal(a, b)
  {
    if !Equal(a, b) {
      var keys := SomewhereDiffers(a, b);
      var p := [] + Printed(l, a, b, keys);
      assert Reported(l, a, b, [], p);
      WalkExactly(l, a, b, [], p);
    }
    if Differences(l, a, b, []) != [] {
      var p := Differences(l, a, b, [])[0];
      WalkExactly(l, a, b, [], p);
      var keys :| Differs(a, b, keys) && p == [] + Printed(l, a, b, keys);
      DiffersUnequal(a, b, keys);
    }
  }

  /* ----- one provider's settings ----- */

  predicate SafeText(s: string) { '\0' !in s && '\r' !in s && '\n' !in s }

  predicate SafeScalar(v: Json) { Numeric(v) || (v.Str? && SafeText(v.s)) }

  predicate SafeSetting(v: Json) {
    SafeScalar(v) || (v.List? && forall i :: 0 <= i < |v.items| ==> SafeScalar(v.items[i]))
  }

  /** What the service shows in place of a secret. */
  predicate Masked(v: Json) { v.Str? && v.s != "" && forall ch :: ch in v.s ==> ch == '*' }

  function StripLeft(s: string): string { if s != "" && Messages.Space(s[0]) then StripLeft(s[1..]) else s }
  function StripRight(s: string): string {
    if s != "" && Messages.Space(s[|s| - 1]) then StripRight(s[..|s| - 1]) else s
  }
  function Strip(s: string): string { StripRight(StripLeft(s)) }

  function LowerCase(s: string): string {
    if s == "" then "" else [if 'A' <= s[0] <= 'Z' then s[0] - 'A' + 'a' else s[0]] + LowerCase(s[1..])
  }

  predicate AllDigits(s: string) { forall i :: 0 <= i < |s| ==> '0' <= s[i] <= '9' }

  predicate Digits(s: string) { s != "" && AllDigits(s) }

  function DigitsValue(s: string): int
    requires AllDigits(s)
  {
    if s == "" then 0 else 10 * DigitsValue(s[..|s| - 1]) + (s[|s| - 1] as int - '0' as int)
  }

  function ReadInteger(s: string): Option<Json> {
    if Digits(s) then Some(Int(DigitsValue(s)))
    else if s != "" && s[0] == '-' && Digits(s[1..]) then Some(Int(-DigitsValue(s[1..])))
    else None
  }

  /** `_provider_current_value`: the live value read in the type of the declared one; None when it cannot be. */
  function Normalised(value: Json, desired: Json): Option<Json>
    decreases desired
  {
    match desired
    case Bool(_) =>
      if value.Bool? then Some(value)
      else if value.Str? && LowerCase(Strip(value.s)) in ["true", "false"] then
        Some(Bool(LowerCase(Strip(value.s)) == "true"))
      else None
    case Int(_) => if value.Int? then Some(value) else if value.Str? then ReadInteger(Strip(value.s)) else None
    case Float(_) => if value.Int? || value.Float? then Some(value) else None
    case List(wanted) =>
      if !value.List? then None
      else if |value.items| != |wanted| then Some(value)
      else if forall i :: 0 <= i < |wanted| ==> Normalised(value.items[i], wanted[i]).Some? then
        Some(List(seq(|wanted|, i requires 0 <= i < |wanted| => Normalised(value.items[i], wanted[i]).GetOr(Null))))
      else None
    case _ => if value.Str? && SafeText(value.s) then Some(value) else None
  }

  type Settings = map<string, Json>

  /** Every name and every unmasked value is safe, and every declared one reads in its declared type. */
  predicate ReadableProvider(live: Settings, desired: Settings) {
    && (forall k :: k in live ==> ReadableName(live, k))
    && (forall k :: k in desired ==> ReadsAs(live, desired, k))
  }

  /** What is live: masked settings dropped, declared ones read in their declared type. */
  function LiveSide(live: Settings, desired: Settings): Settings {
    map k | k in live && !Masked(live[k]) ::
      if k in desired then Normalised(live[k], desired[k]).GetOr(Null) else live[k]
  }

  /** What should be: the declaration, except under a mask, and everything undeclared as it is. */
  function DesiredSide(live: Settings, desired: Settings): Settings {
    map k | k in live.Keys + desired.Keys && !(k in live && Masked(live[k])) ::
      if k in desired then desired[k] else live[k]
  }

  function MaskedNames(live: Settings): set<string> { set k | k in live && Masked(live[k]) }

  datatype Pairing = Pairing(current: Settings, desired: Settings, masked: set<string>)

  predicate ReadableName(live: Settings, k: string)
    requires k in live
  {
    k != "" && SafeText(k) && (Masked(live[k]) || SafeSetting(live[k]))
  }

  function Unmasked(live: Settings, seen: set<string>): Settings
    requires seen <= live.Keys
  {
    map k | k in seen && !Masked(live[k]) :: live[k]
  }

  /** The first inner loop of `_bazarr_provider_projections`: what is live, whatever is declared. */
  method ReadLive(live: Settings) returns (r: Option<(Settings, set<string>)>)
    ensures r == if !(forall k :: k in live ==> ReadableName(live, k)) then None
                 else Some((Unmasked(live, live.Keys), MaskedNames(live)))
  {
    var current: Settings, masked: set<string> := map[], {};
    ghost var seen: set<string> := {};
    var left := live.Keys;
    while left != {}
      invariant seen + left == live.Keys && seen !! left
      invariant forall k :: k in seen ==> ReadableName(live, k)
      invariant current == Unmasked(live, seen)
      invariant masked == set k | k in seen && Masked(live[k])
    {
      var k :| k in left;
      if k == "" || !SafeText(k) { return None; }
      if Masked(live[k]) {
        masked := masked + {k};
      } else {
        if !SafeSetting(live[k]) { return None; }
        current := current[k := live[k]];
      }
      left, seen := left - {k}, seen + {k};
    }
    assert seen == live.Keys;
    r := Some((current, masked));
  }

  predicate ReadsAs(live: Settings, desired: Settings, k: string)
    requires k in desired
  {
    k in live && !Masked(live[k]) ==> Normalised(live[k], desired[k]).Some?
  }

  /** The two sides once the declarations seen so far are read. */
  function CurrentSoFar(live: Settings, desired: Settings, seen: set<string>): Settings
    requires seen <= desired.Keys
  {
    map k | k in live && !Masked(live[k]) :: if k in seen then Normalised(live[k], desired[k]).GetOr(Null) else live[k]
  }

  function WantedSoFar(live: Settings, desired: Settings, seen: set<string>): Settings
    requires seen <= desired.Keys
  {
    map k | k in live.Keys + seen && !(k in live && Masked(live[k])) :: if k in seen then desired[k] else live[k]
  }

  /** One more declaration read: nothing changes under a mask, and otherwise both sides take it. */
  lemma OneMoreRead(live: Settings, desired: Settings, seen: set<string>, k: string)
    requires seen <= desired.Keys && k in desired && k !in seen
    ensures CurrentSoFar(live, desired, seen + {k}) ==
              if k in live && !Masked(live[k]) then
                CurrentSoFar(live, desired, seen)[k := Normalised(live[k], desired[k]).GetOr(Null)]
              else CurrentSoFar(live, desired, seen)
    ensures WantedSoFar(live, desired, seen + {k}) ==
              if k in live && Masked(live[k]) then WantedSoFar(live, desired, seen)
              else WantedSoFar(live, desired, seen)[k := desired[k]]
  {
  }

  /** The second inner loop: each declared setting over what was read. */
  method ReadDeclared(live: Settings, desired: Settings) returns (r: Option<(Settings, Settings)>)
    ensures r == if forall k :: k in desired ==> ReadsAs(live, desired, k) then
                   Some((CurrentSoFar(live, desired, desired.Keys), WantedSoFar(live, desired, desired.Keys))) else None
  {
    var current, wanted := Unmasked(live, live.Keys), Unmasked(live, live.Keys);
    ghost var seen: set<string> := {};
    var left := desired.Keys;
    while left != {}
      invariant seen + left == desired.Keys && seen !! left
      invariant forall k :: k in seen ==> ReadsAs(live, desired, k)
      invariant current == CurrentSoFar(live, desired, seen) && wanted == WantedSoFar(live, desired, seen)
    {
      var k :| k in left;
      OneMoreRead(live, desired, seen, k);
      if k !in live {
        wanted := wanted[k := desired[k]];
      } else if !Masked(live[k]) {
        var value := Normalised(live[k], desired[k]);
        if value.None? {
          assert !ReadsAs(live, desired, k);
          return None;
        }
        current, wanted := current[k := value.value], wanted[k := desired[k]];
      }
      left, seen := left - {k}, seen + {k};
    }
    assert seen == desired.Keys;
    r := Some((current, wanted));
  }

  /** `_bazarr_provider_projections` for one provider, in whatever order the dictionaries list;
      None when a name or a value is refused. */
  method ProviderProjection(live: Settings, desired: Settings) returns (r: Option<Pairing>)
    ensures r == if ReadableProvider(live, desired) then
                   Some(Pairing(LiveSide(live, desired), DesiredSide(live, desired), MaskedNames(live)))
                 else None
  {
    var read := ReadLive(live);
    if read.None? { return None; }
    var sides := ReadDeclared(live, desired);
    if sides.None? { return None; }
    assert sides.value.0 == LiveSide(live, desired) && sides.value.1 == DesiredSide(live, desired);
    r := Some(Pairing(sides.value.0, sides.value.1, read.value.1));
  }

  /** What a declared setting may be. */
  predicate Declarable(v: Json) { SafeSetting(v) }

  predicate AllDeclarable(desired: Settings) { forall k :: k in desired ==> Declarable(desired[k]) }

  lemma {:induction false} NormalisedFlat(value: Json, desired: Json)
    requires SafeSetting(value) && Declarable(desired) && Normalised(value, desired).Some?
    ensures !Normalised(value, desired).value.Obj?
  {
  }

  /** Outside the declaration nothing is touched: a masked setting stands on neither side, an undeclared
      one on both as it is; a declared one is wanted as declared, and live if it is there at all. */
  lemma SidesExactly(live: Settings, desired: Settings, k: string)
    requires ReadableProvider(live, desired)
    ensures var a, b := LiveSide(live, desired), DesiredSide(live, desired);
            && (k in live && Masked(live[k]) ==> k !in a && k !in b)
            && (k in live && !Masked(live[k]) && k !in desired ==> Get(a, k) == Get(b, k) == Some(live[k]))
            && (k in desired && !(k in live && Masked(live[k])) ==> Get(b, k) == Some(desired[k]))
            && (k in desired && k in live && !Masked(live[k]) ==> Get(a, k) == Normalised(live[k], desired[k]))
            && (k !in live ==> k !in a && (k !in desired ==> k !in b))
  {
    if k in desired { assert ReadsAs(live, desired, k); }
  }

  /** A declared setting that is missing, or that reads differently and is not masked. */
  predicate Drifted(live: Settings, desired: Settings, k: string) {
    && k in desired
    && (k !in live || (!Masked(live[k]) && !Equal(Normalised(live[k], desired[k]).GetOr(Null), desired[k])))
  }

  /** In a pairing nothing but a drifted setting differs, and every drifted setting does. */
  lemma PairingDiffers(live: Settings, desired: Settings, keys: seq<string>)
    requires ReadableProvider(live, desired) && AllDeclarable(desired)
    ensures Differs(Obj(LiveSide(live, desired)), Obj(DesiredSide(live, desired)), keys) <==>
              |keys| == 1 && Drifted(live, desired, keys[0])
  {
    var a, b := LiveSide(live, desired), DesiredSide(live, desired);
    if keys != [] {
      var k := keys[0];
      if k in a && k in b {
        assert ReadableName(live, k) && (k in desired ==> ReadsAs(live, desired, k));
        if k in desired { NormalisedFlat(live[k], desired[k]); } else { EqualReflexive(live[k]); }
        assert !a[k].Obj? && !b[k].Obj?;
        assert |keys| > 1 ==> keys[1..] != [];
        assert |keys| == 1 ==> keys[1..] == [];
      }
    }
  }

  /* ----- every declared provider ----- */

  type Providers = map<string, Settings>

  /** A provider the service does not know has no settings. */
  function LiveOf(settings: Providers, name: string): Settings { if name in settings then settings[name] else map[] }

  predicate ReadableProviders(settings: Providers, declared: Providers) {
    forall n :: n in declared ==> ReadableProvider(LiveOf(settings, n), declared[n])
  }

  /** The pairings of some of the declared providers. */
  function PairingOf(settings: Providers, declared: Providers, n: string): Pairing
    requires n in declared
  {
    Pairing(LiveSide(LiveOf(settings, n), declared[n]), DesiredSide(LiveOf(settings, n), declared[n]),
            MaskedNames(LiveOf(settings, n)))
  }

  function Pairings(settings: Providers, declared: Providers, names: set<string>): map<string, Pairing>
    requires names <= declared.Keys
  {
    map n | n in names :: PairingOf(settings, declared, n)
  }

  function LiveProviders(settings: Providers, declared: Providers): map<string, Json> {
    map n | n in declared :: Obj(LiveSide(LiveOf(settings, n), declared[n]))
  }

  function DesiredProviders(settings: Providers, declared: Providers): map<string, Json> {
    map n | n in declared :: Obj(DesiredSide(LiveOf(settings, n), declared[n]))
  }

  /** `_bazarr_provider_projections`: the pairing of every declared provider. */
  method ProviderProjections(settings: Providers, declared: Providers) returns (r: Option<map<string, Pairing>>)
    ensures r == if ReadableProviders(settings, declared) then Some(Pairings(settings, declared, declared.Keys))
            else None
  {
    var found: map<string, Pairing> := map[];
    ghost var seen: set<string> := {};
    var left := declared.Keys;
    while left != {}
      invariant seen + left == declared.Keys && seen !! left
      invariant forall n :: n in seen ==> ReadableProvider(LiveOf(settings, n), declared[n])
      invariant found == Pairings(settings, declared, seen)
    {
      var n :| n in left;
      var pairing := ProviderProjection(LiveOf(settings, n), declared[n]);
      if pairing.None? { return None; }
      assert pairing.value == PairingOf(settings, declared, n);
      found := found[n := pairing.value];
      left, seen := left - {n}, seen + {n};
    }
    assert seen == declared.Keys;
    r := Some(found);
  }

  lemma ProvidersDiffer(settings: Providers, declared: Providers, keys: seq<string>)
    requires ReadableProviders(settings, declared) && forall n :: n in declared ==> AllDeclarable(declared[n])
    ensures Differs(Obj(LiveProviders(settings, declared)), Obj(DesiredProviders(settings, declared)), keys) <==>
              |keys| == 2 && keys[0] in declared && Drifted(LiveOf(settings, keys[0]), declared[keys[0]], keys[1])
  {
    if keys != [] && keys[0] in declared { PairingDiffers(LiveOf(settings, keys[0]), declared[keys[0]], keys[1..]); }
  }

  /** The path of a drifted setting: its provider's name and its own. */
  ghost predicate DriftPath(settings: Providers, declared: Providers, p: Path) {
    exists n, k :: n in declared && Drifted(LiveOf(settings, n), declared[n], k) && p == [Key(n), Key(k)]
  }

  predicate Declared(declared: Providers) {
    forall n :: n in declared ==>
      Identifier(n) && AllDeclarable(declared[n]) && forall k :: k in declared[n] ==> Identifier(k)
  }

  /** Over all providers: a path is reported exactly for a declared, unmasked setting that is absent
      or whose normalised live value differs, and it is the provider's name and the setting's. */
  lemma DriftReported(l: Listing, settings: Providers, declared: Providers, p: Path)
    requires Complete(l) && ReadableProviders(settings, declared) && Declared(declared)
    ensures p in Differences(l, Obj(LiveProviders(settings, declared)), Obj(DesiredProviders(settings, declared)), [])
            <==>
              DriftPath(settings, declared, p)
  {
    var a, b := Obj(LiveProviders(settings, declared)), Obj(DesiredProviders(settings, declared));
    WalkExactly(l, a, b, [], p);
    if Reported(l, a, b, [], p) { ReportedIsDrift(l, settings, declared, p); }
    if DriftPath(settings, declared, p) { DriftIsReported(l, settings, declared, p); }
  }

  lemma ReportedIsDrift(l: Listing, settings: Providers, declared: Providers, p: Path)
    requires ReadableProviders(settings, declared) && Declared(declared)
    requires Reported(l, Obj(LiveProviders(settings, declared)), Obj(DesiredProviders(settings, declared)), [], p)
    ensures DriftPath(settings, declared, p)
  {
    var a, b := Obj(LiveProviders(settings, declared)), Obj(DesiredProviders(settings, declared));
    var keys :| Differs(a, b, keys) && p == [] + Printed(l, a, b, keys);
    ProvidersDiffer(settings, declared, keys);
    assert keys == [keys[0], keys[1]];
    TwoKeysPrinted(l, a, b, keys[0], keys[1]);
  }

  lemma DriftIsReported(l: Listing, settings: Providers, declared: Providers, p: Path)
    requires ReadableProviders(settings, declared) && Declared(declared) && DriftPath(settings, declared, p)
    ensures Reported(l, Obj(LiveProviders(settings, declared)), Obj(DesiredProviders(settings, declared)), [], p)
  {
    var a, b := Obj(LiveProviders(settings, declared)), Obj(DesiredProviders(settings, declared));
    var n, k :| n in declared && Drifted(LiveOf(settings, n), declared[n], k) && p == [Key(n), Key(k)];
    ProvidersDiffer(settings, declared, [n, k]);
    TwoKeysPrinted(l, a, b, n, k);
    assert p == [] + Printed(l, a, b, [n, k]);
  }

  lemma OneKeyPrinted(l: Listing, a: Json, b: Json, k: string)
    requires Differs(a, b, [k]) && Identifier(k)
    ensures Printed(l, a, b, [k]) == [Key(k)]
  {
    assert [k][1..] == [];
  }

  lemma TwoKeysPrinted(l: Listing, a: Json, b: Json, n: string, k: string)
    requires Differs(a, b, [n, k]) && Identifier(n) && Identifier(k)
    ensures Printed(l, a, b, [n, k]) == [Key(n), Key(k)]
  {
    assert [n, k][1..] == [k];
    assert n in a.fields && n in b.fields && Differs(a.fields[n], b.fields[n], [k]);
    OneKeyPrinted(l, a.fields[n], b.fields[n], k);
  }
}
