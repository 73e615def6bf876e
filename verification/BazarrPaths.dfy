/** The differences as they are printed: one line a path, and when two paths share a line. */
module BazarrPaths {
  import opened Options
  import opened Bazarr

  function Digit(n: nat): char
    requires n < 10
  {
    ('0' as int + n) as char
  }

  function Decimal(n: nat): string { if n < 10 then [Digit(n)] else Decimal(n / 10) + [Digit(n % 10)] }

  function Piece(s: Segment): string { match s case Key(name) => "." + name case Position(i) => "[" + Decimal(i) + "]" }

  function Line(p: Path): string { if p == [] then "" else Piece(p[0]) + Line(p[1..]) }

  /** `removeprefix(".")`. */
  function Shown(p: Path): string { if Line(p) != "" && Line(p)[0] == '.' then Line(p)[1..] else Line(p) }

  function AllShown(ps: seq<Path>): seq<string> { seq(|ps|, i requires 0 <= i < |ps| => Shown(ps[i])) }

  /** `acquisition_bazarr_projection_differences`: the lines of the whole walk. */
  function ProjectionDifferences(l: Listing, a: Json, b: Json): seq<string> { AllShown(Differences(l, a, b, [])) }

  /** Some chain of keys that leads to a difference prints as this line. */
  ghost predicate PrintsAs(l: Listing, a: Json, b: Json, line: string) {
    exists keys :: Differs(a, b, keys) && line == Shown(Printed(l, a, b, keys))
  }

  lemma ShownMember(ps: seq<Path>, p: Path)
    requires p in ps
    ensures Shown(p) in AllShown(ps)
  {
    var i :| 0 <= i < |ps| && ps[i] == p;
    assert AllShown(ps)[i] == Shown(p);
  }

  lemma ShownFrom(ps: seq<Path>, line: string) returns (p: Path)
    requires line in AllShown(ps)
    ensures p in ps && line == Shown(p)
  {
    var i :| 0 <= i < |ps| && AllShown(ps)[i] == line;
    p := ps[i];
  }

  lemma PathOfChain(l: Listing, a: Json, b: Json, keys: seq<string>)
    requires Complete(l) && Differs(a, b, keys)
    ensures Printed(l, a, b, keys) in Differences(l, a, b, [])
  {
    var p := Printed(l, a, b, keys);
    assert p == [] + p;
    assert Reported(l, a, b, [], p);
    WalkExactly(l, a, b, [], p);
  }

  lemma ChainOfPath(l: Listing, a: Json, b: Json, p: Path) returns (keys: seq<string>)
    requires Complete(l) && p in Differences(l, a, b, [])
    ensures Differs(a, b, keys) && p == Printed(l, a, b, keys)
  {
    WalkExactly(l, a, b, [], p);
    keys :| Differs(a, b, keys) && p == [] + Printed(l, a, b, keys);
    assert p == Printed(l, a, b, keys);
  }

  /** A line is printed exactly when some chain of keys that leads to a difference prints as it. */
  lemma LinesExactly(l: Listing, a: Json, b: Json, line: string)
    requires Complete(l)
    ensures line in ProjectionDifferences(l, a, b) <==> PrintsAs(l, a, b, line)
  {
    if line in ProjectionDifferences(l, a, b) {
      var p := ShownFrom(Differences(l, a, b, []), line);
      var keys := ChainOfPath(l, a, b, p);
    }
    if keys :| Differs(a, b, keys) && line == Shown(Printed(l, a, b, keys)) {
      PathOfChain(l, a, b, keys);
      ShownMember(Differences(l, a, b, []), Printed(l, a, b, keys));
    }
  }

  /** No line is printed exactly when the two sides are equal. */
  lemma NoLinesExactly(l: Listing, a: Json, b: Json)
    requires Complete(l)
    ensures ProjectionDifferences(l, a, b) == [] <==> Equal(a, b)
  {
    EmptyIsEqual(l, a, b);
  }

  /* ----- reading a line back ----- */

  predicate Mark(ch: char) { ch == '.' || ch == '[' }

  /** A mark and then no other. */
  predicate OnePiece(s: string) { s != "" && Mark(s[0]) && forall i :: 0 < i < |s| ==> !Mark(s[i]) }

  predicate Continues(s: string) { s != "" ==> Mark(s[0]) }

  /** Where a piece ends is where the next mark stands. */
  lemma PiecesApart(x: string, r: string, y: string, t: string)
    requires OnePiece(x) && OnePiece(y) && Continues(r) && Continues(t) && x + r == y + t
    ensures x == y && r == t
  {
    var s := x + r;
    NotShorter(x, r, y, t);
    NotShorter(y, t, x, r);
    assert s[..|x|] == x && s[|x|..] == r && (y + t)[..|y|] == y && (y + t)[|y|..] == t;
  }

  lemma NotShorter(x: string, r: string, y: string, t: string)
    requires OnePiece(y) && Continues(r) && x != "" && x + r == y + t
    ensures |x| >= |y|
  {
    assert forall i :: 0 < i < |y| ==> (y + t)[i] == y[i] && !Mark((x + r)[i]);
    assert r != "" ==> (x + r)[|x|] == r[0] && Mark((x + r)[|x|]);
  }

  function DigitValue(ch: char): nat { if '0' <= ch <= '9' then ch as int - '0' as int else 0 }

  function DecimalValue(s: string): nat {
    if s == "" then 0 else 10 * DecimalValue(s[..|s| - 1]) + DigitValue(s[|s| - 1])
  }

  predicate OnlyDigits(s: string) { forall i :: 0 <= i < |s| ==> '0' <= s[i] <= '9' }

  lemma DigitReads(n: nat)
    requires n < 10
    ensures '0' <= Digit(n) <= '9' && DigitValue(Digit(n)) == n
  {
  }

  lemma {:induction false} DecimalReads(n: nat)
    ensures DecimalValue(Decimal(n)) == n && OnlyDigits(Decimal(n))
  {
    var front := if n < 10 then "" else Decimal(n / 10);
    DigitReads(n % 10);
    if n >= 10 { DecimalReads(n / 10); }
    assert Decimal(n) == front + [Digit(n % 10)];
    assert (front + [Digit(n % 10)])[..|front|] == front;
  }

  lemma DecimalsApart(m: nat, n: nat)
    requires Decimal(m) == Decimal(n)
    ensures m == n
  {
    DecimalReads(m);
    DecimalReads(n);
  }

  /** A segment whose key, if it has one, is a single identifier. */
  predicate Atom(s: Segment) { s.Key? ==> Identifier(s.name) }

  predicate Atomic(p: Path) { forall i :: 0 <= i < |p| ==> Atom(p[i]) }

  lemma AtomIsOnePiece(s: Segment)
    requires Atom(s)
    ensures OnePiece(Piece(s))
  {
    var t := Piece(s);
    match s
    case Key(name) => assert forall i :: 0 < i < |t| ==> t[i] == name[i - 1];
    case Position(n) =>
      DecimalReads(n);
      var d := Decimal(n);
      assert forall i :: 0 < i < |t| - 1 ==> t[i] == d[i - 1];
  }

  lemma AtomsApart(s: Segment, t: Segment)
    requires Atom(s) && Atom(t) && Piece(s) == Piece(t)
    ensures s == t
  {
    assert Piece(s)[0] == (if s.Key? then '.' else '[') && Piece(t)[0] == (if t.Key? then '.' else '[');
    if s.Key? {
      assert s.name == Piece(s)[1..] && t.name == Piece(t)[1..];
    } else {
      assert Decimal(s.index) == Piece(s)[1..|Piece(s)| - 1] && Decimal(t.index) == Piece(t)[1..|Piece(t)| - 1];
      DecimalsApart(s.index, t.index);
    }
  }

  lemma LineContinues(p: Path)
    ensures Continues(Line(p)) && (p != [] ==> Line(p) != "")
  {
  }

  /** Paths of single identifiers and positions are told apart by their lines. */
  lemma {:induction false} AtomicLinesApart(p: Path, q: Path)
    requires Atomic(p) && Atomic(q) && Line(p) == Line(q)
    ensures p == q
  {
    LineContinues(p);
    LineContinues(q);
    if p != [] && q != [] {
      AtomIsOnePiece(p[0]);
      AtomIsOnePiece(q[0]);
      LineContinues(p[1..]);
      LineContinues(q[1..]);
      PiecesApart(Piece(p[0]), Line(p[1..]), Piece(q[0]), Line(q[1..]));
      AtomsApart(p[0], q[0]);
      AtomicLinesApart(p[1..], q[1..]);
      assert p == [p[0]] + p[1..] && q == [q[0]] + q[1..];
    }
  }

  /* ----- dotted keys ----- */

  function DotAt(s: string): (i: nat)
    ensures i <= |s| && (i < |s| ==> s[i] == '.') && forall j :: 0 <= j < i ==> s[j] != '.'
  {
    if s == "" || s[0] == '.' then 0 else 1 + DotAt(s[1..])
  }

  /** A dotted key as the two identifiers it joins. */
  function AtomsOf(s: Segment): Path {
    if s.Key? && '.' in s.name then
      var i := DotAt(s.name);
      if i < |s.name| then [Key(s.name[..i]), Key(s.name[i + 1..])] else [s]
    else [s]
  }

  function Atoms(p: Path): Path { if p == [] then [] else AtomsOf(p[0]) + Atoms(p[1..]) }

  /** Every key of the path may be printed. */
  predicate Printable(p: Path) { forall i :: 0 <= i < |p| && p[i].Key? ==> Nameable(p[i].name) }

  lemma IdentifierHasNoDot(s: string)
    requires Identifier(s)
    ensures '.' !in s
  {
  }

  /** Where the dot of a printable key stands. */
  lemma {:induction false} DotFound(x: string, y: string)
    requires '.' !in x
    ensures DotAt(x + "." + y) == |x|
  {
    var s := x + "." + y;
    if x != "" {
      assert s[1..] == x[1..] + "." + y && s[0] == x[0];
      DotFound(x[1..], y);
    }
  }

  lemma {:induction false} LineConcat(p: Path, q: Path)
    ensures Line(p + q) == Line(p) + Line(q)
  {
    if p == [] {
      assert p + q == q;
    } else {
      assert (p + q)[1..] == p[1..] + q;
      LineConcat(p[1..], q);
    }
  }

  lemma OnePrinted(s: Segment)
    ensures Line([s]) == Piece(s)
  {
    assert [s][1..] == [];
  }

  lemma TwoPieces(x: string, y: string)
    ensures Line([Key(x), Key(y)]) == "." + (x + "." + y)
  {
    LineConcat([Key(x)], [Key(y)]);
    OnePrinted(Key(x));
    OnePrinted(Key(y));
    assert [Key(x)] + [Key(y)] == [Key(x), Key(y)];
    SameJoin(x, y);
  }

  lemma SameJoin(x: string, y: string)
    ensures ("." + x) + ("." + y) == "." + (x + "." + y)
  {
  }

  lemma AtomsAt(x: string, y: string)
    requires '.' !in x
    ensures AtomsOf(Key(x + "." + y)) == [Key(x), Key(y)]
  {
    var s := x + "." + y;
    DotFound(x, y);
    assert s[|x|] == '.' && s[..|x|] == x && s[|x| + 1..] == y;
  }

  lemma TwoAtomic(x: string, y: string)
    requires Identifier(x) && Identifier(y)
    ensures Atomic([Key(x), Key(y)])
  {
  }

  lemma DottedJoined(x: string, y: string)
    requires Identifier(x) && Identifier(y)
    ensures var s := Key(x + "." + y); Atomic(AtomsOf(s)) && Line(AtomsOf(s)) == Piece(s)
  {
    IdentifierHasNoDot(x);
    AtomsAt(x, y);
    TwoAtomic(x, y);
    TwoPieces(x, y);
  }

  lemma SplitAt(s: string, k: nat)
    requires k < |s| && s[k] == '.'
    ensures s == s[..k] + "." + s[k + 1..]
  {
  }

  lemma NameableJoins(s: string) returns (x: string, y: string)
    requires Nameable(s) && !Identifier(s)
    ensures Identifier(x) && Identifier(y) && s == x + "." + y
  {
    var k :| 0 <= k < |s| && DottedAt(s, k);
    x, y := s[..k], s[k + 1..];
    SplitAt(s, k);
  }

  lemma DottedSplits(s: string)
    requires Nameable(s)
    ensures Atomic(AtomsOf(Key(s))) && Line(AtomsOf(Key(s))) == Piece(Key(s))
  {
    if Identifier(s) {
      IdentifierHasNoDot(s);
      OnePrinted(Key(s));
    } else {
      var x, y := NameableJoins(s);
      DottedJoined(x, y);
    }
  }

  lemma SegmentSplits(s: Segment)
    requires s.Key? ==> Nameable(s.name)
    ensures Atomic(AtomsOf(s)) && Line(AtomsOf(s)) == Piece(s)
  {
    if s.Key? { DottedSplits(s.name); } else { OnePrinted(s); }
  }

  lemma {:induction false} AtomsPrintSame(p: Path)
    requires Printable(p)
    ensures Atomic(Atoms(p)) && Line(Atoms(p)) == Line(p)
  {
    if p != [] {
      SegmentSplits(p[0]);
      assert Printable(p[1..]);
      AtomsPrintSame(p[1..]);
      LineConcat(AtomsOf(p[0]), Atoms(p[1..]));
    }
  }

  lemma ShownStart(p: Path)
    requires Atomic(p) && Line(p) != "" && Line(p)[0] == '.'
    ensures Shown(p) != "" && 'a' <= Shown(p)[0] <= 'z' && Line(p) == "." + Shown(p)
  {
    assert p != [];
    var first := Piece(p[0]);
    assert first[0] == '.' && Line(p)[0] == first[0];
    assert Line(p)[1] == first[1] == p[0].name[0];
  }

  lemma ShownApart(p: Path, q: Path)
    requires Atomic(p) && Atomic(q) && Shown(p) == Shown(q)
    ensures Line(p) == Line(q)
  {
    LineContinues(p);
    LineContinues(q);
    if Line(p) != "" && Line(p)[0] == '.' { ShownStart(p); }
    if Line(q) != "" && Line(q)[0] == '.' { ShownStart(q); }
  }

  /** Two paths are printed as one line exactly when they are the same but for a dotted key standing
      for the two identifiers it joins. */
  lemma SharedLines(p: Path, q: Path)
    requires Printable(p) && Printable(q)
    ensures Shown(p) == Shown(q) <==> Atoms(p) == Atoms(q)
  {
    AtomsPrintSame(p);
    AtomsPrintSame(q);
    if Shown(p) == Shown(q) {
      assert Shown(Atoms(p)) == Shown(p) && Shown(Atoms(q)) == Shown(q);
      ShownApart(Atoms(p), Atoms(q));
      AtomicLinesApart(Atoms(p), Atoms(q));
    }
  }

  /** What the walk prints is printable. */
  lemma {:induction false} ChainsPrintable(l: Listing, a: Json, b: Json, keys: seq<string>)
    requires Differs(a, b, keys)
    ensures Printable(Printed(l, a, b, keys))
    decreases |keys|
  {
    if keys != [] && keys[0] in a.fields && keys[0] in b.fields {
      ChainsPrintable(l, a.fields[keys[0]], b.fields[keys[0]], keys[1..]);
    }
  }

  /** Two chains that lead to differences share a line exactly when their paths are the same but for
      dotted keys. */
  lemma ChainsShareLine(l: Listing, a: Json, b: Json, j: seq<string>, k: seq<string>)
    requires Differs(a, b, j) && Differs(a, b, k)
    ensures Shown(Printed(l, a, b, j)) == Shown(Printed(l, a, b, k)) <==>
              Atoms(Printed(l, a, b, j)) == Atoms(Printed(l, a, b, k))
  {
    ChainsPrintable(l, a, b, j);
    ChainsPrintable(l, a, b, k);
    SharedLines(Printed(l, a, b, j), Printed(l, a, b, k));
  }

  /** A key `a.b` and a key `b` under `a` are printed alike. */
  lemma DottedKeyShares()
    ensures Shown([Key("a.b")]) == Shown([Key("a"), Key("b")]) == "a.b"
  {
    assert [Key("a.b")][1..] == [] && [Key("a"), Key("b")][1..] == [Key("b")] && [Key("b")][1..] == [];
    assert Line([Key("b")]) == ".b";
    assert Line([Key("a"), Key("b")]) == ".a" + ".b" == ".a.b" == Line([Key("a.b")]);
  }

  /** A setting under a dotted key and one under a key of a key, all of one value. */
  function Twice(x: string, y: string, v: int): Json {
    Obj(map[x + "." + y := Int(v), x := Obj(map[y := Int(v)])])
  }

  lemma JoinedNameable(x: string, y: string)
    requires Identifier(x) && Identifier(y)
    ensures Nameable(x + "." + y) && x + "." + y != x
  {
    var s := x + "." + y;
    assert s[..|x|] == x && s[|x| + 1..] == y && DottedAt(s, |x|);
    assert |s| > |x|;
  }

  lemma TwiceDiffers(x: string, y: string, v: int, w: int)
    requires Identifier(x) && Identifier(y) && v != w
    ensures Differs(Twice(x, y, v), Twice(x, y, w), [x + "." + y]) && Differs(Twice(x, y, v), Twice(x, y, w), [x, y])
  {
    var a, b, k := Twice(x, y, v), Twice(x, y, w), x + "." + y;
    JoinedNameable(x, y);
    assert [k][1..] == [] && [x, y][1..] == [y] && [y][1..] == [];
    assert a.fields[k] == Int(v) && b.fields[k] == Int(w) && Differs(Int(v), Int(w), []);
    assert Differs(Obj(map[y := Int(v)]), Obj(map[y := Int(w)]), [y]);
    assert a.fields[x] == Obj(map[y := Int(v)]) && b.fields[x] == Obj(map[y := Int(w)]);
  }

  lemma TwicePrinted(l: Listing, x: string, y: string, v: int, w: int)
    requires Identifier(x) && Identifier(y) && v != w
    requires Differs(Twice(x, y, v), Twice(x, y, w), [x + "." + y]) && Differs(Twice(x, y, v), Twice(x, y, w), [x, y])
    ensures Printed(l, Twice(x, y, v), Twice(x, y, w), [x + "." + y]) == [Key(x + "." + y)]
    ensures Printed(l, Twice(x, y, v), Twice(x, y, w), [x, y]) == [Key(x), Key(y)]
  {
    var a, b, k := Twice(x, y, v), Twice(x, y, w), x + "." + y;
    JoinedNameable(x, y);
    assert [k][1..] == [] && [x, y][1..] == [y] && [y][1..] == [];
    assert a.fields[k] == Int(v) && b.fields[k] == Int(w);
    assert a.fields[x] == Obj(map[y := Int(v)]) && b.fields[x] == Obj(map[y := Int(w)]);
    assert Printed(l, a.fields[x], b.fields[x], [y]) == [Key(y)];
  }

  lemma TwoShown(ps: seq<Path>, p: Path, q: Path) returns (i: nat, j: nat)
    requires p in ps && q in ps && p != q && Shown(p) == Shown(q)
    ensures i < j < |ps| && AllShown(ps)[i] == AllShown(ps)[j] == Shown(p)
  {
    i :| 0 <= i < |ps| && ps[i] == p;
    j :| 0 <= j < |ps| && ps[j] == q;
    assert AllShown(ps)[i] == AllShown(ps)[j] == Shown(p);
    if i > j { i, j := j, i; }
  }

  /** Two settings that differ, one line printed twice: whoever reads it cannot tell which. */
  lemma LineTwice(l: Listing, x: string, y: string, v: int, w: int) returns (i: nat, j: nat)
    requires Complete(l) && Identifier(x) && Identifier(y) && v != w
    ensures var lines := ProjectionDifferences(l, Twice(x, y, v), Twice(x, y, w));
            i < j < |lines| && lines[i] == lines[j] == x + "." + y
  {
    var a, b := Twice(x, y, v), Twice(x, y, w);
    var p, q := [Key(x + "." + y)], [Key(x), Key(y)];
    TwiceDiffers(x, y, v, w);
    TwicePrinted(l, x, y, v, w);
    PathOfChain(l, a, b, [x + "." + y]);
    PathOfChain(l, a, b, [x, y]);
    OnePrinted(Key(x + "." + y));
    TwoPieces(x, y);
    i, j := TwoShown(Differences(l, a, b, []), p, q);
  }
}
