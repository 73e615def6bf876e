/** What cutting a message keeps of its markup: no partial tag, no partial entity, and every
    element that is left is closed. */
module MessageMarkup {
  import opened Options
  import opened Messages

  datatype Token = Plain(ch: char) | Reference(body: string) | Open(tag: Tag, attributes: string) | Close(tag: Tag)

  predicate Proper(t: Token) {
    match t
    case Plain(ch) => ch !in "<>&"
    case Reference(body) => OpenEnded(body) && '&' !in body
    case Open(_, attributes) => '<' !in attributes && '>' !in attributes && (attributes != "" ==> !Word(attributes[0]))
    case Close(_) => true
  }

  predicate AllProper(ts: seq<Token>) { forall t :: t in ts ==> Proper(t) }

  function Text(t: Token): string {
    match t
    case Plain(ch) => [ch]
    case Reference(body) => "&" + body + ";"
    case Open(tag, attributes) => "<" + TagName(tag) + attributes + ">"
    case Close(tag) => Closing(tag)
  }

  function Flat(parts: seq<string>): string { if parts == [] then "" else parts[0] + Flat(parts[1..]) }

  function Texts(ts: seq<Token>): seq<string> { seq(|ts|, i requires 0 <= i < |ts| => Text(ts[i])) }

  function Render(ts: seq<Token>): string { Flat(Texts(ts)) }

  /** The elements open after the tokens, outermost first; None when a tag is closed out of turn
      or nested inside itself. */
  function Nest(open: seq<Tag>, ts: seq<Token>): Option<seq<Tag>>
    decreases |ts|
  {
    if ts == [] then Some(open)
    else
      match ts[0]
      case Open(t, _) => if t in open then None else Nest(open + [t], ts[1..])
      case Close(t) => if open == [] || open[|open| - 1] != t then None else Nest(open[..|open| - 1], ts[1..])
      case _ => Nest(open, ts[1..])
  }

  predicate WellNested(ts: seq<Token>) { Nest([], ts) == Some([]) }

  lemma {:induction false} NestConcat(open: seq<Tag>, a: seq<Token>, b: seq<Token>)
    ensures Nest(open, a + b) == match Nest(open, a) case None => None case Some(mid) => Nest(mid, b)
    decreases |a|
  {
    if a == [] {
      assert a + b == b;
    } else {
      assert (a + b)[1..] == a[1..] + b;
      match a[0]
      case Open(t, _) => NestConcat(open + [t], a[1..], b);
      case Close(t) => if open != [] { NestConcat(open[..|open| - 1], a[1..], b); }
      case _ => NestConcat(open, a[1..], b);
    }
  }

  /* ----- where the cut falls ----- */

  /** A cut falls between two parts or inside one. */
  lemma {:induction false} CutFalls(parts: seq<string>, n: nat) returns (k: nat, m: nat)
    requires n < |Flat(parts)|
    ensures k < |parts| && m < |parts[k]| && Flat(parts)[..n] == Flat(parts[..k]) + parts[k][..m]
  {
    var first, rest := parts[0], Flat(parts[1..]);
    if n < |first| {
      k, m := 0, n;
      assert (first + rest)[..n] == first[..n];
    } else {
      k, m := CutFalls(parts[1..], n - |first|);
      k := k + 1;
      assert (first + rest)[..n] == first + rest[..n - |first|];
      assert parts[..k][1..] == parts[1..][..k - 1];
    }
  }

  /** Every `<` in the text is closed by its last character, if it has any. */
  predicate TagsClosed(s: string) { '<' !in s || s[|s| - 1] == '>' }

  predicate EntitiesClosed(s: string) { '&' !in s || EndsEntity(s[|s| - 1]) }

  lemma {:induction false} SkipTags(s: string, rest: string)
    requires TagsClosed(s)
    ensures BeforePartialTag(s + rest) == |s| + BeforePartialTag(rest)
  {
    if s == "" {
      assert s + rest == rest;
    } else {
      assert (s + rest)[1..] == s[1..] + rest;
      if s[0] == '<' { assert (s + rest)[|s| - 1] == '>'; }
      if '<' in s[1..] { assert s[|s| - 1] == s[1..][|s| - 2]; }
      SkipTags(s[1..], rest);
    }
  }

  lemma {:induction false} SkipEntities(s: string, rest: string)
    requires EntitiesClosed(s)
    ensures BeforePartialEntity(s + rest) == |s| + BeforePartialEntity(rest)
  {
    if s == "" {
      assert s + rest == rest;
    } else {
      assert (s + rest)[1..] == s[1..] + rest;
      if s[0] == '&' {
        assert s[|s| - 1] != '&';
        assert (s[1..] + rest)[|s| - 2] == s[|s| - 1];
      }
      if '&' in s[1..] { assert s[|s| - 1] == s[1..][|s| - 2]; }
      SkipEntities(s[1..], rest);
    }
  }

  lemma TokenClosed(t: Token)
    requires Proper(t)
    ensures TagsClosed(Text(t)) && EntitiesClosed(Text(t))
  {
    var s := Text(t);
    match t
    case Plain(ch) =>
    case Reference(body) =>
      assert s[|s| - 1] == ';';
      forall ch | ch in s ensures ch != '<' { if ch in body { assert !EndsEntity(ch); } }
    case Open(_, _) => assert s[|s| - 1] == '>';
    case Close(_) => assert s[|s| - 1] == '>';
  }

  lemma {:induction false} SkipParts(parts: seq<string>, rest: string)
    requires forall s :: s in parts ==> TagsClosed(s) && EntitiesClosed(s)
    ensures BeforePartialTag(Flat(parts) + rest) == |Flat(parts)| + BeforePartialTag(rest)
    ensures BeforePartialEntity(Flat(parts) + rest) == |Flat(parts)| + BeforePartialEntity(rest)
  {
    if parts == [] {
      assert Flat(parts) + rest == rest;
    } else {
      var first, more := parts[0], Flat(parts[1..]) + rest;
      assert Flat(parts) + rest == first + more;
      SkipTags(first, more);
      SkipEntities(first, more);
      SkipParts(parts[1..], rest);
    }
  }

  lemma SkipTokens(ts: seq<Token>, rest: string)
    requires AllProper(ts)
    ensures BeforePartialTag(Render(ts) + rest) == |Render(ts)| + BeforePartialTag(rest)
    ensures BeforePartialEntity(Render(ts) + rest) == |Render(ts)| + BeforePartialEntity(rest)
  {
    forall s | s in Texts(ts) ensures TagsClosed(s) && EntitiesClosed(s) {
      var i :| 0 <= i < |ts| && Texts(ts)[i] == s;
      TokenClosed(ts[i]);
    }
    SkipParts(Texts(ts), rest);
  }

  lemma NoTagNoCut(s: string)
    requires '<' !in s
    ensures BeforePartialTag(s) == |s|
  {
    SkipTags(s, "");
    assert s + "" == s;
  }

  /** A partial tag goes whole. */
  lemma PartialTagGoes(s: string, m: nat)
    requires 0 < m < |s| && s[0] == '<' && forall k :: 0 < k < |s| - 1 ==> s[k] != '>'
    ensures BeforePartialTag(s[..m]) == 0
  {
  }

  lemma PartialEntityGoes(body: string, m: nat)
    requires OpenEnded(body) && 0 < m < |body| + 2
    ensures var part := ("&" + body + ";")[..m]; BeforePartialTag(part) == |part| && BeforePartialEntity(part) == 0
  {
    var part := ("&" + body + ";")[..m];
    assert part == "&" + body[..m - 1];
    assert forall ch :: ch in body[..m - 1] ==> ch in body;
    assert part[1..] == body[..m - 1];
    assert EndsEntity('<');
    NoTagNoCut(part);
  }

  lemma NoClose(t: Tag)
    ensures '>' !in TagName(t) && '<' !in TagName(t)
  {
  }

  /** A partial token at the end goes with its tag or its entity. */
  lemma PartialGoes(t: Token, m: nat)
    requires Proper(t) && m < |Text(t)|
    ensures var part := Text(t)[..m]; BeforePartialEntity(part[..BeforePartialTag(part)]) == 0
  {
    if m > 0 {
      var s := Text(t);
      match t
      case Plain(ch) =>
      case Reference(body) =>
        PartialEntityGoes(body, m);
        assert s[..m][..|s[..m]|] == s[..m];
      case Open(tag, attributes) =>
        NoClose(tag);
        assert forall k :: 0 < k < |s| - 1 ==> s[k] == (TagName(tag) + attributes)[k - 1];
        PartialTagGoes(s, m);
      case Close(tag) =>
        NoClose(tag);
        assert forall k :: 0 < k < |s| - 1 ==> s[k] == ("/" + TagName(tag))[k - 1];
        PartialTagGoes(s, m);
    }
  }

  lemma {:induction false} FlatNext(parts: seq<string>, k: nat)
    requires k < |parts|
    ensures Flat(parts[..k + 1]) == Flat(parts[..k]) + parts[k]
  {
    if k == 0 {
      assert parts[..1] == [parts[0]] && parts[..1][1..] == [];
    } else {
      assert parts[..k + 1][1..] == parts[1..][..k] && parts[..k][1..] == parts[1..][..k - 1];
      FlatNext(parts[1..], k - 1);
    }
  }

  lemma RenderNext(ts: seq<Token>, k: nat)
    requires k < |ts|
    ensures Render(ts[..k + 1]) == Render(ts[..k]) + Text(ts[k])
  {
    assert Texts(ts[..k + 1]) == Texts(ts)[..k + 1] && Texts(ts[..k]) == Texts(ts)[..k];
    FlatNext(Texts(ts), k);
  }

  lemma {:induction false} RenderGrows(ts: seq<Token>, i: nat, j: nat)
    requires i <= j <= |ts|
    ensures |Render(ts[..i])| <= |Render(ts[..j])|
    decreases j
  {
    if i < j {
      RenderGrows(ts, i, j - 1);
      RenderNext(ts, j - 1);
    }
  }

  /** The two scans at the end of a cut leave exactly the whole tokens before it. */
  lemma ScansLeaveTokens(ts: seq<Token>, n: nat) returns (k: nat)
    requires AllProper(ts) && n < |Render(ts)|
    ensures k < |ts| && |Render(ts[..k])| <= n
    ensures forall j :: k < j <= |ts| ==> |Render(ts[..j])| > n
    ensures var cut := Render(ts)[..n]; var whole := cut[..BeforePartialTag(cut)];
            whole[..BeforePartialEntity(whole)] == Render(ts[..k])
  {
    var m;
    k, m := CutFalls(Texts(ts), n);
    assert Texts(ts)[..k] == Texts(ts[..k]);
    var kept, part := Render(ts[..k]), Text(ts[k])[..m];
    assert |Render(ts)[..n]| == n == |kept| + m;
    forall j | k < j <= |ts| ensures |Render(ts[..j])| > n {
      RenderNext(ts, k);
      RenderGrows(ts, k + 1, j);
    }
    SkipTokens(ts[..k], part);
    var cut := kept + part;
    var whole := cut[..BeforePartialTag(cut)];
    assert whole == kept + part[..BeforePartialTag(part)];
    SkipTokens(ts[..k], part[..BeforePartialTag(part)]);
    assert ts[k] in ts;
    PartialGoes(ts[k], m);
    assert whole[..|kept|] == kept;
  }

  /* ----- elements the cut left unclosed ----- */

  /** How many tokens stand before the first element that nothing after it closes. */
  function ClosedTokens(ts: seq<Token>): (n: nat)
    ensures n <= |ts|
  {
    if ts == [] || (ts[0].Open? && Close(ts[0].tag) !in ts[1..]) then 0 else 1 + ClosedTokens(ts[1..])
  }

  lemma {:induction false} SkipPlain(s: string, rest: string)
    requires '<' !in s
    ensures BeforeUnclosed(s + rest) == |s| + BeforeUnclosed(rest)
  {
    if s == "" {
      assert s + rest == rest;
    } else {
      assert (s + rest)[1..] == s[1..] + rest && (s + rest)[0] != '<';
      forall t ensures !Opens(s + rest, t) {}
      SkipPlain(s[1..], rest);
    }
  }

  lemma {:induction false} SkipSearch(s: string, rest: string, part: string)
    requires '<' !in s && part != "" && part[0] == '<'
    ensures Contains(s + rest, part) == Contains(rest, part)
  {
    if s == "" {
      assert s + rest == rest;
    } else {
      assert (s + rest)[1..] == s[1..] + rest && (s + rest)[0] != '<';
      SkipSearch(s[1..], rest, part);
    }
  }

  /** A text that starts with one closing tag starts with no other. */
  lemma ClosingIs(t: Tag, u: Tag, rest: string)
    ensures Closing(t) <= Closing(u) + rest <==> t == u
  {
    var s := Closing(u) + rest;
    assert forall k :: 0 <= k < |Closing(u)| ==> s[k] == Closing(u)[k];
    assert s[2] == TagName(u)[0] && Closing(t)[2] == TagName(t)[0];
    assert t != u ==> TagName(t)[0] != TagName(u)[0];
  }

  /** Past its first character a tag holds no `<`. */
  lemma TagTail(t: Token)
    requires Proper(t) && (t.Open? || t.Close?)
    ensures Text(t)[0] == '<' && '<' !in Text(t)[1..]
  {
    var s := Text(t);
    match t
    case Open(tag, attributes) =>
      NoClose(tag);
      assert s[1..] == TagName(tag) + attributes + ">";
    case Close(tag) =>
      NoClose(tag);
      assert s[1..] == "/" + TagName(tag) + ">";
  }

  lemma NoTagInside(t: Token)
    requires Proper(t) && !t.Open? && !t.Close?
    ensures '<' !in Text(t)
  {
    if t.Reference? { assert EndsEntity('<'); }
  }

  lemma SearchTag(x: Token, rest: string, part: string)
    requires Proper(x) && (x.Open? || x.Close?) && part != "" && part[0] == '<'
    ensures Contains(Text(x) + rest, part) <==> part <= Text(x) + rest || Contains(rest, part)
  {
    var s := Text(x) + rest;
    TagTail(x);
    assert s != "" && s[1..] == Text(x)[1..] + rest;
    SkipSearch(Text(x)[1..], rest, part);
  }

  lemma OpenIsNoClosing(x: Token, rest: string, t: Tag)
    requires x.Open?
    ensures !(Closing(t) <= Text(x) + rest)
  {
    assert (Text(x) + rest)[1] == TagName(x.tag)[0] && Closing(t)[1] == '/';
  }

  lemma SearchOne(x: Token, rest: string, t: Tag)
    requires Proper(x)
    ensures Contains(Text(x) + rest, Closing(t)) <==> x == Close(t) || Contains(rest, Closing(t))
  {
    match x
    case Open(_, _) =>
      SearchTag(x, rest, Closing(t));
      OpenIsNoClosing(x, rest, t);
    case Close(u) =>
      SearchTag(x, rest, Closing(t));
      ClosingIs(t, u, rest);
    case _ =>
      NoTagInside(x);
      SkipSearch(Text(x), rest, Closing(t));
  }

  /** Searching the text for a closing tag is searching the tokens for it. */
  lemma {:induction false} SearchTokens(ts: seq<Token>, t: Tag)
    requires AllProper(ts)
    ensures Contains(Render(ts), Closing(t)) <==> Close(t) in ts
  {
    if ts != [] {
      assert Texts(ts)[1..] == Texts(ts[1..]);
      SearchOne(ts[0], Render(ts[1..]), t);
      SearchTokens(ts[1..], t);
      assert ts == [ts[0]] + ts[1..];
    }
  }

  lemma {:induction false} ThroughIs(s: string, rest: string)
    requires '>' !in s
    ensures ThroughTag(s + ">" + rest) == |s| + 1
  {
    if s == "" {
      assert s + ">" + rest == ">" + rest;
    } else {
      assert (s + ">" + rest)[1..] == s[1..] + ">" + rest;
      ThroughIs(s[1..], rest);
    }
  }

  lemma NotOpens(s: string, t: Tag)
    requires |s| > 1 && s[1] != TagName(t)[0]
    ensures !Opens(s, t)
  {
    assert ("<" + TagName(t))[1] == TagName(t)[0];
  }

  lemma OneTagOpens(s: string, tag: Tag)
    requires |s| > 1 && s[1] == TagName(tag)[0] && Opens(s, tag)
    ensures OpeningTag(s) == Some(tag)
  {
    if tag != B { NotOpens(s, B); }
    if tag != I { NotOpens(s, I); }
    if tag != U { NotOpens(s, U); }
    if tag != A { NotOpens(s, A); }
    if tag != Font { NotOpens(s, Font); }
  }

  lemma OpensIs(tag: Tag, name: string, attributes: string, rest: string)
    requires name == TagName(tag) && (attributes != "" ==> !Word(attributes[0]))
    ensures Opens("<" + name + attributes + ">" + rest, tag)
  {
    var s, tail := "<" + name + attributes + ">" + rest, attributes + ">" + rest;
    assert s == "<" + name + tail && s[1 + |name|..] == tail;
    assert tail[|attributes|] == '>';
    assert s[1 + |name|] == tail[0];
  }

  lemma OpeningIs(tag: Tag, attributes: string, rest: string)
    requires Proper(Open(tag, attributes))
    ensures var s := Text(Open(tag, attributes)) + rest;
            OpeningTag(s) == Some(tag) && ThroughTag(s) == |Text(Open(tag, attributes))|
  {
    var name := TagName(tag);
    var s := Text(Open(tag, attributes)) + rest;
    NoClose(tag);
    OpensIs(tag, name, attributes, rest);
    assert s[1] == name[0];
    OneTagOpens(s, tag);
    ThroughIs("<" + name + attributes, rest);
  }

  lemma ClosingOpensNothing(tag: Tag, rest: string)
    ensures OpeningTag(Closing(tag) + rest) == None
  {
    var s := Closing(tag) + rest;
    assert s[1] == '/';
    forall t ensures !Opens(s, t) { NotOpens(s, t); }
  }

  lemma ScanOpen(x: Token, rest: string)
    requires Proper(x) && x.Open?
    ensures BeforeUnclosed(Text(x) + rest) ==
              if !Contains(rest, Closing(x.tag)) then 0 else |Text(x)| + BeforeUnclosed(rest)
  {
    var s := Text(x) + rest;
    OpeningIs(x.tag, x.attributes, rest);
    assert s != "" && s[|Text(x)|..] == rest;
  }

  lemma ScanClose(x: Token, rest: string)
    requires Proper(x) && x.Close?
    ensures BeforeUnclosed(Text(x) + rest) == |Text(x)| + BeforeUnclosed(rest)
  {
    var s, tail := Text(x) + rest, Text(x)[1..];
    ClosingOpensNothing(x.tag, rest);
    TagTail(x);
    assert s != "" && s[1..] == tail + rest;
    SkipPlain(tail, rest);
  }

  /** One token of the scan for unclosed elements. */
  lemma ScanOne(x: Token, rest: string)
    requires Proper(x)
    ensures BeforeUnclosed(Text(x) + rest) ==
              if x.Open? && !Contains(rest, Closing(x.tag)) then 0 else |Text(x)| + BeforeUnclosed(rest)
  {
    match x
    case Open(_, _) => ScanOpen(x, rest);
    case Close(_) => ScanClose(x, rest);
    case _ =>
      NoTagInside(x);
      SkipPlain(Text(x), rest);
  }

  lemma RenderFirst(ts: seq<Token>)
    requires ts != []
    ensures Render(ts) == Text(ts[0]) + Render(ts[1..])
  {
    assert Texts(ts)[1..] == Texts(ts[1..]);
  }

  lemma RenderCut(ts: seq<Token>, n: nat)
    requires 0 < n <= |ts|
    ensures Render(ts[..n]) == Text(ts[0]) + Render(ts[1..][..n - 1])
  {
    RenderFirst(ts[..n]);
    assert ts[..n][1..] == ts[1..][..n - 1];
  }

  lemma SlicesMeet(first: string, rest: string, k: nat)
    requires k <= |rest|
    ensures (first + rest)[..|first| + k] == first + rest[..k]
  {
  }

  /** The text one token in front of a rest leaves to the scan. */
  lemma ScanStep(x: Token, rest: string, closed: bool)
    requires Proper(x) && (x.Open? ==> closed == Contains(rest, Closing(x.tag)))
    ensures var s := Text(x) + rest;
            s[..BeforeUnclosed(s)] == if x.Open? && !closed then "" else Text(x) + rest[..BeforeUnclosed(rest)]
  {
    ScanOne(x, rest);
    SlicesMeet(Text(x), rest, BeforeUnclosed(rest));
  }

  /** The first token goes with everything after it, or is left in front of what the scan finds there. */
  lemma ScanFirst(ts: seq<Token>)
    requires AllProper(ts) && ts != []
    ensures var s, rest := Render(ts), Render(ts[1..]);
            s[..BeforeUnclosed(s)] == if ClosedTokens(ts) == 0 then "" else Text(ts[0]) + rest[..BeforeUnclosed(rest)]
  {
    var x := ts[0];
    RenderFirst(ts);
    SearchTokens(ts[1..], if x.Open? then x.tag else B);
    ScanStep(x, Render(ts[1..]), x.Open? && Close(x.tag) in ts[1..]);
  }

  /** The scan for unclosed elements, on tokens. */
  lemma {:induction false} ScanTokens(ts: seq<Token>)
    requires AllProper(ts)
    ensures Render(ts)[..BeforeUnclosed(Render(ts))] == Render(ts[..ClosedTokens(ts)])
  {
    if ts != [] {
      ScanFirst(ts);
      if ClosedTokens(ts) > 0 {
        ScanTokens(ts[1..]);
        RenderCut(ts, ClosedTokens(ts));
      }
    }
  }

  /* ----- nesting ----- */

  /** No element is open twice. */
  predicate Separate(open: seq<Tag>) { forall i, j :: 0 <= i < j < |open| ==> open[i] != open[j] }

  /** An open element stays open until its closing tag comes. */
  lemma {:induction false} StaysOpen(open: seq<Tag>, ts: seq<Token>, t: Tag)
    requires t in open && Close(t) !in ts && Nest(open, ts).Some?
    ensures t in Nest(open, ts).value
    ensures open[0] == t ==> Nest(open, ts).value[0] == t
    decreases |ts|
  {
    if ts != [] {
      var rest := ts[1..];
      match ts[0]
      case Open(u, _) => StaysOpen(open + [u], rest, t);
      case Close(u) =>
        assert u != t && open[..|open| - 1] + [u] == open;
        StaysOpen(open[..|open| - 1], rest, t);
      case _ => StaysOpen(open, rest, t);
    }
  }

  lemma {:induction false} StaysSeparate(open: seq<Tag>, ts: seq<Token>)
    requires Separate(open) && Nest(open, ts).Some?
    ensures Separate(Nest(open, ts).value)
    decreases |ts|
  {
    if ts != [] {
      match ts[0]
      case Open(u, _) => StaysSeparate(open + [u], ts[1..]);
      case Close(u) => StaysSeparate(open[..|open| - 1], ts[1..]);
      case _ => StaysSeparate(open, ts[1..]);
    }
  }

  /** Within a stretch where an outer element stays open, whatever opens and is never closed is still
      open at the end. */
  lemma {:induction false} UnclosedStays(open: seq<Tag>, ts: seq<Token>, i: nat)
    requires Nest(open, ts).Some? && i < |ts| && ts[i].Open? && Close(ts[i].tag) !in ts[i + 1..]
    ensures ts[i].tag in Nest(open, ts).value
    ensures forall t :: t in open && Close(t) !in ts ==> t != ts[i].tag
  {
    var before, t := ts[..i], ts[i].tag;
    assert ts == before + ([ts[i]] + ts[i + 1..]);
    NestConcat(open, before, [ts[i]] + ts[i + 1..]);
    var mid := Nest(open, before).value;
    assert ([ts[i]] + ts[i + 1..])[1..] == ts[i + 1..];
    StaysOpen(mid + [t], ts[i + 1..], t);
    forall u | u in open && Close(u) !in ts ensures u != t {
      assert forall x :: x in before ==> x in ts;
      StaysOpen(open, before, u);
    }
  }

  /** The position of the first closing tag of an element. */
  lemma {:induction false} FirstClose(ts: seq<Token>, t: Tag) returns (q: nat)
    requires Close(t) in ts
    ensures q < |ts| && ts[q] == Close(t) && Close(t) !in ts[..q]
  {
    if ts[0] == Close(t) {
      q := 0;
    } else {
      assert ts == [ts[0]] + ts[1..];
      q := FirstClose(ts[1..], t);
      q := q + 1;
      assert ts[..q] == [ts[0]] + ts[1..][..q - 1];
    }
  }

  lemma OnlyOne(open: seq<Tag>, t: Tag)
    requires Separate(open) && open != [] && open[0] == t && open[|open| - 1] == t
    ensures open == [t]
  {
  }

  lemma CloseThen(open: seq<Tag>, t: Tag, after: seq<Token>)
    requires Nest(open, [Close(t)] + after).Some?
    ensures open != [] && open[|open| - 1] == t && Nest(open, [Close(t)] + after) == Nest(open[..|open| - 1], after)
  {
    assert ([Close(t)] + after)[1..] == after;
  }

  /** An element that is closed is closed with nothing left open inside it. */
  lemma ElementEnds(inside: seq<Token>, t: Tag, after: seq<Token>)
    requires Close(t) !in inside && Nest([t], inside + ([Close(t)] + after)).Some?
    ensures Nest([t], inside) == Some([t])
    ensures Nest([t], inside + ([Close(t)] + after)) == Nest([], after)
  {
    NestConcat([t], inside, [Close(t)] + after);
    var open := Nest([t], inside).value;
    StaysOpen([t], inside, t);
    StaysSeparate([t], inside);
    CloseThen(open, t, after);
    OnlyOne(open, t);
    assert [t][..0] == [];
  }

  /** A closed element and what it holds are all kept. */
  lemma {:induction false} ClosedSpan(ts: seq<Token>, n: nat)
    requires n <= |ts|
    requires forall i :: 0 <= i < n && ts[i].Open? ==> Close(ts[i].tag) in ts[i + 1..]
    ensures ClosedTokens(ts) == n + ClosedTokens(ts[n..])
  {
    if n > 0 {
      assert ts[0].Open? ==> Close(ts[0].tag) in ts[1..];
      forall i | 0 <= i < n - 1 && ts[1..][i].Open? ensures Close(ts[1..][i].tag) in ts[1..][i + 1..] {
        assert ts[1..][i + 1..] == ts[i + 2..] && ts[1..][i] == ts[i + 1];
      }
      ClosedSpan(ts[1..], n - 1);
      assert ts[1..][n - 1..] == ts[n..];
    }
  }

  lemma InsideCloses(ts: seq<Token>, t: Tag, q: nat, i: nat)
    requires i < q < |ts| && ts[i].Open? && Close(t) !in ts[..q] && Nest([t], ts[..q]) == Some([t])
    ensures Close(ts[i].tag) in ts[i + 1..]
  {
    if Close(ts[i].tag) !in ts[i + 1..q] {
      assert ts[..q][i] == ts[i] && ts[..q][i + 1..] == ts[i + 1..q];
      UnclosedStays([t], ts[..q], i);
    }
  }

  /** A complete element followed by well-nested text is well-nested. */
  lemma ElementThen(x: Token, inside: seq<Token>, after: seq<Token>)
    requires x.Open? && Nest([x.tag], inside) == Some([x.tag]) && WellNested(after)
    ensures WellNested([x] + (inside + ([Close(x.tag)] + after)))
  {
    var tail := [Close(x.tag)] + after;
    NestConcat([x.tag], inside, tail);
    assert tail[1..] == after && [x.tag][..0] == [];
    assert Nest([x.tag], tail) == Nest([], after);
    assert ([x] + (inside + tail))[1..] == inside + tail;
    assert [] + [x.tag] == [x.tag];
  }

  lemma InsideSlices(inside: seq<Token>, c: Token, after: seq<Token>)
    ensures var rest := inside + ([c] + after);
            rest[|inside|] == c && rest[..|inside|] == inside && rest[|inside| + 1..] == after && c in rest
  {
    assert (inside + ([c] + after))[|inside|] == c;
  }

  /** Every element that opens before the closing tag is closed. */
  lemma InsideAllClose(t: Tag, inside: seq<Token>, after: seq<Token>)
    requires Close(t) !in inside && Nest([t], inside) == Some([t])
    ensures var rest := inside + ([Close(t)] + after);
            forall i :: 0 <= i < |inside| + 1 && rest[i].Open? ==> Close(rest[i].tag) in rest[i + 1..]
  {
    var rest := inside + ([Close(t)] + after);
    InsideSlices(inside, Close(t), after);
    forall i | 0 <= i < |inside| + 1 && rest[i].Open? ensures Close(rest[i].tag) in rest[i + 1..] {
      InsideCloses(rest, t, |inside|, i);
    }
  }

  lemma FirstKept(x: Token, rest: seq<Token>)
    requires x.Open? ==> Close(x.tag) in rest
    ensures ClosedTokens([x] + rest) == 1 + ClosedTokens(rest)
  {
    assert ([x] + rest)[1..] == rest;
  }

  /** A closed element at the front is kept whole. */
  lemma FrontKept(x: Token, inside: seq<Token>, after: seq<Token>)
    requires x.Open? && Close(x.tag) !in inside && Nest([x.tag], inside) == Some([x.tag])
    ensures var ts := [x] + (inside + ([Close(x.tag)] + after)); ClosedTokens(ts) == |inside| + 2 + ClosedTokens(after)
  {
    var rest := inside + ([Close(x.tag)] + after);
    InsideAllClose(x.tag, inside, after);
    InsideSlices(inside, Close(x.tag), after);
    ClosedSpan(rest, |inside| + 1);
    FirstKept(x, rest);
  }

  /** The front element, its inside, its closing tag and what follows. */
  lemma Divided(ts: seq<Token>, q: nat)
    requires ts != [] && ts[0].Open? && q < |ts| - 1 && ts[1..][q] == Close(ts[0].tag)
    ensures ts[1..] == ts[1..][..q] + ([Close(ts[0].tag)] + ts[q + 2..])
    ensures ts == [ts[0]] + (ts[1..][..q] + ([Close(ts[0].tag)] + ts[q + 2..]))
  {
  }

  lemma FrontCut(x: Token, inside: seq<Token>, after: seq<Token>, n: nat)
    requires x.Open? && n <= |after|
    ensures ([x] + (inside + ([Close(x.tag)] + after)))[..|inside| + 2 + n] ==
              [x] + (inside + ([Close(x.tag)] + after[..n]))
  {
  }

  lemma OpenedFirst(x: Token, rest: seq<Token>)
    requires x.Open?
    ensures Nest([], [x] + rest) == Nest([x.tag], rest)
  {
    assert ([x] + rest)[1..] == rest && [] + [x.tag] == [x.tag];
  }

  /** With a closed element in front, what follows the element decides. */
  lemma ElementFirst(x: Token, inside: seq<Token>, after: seq<Token>)
    requires x.Open? && Close(x.tag) !in inside
    requires Nest([], [x] + (inside + ([Close(x.tag)] + after))).Some?
    ensures Nest([], after).Some?
    ensures WellNested(after[..ClosedTokens(after)]) ==>
              var ts := [x] + (inside + ([Close(x.tag)] + after)); WellNested(ts[..ClosedTokens(ts)])
  {
    OpenedFirst(x, inside + ([Close(x.tag)] + after));
    ElementEnds(inside, x.tag, after);
    FrontKept(x, inside, after);
    var n := ClosedTokens(after);
    FrontCut(x, inside, after, n);
    if WellNested(after[..n]) { ElementThen(x, inside, after[..n]); }
  }

  /** Text in front changes nothing. */
  lemma TextFirst(x: Token, rest: seq<Token>)
    requires !x.Open? && Nest([], [x] + rest).Some?
    ensures Nest([], rest).Some?
    ensures WellNested(rest[..ClosedTokens(rest)]) ==> WellNested(([x] + rest)[..ClosedTokens([x] + rest)])
  {
    var ts := [x] + rest;
    assert ts[1..] == rest;
    assert ts[..ClosedTokens(ts)][1..] == rest[..ClosedTokens(rest)];
  }

  /** What stands before the first unclosed element of a cut is well-nested. */
  lemma {:induction false} ClosedIsNested(ts: seq<Token>)
    requires Nest([], ts).Some?
    ensures WellNested(ts[..ClosedTokens(ts)])
    decreases |ts|
  {
    if ts == [] {
    } else if !ts[0].Open? {
      assert ts == [ts[0]] + ts[1..];
      TextFirst(ts[0], ts[1..]);
      ClosedIsNested(ts[1..]);
    } else if Close(ts[0].tag) in ts[1..] {
      var q := FirstClose(ts[1..], ts[0].tag);
      Divided(ts, q);
      ElementFirst(ts[0], ts[1..][..q], ts[q + 2..]);
      ClosedIsNested(ts[q + 2..]);
    }
  }

  lemma PrefixNests(ts: seq<Token>, k: nat)
    requires k <= |ts| && Nest([], ts).Some?
    ensures Nest([], ts[..k]).Some?
  {
    assert ts == ts[..k] + ts[k..];
    NestConcat([], ts[..k], ts[k..]);
  }

  /** What stands before an element that nothing in the tokens closes, and the element itself. */
  ghost predicate CutsBefore(ts: seq<Token>, k: nat) {
    && k <= |ts| && (k < |ts| ==> ts[k].Open? && Close(ts[k].tag) !in ts[k + 1..])
    && forall i :: 0 <= i < k && ts[i].Open? ==> Close(ts[i].tag) in ts[i + 1..]
  }

  lemma {:induction false} ClosedTokensIs(ts: seq<Token>)
    ensures CutsBefore(ts, ClosedTokens(ts))
  {
    if ts != [] && !(ts[0].Open? && Close(ts[0].tag) !in ts[1..]) {
      var k := ClosedTokens(ts[1..]);
      ClosedTokensIs(ts[1..]);
      assert k < |ts| - 1 ==> ts[1..][k] == ts[k + 1] && ts[1..][k + 1..] == ts[k + 2..];
      forall i | 0 <= i < k + 1 && ts[i].Open? ensures Close(ts[i].tag) in ts[i + 1..] {
        if i > 0 { assert ts[1..][i - 1] == ts[i] && ts[1..][i..] == ts[i + 1..]; }
      }
    }
  }

  lemma OneLineKept(lines: seq<string>)
    requires lines != [] && |lines[0]| > MAX_MESSAGE_CHARACTERS
    ensures Kept(lines) == [lines[0]] && Join(Kept(lines)) == lines[0]
  {
    var n := KeptIs(lines);
    JoinGrows(lines[..n], 1);
    assert lines[..n][..1] == [lines[0]];
  }

  /** A first line that is too long keeps its longest token prefix that leaves room for the marker, cut
      back to before the first element opened in that prefix that nothing in it closes. */
  lemma CutKeeps(lines: seq<string>, ts: seq<Token>) returns (m: nat, k: nat)
    requires lines != [] && lines[0] == Render(ts) && AllProper(ts) && |lines[0]| > MAX_MESSAGE_CHARACTERS
    ensures m <= |ts| && |Render(ts[..m])| < MAX_MESSAGE_CHARACTERS
    ensures forall j :: m < j <= |ts| ==> |Render(ts[..j])| >= MAX_MESSAGE_CHARACTERS
    ensures CutsBefore(ts[..m], k) && Fit(lines) == Render(ts[..k]) + ELLIPSIS
  {
    OneLineKept(lines);
    m := ScansLeaveTokens(ts, MAX_MESSAGE_CHARACTERS - 1);
    assert forall t :: t in ts[..m] ==> t in ts;
    ScanTokens(ts[..m]);
    k := ClosedTokens(ts[..m]);
    ClosedTokensIs(ts[..m]);
    assert ts[..m][..k] == ts[..k];
  }

  /** An element that nothing closes keeps every longer prefix from being well-nested. */
  lemma UnclosedSpoils(ts: seq<Token>, m: nat, k: nat, j: nat)
    requires k < j <= m <= |ts| && CutsBefore(ts[..m], k)
    ensures !WellNested(ts[..j])
  {
    assert ts[..j][k] == ts[..m][k] && ts[..j][k + 1..] == ts[..m][k + 1..][..j - k - 1];
    if Nest([], ts[..j]).Some? { UnclosedStays([], ts[..j], k); }
  }

  /** A well-nested first line that is too long is cut to its longest well-nested token prefix that
      leaves room for the marker: no partial tag, no partial entity, nothing left open. */
  lemma CutIsWellNested(lines: seq<string>, ts: seq<Token>) returns (k: nat)
    requires lines != [] && lines[0] == Render(ts) && AllProper(ts) && WellNested(ts)
    requires |lines[0]| > MAX_MESSAGE_CHARACTERS
    ensures k <= |ts| && Fit(lines) == Render(ts[..k]) + ELLIPSIS && WellNested(ts[..k])
    ensures |Render(ts[..k])| < MAX_MESSAGE_CHARACTERS
    ensures forall j :: k < j <= |ts| && WellNested(ts[..j]) ==> |Render(ts[..j])| >= MAX_MESSAGE_CHARACTERS
  {
    var m;
    m, k := CutKeeps(lines, ts);
    PrefixNests(ts, m);
    ClosedIsNested(ts[..m]);
    CutsAtOnePlace(ts[..m], k);
    assert ts[..m][..k] == ts[..k];
    RenderGrows(ts, k, m);
    forall j | k < j <= |ts| && WellNested(ts[..j]) ensures |Render(ts[..j])| >= MAX_MESSAGE_CHARACTERS {
      if j <= m { UnclosedSpoils(ts, m, k, j); }
    }
  }

  lemma CutsAtOnePlace(ts: seq<Token>, k: nat)
    requires CutsBefore(ts, k)
    ensures k == ClosedTokens(ts)
  {
    ClosedTokensIs(ts);
  }

  lemma {:induction false} NoEntityNoCut(s: string)
    requires '&' !in s
    ensures BeforePartialEntity(s) == |s|
  {
    if s != "" { NoEntityNoCut(s[1..]); }
  }

  /** Text with neither tag nor entity keeps everything up to the marker. */
  lemma PlainCut(lines: seq<string>)
    requires lines != [] && |lines[0]| > MAX_MESSAGE_CHARACTERS
    requires var cut := lines[0][..MAX_MESSAGE_CHARACTERS - 1]; '<' !in cut && '&' !in cut
    ensures Fit(lines) == lines[0][..MAX_MESSAGE_CHARACTERS - 1] + ELLIPSIS
  {
    var cut := lines[0][..MAX_MESSAGE_CHARACTERS - 1];
    OneLineKept(lines);
    NoTagNoCut(cut);
    NoEntityNoCut(cut);
    SkipPlain(cut, "");
    assert cut + "" == cut && cut[..|cut|] == cut;
  }

  /* ----- escaped values ----- */

  function EscapedToken(ch: char): Token {
    match ch
    case '&' => Reference("amp")
    case '<' => Reference("lt")
    case '>' => Reference("gt")
    case '"' => Reference("quot")
    case '\'' => Reference("#x27")
    case _ => Plain(ch)
  }

  function EscapedTokens(s: string): seq<Token> { seq(|s|, i requires 0 <= i < |s| => EscapedToken(s[i])) }

  lemma ReferenceProper(body: string)
    requires body in ["amp", "lt", "gt", "quot", "#x27"]
    ensures Proper(Reference(body))
  {
  }

  lemma EscapedTokenIs(ch: char)
    ensures Proper(EscapedToken(ch)) && Text(EscapedToken(ch)) == Entity(ch)
    ensures !EscapedToken(ch).Open? && !EscapedToken(ch).Close?
  {
    if EscapedToken(ch).Reference? { ReferenceProper(EscapedToken(ch).body); }
  }

  /** An escaped value is text and entities only, so it can stand anywhere in a message without
      opening, closing or breaking an element. */
  lemma {:induction false} EscapedIsText(s: string, open: seq<Tag>)
    ensures Escape(s) == Render(EscapedTokens(s)) && AllProper(EscapedTokens(s))
    ensures Nest(open, EscapedTokens(s)) == Some(open)
  {
    if s != "" {
      var ts, rest := EscapedTokens(s), EscapedTokens(s[1..]);
      EscapedIsText(s[1..], open);
      EscapedTokenIs(s[0]);
      assert ts == [EscapedToken(s[0])] + rest && ts[1..] == rest;
      assert Texts(ts)[1..] == Texts(rest);
    }
  }
}
