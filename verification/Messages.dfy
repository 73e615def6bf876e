/** Fitting an HTML message into the 1024 characters the notification service takes. */
module Messages {
  import opened Options

  const MAX_MESSAGE_CHARACTERS: nat := 1024
  const ELLIPSIS := "\U{2026}"

  /* ----- escaping ----- */

  function Entity(ch: char): string {
    match ch
    case '&' => "&amp;"
    case '<' => "&lt;"
    case '>' => "&gt;"
    case '"' => "&quot;"
    case '\'' => "&#x27;"
    case _ => [ch]
  }

  function Escape(s: string): string { if s == "" then "" else Entity(s[0]) + Escape(s[1..]) }

  lemma {:induction false} EscapeGrows(s: string, n: nat)
    requires n <= |s|
    ensures |Escape(s[..n])| <= |Escape(s)|
  {
    if n > 0 {
      assert s[..n][1..] == s[1..][..n - 1];
      EscapeGrows(s[1..], n - 1);
    }
  }

  predicate EscapesWithin(s: string, n: nat, bound: nat) { n <= |s| && |Escape(s[..n])| <= bound }

  /** `html_escape`: the longest prefix of the bounded value whose escaped form fits. */
  method HtmlEscape(value: string, maximum: nat, escapedMaximum: nat) returns (escaped: string, ghost n: nat)
    ensures n <= |value| && n <= maximum && escaped == Escape(value[..n]) && |escaped| <= escapedMaximum
    ensures forall m: nat :: n < m <= |value| && m <= maximum ==> !EscapesWithin(value, m, escapedMaximum)
  {
    var bounded := if |value| > maximum then value[..maximum] else value;
    escaped := Escape(bounded);
    while bounded != "" && |escaped| > escapedMaximum
      invariant |bounded| <= |value| && |bounded| <= maximum && bounded == value[..|bounded|] &&
          escaped == Escape(bounded)
      invariant forall m: nat :: |bounded| < m <= |value| && m <= maximum ==> !EscapesWithin(value, m, escapedMaximum)
      decreases |bounded|
    {
      assert bounded[..|bounded| - 1] == value[..|bounded| - 1];
      bounded := bounded[..|bounded| - 1];
      escaped := Escape(bounded);
    }
    n := |bounded|;
  }

  /** Reading the entities back. */
  function Unescape(s: string): string
    decreases |s|
  {
    if s == "" then ""
    else if "&amp;" <= s then "&" + Unescape(s[5..])
    else if "&lt;" <= s then "<" + Unescape(s[4..])
    else if "&gt;" <= s then ">" + Unescape(s[4..])
    else if "&quot;" <= s then "\"" + Unescape(s[6..])
    else if "&#x27;" <= s then "'" + Unescape(s[6..])
    else [s[0]] + Unescape(s[1..])
  }

  lemma EntityRead(ch: char, rest: string)
    requires ch in "&<>\"'"
    ensures Unescape(Entity(ch) + rest) == [ch] + Unescape(rest)
  {
    var e := Entity(ch);
    var all := e + rest;
    assert all[|e|..] == rest && e <= all;
    assert all[1] == e[1];
    if ch != '&' { assert !("&amp;" <= all); }
    if ch !in "&<" { assert !("&lt;" <= all); }
    if ch !in "&<>" { assert !("&gt;" <= all); }
    if ch == '\'' { assert !("&quot;" <= all); }
  }

  lemma CharRead(ch: char, rest: string)
    requires ch != '&'
    ensures Unescape([ch] + rest) == [ch] + Unescape(rest)
  {
    var all := [ch] + rest;
    assert all[0] == ch && all[1..] == rest;
  }

  predicate Inert(s: string) { forall ch :: ch in s ==> ch !in "<>\"'" }

  lemma EntityInert(ch: char)
    ensures Inert(Entity(ch))
  {
  }

  /** Nothing is lost, and nothing that could be markup is left. */
  lemma {:induction false} EscapeRoundTrip(s: string)
    ensures Unescape(Escape(s)) == s && Inert(Escape(s))
  {
    if s != "" {
      EscapeRoundTrip(s[1..]);
      EntityInert(s[0]);
      assert s == [s[0]] + s[1..];
      if s[0] in "&<>\"'" { EntityRead(s[0], Escape(s[1..])); } else { CharRead(s[0], Escape(s[1..])); }
    }
  }

  /* ----- fitting ----- */

  function Join(lines: seq<string>): string {
    if lines == [] then "" else if |lines| == 1 then lines[0] else lines[0] + "\n" + Join(lines[1..])
  }

  function Kept(lines: seq<string>): seq<string> {
    if |lines| <= 1 || |Join(lines)| <= MAX_MESSAGE_CHARACTERS then lines else Kept(lines[..|lines| - 1])
  }

  /** How much of the text stands before a partial tag at its end: the first `<` with no `>` after it. */
  function BeforePartialTag(s: string): (n: nat)
    ensures n <= |s|
  {
    if s == "" || (s[0] == '<' && '>' !in s) then 0 else 1 + BeforePartialTag(s[1..])
  }

  /** The white space of Unicode. */
  predicate Space(ch: char) {
    || '\t' <= ch <= '\r' || '\U{1c}' <= ch <= ' ' || ch == '\U{85}' || ch == '\U{a0}' || ch == '\U{1680}'
    || '\U{2000}' <= ch <= '\U{200a}' || ch == '\U{2028}' || ch == '\U{2029}' || ch == '\U{202f}' || ch == '\U{205f}'
    || ch == '\U{3000}'
  }

  predicate EndsEntity(ch: char) { ch in ";<>" || Space(ch) }

  predicate OpenEnded(s: string) { forall ch :: ch in s ==> !EndsEntity(ch) }

  /** How much stands before a partial entity at the end. */
  function BeforePartialEntity(s: string): (n: nat)
    ensures n <= |s|
  {
    if s == "" || (s[0] == '&' && OpenEnded(s[1..])) then 0 else 1 + BeforePartialEntity(s[1..])
  }

  datatype Tag = B | I | U | A | Font

  function TagName(t: Tag): string {
    match t case B => "b" case I => "i" case U => "u" case A => "a" case Font => "font"
  }

  predicate Word(ch: char) { 'a' <= ch <= 'z' || 'A' <= ch <= 'Z' || '0' <= ch <= '9' || ch == '_' }

  /** A tag of this name opens at the start of the text, its `>` included. */
  predicate Opens(s: string, t: Tag) {
    var n := 1 + |TagName(t)|;
    "<" + TagName(t) <= s && n < |s| && !Word(s[n]) && '>' in s[n..]
  }

  function OpeningTag(s: string): Option<Tag> {
    if Opens(s, B) then Some(B) else if Opens(s, I) then Some(I) else if Opens(s, U) then Some(U)
    else if Opens(s, A) then Some(A) else if Opens(s, Font) then Some(Font) else None
  }

  /** The text up to and including the first `>`. */
  function ThroughTag(s: string): (n: nat)
    ensures n <= |s| && ('>' in s ==> n > 0)
  {
    if s == "" then 0 else if s[0] == '>' then 1 else 1 + ThroughTag(s[1..])
  }

  function Closing(t: Tag): string { "</" + TagName(t) + ">" }

  predicate Contains(s: string, part: string) { part <= s || (s != "" && Contains(s[1..], part)) }

  /** How much stands before the first opening tag that nothing after it closes. */
  function BeforeUnclosed(s: string): (n: nat)
    ensures n <= |s|
    decreases |s|
  {
    if s == "" then 0
    else
      match OpeningTag(s)
      case None => 1 + BeforeUnclosed(s[1..])
      case Some(t) =>
        var e := ThroughTag(s);
        if !Contains(s[e..], Closing(t)) then 0 else e + BeforeUnclosed(s[e..])
  }

  function Cut(message: string): string
    requires |message| > MAX_MESSAGE_CHARACTERS
  {
    var cut := message[..MAX_MESSAGE_CHARACTERS - 1];
    var whole := cut[..BeforePartialTag(cut)];
    var plain := whole[..BeforePartialEntity(whole)];
    plain[..BeforeUnclosed(plain)] + ELLIPSIS
  }

  function Fit(lines: seq<string>): string {
    var message := Join(Kept(lines));
    if |message| <= MAX_MESSAGE_CHARACTERS then message else Cut(message)
  }

  /** `fit_message`. */
  method FitMessage(lines: seq<string>) returns (r: string)
    ensures r == Fit(lines)
  {
    var kept := lines;
    while |kept| > 1 && |Join(kept)| > MAX_MESSAGE_CHARACTERS
      invariant Kept(kept) == Kept(lines)
    {
      kept := kept[..|kept| - 1];
    }
    var message := Join(kept);
    r := if |message| <= MAX_MESSAGE_CHARACTERS then message else Cut(message);
  }

  /** The message never exceeds the bound. */
  lemma FitBound(lines: seq<string>)
    ensures |Fit(lines)| <= MAX_MESSAGE_CHARACTERS
  {
  }

  lemma {:induction false} JoinGrows(lines: seq<string>, k: nat)
    requires k <= |lines|
    ensures |Join(lines[..k])| <= |Join(lines)|
  {
    if k > 0 && |lines| > 1 {
      assert lines[..k][1..] == lines[1..][..k - 1];
      JoinGrows(lines[1..], k - 1);
    }
  }

  /** Longest prefix of the lines that fits, as long as the first line does. */
  lemma {:induction false} KeptIs(lines: seq<string>) returns (k: nat)
    ensures k <= |lines| && Kept(lines) == lines[..k]
    ensures lines != [] ==> k > 0
    ensures k > 1 ==> |Join(lines[..k])| <= MAX_MESSAGE_CHARACTERS
    ensures forall m: nat :: k < m <= |lines| ==> |Join(lines[..m])| > MAX_MESSAGE_CHARACTERS
  {
    if |lines| <= 1 || |Join(lines)| <= MAX_MESSAGE_CHARACTERS {
      k := |lines|;
      assert lines[..k] == lines;
    } else {
      var front := lines[..|lines| - 1];
      k := KeptIs(front);
      assert front[..k] == lines[..k];
      forall m: nat | k < m <= |lines| ensures |Join(lines[..m])| > MAX_MESSAGE_CHARACTERS {
        if m < |lines| { assert front[..m] == lines[..m]; } else { assert lines[..m] == lines; }
      }
    }
  }

  /** With a first line that fits, the message is the lines themselves, as many from the first as fit. */
  lemma FitKeeps(lines: seq<string>) returns (k: nat)
    requires lines != [] ==> |lines[0]| <= MAX_MESSAGE_CHARACTERS
    ensures k <= |lines| && Fit(lines) == Join(lines[..k]) && |Join(lines[..k])| <= MAX_MESSAGE_CHARACTERS
    ensures forall m: nat :: k < m <= |lines| ==> |Join(lines[..m])| > MAX_MESSAGE_CHARACTERS
  {
    k := KeptIs(lines);
    if k == 1 { assert lines[..k] == [lines[0]]; }
  }

  /** Nothing is sent exactly when there is nothing, or the first line is empty and the second
      cannot follow it: a blank first line hides all that comes after it. */
  lemma FitEmpty(lines: seq<string>)
    ensures Fit(lines) == "" <==>
              lines == [] || (lines[0] == "" && (|lines| == 1 || |lines[1]| >= MAX_MESSAGE_CHARACTERS))
  {
    var k := KeptIs(lines);
    if |lines| >= 2 {
      assert lines[..2][1..] == [lines[1]];
      assert Join(lines[..2]) == lines[0] + "\n" + lines[1];
    }
    if k >= 2 {
      JoinGrows(lines[..k], 2);
      assert lines[..k][..2] == lines[..2];
    }
  }

  /** Two lines, the second of 1024 characters: there is something to send, and nothing is. */
  lemma SomethingBecomesNothing()
    ensures var lines := ["", seq(MAX_MESSAGE_CHARACTERS, i => 'x')]; Join(lines) != "" && Fit(lines) == ""
  {
    var text := seq(MAX_MESSAGE_CHARACTERS, i => 'x');
    var lines := ["", text];
    FitEmpty(lines);
    assert lines[1..] == [text] && Join(lines) == "" + "\n" + Join([text]);
  }

  /* ----- composing ----- */

  function Lines(lead: string, details: seq<string>, closing: string): seq<string> {
    [lead] + (if details == [] then [] else [""] + details) + if closing == "" then [] else ["", closing]
  }

  predicate Roomy(lead: string, details: seq<string>, closing: string) {
    |Join(Lines(lead, details, closing))| <= MAX_MESSAGE_CHARACTERS
  }

  /** `compose_message`: as many details, from the first, as leave the whole within the bound. */
  method ComposeMessage(lead: string, details: seq<string>, closing: string) returns (r: string, ghost k: nat)
    ensures k <= |details| && r == Fit(Lines(lead, details[..k], closing)) && |r| <= MAX_MESSAGE_CHARACTERS
    ensures k == 0 || Roomy(lead, details[..k], closing)
    ensures forall m: nat :: k < m <= |details| ==> !Roomy(lead, details[..m], closing)
  {
    var kept := details;
    k := |details|;
    assert details[..k] == details;
    while kept != [] && |Join(Lines(lead, kept, closing))| > MAX_MESSAGE_CHARACTERS
      invariant k <= |details| && kept == details[..k]
      invariant forall m: nat :: k < m <= |details| ==> !Roomy(lead, details[..m], closing)
      decreases k
    {
      k := k - 1;
      assert kept[..|kept| - 1] == details[..k];
      kept := kept[..|kept| - 1];
    }
    r := FitMessage(Lines(lead, kept, closing));
  }

  /** What further lines add, each with its line break. */
  function Added(lines: seq<string>): nat { if lines == [] then 0 else 1 + |lines[0]| + Added(lines[1..]) }

  lemma {:induction false} AddedJoin(first: string, more: seq<string>)
    ensures |Join([first] + more)| == |first| + Added(more)
    decreases |more|
  {
    if more == [] {
      assert [first] + more == [first];
    } else {
      assert ([first] + more)[1..] == [more[0]] + more[1..];
      AddedJoin(more[0], more[1..]);
    }
  }

  lemma {:induction false} AddedConcat(a: seq<string>, b: seq<string>)
    ensures Added(a + b) == Added(a) + Added(b)
  {
    if a == [] {
      assert a + b == b;
    } else {
      assert (a + b)[1..] == a[1..] + b;
      AddedConcat(a[1..], b);
    }
  }

  lemma LinesLength(lead: string, details: seq<string>, closing: string)
    ensures |Join(Lines(lead, details, closing))| ==
              |lead| + (if details == [] then 0 else 1 + Added(details)) + if closing == "" then 0 else 2 + |closing|
  {
    var middle := if details == [] then [] else [""] + details;
    var end := if closing == "" then [] else ["", closing];
    assert Lines(lead, details, closing) == [lead] + (middle + end);
    AddedJoin(lead, middle + end);
    AddedConcat(middle, end);
    assert Added(middle) == if details == [] then 0 else 1 + Added(details) by {
      if details != [] { assert middle[0] == "" && middle[1..] == details; }
    }
    assert Added(end) == if closing == "" then 0 else 2 + |closing| by {
      if closing != "" {
        assert end[1..] == [closing];
        assert Added([closing]) == 1 + |closing| + Added([]);
      }
    }
  }

  /** A message with fewer details is never longer. */
  lemma FewerDetailsFit(lead: string, details: seq<string>, closing: string, k: nat)
    requires k <= |details| && Roomy(lead, details, closing)
    ensures Roomy(lead, details[..k], closing)
  {
    LinesLength(lead, details, closing);
    LinesLength(lead, details[..k], closing);
    AddedConcat(details[..k], details[k..]);
    assert details[..k] + details[k..] == details;
  }

  /** When the lead and the closing fit without details, both are in the message, whole, with the
      longest prefix of the details that fits: any longer prefix, and so any longer selection from
      the front, would not. */
  lemma LeadAndClosingSurvive(lead: string, details: seq<string>, closing: string, k: nat)
    requires Roomy(lead, [], closing) && k <= |details|
    requires k == 0 || Roomy(lead, details[..k], closing)
    requires forall m: nat :: k < m <= |details| ==> !Roomy(lead, details[..m], closing)
    ensures Fit(Lines(lead, details[..k], closing)) == Join(Lines(lead, details[..k], closing))
    ensures forall m: nat :: m <= |details| ==> (Roomy(lead, details[..m], closing) <==> m <= k)
  {
    assert details[..0] == [];
    forall m: nat | m <= k ensures Roomy(lead, details[..m], closing) {
      if m > 0 {
        FewerDetailsFit(lead, details[..k], closing, m);
        assert details[..k][..m] == details[..m];
      }
    }
  }
}
