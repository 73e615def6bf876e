/** The state document as the text that is written: `json.dumps`, ASCII only, and its length. */
module RelayText {
  import opened Orders
  import opened RelayModel
  import opened RelayBounds

  function HexDigit(n: nat): char
    requires n < 16
  {
    if n < 10 then ('0' as int + n) as char else ('a' as int + n - 10) as char
  }

  /** `\uXXXX`. */
  function CodeUnit(n: nat): string
    requires n < 0x10000
  {
    "\\u" + [HexDigit(n / 0x1000), HexDigit(n / 0x100 % 16), HexDigit(n / 16 % 16), HexDigit(n % 16)]
  }

  function CharText(c: char): string {
    var n := c as int;
    if c == '\"' then "\\\""
    else if c == '\\' then "\\\\"
    else if c == '\n' then "\\n"
    else if c == '\r' then "\\r"
    else if c == '\t' then "\\t"
    else if n == 8 then "\\b"
    else if n == 12 then "\\f"
    else if 0x20 <= n <= 0x7E then [c]
    else if n > 0xFFFF then CodeUnit(0xD800 + (n - 0x10000) / 0x400) + CodeUnit(0xDC00 + n % 0x400)
    else CodeUnit(n)
  }

  function Escaped(s: string): string { if s == "" then "" else CharText(s[0]) + Escaped(s[1..]) }

  function Quoted(s: string): string { "\"" + Escaped(s) + "\"" }

  function NumberText(n: nat): string {
    if n < 10 then [('0' as int + n) as char] else NumberText(n / 10) + [('0' as int + n % 10) as char]
  }

  function BoolText(b: bool): string { if b then "true" else "false" }

  /** How timestamps are written: the date and time to the second, and the digits of the fraction. */
  datatype Clock = Clock(second: Stamp -> string, fraction: Stamp -> string)

  function StampText(at: Clock, s: Stamp): string {
    at.second(s) + (if s.digits == 0 then "" else "." + at.fraction(s)) + "Z"
  }

  function EntryText(at: Clock): (Identity, Entry) -> string {
    (id: Identity, e: Entry) =>
      "{\"identity\":" + Quoted(id) + ",\"state\":" + (if e.state.Healthy? then "\"healthy\"" else "\"unhealthy\"") +
      ",\"timestamp\":\"" + StampText(at, e.stamp) + "\"}"
  }

  function CounterText(id: Identity, k: Counter): string {
    "{\"identity\":" + Quoted(id) + ",\"count\":" + NumberText(k.count) + ",\"notified\":" + BoolText(k.notified) + "}"
  }

  /** The values of a map in identity order, separated by commas. */
  ghost function Texts<V>(text: (Identity, V) -> string, m: map<Identity, V>): string
    decreases |m|
  {
    if m == map[] then ""
    else
      var id := Least(m.Keys);
      var rest := m - {id};
      text(id, m[id]) + (if rest == map[] then "" else "," + Texts(text, rest))
  }

  /** `budget_document`. */
  ghost function BudgetText(b: Budget, counters: map<Identity, Counter>): string {
    "{\"day\":" + Quoted(b.day) + ",\"count\":" + NumberText(b.count) + ",\"notified\":" + BoolText(b.notified) +
    ",\"containers\":[" + Texts(CounterText, counters) + "]}"
  }

  /** `state_bytes`. */
  ghost function StateText(at: Clock, b: Budget, k: Kept): string {
    "{\"version\":3,\"entries\":[" + Texts(EntryText(at), k.entries) + "],\"budget\":" + BudgetText(b, k.counters) +
        "}\n"
  }

  lemma CharLength(c: char)
    ensures |CharText(c)| == CharSize(c)
  {
  }

  lemma {:induction false} EscapedLength(s: string)
    ensures |Escaped(s)| == TextSize(s)
  {
    if s != "" {
      CharLength(s[0]);
      EscapedLength(s[1..]);
    }
  }

  lemma {:induction false} NumberLength(n: nat)
    ensures |NumberText(n)| == NumberSize(n)
  {
    if n >= 10 { NumberLength(n / 10); }
  }

  /** `YYYY-MM-DDThh:mm:ss`, and as many digits as the fraction has. */
  ghost predicate Spelled(at: Clock) { forall s: Stamp :: |at.second(s)| == 19 && |at.fraction(s)| == s.digits }

  lemma StampLength(at: Clock, s: Stamp)
    requires Spelled(at)
    ensures |StampText(at, s)| == StampSize(s)
  {
    assert |at.second(s)| == 19 && |at.fraction(s)| == s.digits;
  }

  lemma EntryLength(at: Clock, id: Identity, e: Entry)
    requires Spelled(at)
    ensures |EntryText(at)(id, e)| == EntrySize(id, e)
  {
    EscapedLength(id);
    StampLength(at, e.stamp);
  }

  lemma CounterLength(id: Identity, k: Counter)
    ensures |CounterText(id, k)| == CounterSize(id, k)
  {
    EscapedLength(id);
    NumberLength(k.count);
  }

  lemma {:induction false} TextsLength<V>(text: (Identity, V) -> string, size: (Identity, V) -> nat,
                                          m: map<Identity, V>)
    requires forall id, v :: |text(id, v)| == size(id, v)
    ensures |Texts(text, m)| == MapSize(size, m) + Commas(|m|)
    decreases |m|
  {
    if m != map[] {
      var id := Least(m.Keys);
      assert id in m;
      TextsLength(text, size, m - {id});
      assert |m - {id}| == |m| - 1;
    }
  }

  lemma BudgetLength(b: Budget, counters: map<Identity, Counter>)
    ensures |BudgetText(b, counters)| ==
              47 + TextSize(b.day) + NumberSize(b.count) + BoolSize(b.notified)
              + MapSize(CounterSize, counters) + Commas(|counters|)
  {
    forall id, c ensures |CounterText(id, c)| == CounterSize(id, c) { CounterLength(id, c); }
    TextsLength(CounterText, CounterSize, counters);
    EscapedLength(b.day);
    NumberLength(b.count);
  }

  /** What is measured is the length of the text that is written. */
  lemma SizeIsLength(at: Clock, b: Budget, k: Kept)
    requires Spelled(at)
    ensures |StateText(at, b, k)| == DocumentSize(b, k)
  {
    forall id, e ensures |EntryText(at)(id, e)| == EntrySize(id, e) { EntryLength(at, id, e); }
    TextsLength(EntryText(at), EntrySize, k.entries);
    BudgetLength(b, k.counters);
  }
}
