/** What a live setting says, read against a declared one: which values are read and which agree. */
module BazarrReading {
  import opened Options
  import opened Bazarr
  import Messages
  import BazarrPaths

  /* ----- text ----- */

  ghost predicate AllSpace(s: string) { forall ch :: ch in s ==> Messages.Space(ch) }

  ghost predicate Trimmed(s: string) {
    s != "" ==> !Messages.Space(s[0]) && !Messages.Space(s[|s| - 1])
  }

  lemma {:induction false} StripLeftIs(s: string) returns (a: string)
    ensures s == a + StripLeft(s) && AllSpace(a)
    ensures StripLeft(s) != "" ==> !Messages.Space(StripLeft(s)[0])
  {
    if s != "" && Messages.Space(s[0]) {
      a := StripLeftIs(s[1..]);
      assert s == [s[0]] + s[1..];
      a := [s[0]] + a;
    } else {
      a := "";
    }
  }

  lemma {:induction false} StripRightIs(s: string) returns (b: string)
    ensures s == StripRight(s) + b && AllSpace(b)
    ensures StripRight(s) != "" ==> !Messages.Space(StripRight(s)[|StripRight(s)| - 1])
  {
    if s != "" && Messages.Space(s[|s| - 1]) {
      b := StripRightIs(s[..|s| - 1]);
      assert s == s[..|s| - 1] + [s[|s| - 1]];
      b := b + [s[|s| - 1]];
    } else {
      b := "";
    }
  }

  /** Stripping takes white space off both ends and nothing else. */
  lemma StripIs(s: string) returns (a: string, b: string)
    ensures s == a + Strip(s) + b && AllSpace(a) && AllSpace(b) && Trimmed(Strip(s))
  {
    a := StripLeftIs(s);
    b := StripRightIs(StripLeft(s));
    if Strip(s) != "" { assert Strip(s)[0] == StripLeft(s)[0]; }
  }

  lemma {:induction false} LowerCaseIs(s: string)
    ensures |LowerCase(s)| == |s|
    ensures forall i :: 0 <= i < |s| ==>
              LowerCase(s)[i] == if 'A' <= s[i] <= 'Z' then (s[i] as int + 32) as char else s[i]
  {
    if s != "" { LowerCaseIs(s[1..]); }
  }

  /* ----- integers ----- */

  lemma {:induction false} DigitsValueIs(s: string)
    requires AllDigits(s)
    ensures DigitsValue(s) == BazarrPaths.DecimalValue(s)
  {
    if s != "" { DigitsValueIs(s[..|s| - 1]); }
  }

  predicate Zeros(s: string) { forall i :: 0 <= i < |s| ==> s[i] == '0' }

  lemma {:induction false} ZerosWorthless(zeros: string)
    requires Zeros(zeros)
    ensures AllDigits(zeros) && DigitsValue(zeros) == 0
  {
    if zeros != "" { ZerosWorthless(zeros[..|zeros| - 1]); }
  }

  lemma {:induction false} ZerosAddNothing(zeros: string, s: string)
    requires Zeros(zeros) && AllDigits(s)
    ensures AllDigits(zeros + s) && DigitsValue(zeros + s) == DigitsValue(s)
  {
    if s == "" {
      assert zeros + s == zeros;
      ZerosWorthless(zeros);
    } else {
      assert (zeros + s)[..|zeros + s| - 1] == zeros + s[..|s| - 1];
      ZerosAddNothing(zeros, s[..|s| - 1]);
    }
  }

  /** A number written in decimal, with any zeros in front, reads as itself; with a minus in front, as
      its negative. */
  lemma IntegerReads(zeros: string, n: nat)
    requires Zeros(zeros)
    ensures ReadInteger(zeros + BazarrPaths.Decimal(n)) == Some(Int(n))
    ensures ReadInteger("-" + (zeros + BazarrPaths.Decimal(n))) == Some(Int(0 - n))
  {
    var d := BazarrPaths.Decimal(n);
    var s := zeros + d;
    BazarrPaths.DecimalReads(n);
    assert AllDigits(d) && d != "";
    ZerosAddNothing(zeros, d);
    DigitsValueIs(d);
    var m := "-" + s;
    assert m[1..] == s && m[0] == '-';
  }

  lemma {:induction false} DigitsPositive(s: string)
    requires AllDigits(s)
    ensures DigitsValue(s) >= 0
  {
    if s != "" { DigitsPositive(s[..|s| - 1]); }
  }

  lemma DecimalGrows(n: nat, v: nat)
    requires n > 0 && v < 10
    ensures BazarrPaths.Decimal(10 * n + v) == BazarrPaths.Decimal(n) + [BazarrPaths.Digit(v)]
  {
    assert (10 * n + v) / 10 == n && (10 * n + v) % 10 == v;
  }

  lemma OneDigit(ch: char)
    requires '0' <= ch <= '9'
    ensures BazarrPaths.Decimal(ch as int - '0' as int) == [ch] && DigitsValue([ch]) == ch as int - '0' as int
  {
    assert [ch][..0] == "";
  }

  lemma DigitsGrow(front: string, last: char)
    requires AllDigits(front) && '0' <= last <= '9'
    ensures AllDigits(front + [last]) && DigitsValue(front + [last]) == 10 * DigitsValue(front) +
            (last as int - '0' as int)
  {
    assert (front + [last])[..|front|] == front;
  }

  lemma DigitsStep(front: string, last: char, zeros: string, m: nat) returns (more: string)
    requires '0' <= last <= '9' && Zeros(zeros) && front == zeros + BazarrPaths.Decimal(m)
    ensures Zeros(more)
    ensures front + [last] == more + BazarrPaths.Decimal(10 * m + (last as int - '0' as int))
  {
    OneDigit(last);
    if m > 0 {
      DecimalGrows(m, last as int - '0' as int);
      more := zeros;
    } else {
      more := zeros + "0";
    }
  }

  lemma LastDigit(s: string) returns (front: string, last: char)
    requires Digits(s)
    ensures s == front + [last] && |front| < |s| && AllDigits(front) && '0' <= last <= '9'
  {
    front, last := s[..|s| - 1], s[|s| - 1];
  }

  /** Digits are a decimal number with zeros in front. */
  ghost predicate DigitsOf(s: string, zeros: string, n: nat)
    requires AllDigits(s)
  {
    Zeros(zeros) && n == DigitsValue(s) && s == zeros + BazarrPaths.Decimal(n)
  }

  lemma DigitsFrom(front: string, last: char, zeros: string, m: nat) returns (more: string, n: nat)
    requires AllDigits(front) && '0' <= last <= '9' && DigitsOf(front, zeros, m)
    ensures AllDigits(front + [last]) && DigitsOf(front + [last], more, n)
  {
    DigitsGrow(front, last);
    more := DigitsStep(front, last, zeros, m);
    n := 10 * m + (last as int - '0' as int);
  }

  lemma {:induction false} DigitsAre(s: string) returns (zeros: string, n: nat)
    requires Digits(s)
    ensures DigitsOf(s, zeros, n)
    decreases |s|
  {
    var front, last := LastDigit(s);
    if front == "" {
      OneDigit(last);
      zeros, n := "", last as int - '0' as int;
    } else {
      zeros, n := DigitsAre(front);
      zeros, n := DigitsFrom(front, last, zeros, n);
    }
  }

  ghost predicate SpellsPositive(s: string, n: int) {
    exists zeros: string, m: nat :: Zeros(zeros) && n == m && s == zeros + BazarrPaths.Decimal(m)
  }

  ghost predicate SpellsNegative(s: string, n: int) {
    exists zeros: string, m: nat :: Zeros(zeros) && n == 0 - m && s == "-" + (zeros + BazarrPaths.Decimal(m))
  }

  /** The text is this integer: its decimal form, zeros in front allowed, a minus before them. */
  ghost predicate Spells(s: string, n: int) { SpellsPositive(s, n) || SpellsNegative(s, n) }

  lemma PositiveReads(s: string, n: int)
    requires SpellsPositive(s, n)
    ensures ReadInteger(s) == Some(Int(n))
  {
    var zeros: string, m: nat :| Zeros(zeros) && n == m && s == zeros + BazarrPaths.Decimal(m);
    IntegerReads(zeros, m);
  }

  lemma NegativeReads(s: string, n: int)
    requires SpellsNegative(s, n)
    ensures ReadInteger(s) == Some(Int(n))
  {
    var zeros: string, m: nat :| Zeros(zeros) && n == 0 - m && s == "-" + (zeros + BazarrPaths.Decimal(m));
    IntegerReads(zeros, m);
  }

  lemma SpelledReads(s: string, n: int)
    requires Spells(s, n)
    ensures ReadInteger(s) == Some(Int(n))
  {
    if SpellsPositive(s, n) { PositiveReads(s, n); } else { NegativeReads(s, n); }
  }

  lemma ReadIsSpelled(s: string, n: int)
    requires ReadInteger(s) == Some(Int(n))
    ensures Spells(s, n)
  {
    if Digits(s) {
      var zeros, m := DigitsAre(s);
      assert SpellsPositive(s, n);
    } else {
      var zeros, m := DigitsAre(s[1..]);
      assert s == "-" + s[1..];
      assert SpellsNegative(s, n);
    }
  }

  /* ----- agreement ----- */

  /** The text says true or false, in any case and with any white space around. */
  predicate SaysBool(s: string, b: bool) { LowerCase(Strip(s)) == if b then "true" else "false" }

  /** The live value says what is declared: a truth value as itself or in words, an integer as itself or in
      digits, a number by its value, a text letter by letter, a list item by item. */
  ghost predicate Agrees(v: Json, d: Json)
    decreases d
  {
    match d
    case Bool(b) => v == Bool(b) || (v.Str? && SaysBool(v.s, b))
    case Int(n) => v == Int(n) || (v.Str? && Spells(Strip(v.s), n))
    case Float(x) => (v.Int? || v.Float?) && Number(v) == x
    case Str(s) => v == Str(s)
    case List(ds) => v.List? && |v.items| == |ds| && forall i :: 0 <= i < |ds| ==> Agrees(v.items[i], ds[i])
    case _ => false
  }

  lemma ScalarAgrees(v: Json, d: Json)
    requires SafeScalar(d) && Normalised(v, d).Some?
    ensures Equal(Normalised(v, d).value, d) <==> Agrees(v, d)
  {
    match d
    case Int(n) =>
      if v.Str? {
        if Spells(Strip(v.s), n) { SpelledReads(Strip(v.s), n); }
        if ReadInteger(Strip(v.s)) == Some(Int(n)) { ReadIsSpelled(Strip(v.s), n); }
      }
    case Bool(b) => assert "true" != "false";
    case _ =>
  }

  /** What is read equals what is declared exactly when the live value says so. */
  lemma AgreesExactly(v: Json, d: Json)
    requires SafeSetting(d) && Normalised(v, d).Some?
    requires v.List? && d.List? && |v.items| != |d.items| ==> SafeSetting(v)
    ensures Equal(Normalised(v, d).value, d) <==> Agrees(v, d)
  {
    if d.List? {
      if |v.items| == |d.items| {
        forall i | 0 <= i < |d.items| ensures Equal(Normalised(v, d).value.items[i], d.items[i]) <==>
            Agrees(v.items[i], d.items[i]) {
          ScalarAgrees(v.items[i], d.items[i]);
        }
      }
    } else {
      ScalarAgrees(v, d);
    }
  }

  /** A setting drifts exactly when it is declared, and missing or, unmasked, saying something else. */
  lemma DriftsExactly(live: Settings, desired: Settings, k: string)
    requires ReadableProvider(live, desired) && AllDeclarable(desired)
    ensures Drifted(live, desired, k) <==>
              k in desired && (k !in live || (!Masked(live[k]) && !Agrees(live[k], desired[k])))
  {
    if k in desired && k in live && !Masked(live[k]) {
      assert ReadsAs(live, desired, k) && ReadableName(live, k);
      AgreesExactly(live[k], desired[k]);
    }
  }

  /* ----- which values are read at all ----- */

  ghost predicate Readable(v: Json, d: Json)
    decreases d
  {
    match d
    case Bool(_) => v.Bool? || (v.Str? && (SaysBool(v.s, true) || SaysBool(v.s, false)))
    case Int(_) => v.Int? || (v.Str? && exists n :: Spells(Strip(v.s), n))
    case Float(_) => v.Int? || v.Float?
    case List(ds) => v.List? && (|v.items| != |ds| || forall i :: 0 <= i < |ds| ==> Readable(v.items[i], ds[i]))
    case _ => v.Str? && SafeText(v.s)
  }

  lemma ScalarReads(v: Json, d: Json)
    requires SafeScalar(d)
    ensures Normalised(v, d).Some? <==> Readable(v, d)
  {
    if d.Int? && v.Str? {
      if n :| Spells(Strip(v.s), n) { SpelledReads(Strip(v.s), n); }
      if ReadInteger(Strip(v.s)).Some? { ReadIsSpelled(Strip(v.s), ReadInteger(Strip(v.s)).value.i); }
    }
  }

  /** A live value is refused exactly when it cannot be read in the type of the declared one. */
  lemma ReadsExactly(v: Json, d: Json)
    requires SafeSetting(d)
    ensures Normalised(v, d).Some? <==> Readable(v, d)
  {
    if d.List? {
      if v.List? && |v.items| == |d.items| {
        forall i | 0 <= i < |d.items| ensures Normalised(v.items[i], d.items[i]).Some? <==>
            Readable(v.items[i], d.items[i]) {
          ScalarReads(v.items[i], d.items[i]);
        }
      }
    } else {
      ScalarReads(v, d);
    }
  }
}
