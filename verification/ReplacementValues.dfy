/** The service's own replacement values: what tokens and numbered synthetic values look like, and when they differ. */
module ReplacementValues {
  import opened Base
  import opened Spans
  import opened Text
  import opened Tokens
  import opened Transform

  // ----- decimal numerals -----

  function DigitValue(c: char): nat
    requires '0' <= c <= '9'
  {
    (c - '0') as nat
  }

  predicate IsNumeral(s: string) {
    s != "" && forall i :: 0 <= i < |s| ==> '0' <= s[i] <= '9'
  }

  /** The number that a row of digits denotes. */
  function NumeralValue(s: string): nat
    requires IsNumeral(s)
  {
    DigitValue(s[|s| - 1]) + if |s| == 1 then 0 else 10 * NumeralValue(s[..|s| - 1])
  }

  /** `Decimal` writes the number in digits, without leading zeros. */
  lemma {:induction false} DecimalDenotes(n: nat)
    ensures IsNumeral(Decimal(n)) && NumeralValue(Decimal(n)) == n
    ensures n > 0 ==> Decimal(n)[0] != '0'
  {
    if n >= 10 {
      DecimalDenotes(n / 10);
      var rest := Decimal(n / 10);
      assert Decimal(n) == rest + ["0123456789"[n % 10]];
      assert Decimal(n)[..|rest|] == rest;
    }
  }

  // ----- what a numbered kind is replaced by -----

  predicate IsNumbered(kind: string) {
    kind == "PERSON" || kind == "CARDHOLDER" || kind == "EMAIL" || kind == "ADDRESS"
  }

  /** `value` is what number `n` of a numbered kind looks like. */
  ghost predicate Spells(kind: string, n: nat, value: string) {
    exists numeral :: IsNumeral(numeral) && NumeralValue(numeral) == n && SpelledWith(kind, numeral, value)
  }

  predicate SpelledWith(kind: string, numeral: string, value: string) {
    match kind
    case "PERSON" => value == "Тестов" + numeral + " Макет Макетович"
    case "CARDHOLDER" => value == "DEMO USER " + numeral
    case "EMAIL" => value == "person" + numeral + "@example.invalid"
    case "ADDRESS" => value == "г. Макетный, ул. Тестовая, д. " + numeral
    case _ => false
  }

  lemma ValueSpells(chars: CharTable, kind: string, value: string, n: nat)
    requires IsNumbered(kind)
    ensures Spells(kind, n, SyntheticValue(chars, kind, value, n))
  {
    DecimalDenotes(n);
    assert SpelledWith(kind, Decimal(n), SyntheticValue(chars, kind, value, n));
  }

  lemma MiddleUnique(left: string, a: string, b: string, right: string)
    requires left + a + right == left + b + right
    ensures a == b
  {
    var whole := left + a + right;
    assert |a| == |b|;
    assert whole[|left|..|left| + |a|] == a && whole[|left|..|left| + |b|] == b;
  }

  /** A value tells its kind and its number. */
  lemma SpelledOnce(k1: string, m: nat, k2: string, n: nat, value: string)
    requires Spells(k1, m, value) && Spells(k2, n, value)
    ensures k1 == k2 && m == n
  {
    var a :| IsNumeral(a) && NumeralValue(a) == m && SpelledWith(k1, a, value);
    var b :| IsNumeral(b) && NumeralValue(b) == n && SpelledWith(k2, b, value);
    FirstCharacters(k1, a, value);
    FirstCharacters(k2, b, value);
    SameNumeral(k1, a, b, value);
  }

  lemma FirstCharacters(kind: string, numeral: string, value: string)
    requires SpelledWith(kind, numeral, value)
    ensures value != "" && IsNumbered(kind)
    ensures kind == "PERSON" <==> value[0] == 'Т'
    ensures kind == "CARDHOLDER" <==> value[0] == 'D'
    ensures kind == "EMAIL" <==> value[0] == 'p'
    ensures kind == "ADDRESS" <==> value[0] == 'г'
  {
  }

  lemma SameNumeral(kind: string, a: string, b: string, value: string)
    requires SpelledWith(kind, a, value) && SpelledWith(kind, b, value)
    ensures a == b
  {
    match kind
    case "PERSON" => MiddleUnique("Тестов", a, b, " Макет Макетович");
    case "CARDHOLDER" =>
      assert "DEMO USER " + a + "" == "DEMO USER " + b + "";
      MiddleUnique("DEMO USER ", a, b, "");
    case "EMAIL" => MiddleUnique("person", a, b, "@example.invalid");
    case _ =>
      assert "г. Макетный, ул. Тестовая, д. " + a + "" == "г. Макетный, ул. Тестовая, д. " + b + "";
      MiddleUnique("г. Макетный, ул. Тестовая, д. ", a, b, "");
  }

  // ----- numbering -----

  lemma {:induction false} DistinctCountIs(ids: seq<Identity>, n: nat)
    requires n <= |ids|
    ensures DistinctCount(ids, n) == |ToSet(ids[..n])|
  {
    if n == 0 {
      assert ToSet(ids[..0]) == {};
    } else {
      DistinctCountIs(ids, n - 1);
      SeenOneMore(ids, n - 1);
      assert ids[n - 1] in ids[..n - 1] <==> ids[n - 1] in ToSet(ids[..n - 1]);
      if ids[n - 1] in ids[..n - 1] {
        assert ToSet(ids[..n]) == ToSet(ids[..n - 1]);
      }
    }
  }

  lemma {:induction false} FirstOccurrence(ids: seq<Identity>, k: nat) returns (first: nat)
    requires k < |ids|
    ensures first <= k && ids[first] == ids[k] && ids[first] !in ids[..first]
  {
    first := k;
    if ids[k] in ids[..k] {
      var i :| 0 <= i < k && ids[i] == ids[k];
      first := FirstOccurrence(ids, i);
    }
  }

  lemma {:induction false} CountsGrow(ids: seq<Identity>, i: nat, j: nat)
    requires i < j <= |ids| && ids[i] !in ids[..i]
    ensures DistinctCount(ids, i) < DistinctCount(ids, j)
    decreases j - i
  {
    if j > i + 1 {
      CountsGrow(ids, i, j - 1);
    }
  }

  /** The number of the identity of span `k`: how many different identities occur up to its first occurrence. */
  lemma NumberOf(chars: CharTable, hex: nat -> string, supply: nat, text: string, ids: seq<Identity>,
                 values: seq<string>, k: nat)
    returns (first: nat)
    requires |values| == |ids| && k < |ids| && IsNumbered(ids[k].0)
    requires ValuesFit(ServiceStyle(chars, hex, supply), text, ids, Synthetic, values)
    ensures first <= k && ids[first] == ids[k] && ids[first] !in ids[..first]
    ensures Spells(ids[k].0, |ToSet(ids[..first])| + 1, values[k])
  {
    var style := ServiceStyle(chars, hex, supply);
    first := FirstOccurrence(ids, k);
    assert FirstSynthetic(style, ids, first, values[first]);
    DistinctCountIs(ids, first);
    ValueSpells(chars, ids[k].0, ids[k].1, DistinctCount(ids, first) + 1);
  }

  // ----- the other kinds -----

  /** Kinds whose synthetic value is a fixed, deliberately invalid one. */
  predicate IsFixed(kind: string) {
    kind in {"PHONE", "PASSPORT", "DRIVER_LICENSE", "INN", "CARD", "CVV", "PIN", "CITY", "STREET", "HOUSE",
             "APARTMENT", "POSTAL_CODE", "LOCATION", "COUNTRY", "CITIZENSHIP", "BIRTH_PLACE", "PASSPORT_ISSUER",
             "DEPARTMENT_CODE", "BIRTH_DATE", "PASSPORT_DATE", "FOREIGN_DOCUMENT"}
  }

  /** Letters and digits become stars, everything else stays. */
  predicate StarsOf(chars: CharTable, original: string, value: string) {
    && |value| == |original|
    && forall p :: 0 <= p < |value| ==> value[p] == if chars.isAlnum(original[p]) then '*' else original[p]
  }

  lemma OtherValues(chars: CharTable, kind: string, a: string, m: nat, b: string, n: nat)
    requires !IsNumbered(kind)
    ensures IsFixed(kind) ==> SyntheticValue(chars, kind, a, m) == SyntheticValue(chars, kind, b, n)
    ensures !IsFixed(kind) ==> StarsOf(chars, a, SyntheticValue(chars, kind, a, m))
  {
    hide Decimal;
    assert kind in FIXED_SYNTHETIC <==> IsFixed(kind);
  }

  /**
   * In synthetic mode the value of a span of a fixed kind does not depend on its text, so all of a kind get the same;
   * a span of a kind that is neither numbered nor fixed has its letters and digits starred.
   */
  lemma OthersHideTheirText(chars: CharTable, hex: nat -> string, supply: nat, text: string, spans: seq<Span>,
                            values: seq<string>, j: nat, k: nat)
    requires InText(spans, text) && |values| == |spans| && j < |spans| && k < |spans|
    requires ValuesFit(ServiceStyle(chars, hex, supply), text, Identities(text, spans), Synthetic, values)
    requires !IsNumbered(spans[k].kind)
    ensures IsFixed(spans[k].kind) && spans[j].kind == spans[k].kind ==> values[j] == values[k]
    ensures !IsFixed(spans[k].kind) ==> StarsOf(chars, text[spans[k].start..spans[k].end], values[k])
  {
    hide SyntheticValue, ValuesFit, ServiceStyle, IsFixed, IsNumbered, StarsOf;
    var ids := Identities(text, spans);
    var m := ValueAt(chars, hex, supply, text, ids, values, j);
    var n := ValueAt(chars, hex, supply, text, ids, values, k);
    OtherValues(chars, spans[k].kind, ids[k].1, n, ids[j].1, m);
  }

  /** Every value is a synthetic value of the span's type and text, for some number. */
  lemma ValueAt(chars: CharTable, hex: nat -> string, supply: nat, text: string, ids: seq<Identity>,
                values: seq<string>, k: nat)
    returns (n: nat)
    requires |values| == |ids| && k < |ids|
    requires ValuesFit(ServiceStyle(chars, hex, supply), text, ids, Synthetic, values)
    ensures values[k] == SyntheticValue(chars, ids[k].0, ids[k].1, n)
  {
    hide SyntheticValue;
    var first := FirstOccurrence(ids, k);
    assert FirstSynthetic(ServiceStyle(chars, hex, supply), ids, first, values[first]);
    n := DistinctCount(ids, first) + 1;
  }

  /** Two spans have the same type and the same text. */
  predicate SameOriginal(text: string, a: Span, b: Span)
    requires a.start <= a.end <= |text| && b.start <= b.end <= |text|
  {
    a.kind == b.kind && text[a.start..a.end] == text[b.start..b.end]
  }

  /**
   * In synthetic mode two spans of numbered kinds get the same value exactly when they have the same type and text:
   * different people, cardholders, addresses and e-mail addresses stay different.
   */
  lemma NumberedStayApart(chars: CharTable, hex: nat -> string, supply: nat, text: string, spans: seq<Span>,
                          values: seq<string>, j: nat, k: nat)
    requires InText(spans, text) && |values| == |spans| && j < |spans| && k < |spans|
    requires IsNumbered(spans[j].kind) && IsNumbered(spans[k].kind)
    requires ValuesFit(ServiceStyle(chars, hex, supply), text, Identities(text, spans), Synthetic, values)
    ensures values[j] == values[k] <==> SameOriginal(text, spans[j], spans[k])
  {
    var ids := Identities(text, spans);
    if values[j] == values[k] {
      var a := NumberOf(chars, hex, supply, text, ids, values, j);
      var b := NumberOf(chars, hex, supply, text, ids, values, k);
      SpelledOnce(ids[j].0, |ToSet(ids[..a])| + 1, ids[k].0, |ToSet(ids[..b])| + 1, values[j]);
      DistinctCountIs(ids, a);
      DistinctCountIs(ids, b);
      if a < b {
        CountsGrow(ids, a, b);
      } else if b < a {
        CountsGrow(ids, b, a);
      }
    } else {
      assert ids[j] != ids[k];
    }
  }

  /**
   * In token mode every value is a token of its span's type that occurs nowhere in the text, and two spans get the
   * same token exactly when they have the same type and text.
   */
  lemma TokensSpelledOut(chars: CharTable, hex: nat -> string, supply: nat, text: string, spans: seq<Span>,
                         values: seq<string>, j: nat, k: nat)
    returns (n: nat)
    requires InText(spans, text) && |values| == |spans| && j < |spans| && k < |spans|
    requires ValuesFit(ServiceStyle(chars, hex, supply), text, Identities(text, spans), Token, values)
    ensures n < supply && values[k] == "⟦PD:" + spans[k].kind + ":" + hex(n) + "⟧"
    ensures forall before, after :: before + values[k] + after != text
    ensures values[j] == values[k] <==> SameOriginal(text, spans[j], spans[k])
  {
    var ids, style := Identities(text, spans), ServiceStyle(chars, hex, supply);
    assert IssuedFor(style, text, ids[k].0, values[k]);
    n :| n < supply && values[k] == style.token(ids[k].0, n);
    forall before, after ensures before + values[k] + after != text {
      var whole := before + values[k] + after;
      assert whole[|before|..|before| + |values[k]|] == values[k];
      assert !OccursAt(text, values[k], |before|);
    }
    assert values[j] == values[k] <==> ids[j] == ids[k];
  }
}
