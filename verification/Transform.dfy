/** Reversible replacement of spans and the two ways of undoing it. */
module Transform {
  import opened Base
  import opened Spans
  import opened Text
  import opened Tokens

  datatype Mode = Mask | Token | Synthetic

  datatype Replacement = Replacement(start: nat, end: nat, original: string, replacement: string)

  datatype RestoreError = BadCoordinates | BadLimit | UnknownToken | TooLarge

  // ----- replacement values -----

  function ShapeMask(chars: CharTable, value: string): (r: string)
    ensures |r| == |value|
  {
    seq(|value|, i requires 0 <= i < |value| => if chars.isAlnum(value[i]) then '*' else value[i])
  }

  function Decimal(n: nat): (r: string)
    ensures r != ""
  {
    if n < 10 then ["0123456789"[n]] else Decimal(n / 10) + ["0123456789"[n % 10]]
  }

  const FIXED_SYNTHETIC: map<string, string> := map[
    "PHONE" := "+0 (000) 000-00-00", "PASSPORT" := "0000 000000", "DRIVER_LICENSE" := "00 00 000000",
    "INN" := "000000000000", "CARD" := "0000 0000 0000 0000", "CVV" := "***", "PIN" := "****",
    "CITY" := "Макетный", "STREET" := "Тестовая", "HOUSE" := "0", "APARTMENT" := "0", "POSTAL_CODE" := "000000",
    "LOCATION" := "Макетная область", "COUNTRY" := "Тестовая страна", "CITIZENSHIP" := "Тестовое гражданство",
    "BIRTH_PLACE" := "г. Макетный", "PASSPORT_ISSUER" := "ТЕСТОВЫЙ ОРГАН", "DEPARTMENT_CODE" := "000-000",
    "BIRTH_DATE" := "01.01.1900", "PASSPORT_DATE" := "01.01.2000", "FOREIGN_DOCUMENT" := "DEMO000000"
  ]

  function SyntheticValue(chars: CharTable, kind: string, value: string, ordinal: nat): (r: string)
    ensures value != "" ==> r != ""
  {
    if kind == "PERSON" then "Тестов" + Decimal(ordinal) + " Макет Макетович"
    else if kind == "CARDHOLDER" then "DEMO USER " + Decimal(ordinal)
    else if kind == "EMAIL" then "person" + Decimal(ordinal) + "@example.invalid"
    else if kind == "ADDRESS" then "г. Макетный, ул. Тестовая, д. " + Decimal(ordinal)
    else if kind in FIXED_SYNTHETIC then FIXED_SYNTHETIC[kind]
    else ShapeMask(chars, value)
  }

  predicate Contains(text: string, s: string) {
    exists p :: 0 <= p <= |text| && OccursAt(text, s, p)
  }

  predicate OccursAt(text: string, s: string, p: int) {
    0 <= p <= |text| && |s| <= |text| - p && text[p..p + |s|] == s
  }

  /**
   * How values are rewritten: the character table, the table of synthetic values, and the token that
   * the n-th draw of the random source yields for a kind, for the first `supply` draws.
   */
  datatype Style = Style(chars: CharTable, synthetic: (string, string, nat) -> string,
                         token: (string, nat) -> string, supply: nat)
  {
    /** No value is rewritten to nothing. */
    ghost predicate Lawful() {
      forall kind, value, n :: value != "" ==> synthetic(kind, value, n) != ""
    }

    /** The draws of the supply never repeat, and a kind's tokens are nonempty and equally long. */
    ghost predicate Fresh() {
      && (forall kind, n: nat :: n < supply ==> token(kind, n) != "")
      && (forall kind, m: nat, n: nat :: m < supply && n < supply ==> |token(kind, m)| == |token(kind, n)|)
      && (forall k1, k2, m: nat, n: nat :: m < supply && n < supply && m != n ==> token(k1, m) != token(k2, n))
    }

    /** Every token of an admissible kind has the shape the restoring pattern looks for. */
    ghost predicate IssuesTokens() {
      forall kind, n: nat :: n < supply && IsKind(kind) ==> IsToken(token(kind, n))
    }
  }

  /** The random source: its first `supply` draws are sixteen hexadecimal digits each and do not repeat. */
  ghost predicate FreshSupply(hex: nat -> string, supply: nat) {
    && (forall n: nat :: n < supply ==> IsHex(hex(n)))
    && (forall m: nat, n: nat :: m < supply && n < supply && m != n ==> hex(m) != hex(n))
  }

  lemma TokenInjective(k1: string, h1: string, k2: string, h2: string)
    requires |h1| == |h2| && MakeToken(k1, h1) == MakeToken(k2, h2)
    ensures h1 == h2
  {
    var t1, t2 := MakeToken(k1, h1), MakeToken(k2, h2);
    assert t1[|t1| - 1 - |h1|..|t1| - 1] == h1;
    assert t2[|t2| - 1 - |h2|..|t2| - 1] == h2;
  }

  function ServiceStyle(chars: CharTable, hex: nat -> string, supply: nat): Style {
    Style(chars, (kind: string, value: string, n: nat) => SyntheticValue(chars, kind, value, n),
          (kind: string, n: nat) => MakeToken(kind, hex(n)), supply)
  }

  /** The service's own tables keep the promises the results below rest on. */
  lemma ServiceStyleIsLawful(chars: CharTable, hex: nat -> string, supply: nat)
    requires FreshSupply(hex, supply)
    ensures var style := ServiceStyle(chars, hex, supply);
            style.Lawful() && style.Fresh() && style.IssuesTokens()
  {
    var style := ServiceStyle(chars, hex, supply);
    forall kind, value, n: nat | value != "" ensures style.synthetic(kind, value, n) != "" {
      assert style.synthetic(kind, value, n) == SyntheticValue(chars, kind, value, n);
    }
    forall kind, n: nat | n < supply ensures |style.token(kind, n)| == |kind| + 22 {
      assert IsHex(hex(n));
    }
    forall k1, k2, m: nat, n: nat | m < supply && n < supply && m != n
      ensures style.token(k1, m) != style.token(k2, n)
    {
      assert IsHex(hex(m)) && IsHex(hex(n));
      if style.token(k1, m) == style.token(k2, n) {
        TokenInjective(k1, hex(m), k2, hex(n));
      }
    }
    forall kind, n: nat | n < supply && IsKind(kind) ensures IsToken(style.token(kind, n)) {
      assert IsHex(hex(n));
      MadeTokenMatches(kind, hex(n));
    }
  }

  ghost function Upto(n: nat): (r: set<int>)
    ensures (forall i :: i in r <==> 0 <= i < n) && |r| == n
  {
    if n == 0 then {} else Upto(n - 1) + {n - 1}
  }

  lemma DrawsDiffer(style: Style, kind: string, m: nat, n: nat)
    requires style.Fresh() && m < style.supply && n < style.supply && m != n
    ensures style.token(kind, m) != style.token(kind, n)
    ensures |style.token(kind, m)| == |style.token(kind, n)|
  {
  }

  lemma PlaceTaken(text: string, a: string, b: string, p: int)
    requires a != b && |a| == |b| && OccursAt(text, a, p)
    ensures !OccursAt(text, b, p)
  {
  }

  lemma SmallerRest(all: set<int>, keys: set<int>, p: int)
    requires p in all && p !in keys
    ensures |all - (keys + {p})| == |all - keys| - 1
  {
    assert all - keys == (all - (keys + {p})) + {p};
  }

  /** Where earlier draws were found in the text. */
  ghost predicate Rejected(style: Style, text: string, kind: string, at: map<int, nat>, draw: int) {
    draw <= style.supply && forall p :: p in at ==> at[p] < draw && OccursAt(text, style.token(kind, at[p]), p)
  }

  lemma NewPlace(style: Style, text: string, kind: string, at: map<int, nat>, draw: nat) returns (p: int)
    requires style.Fresh() && draw < style.supply
    requires Rejected(style, text, kind, at, draw) && Contains(text, style.token(kind, draw))
    ensures 0 <= p < |text| && p !in at && Rejected(style, text, kind, at[p := draw], draw + 1)
  {
    p :| 0 <= p <= |text| && OccursAt(text, style.token(kind, draw), p);
    assert style.token(kind, draw) != "";
    if p in at {
      DrawsDiffer(style, kind, at[p], draw);
      PlaceTaken(text, style.token(kind, at[p]), style.token(kind, draw), p);
    }
  }

  /** One more rejected draw takes one more position of the text. */
  lemma RejectOne(style: Style, text: string, kind: string, at: map<int, nat>, draw: nat, all: set<int>)
    returns (more: map<int, nat>)
    requires style.Fresh() && draw < style.supply && forall p :: 0 <= p < |text| ==> p in all
    requires Rejected(style, text, kind, at, draw) && Contains(text, style.token(kind, draw))
    ensures Rejected(style, text, kind, more, draw + 1) && |all - more.Keys| == |all - at.Keys| - 1
  {
    var p := NewPlace(style, text, kind, at, draw);
    SmallerRest(all, at.Keys, p);
    more := at[p := draw];
    assert more.Keys == at.Keys + {p};
  }

  /**
   * Draws until the token does not occur in the text. Each rejected draw occupies its own position, so
   * one draw more than the text has characters always suffices.
   */
  method DrawToken(style: Style, text: string, kind: string, from: nat) returns (token: string, next: nat)
    requires style.Fresh() && from + |text| + 1 <= style.supply
    ensures from < next <= from + |text| + 1 && token == style.token(kind, next - 1)
    ensures !Contains(text, token)
  {
    token, next := style.token(kind, from), from + 1;
    ghost var rejectedAt: map<int, nat> := map[];
    ghost var all: set<int> := Upto(|text|);
    assert all - rejectedAt.Keys == all;
    while Contains(text, token)
      invariant next > from && token == style.token(kind, next - 1)
      invariant next + |all - rejectedAt.Keys| == from + |text| + 1
      invariant Rejected(style, text, kind, rejectedAt, next - 1)
      decreases |all - rejectedAt.Keys|
    {
      rejectedAt := RejectOne(style, text, kind, rejectedAt, next - 1, all);
      token, next := style.token(kind, next), next + 1;
    }
  }

  // ----- what masking produces -----

  ghost predicate InText(spans: seq<Span>, text: string) {
    SortedDisjoint(spans) && Within(spans, 0, |text|)
  }

  ghost function PrevEnd(spans: seq<Span>, k: nat): nat
    requires k <= |spans|
  {
    if k == 0 then 0 else spans[k - 1].end
  }

  /** The stretches of text between the spans, before the first and after the last one. */
  ghost function Gaps(text: string, spans: seq<Span>): (r: seq<string>)
    requires InText(spans, text)
    ensures |r| == |spans| + 1
  {
    seq(|spans| + 1, k requires 0 <= k <= |spans| =>
      text[PrevEnd(spans, k)..if k < |spans| then spans[k].start else |text|])
  }

  ghost function Values(items: seq<Replacement>): (r: seq<string>)
    ensures |r| == |items|
  {
    seq(|items|, k requires 0 <= k < |items| => items[k].replacement)
  }

  /** The items lie where an interleaving of `lits` and `values` puts them, starting at offset `at`. */
  ghost predicate Placed(items: seq<Replacement>, lits: seq<string>, values: seq<string>, at: nat)
    requires |items| == |values| <= |lits|
  {
    items == [] ||
    (items[0].start == at + |lits[0]| && items[0].end == items[0].start + |values[0]|
     && items[0].replacement == values[0] && Placed(items[1..], lits[1..], values[1..], items[0].end))
  }

  /** What a replacement is remembered under: the type of a span and its text. */
  type Identity = (string, string)

  ghost function Identities(text: string, spans: seq<Span>): (r: seq<Identity>)
    requires InText(spans, text)
    ensures |r| == |spans|
  {
    seq(|spans|, k requires 0 <= k < |spans| => (spans[k].kind, text[spans[k].start..spans[k].end]))
  }

  /** How many different identities the first `n` spans have. */
  ghost function DistinctCount(ids: seq<Identity>, n: nat): nat
    requires n <= |ids|
  {
    if n == 0 then 0 else DistinctCount(ids, n - 1) + if ids[n - 1] in ids[..n - 1] then 0 else 1
  }

  /** If identity `k` is new, this is the value a synthetic replacement then gets. */
  ghost predicate FirstSynthetic(style: Style, ids: seq<Identity>, k: nat, value: string)
    requires k < |ids|
  {
    ids[k] !in ids[..k] ==> value == style.synthetic(ids[k].0, ids[k].1, DistinctCount(ids, k) + 1)
  }

  ghost predicate IssuedFor(style: Style, text: string, kind: string, token: string) {
    !Contains(text, token) && exists n: nat :: n < style.supply && token == style.token(kind, n)
  }

  /** What each mode promises about its replacement values. */
  ghost predicate ValuesFit(style: Style, text: string, ids: seq<Identity>, mode: Mode, values: seq<string>)
    requires |values| == |ids|
  {
    && (forall k :: 0 <= k < |ids| ==> values[k] != "")
    && match mode
       case Mask => forall k :: 0 <= k < |ids| ==> values[k] == ShapeMask(style.chars, ids[k].1)
       case Token =>
         && (forall k :: 0 <= k < |ids| ==> IssuedFor(style, text, ids[k].0, values[k]))
         && (forall j, k :: 0 <= j < |ids| && 0 <= k < |ids| ==> (values[j] == values[k] <==> ids[j] == ids[k]))
       case Synthetic =>
         && (forall j, k :: 0 <= j < |ids| && 0 <= k < |ids| && ids[j] == ids[k] ==> values[j] == values[k])
         && (forall k :: 0 <= k < |ids| ==> FirstSynthetic(style, ids, k, values[k]))
  }

  /** `masked` is `text` with each span replaced, and `items` record where and by what. */
  ghost predicate IsMasking(text: string, spans: seq<Span>, masked: string, items: seq<Replacement>)
    requires InText(spans, text)
  {
    && |items| == |spans|
    && (forall k :: 0 <= k < |spans| ==> items[k].original == Identities(text, spans)[k].1)
    && masked == Interleave(Gaps(text, spans), Values(items))
    && Placed(items, Gaps(text, spans), Values(items), 0)
  }

  function Join(parts: seq<string>): string {
    if parts == [] then "" else Join(parts[..|parts| - 1]) + parts[|parts| - 1]
  }

  lemma {:induction false} InterleaveSnoc(lits: seq<string>, toks: seq<string>, tok: string, lit: string)
    requires |lits| == |toks| + 1
    ensures Interleave(lits + [lit], toks + [tok]) == Interleave(lits, toks) + tok + lit
  {
    if toks == [] {
      assert (lits + [lit])[1..] == [lit] && (toks + [tok])[1..] == [];
      assert lits[0] + tok + lit == Interleave(lits, toks) + tok + lit;
    } else {
      InterleaveSnoc(lits[1..], toks[1..], tok, lit);
      assert (lits + [lit])[1..] == lits[1..] + [lit] && (toks + [tok])[1..] == toks[1..] + [tok];
      assert lits[0] + toks[0] + (Interleave(lits[1..], toks[1..]) + tok + lit)
          == lits[0] + toks[0] + Interleave(lits[1..], toks[1..]) + tok + lit;
    }
  }

  /** Extending only the last literal extends the text. */
  lemma {:induction false} InterleaveLast(lits: seq<string>, toks: seq<string>, last: string)
    requires |lits| == |toks|
    ensures Interleave(lits + [last], toks) == Interleave(lits + [""], toks) + last
  {
    if toks == [] {
      assert lits + [last] == [last] && lits + [""] == [""];
    } else {
      InterleaveLast(lits[1..], toks[1..], last);
      assert (lits + [last])[1..] == lits[1..] + [last] && (lits + [""])[1..] == lits[1..] + [""];
      assert lits[0] + toks[0] + (Interleave(lits[1..] + [""], toks[1..]) + last)
          == lits[0] + toks[0] + Interleave(lits[1..] + [""], toks[1..]) + last;
    }
  }

  lemma {:induction false} PlacedSnoc(items: seq<Replacement>, lits: seq<string>, values: seq<string>, at: nat,
                                      item: Replacement, lit: string)
    requires |items| == |values| == |lits| && Placed(items, lits, values, at)
    requires item.start == at + |Interleave(lits + [""], values)| + |lit|
    requires item.end == item.start + |item.replacement|
    ensures Placed(items + [item], lits + [lit], values + [item.replacement], at)
  {
    if items == [] {
      assert lits + [""] == [""] && lits + [lit] == [lit];
      assert items + [item] == [item] && values + [item.replacement] == [item.replacement];
      assert ([item])[1..] == [] && ([lit])[1..] == [];
    } else {
      assert (lits + [""])[1..] == lits[1..] + [""];
      PlacedSnoc(items[1..], lits[1..], values[1..], items[0].end, item, lit);
      assert (items + [item])[1..] == items[1..] + [item];
      assert (lits + [lit])[1..] == lits[1..] + [lit];
      assert (values + [item.replacement])[1..] == values[1..] + [item.replacement];
    }
  }

  /** Placement looks only at the literals in front of the items. */
  lemma {:induction false} PlacedMoreLits(items: seq<Replacement>, lits: seq<string>, values: seq<string>, at: nat,
                                          last: string)
    requires |items| == |values| == |lits| && Placed(items, lits, values, at)
    ensures Placed(items, lits + [last], values, at)
  {
    if items != [] {
      PlacedMoreLits(items[1..], lits[1..], values[1..], items[0].end, last);
      assert (lits + [last])[1..] == lits[1..] + [last];
    }
  }

  /** The dictionary `seen` after `n` spans: one value per identity, chosen as the mode demands. */
  ghost predicate SeenFits(style: Style, text: string, ids: seq<Identity>, n: nat, mode: Mode, drawn: nat,
                           seen: map<Identity, string>)
    requires n <= |ids|
  {
    match mode
    case Mask => true
    case Token =>
      && seen.Keys == ToSet(ids[..n])
      && (forall id :: id in seen ==> DrawnBefore(style, text, id.0, seen[id], drawn))
      && (forall a, b :: a in seen && b in seen && a != b ==> seen[a] != seen[b])
    case Synthetic =>
      && seen.Keys == ToSet(ids[..n]) && |seen| == DistinctCount(ids, n)
      && (forall id :: id in seen ==> seen[id] != "")
      && FirstsKept(style, ids, n, seen)
  }

  ghost predicate DrawnBefore(style: Style, text: string, kind: string, token: string, drawn: nat) {
    !Contains(text, token) && exists m: nat :: m < drawn && token == style.token(kind, m)
  }

  /** The replacement for an identity is the shape of its text, or whatever `seen` holds for it. */
  ghost predicate Chosen(style: Style, id: Identity, mode: Mode, seen: map<Identity, string>, value: string) {
    && value != ""
    && if mode == Mask then value == ShapeMask(style.chars, id.1) else id in seen && value == seen[id]
  }

  lemma SeenOneMore(ids: seq<Identity>, n: nat)
    requires n < |ids|
    ensures ToSet(ids[..n + 1]) == ToSet(ids[..n]) + {ids[n]}
  {
    assert ids[..n + 1] == ids[..n] + [ids[n]];
    SetOfConcat(ids[..n], [ids[n]]);
  }

  lemma NewTokenFits(style: Style, text: string, ids: seq<Identity>, n: nat, drawn: nat, seen: map<Identity, string>,
                     token: string, next: nat)
    requires n < |ids| && style.Fresh()
    requires SeenFits(style, text, ids, n, Token, drawn, seen) && ids[n] !in seen
    requires drawn < next <= style.supply && token == style.token(ids[n].0, next - 1) && !Contains(text, token)
    ensures SeenFits(style, text, ids, n + 1, Token, next, seen[ids[n] := token])
  {
    SeenOneMore(ids, n);
    forall a | a in seen ensures seen[a] != token && DrawnBefore(style, text, a.0, seen[a], next) {
      assert DrawnBefore(style, text, a.0, seen[a], drawn);
    }
  }

  /** Every identity seen so far still has the value its first occurrence was given. */
  ghost predicate FirstsKept(style: Style, ids: seq<Identity>, n: nat, seen: map<Identity, string>)
    requires n <= |ids|
  {
    forall k :: 0 <= k < n ==> ids[k] in seen && FirstSynthetic(style, ids, k, seen[ids[k]])
  }

  lemma FirstsKeptOneMore(style: Style, ids: seq<Identity>, n: nat, seen: map<Identity, string>, value: string)
    requires n < |ids| && FirstsKept(style, ids, n, seen) && ids[n] !in seen
    requires FirstSynthetic(style, ids, n, value)
    ensures FirstsKept(style, ids, n + 1, seen[ids[n] := value])
  {
  }

  lemma NewSyntheticFits(style: Style, text: string, ids: seq<Identity>, n: nat, drawn: nat,
                         seen: map<Identity, string>, value: string)
    requires n < |ids| && value != ""
    requires SeenFits(style, text, ids, n, Synthetic, drawn, seen) && ids[n] !in seen
    requires value == style.synthetic(ids[n].0, ids[n].1, |seen| + 1)
    ensures SeenFits(style, text, ids, n + 1, Synthetic, drawn, seen[ids[n] := value])
  {
    SeenOneMore(ids, n);
    FirstsKeptOneMore(style, ids, n, seen, value);
    assert seen[ids[n] := value].Keys == seen.Keys + {ids[n]};
    assert ids[n] in ids[..n] <==> ids[n] in ToSet(ids[..n]);
  }

  lemma OldSyntheticFits(style: Style, text: string, ids: seq<Identity>, n: nat, drawn: nat,
                         seen: map<Identity, string>)
    requires n < |ids| && SeenFits(style, text, ids, n, Synthetic, drawn, seen) && ids[n] in seen
    ensures SeenFits(style, text, ids, n + 1, Synthetic, drawn, seen)
  {
    SeenOneMore(ids, n);
    assert ids[n] in ids[..n] <==> ids[n] in ToSet(ids[..n]);
  }

  /** Once all spans are seen, the chosen values keep the promises of the mode. */
  lemma SeenGivesFit(style: Style, text: string, ids: seq<Identity>, mode: Mode, drawn: nat,
                     seen: map<Identity, string>, values: seq<string>)
    requires |values| == |ids| && SeenFits(style, text, ids, |ids|, mode, drawn, seen)
    requires mode == Token ==> drawn <= style.supply
    requires forall k :: 0 <= k < |ids| ==> Chosen(style, ids[k], mode, seen, values[k])
    ensures ValuesFit(style, text, ids, mode, values)
  {
    if mode == Token {
      forall k | 0 <= k < |ids| ensures IssuedFor(style, text, ids[k].0, values[k]) {
        assert Chosen(style, ids[k], mode, seen, values[k]);
        assert DrawnBefore(style, text, ids[k].0, seen[ids[k]], drawn);
      }
    }
  }

  lemma DrawnIsNonempty(style: Style, text: string, kind: string, token: string, drawn: nat)
    requires style.Fresh() && drawn <= style.supply && DrawnBefore(style, text, kind, token, drawn)
    ensures token != ""
  {
  }

  /** Picks one replacement, drawing or numbering a new value on first sight of its identity. */
  method ChooseReplacement(style: Style, text: string, ghost ids: seq<Identity>, ghost n: nat, identity: Identity,
                           mode: Mode, drawn0: nat, seen0: map<Identity, string>)
    returns (replacement: string, drawn: nat, seen: map<Identity, string>)
    requires style.Lawful() && n < |ids| && identity == ids[n] && identity.1 != ""
    requires mode == Token ==> style.Fresh() && drawn0 + |text| + 1 <= style.supply
    requires SeenFits(style, text, ids, n, mode, drawn0, seen0)
    ensures drawn <= drawn0 + |text| + 1
    ensures SeenFits(style, text, ids, n + 1, mode, drawn, seen)
    ensures Chosen(style, identity, mode, seen, replacement)
    ensures forall id :: id in seen0 ==> id in seen && seen[id] == seen0[id]
  {
    drawn, seen := drawn0, seen0;
    SeenOneMore(ids, n);
    match mode
    case Mask =>
      replacement := ShapeMask(style.chars, identity.1);
    case Token =>
      if identity !in seen {
        var token;
        token, drawn := DrawToken(style, text, identity.0, drawn);
        NewTokenFits(style, text, ids, n, drawn0, seen0, token, drawn);
        seen := seen[identity := token];
      }
      replacement := seen[identity];
      DrawnIsNonempty(style, text, identity.0, replacement, drawn);
    case Synthetic =>
      if identity !in seen {
        var value := style.synthetic(identity.0, identity.1, |seen| + 1);
        NewSyntheticFits(style, text, ids, n, drawn, seen, value);
        seen := seen[identity := value];
      } else {
        OldSyntheticFits(style, text, ids, n, drawn, seen);
      }
      replacement := seen[identity];
  }

  lemma JoinTwo(parts: seq<string>, a: string, b: string)
    ensures Join(parts + [a] + [b]) == Join(parts) + a + b
  {
    assert (parts + [a] + [b])[..|parts| + 1] == parts + [a];
    assert (parts + [a])[..|parts|] == parts;
  }

  lemma ValuesSnoc(items: seq<Replacement>, item: Replacement)
    ensures Values(items + [item]) == Values(items) + [item.replacement]
  {
  }

  /** The loop state of `mask` after `n` spans. */
  ghost predicate MaskedSoFar(text: string, spans: seq<Span>, n: nat, parts: seq<string>, length: int,
                              items: seq<Replacement>)
    requires InText(spans, text) && n <= |spans|
  {
    && |items| == n
    && (forall k :: 0 <= k < n ==> items[k].original == Identities(text, spans)[k].1)
    && Join(parts) == Interleave(Gaps(text, spans)[..n] + [""], Values(items))
    && length == |Join(parts)|
    && Placed(items, Gaps(text, spans)[..n], Values(items), 0)
  }

  /** The text in front of a span, from the end of the one before it. */
  function Before(text: string, offset: nat, span: Span): (r: string)
    requires offset <= span.start <= |text|
    ensures |r| == span.start - offset
  {
    text[offset..span.start]
  }

  /** The record of a replacement that is written at `start`. */
  function ItemOf(text: string, span: Span, start: nat, replacement: string): Replacement
    requires span.start <= span.end <= |text|
  {
    Replacement(start, start + |replacement|, text[span.start..span.end], replacement)
  }

  /** The text between span `n` and the one before it. */
  ghost function GapBefore(text: string, spans: seq<Span>, n: nat): string
    requires InText(spans, text) && n < |spans|
  {
    Before(text, PrevEnd(spans, n), spans[n])
  }

  /** The record of replacement `n` when `length` characters were written before its gap. */
  ghost function ItemFor(text: string, spans: seq<Span>, n: nat, length: int, replacement: string): Replacement
    requires InText(spans, text) && n < |spans| && 0 <= length
  {
    ItemOf(text, spans[n], length + |GapBefore(text, spans, n)|, replacement)
  }

  lemma MaskStep(text: string, spans: seq<Span>, n: nat, parts: seq<string>, length: int, items: seq<Replacement>,
                 replacement: string)
    requires InText(spans, text) && n < |spans| && MaskedSoFar(text, spans, n, parts, length, items)
    ensures MaskedSoFar(text, spans, n + 1, parts + [GapBefore(text, spans, n)] + [replacement],
                        ItemFor(text, spans, n, length, replacement).end,
                        items + [ItemFor(text, spans, n, length, replacement)])
  {
    var lits, values := Gaps(text, spans)[..n], Values(items);
    var before, item := GapBefore(text, spans, n), ItemFor(text, spans, n, length, replacement);
    PlacedSnoc(items, lits, values, 0, item, before);
    InterleaveSnoc(lits + [before], values, replacement, "");
    InterleaveLast(lits, values, before);
    JoinTwo(parts, before, replacement);
    ValuesSnoc(items, item);
    assert Gaps(text, spans)[..n + 1] == lits + [before];
  }

  /** The tail behind the last span completes the interleaving. */
  lemma FinishMasking(text: string, spans: seq<Span>, parts: seq<string>, length: int, items: seq<Replacement>)
    requires InText(spans, text) && MaskedSoFar(text, spans, |spans|, parts, length, items)
    ensures IsMasking(text, spans, Join(parts + [text[PrevEnd(spans, |spans|)..]]), items)
  {
    var lits, tail := Gaps(text, spans)[..|spans|], text[PrevEnd(spans, |spans|)..];
    assert (parts + [tail])[..|parts|] == parts;
    InterleaveLast(lits, Values(items), tail);
    PlacedMoreLits(items, lits, Values(items), 0, tail);
    assert text[PrevEnd(spans, |spans|)..|text|] == tail;
    assert Gaps(text, spans) == lits + [tail];
  }

  /** How many draws masking `n` spans of a text can take. */
  function DrawsFor(n: nat, text: string): nat {
    if n == 0 then 0 else DrawsFor(n - 1, text) + |text| + 1
  }

  lemma {:induction false} DrawsForIs(n: nat, text: string)
    ensures DrawsFor(n, text) == n * (|text| + 1)
  {
    if n > 0 {
      DrawsForIs(n - 1, text);
    }
  }

  lemma {:induction false} DrawsGrow(m: nat, n: nat, text: string)
    requires m <= n
    ensures DrawsFor(m, text) <= DrawsFor(n, text)
  {
    if m < n {
      DrawsGrow(m, n - 1, text);
    }
  }

  lemma {:induction false} SpansFitText(spans: seq<Span>, length: nat)
    requires SortedDisjoint(spans) && Within(spans, 0, length)
    ensures |spans| <= length && (spans != [] ==> |spans| <= spans[|spans| - 1].end)
  {
    if spans != [] {
      var rest := spans[..|spans| - 1];
      SpansFitText(rest, spans[|spans| - 1].start);
    }
  }

  lemma ProductAtMost(a: nat, b: nat, c: nat, d: nat)
    requires a <= c && b <= d
    ensures a * b <= c * d
  {
    assert c * d == a * b + a * (d - b) + (c - a) * d;
  }

  /** Below 2^32 characters no selection of spans takes more than 2^64 draws, as many as there are tokens of a kind. */
  lemma SupplySuffices(text: string, spans: seq<Span>)
    requires InText(spans, text) && |text| < 0x1_0000_0000
    ensures DrawsFor(|spans|, text) <= 0x1_0000_0000_0000_0000
  {
    SpansFitText(spans, |text|);
    DrawsForIs(|spans|, text);
    ProductAtMost(|spans|, |text| + 1, 0x1_0000_0000, 0x1_0000_0000);
  }

  method MaskText(style: Style, text: string, spans: seq<Span>, mode: Mode)
    returns (masked: string, items: seq<Replacement>)
    requires InText(spans, text) && style.Lawful()
    requires mode == Token ==> style.Fresh() && DrawsFor(|spans|, text) <= style.supply
    ensures IsMasking(text, spans, masked, items)
    ensures ValuesFit(style, text, Identities(text, spans), mode, Values(items))
  {
    var parts: seq<string>, offset, length := [], 0, 0;
    var seen: map<Identity, string> := map[];
    var drawn := 0;
    items := [];
    var n := 0;
    MaskStarts(style, text, spans, mode);
    while n != |spans|
      invariant MaskLoop(style, text, spans, mode, n, parts, offset, length, items, drawn, seen)
      decreases |spans| - n
    {
      parts, length, items, drawn, seen :=
        MaskSpan(style, text, spans, mode, n, parts, offset, length, items, drawn, seen);
      offset := spans[n].end;
      n := n + 1;
    }
    MaskDone(style, text, spans, mode, parts, offset, length, items, drawn, seen);
    parts := parts + [text[offset..]];
    masked := Join(parts);
  }

  lemma MaskStarts(style: Style, text: string, spans: seq<Span>, mode: Mode)
    requires InText(spans, text)
    ensures MaskLoop(style, text, spans, mode, 0, [], 0, 0, [], 0, map[])
  {
  }

  lemma MaskDone(style: Style, text: string, spans: seq<Span>, mode: Mode, parts: seq<string>, offset: int,
                 length: int, items: seq<Replacement>, drawn: nat, seen: map<Identity, string>)
    requires InText(spans, text) && (mode == Token ==> DrawsFor(|spans|, text) <= style.supply)
    requires MaskLoop(style, text, spans, mode, |spans|, parts, offset, length, items, drawn, seen)
    ensures 0 <= offset <= |text| && IsMasking(text, spans, Join(parts + [text[offset..]]), items)
    ensures ValuesFit(style, text, Identities(text, spans), mode, Values(items))
  {
    FinishMasking(text, spans, parts, length, items);
    SeenGivesFit(style, text, Identities(text, spans), mode, drawn, seen, Values(items));
  }

  /** The state of the loop of `mask` before span `n`. */
  ghost predicate MaskLoop(style: Style, text: string, spans: seq<Span>, mode: Mode, n: int, parts: seq<string>,
                           offset: int, length: int, items: seq<Replacement>, drawn: nat, seen: map<Identity, string>)
    requires InText(spans, text)
  {
    && 0 <= n <= |spans| && offset == PrevEnd(spans, n) && drawn <= DrawsFor(n, text)
    && MaskedSoFar(text, spans, n, parts, length, items)
    && ChosenSoFar(style, text, Identities(text, spans), n, mode, drawn, seen, items)
  }

  /** One turn of the loop: the gap in front of span `n` and its replacement. */
  method MaskSpan(style: Style, text: string, spans: seq<Span>, mode: Mode, n: nat, parts0: seq<string>, offset: nat,
                  length0: nat, items0: seq<Replacement>, drawn0: nat, seen0: map<Identity, string>)
    returns (parts: seq<string>, length: nat, items: seq<Replacement>, drawn: nat, seen: map<Identity, string>)
    requires InText(spans, text) && style.Lawful() && n < |spans|
    requires mode == Token ==> style.Fresh() && DrawsFor(|spans|, text) <= style.supply
    requires MaskLoop(style, text, spans, mode, n, parts0, offset, length0, items0, drawn0, seen0)
    ensures MaskLoop(style, text, spans, mode, n + 1, parts, spans[n].end, length, items, drawn, seen)
  {
    var replacement;
    replacement, drawn, seen := ReplaceSpan(style, text, spans, mode, n, items0, drawn0, seen0);
    MaskTurn(style, text, spans, mode, n, parts0, offset, length0, items0, drawn0, seen0, drawn, seen, replacement);
    var before := Before(text, offset, spans[n]);
    var item := ItemOf(text, spans[n], length0 + |before|, replacement);
    parts, length, items := parts0 + [before] + [replacement], item.end, items0 + [item];
  }

  /** The replacement for span `n`. */
  method ReplaceSpan(style: Style, text: string, spans: seq<Span>, mode: Mode, n: nat, ghost items0: seq<Replacement>,
                     drawn0: nat, seen0: map<Identity, string>)
    returns (replacement: string, drawn: nat, seen: map<Identity, string>)
    requires InText(spans, text) && style.Lawful() && n < |spans| && drawn0 <= DrawsFor(n, text)
    requires mode == Token ==> style.Fresh() && DrawsFor(|spans|, text) <= style.supply
    requires ChosenSoFar(style, text, Identities(text, spans), n, mode, drawn0, seen0, items0)
    ensures drawn <= drawn0 + |text| + 1 && SeenFits(style, text, Identities(text, spans), n + 1, mode, drawn, seen)
    ensures Chosen(style, Identities(text, spans)[n], mode, seen, replacement)
    ensures forall id :: id in seen0 ==> id in seen && seen[id] == seen0[id]
  {
    DrawsGrow(n + 1, |spans|, text);
    var identity := (spans[n].kind, text[spans[n].start..spans[n].end]);
    replacement, drawn, seen :=
      ChooseReplacement(style, text, Identities(text, spans), n, identity, mode, drawn0, seen0);
  }

  lemma MaskTurn(style: Style, text: string, spans: seq<Span>, mode: Mode, n: nat, parts: seq<string>, offset: nat,
                 length: nat, items: seq<Replacement>, drawn0: nat, seen0: map<Identity, string>, drawn: nat,
                 seen: map<Identity, string>, replacement: string)
    requires InText(spans, text) && n < |spans|
    requires MaskLoop(style, text, spans, mode, n, parts, offset, length, items, drawn0, seen0)
    requires SeenFits(style, text, Identities(text, spans), n + 1, mode, drawn, seen)
    requires drawn <= drawn0 + |text| + 1
    requires Chosen(style, Identities(text, spans)[n], mode, seen, replacement)
    requires forall id :: id in seen0 ==> id in seen && seen[id] == seen0[id]
    ensures var item := ItemFor(text, spans, n, length, replacement);
            MaskLoop(style, text, spans, mode, n + 1, parts + [GapBefore(text, spans, n)] + [replacement], spans[n].end,
                     item.end, items + [item], drawn, seen)
  {
    MaskStep(text, spans, n, parts, length, items, replacement);
    ChosenStep(style, text, Identities(text, spans), n, mode, drawn, seen0, seen, items,
               ItemFor(text, spans, n, length, replacement));
  }

  /** The first `n` replacements are those the dictionary prescribes. */
  ghost predicate ChosenSoFar(style: Style, text: string, ids: seq<Identity>, n: nat, mode: Mode, drawn: nat,
                              seen: map<Identity, string>, items: seq<Replacement>)
  {
    && n <= |ids| && |items| == n && SeenFits(style, text, ids, n, mode, drawn, seen)
    && forall k :: 0 <= k < n ==> Chosen(style, ids[k], mode, seen, items[k].replacement)
  }

  lemma ChosenStep(style: Style, text: string, ids: seq<Identity>, n: nat, mode: Mode, drawn: nat,
                   seen0: map<Identity, string>, seen: map<Identity, string>, items: seq<Replacement>,
                   item: Replacement)
    requires n < |ids| && |items| == n && SeenFits(style, text, ids, n + 1, mode, drawn, seen)
    requires forall k :: 0 <= k < n ==> Chosen(style, ids[k], mode, seen0, items[k].replacement)
    requires Chosen(style, ids[n], mode, seen, item.replacement)
    requires forall id :: id in seen0 ==> id in seen && seen[id] == seen0[id]
    ensures ChosenSoFar(style, text, ids, n + 1, mode, drawn, seen, items + [item])
  {
  }
}
