/** Undoing a transformation: by recorded coordinates, or by substituting issued tokens. */
module Restore {
  import opened Base
  import opened Spans
  import opened Text
  import opened Tokens
  import opened Transform

  // ----- restoring by coordinates -----

  function RestoreFrom(masked: string, items: seq<Replacement>, offset: nat): Result<string, RestoreError>
    requires offset <= |masked|
  {
    if items == [] then Success(masked[offset..])
    else
      var item := items[0];
      if offset <= item.start < item.end <= |masked| && masked[item.start..item.end] == item.replacement then
        var rest :- RestoreFrom(masked, items[1..], item.end);
        Success(masked[offset..item.start] + item.original + rest)
      else Failure(BadCoordinates)
  }

  ghost function OriginalsOf(items: seq<Replacement>): (r: seq<string>)
    ensures |r| == |items|
  {
    seq(|items|, k requires 0 <= k < |items| => items[k].original)
  }

  /** Where the text behind the first `k` items goes on. */
  ghost function Behind(items: seq<Replacement>, from: nat, k: nat): nat
    requires k <= |items|
  {
    if k == 0 then from else items[k - 1].end
  }

  /** Item `k` lies inside the text, behind the one before it, on its own replacement. */
  ghost predicate OnReplacement(masked: string, items: seq<Replacement>, from: nat, k: nat)
    requires k < |items|
  {
    && Behind(items, from, k) <= items[k].start < items[k].end <= |masked|
    && masked[items[k].start..items[k].end] == items[k].replacement
  }

  ghost predicate OnReplacements(masked: string, items: seq<Replacement>, from: nat) {
    forall k: nat :: k < |items| ==> OnReplacement(masked, items, from, k)
  }

  /** The stretch of the masked text in front of item `k`, or behind the last one. */
  ghost function Stretch(masked: string, items: seq<Replacement>, from: nat, k: nat): string
    requires from <= |masked| && OnReplacements(masked, items, from) && k <= |items|
  {
    assert k > 0 ==> OnReplacement(masked, items, from, k - 1);
    assert k < |items| ==> OnReplacement(masked, items, from, k);
    masked[Behind(items, from, k)..if k < |items| then items[k].start else |masked|]
  }

  /** The stretches of the masked text between the items. */
  ghost function Between(masked: string, items: seq<Replacement>, from: nat): (r: seq<string>)
    requires from <= |masked| && OnReplacements(masked, items, from)
    ensures |r| == |items| + 1
  {
    seq(|items| + 1, k requires 0 <= k <= |items| => Stretch(masked, items, from, k))
  }

  /** Restoration succeeds exactly on items that lie on their replacements, and then puts the originals there. */
  lemma {:induction false} RestoreMeans(masked: string, items: seq<Replacement>, from: nat)
    requires from <= |masked|
    ensures var r := RestoreFrom(masked, items, from);
            if OnReplacements(masked, items, from) then
              r == Success(Interleave(Between(masked, items, from), OriginalsOf(items)))
            else r == Failure(BadCoordinates)
    decreases |items|
  {
    hide OnReplacements;
    if items == [] {
      NoItems(masked, from);
    } else if OnReplacement(masked, items, from, 0) {
      RestoreMeans(masked, items[1..], items[0].end);
      RestOnReplacements(masked, items, from);
      if OnReplacements(masked, items, from) {
        RestBetween(masked, items, from);
      }
    } else {
      FirstOff(masked, items, from);
    }
  }

  lemma NoItems(masked: string, from: nat)
    requires from <= |masked|
    ensures OnReplacements(masked, [], from) && Between(masked, [], from) == [masked[from..]]
  {
    assert Stretch(masked, [], from, 0) == masked[from..];
  }

  lemma FirstOff(masked: string, items: seq<Replacement>, from: nat)
    requires items != [] && !OnReplacement(masked, items, from, 0)
    ensures !OnReplacements(masked, items, from)
  {
  }

  lemma RestOnReplacements(masked: string, items: seq<Replacement>, from: nat)
    requires items != [] && OnReplacement(masked, items, from, 0)
    ensures OnReplacements(masked, items, from) <==> OnReplacements(masked, items[1..], items[0].end)
  {
    var rest := items[1..];
    forall k: nat | k < |rest|
      ensures OnReplacement(masked, rest, items[0].end, k) <==> OnReplacement(masked, items, from, k + 1)
    {
      assert Behind(rest, items[0].end, k) == Behind(items, from, k + 1);
    }
    if OnReplacements(masked, rest, items[0].end) {
      forall k: nat | k < |items| ensures OnReplacement(masked, items, from, k) {
        assert k > 0 ==> OnReplacement(masked, rest, items[0].end, k - 1);
      }
    }
  }

  lemma RestBetween(masked: string, items: seq<Replacement>, from: nat)
    requires from <= |masked| && items != [] && OnReplacement(masked, items, from, 0)
    requires OnReplacements(masked, items, from) && OnReplacements(masked, items[1..], items[0].end)
    ensures Between(masked, items, from) == [masked[from..items[0].start]] + Between(masked, items[1..], items[0].end)
    ensures OriginalsOf(items) == [items[0].original] + OriginalsOf(items[1..])
  {
    hide OnReplacements;
    var rest := items[1..];
    forall k | 0 <= k <= |rest|
      ensures Stretch(masked, items, from, k + 1) == Stretch(masked, rest, items[0].end, k)
    {
      assert Behind(rest, items[0].end, k) == Behind(items, from, k + 1);
    }
  }

  /** `restore_exact`. */
  method RestoreExact(masked: string, items: seq<Replacement>) returns (r: Result<string, RestoreError>)
    ensures r == RestoreFrom(masked, items, 0)
    ensures if OnReplacements(masked, items, 0) then
              r == Success(Interleave(Between(masked, items, 0), OriginalsOf(items)))
            else r == Failure(BadCoordinates)
  {
    hide OnReplacements, Interleave, OriginalsOf;
    RestoreMeans(masked, items, 0);
    var parts: seq<string>, offset: nat := [], 0;
    assert items[0..] == items;
    PrependNothing(RestoreFrom(masked, items, 0));
    for n := 0 to |items|
      invariant offset <= |masked|
      invariant RestoreFrom(masked, items, 0) == Prepend(Join(parts), RestoreFrom(masked, items[n..], offset))
    {
      var item := items[n];
      assert items[n..][0] == item && items[n..][1..] == items[n + 1..];
      if !(offset <= item.start < item.end <= |masked| && masked[item.start..item.end] == item.replacement) {
        return Failure(BadCoordinates);
      }
      JoinTwo(parts, masked[offset..item.start], item.original);
      PrependTwice(Join(parts), masked[offset..item.start], item.original,
                   RestoreFrom(masked, items[n + 1..], item.end));
      parts := parts + [masked[offset..item.start]] + [item.original];
      offset := item.end;
    }
    assert items[|items|..] == [];
    assert (parts + [masked[offset..]])[..|parts|] == parts;
    parts := parts + [masked[offset..]];
    return Success(Join(parts));
  }

  function Prepend(head: string, r: Result<string, RestoreError>): Result<string, RestoreError> {
    if r.Success? then Success(head + r.value) else r
  }

  lemma PrependNothing(r: Result<string, RestoreError>)
    ensures Prepend("", r) == r
  {
    assert r.Success? ==> "" + r.value == r.value;
  }

  lemma PrependTwice(head: string, a: string, b: string, r: Result<string, RestoreError>)
    ensures Prepend(head, Prepend(a + b, r)) == Prepend(head + a + b, r)
  {
    if r.Success? {
      assert head + (a + b + r.value) == head + a + b + r.value;
    }
  }

  /** Placed items are found where they were put, so each value is swapped back for its original. */
  lemma {:induction false} RestorePlaced(head: string, lits: seq<string>, items: seq<Replacement>)
    requires |lits| == |items| + 1
    requires Placed(items, lits, Values(items), |head|)
    requires forall k :: 0 <= k < |items| ==> items[k].replacement != ""
    ensures RestoreFrom(head + Interleave(lits, Values(items)), items, |head|)
         == Success(Interleave(lits, OriginalsOf(items)))
    decreases |items|
  {
    var masked := head + Interleave(lits, Values(items));
    if items == [] {
      assert masked[|head|..] == lits[0];
    } else {
      var item := items[0];
      assert Values(items)[1..] == Values(items[1..]) && OriginalsOf(items)[1..] == OriginalsOf(items[1..]);
      var rest := Interleave(lits[1..], Values(items[1..]));
      var head' := head + lits[0] + item.replacement;
      assert masked == head' + rest;
      assert masked[item.start..item.end] == item.replacement;
      assert masked[|head|..item.start] == lits[0];
      RestorePlaced(head', lits[1..], items[1..]);
    }
  }

  lemma GapAt(text: string, spans: seq<Span>, k: nat)
    requires InText(spans, text) && k < |spans|
    ensures PrevEnd(spans, k) <= spans[k].start <= spans[k].end <= |text|
    ensures Gaps(text, spans)[k] == text[PrevEnd(spans, k)..spans[k].start]
  {
  }

  lemma LastGap(text: string, spans: seq<Span>)
    requires InText(spans, text)
    ensures PrevEnd(spans, |spans|) <= |text|
    ensures Gaps(text, spans)[|spans|] == text[PrevEnd(spans, |spans|)..]
  {
  }

  /** Interleaving the gaps of a text with the stretches its spans cover rebuilds the text, from the back. */
  lemma Rebuild(text: string, spans: seq<Span>, values: seq<string>)
    requires InText(spans, text) && |values| == |spans|
    requires forall i :: 0 <= i < |spans| ==> values[i] == text[spans[i].start..spans[i].end]
    ensures Interleave(Gaps(text, spans), values) == text
  {
    var gaps, k := Gaps(text, spans), |spans|;
    LastGap(text, spans);
    assert gaps[k..] == [gaps[k]];
    while k > 0
      invariant 0 <= k <= |spans| && PrevEnd(spans, k) <= |text|
      invariant Interleave(gaps[k..], values[k..]) == text[PrevEnd(spans, k)..]
    {
      k := k - 1;
      GapAt(text, spans, k);
      RebuildOne(gaps, values, k, text, PrevEnd(spans, k), spans[k].start, spans[k].end);
    }
    assert gaps[0..] == gaps && values[0..] == values;
  }

  lemma RebuildOne(gaps: seq<string>, values: seq<string>, k: nat, whole: string, a: nat, b: nat, c: nat)
    requires |gaps| == |values| + 1 && k < |values| && a <= b <= c <= |whole|
    requires gaps[k] == whole[a..b] && values[k] == whole[b..c]
    requires Interleave(gaps[k + 1..], values[k + 1..]) == whole[c..]
    ensures Interleave(gaps[k..], values[k..]) == whole[a..]
  {
    assert gaps[k..][1..] == gaps[k + 1..] && values[k..][1..] == values[k + 1..];
    assert whole[a..b] + whole[b..c] + whole[c..] == whole[a..];
  }

  /** Masking followed by exact restoration is the identity, in every mode. */
  lemma MaskThenRestore(style: Style, text: string, spans: seq<Span>, mode: Mode, masked: string,
                        items: seq<Replacement>)
    requires InText(spans, text) && IsMasking(text, spans, masked, items)
    requires ValuesFit(style, text, Identities(text, spans), mode, Values(items))
    ensures RestoreFrom(masked, items, 0) == Success(text)
  {
    var gaps := Gaps(text, spans);
    forall k | 0 <= k < |items| ensures items[k].replacement != "" {
      assert Values(items)[k] != "";
    }
    assert "" + masked == masked;
    RestorePlaced("", gaps, items);
    Rebuild(text, spans, OriginalsOf(items));
  }

  // ----- what masking leaves visible -----

  ghost predicate Protected(spans: seq<Span>, p: int) {
    exists k :: 0 <= k < |spans| && spans[k].start <= p < spans[k].end
  }

  /** Mask mode character by character: covered letters and digits become stars, all else stays. */
  ghost function Starred(chars: CharTable, text: string, spans: seq<Span>): (r: string)
    ensures |r| == |text|
  {
    seq(|text|, p requires 0 <= p < |text| => if Protected(spans, p) && chars.isAlnum(text[p]) then '*' else text[p])
  }

  lemma GapUnprotected(spans: seq<Span>, i: nat, p: int)
    requires SortedDisjoint(spans) && i <= |spans|
    requires PrevEnd(spans, i) <= p && (i < |spans| ==> p < spans[i].start)
    ensures !Protected(spans, p)
  {
    forall k | 0 <= k < |spans| ensures !(spans[k].start <= p < spans[k].end) {
      if k < i - 1 {
        assert spans[k].end <= spans[i - 1].start;
      } else if k > i {
        assert spans[i].end <= spans[k].start;
      }
    }
  }

  lemma MaskModeStars(style: Style, text: string, spans: seq<Span>, masked: string, items: seq<Replacement>)
    requires InText(spans, text) && IsMasking(text, spans, masked, items)
    requires ValuesFit(style, text, Identities(text, spans), Mask, Values(items))
    ensures masked == Starred(style.chars, text, spans)
  {
    var whole, values := Starred(style.chars, text, spans), Values(items);
    forall i | 0 <= i < |spans| ensures values[i] == whole[spans[i].start..spans[i].end] {
      assert values[i] == ShapeMask(style.chars, Identities(text, spans)[i].1);
      StarredSpan(style.chars, text, spans, i);
    }
    forall i | 0 <= i <= |spans| ensures Gaps(text, spans)[i] == Gaps(whole, spans)[i] {
      StarredGap(style.chars, text, spans, i);
    }
    assert Gaps(text, spans) == Gaps(whole, spans);
    Rebuild(whole, spans, values);
  }

  lemma StarredSpan(chars: CharTable, text: string, spans: seq<Span>, i: nat)
    requires InText(spans, text) && i < |spans|
    ensures Starred(chars, text, spans)[spans[i].start..spans[i].end]
         == ShapeMask(chars, text[spans[i].start..spans[i].end])
  {
    forall p | spans[i].start <= p < spans[i].end ensures Protected(spans, p) {
    }
  }

  lemma StarredGap(chars: CharTable, text: string, spans: seq<Span>, i: nat)
    requires InText(spans, text) && i <= |spans|
    ensures Gaps(text, spans)[i] == Gaps(Starred(chars, text, spans), spans)[i]
  {
    var whole := Starred(chars, text, spans);
    var lo, hi := PrevEnd(spans, i), if i < |spans| then spans[i].start else |text|;
    forall p | lo <= p < hi ensures whole[p] == text[p] {
      GapUnprotected(spans, i, p);
    }
    assert text[lo..hi] == whole[lo..hi];
  }

  // ----- restoring by tokens -----

  /** The dictionary from replacement to original; a later entry wins. */
  function TokenMap(items: seq<Replacement>): map<string, string> {
    if items == [] then map[]
    else TokenMap(items[..|items| - 1])[items[|items| - 1].replacement := items[|items| - 1].original]
  }

  /** The last item with a replacement says what that replacement stands for. */
  lemma {:induction false} LastEntryWins(items: seq<Replacement>, k: nat)
    requires k < |items| && forall j :: k < j < |items| ==> items[j].replacement != items[k].replacement
    ensures items[k].replacement in TokenMap(items) && TokenMap(items)[items[k].replacement] == items[k].original
  {
    if k < |items| - 1 {
      LastEntryWins(items[..|items| - 1], k);
    }
  }

  lemma {:induction false} OnlyEntries(items: seq<Replacement>, token: string)
    requires token in TokenMap(items)
    ensures exists k :: 0 <= k < |items| && items[k].replacement == token
  {
    var rest, last := items[..|items| - 1], items[|items| - 1];
    if token != last.replacement {
      OnlyEntries(rest, token);
      var k :| 0 <= k < |rest| && rest[k].replacement == token;
      assert items[k].replacement == token;
    }
  }

  function Substitute(pieces: seq<Piece>, mapping: map<string, string>): string {
    if pieces == [] then ""
    else
      (match pieces[0]
       case Literal(c) => [c]
       case Issued(t) => if t in mapping then mapping[t] else t) + Substitute(pieces[1..], mapping)
  }

  predicate AllKnown(pieces: seq<Piece>, mapping: map<string, string>) {
    forall i :: 0 <= i < |pieces| && pieces[i].Issued? ==> pieces[i].token in mapping
  }

  predicate SomeToken(pieces: seq<Piece>) {
    exists i :: 0 <= i < |pieces| && pieces[i].Issued?
  }

  /** The result of `restore_tokens`: every check in its order, over the leftmost scan. */
  function RestoreTokensOf(text: string, mapping: map<string, string>, limit: Option<int>): Result<string, RestoreError>
  {
    var pieces := Scan(text);
    if limit.Some? && limit.value < 0 then Failure(BadLimit)
    else if !AllKnown(pieces, mapping) || !SomeToken(pieces) then Failure(UnknownToken)
    else if limit.Some? && |Substitute(pieces, mapping)| > limit.value then Failure(TooLarge)
    else Success(Substitute(pieces, mapping))
  }

  lemma {:induction false} SubstituteConcat(a: seq<Piece>, b: seq<Piece>, mapping: map<string, string>)
    ensures Substitute(a + b, mapping) == Substitute(a, mapping) + Substitute(b, mapping)
  {
    if a == [] {
      assert a + b == b;
    } else {
      assert (a + b)[1..] == a[1..] + b;
      SubstituteConcat(a[1..], b, mapping);
    }
  }

  ghost function PieceText(p: Piece): string {
    match p case Literal(c) => [c] case Issued(t) => t
  }

  ghost function Width(pieces: seq<Piece>): nat {
    if pieces == [] then 0 else Width(pieces[..|pieces| - 1]) + |PieceText(pieces[|pieces| - 1])|
  }

  lemma {:induction false} WidthConcat(a: seq<Piece>, b: seq<Piece>)
    ensures Width(a + b) == Width(a) + Width(b)
  {
    if b == [] {
      assert a + b == a;
    } else {
      assert (a + b)[..|a + b| - 1] == a + b[..|b| - 1];
      WidthConcat(a, b[..|b| - 1]);
    }
  }

  /** The pieces of a scan are the text itself. */
  lemma {:induction false} ScanKeepsWidth(text: string)
    ensures Width(Scan(text)) == |text|
    decreases |text|
  {
    if text != [] {
      var m := MatchLength(text, 0);
      if m.Some? && m.value > 0 {
        ScanKeepsWidth(text[m.value..]);
        WidthConcat([Issued(text[..m.value])], Scan(text[m.value..]));
      } else {
        ScanKeepsWidth(text[1..]);
        WidthConcat([Literal(text[0])], Scan(text[1..]));
      }
    }
  }

  lemma SomeTokenConcat(a: seq<Piece>, b: seq<Piece>)
    ensures SomeToken(a + b) == (SomeToken(a) || SomeToken(b))
  {
    if i :| 0 <= i < |a| && a[i].Issued? {
      assert (a + b)[i].Issued?;
    }
    if i :| 0 <= i < |b| && b[i].Issued? {
      assert (a + b)[|a| + i].Issued?;
    }
  }

  lemma OnePieceMore(pieces: seq<Piece>, n: nat, mapping: map<string, string>)
    requires n < |pieces|
    ensures SomeToken(pieces[..n + 1]) == (SomeToken(pieces[..n]) || pieces[n].Issued?)
    ensures AllKnown(pieces[..n + 1], mapping)
         == (AllKnown(pieces[..n], mapping) && (pieces[n].Issued? ==> pieces[n].token in mapping))
    ensures AllKnown(pieces, mapping) ==> pieces[n].Issued? ==> pieces[n].token in mapping
    ensures Width(pieces[..n + 1]) == Width(pieces[..n]) + |PieceText(pieces[n])|
    ensures |Substitute(pieces[..n + 1], mapping)|
         == |Substitute(pieces[..n], mapping)| + |Substitute([pieces[n]], mapping)|
  {
    assert pieces[..n + 1] == pieces[..n] + [pieces[n]];
    SubstituteConcat(pieces[..n], [pieces[n]], mapping);
    WidthConcat(pieces[..n], [pieces[n]]);
    SomeTokenConcat(pieces[..n], [pieces[n]]);
  }

  /** What the counting loop knows before piece `n`, in a text of `length` characters. */
  ghost predicate Measured(pieces: seq<Piece>, mapping: map<string, string>, n: int, length: nat, found: bool,
                           outputChars: int)
  {
    && 0 <= n <= |pieces| && found == SomeToken(pieces[..n]) && AllKnown(pieces[..n], mapping)
    && outputChars == length + |Substitute(pieces[..n], mapping)| - Width(pieces[..n])
  }

  lemma MeasureOneMore(pieces: seq<Piece>, mapping: map<string, string>, n: nat, length: nat, found: bool,
                       outputChars: int)
    requires n < |pieces| && Measured(pieces, mapping, n, length, found, outputChars)
    ensures match pieces[n]
            case Literal(_) => Measured(pieces, mapping, n + 1, length, found, outputChars)
            case Issued(token) =>
              if token in mapping then
                Measured(pieces, mapping, n + 1, length, true, outputChars + |mapping[token]| - |token|)
              else !AllKnown(pieces, mapping)
  {
    OnePieceMore(pieces, n, mapping);
  }

  /** The loop that looks up every token and counts the characters of the output. */
  method MeasureOutput(pieces: seq<Piece>, mapping: map<string, string>, length: nat)
    returns (known: bool, found: bool, outputChars: int)
    ensures known == AllKnown(pieces, mapping)
    ensures known ==> found == SomeToken(pieces)
    ensures known ==> outputChars == length + |Substitute(pieces, mapping)| - Width(pieces)
  {
    found, outputChars := false, length;
    for n := 0 to |pieces|
      invariant Measured(pieces, mapping, n, length, found, outputChars)
    {
      MeasureOneMore(pieces, mapping, n, length, found, outputChars);
      match pieces[n]
      case Literal(_) =>
      case Issued(token) =>
        if token !in mapping {
          return false, found, outputChars;
        }
        found, outputChars := true, outputChars + |mapping[token]| - |token|;
    }
    assert pieces[..|pieces|] == pieces;
    known := true;
  }

  /** `restore_tokens`. The size is counted before anything is substituted. */
  method RestoreTokens(text: string, items: seq<Replacement>, limit: Option<int>)
    returns (r: Result<string, RestoreError>)
    ensures r == RestoreTokensOf(text, TokenMap(items), limit)
  {
    if limit.Some? && limit.value < 0 {
      return Failure(BadLimit);
    }
    var mapping := TokenMap(items);
    var pieces := Scan(text);
    var known, found, outputChars := MeasureOutput(pieces, mapping, |text|);
    if !known || !found {
      return Failure(UnknownToken);
    }
    ScanKeepsWidth(text);
    if limit.Some? && outputChars > limit.value {
      return Failure(TooLarge);
    }
    return Success(Substitute(pieces, mapping));
  }

  // ----- what token restoration does to rearranged text -----

  ghost predicate Known(toks: seq<string>, mapping: map<string, string>) {
    forall t :: t in toks ==> t in mapping
  }

  ghost function Mapped(toks: seq<string>, mapping: map<string, string>): (r: seq<string>)
    requires Known(toks, mapping)
    ensures |r| == |toks|
  {
    seq(|toks|, k requires 0 <= k < |toks| => mapping[toks[k]])
  }

  lemma {:induction false} SubstituteChars(lit: string, mapping: map<string, string>)
    ensures Substitute(Chars(lit), mapping) == lit
    ensures !SomeToken(Chars(lit)) && AllKnown(Chars(lit), mapping)
  {
    if lit != [] {
      assert Chars(lit)[1..] == Chars(lit[1..]);
      SubstituteChars(lit[1..], mapping);
    }
  }

  lemma {:induction false} SubstituteInterleaving(lits: seq<string>, toks: seq<string>, mapping: map<string, string>)
    requires |lits| == |toks| + 1
    ensures SomeToken(InterleavePieces(lits, toks)) == (toks != [])
    ensures AllKnown(InterleavePieces(lits, toks), mapping) == Known(toks, mapping)
    ensures Known(toks, mapping) ==>
            Substitute(InterleavePieces(lits, toks), mapping) == Interleave(lits, Mapped(toks, mapping))
  {
    SubstituteChars(lits[0], mapping);
    if toks != [] {
      var rest := InterleavePieces(lits[1..], toks[1..]);
      var head := Chars(lits[0]) + [Issued(toks[0])];
      SubstituteInterleaving(lits[1..], toks[1..], mapping);
      SomeTokenConcat(head, rest);
      assert head[|lits[0]|].Issued?;
      AllKnownConcat(head, rest, mapping);
      AllKnownConcat(Chars(lits[0]), [Issued(toks[0])], mapping);
      assert Known(toks, mapping) <==> toks[0] in mapping && Known(toks[1..], mapping);
      if Known(toks, mapping) {
        SubstituteConcat(head, rest, mapping);
        SubstituteConcat(Chars(lits[0]), [Issued(toks[0])], mapping);
        assert Mapped(toks, mapping)[1..] == Mapped(toks[1..], mapping);
      }
    }
  }

  lemma AllKnownConcat(a: seq<Piece>, b: seq<Piece>, mapping: map<string, string>)
    ensures AllKnown(a + b, mapping) == (AllKnown(a, mapping) && AllKnown(b, mapping))
  {
    if AllKnown(a + b, mapping) {
      forall i | 0 <= i < |a| && a[i].Issued? ensures a[i].token in mapping {
        assert (a + b)[i] == a[i];
      }
      forall i | 0 <= i < |b| && b[i].Issued? ensures b[i].token in mapping {
        assert (a + b)[|a| + i] == b[i];
      }
    }
  }

  /**
   * Restoration of token-free literals interleaved with tokens in any order and multiplicity. The
   * literals are untouched, each token becomes its original and nothing inside an original is looked
   * at again; the request fails exactly when a token is unknown, there is none, or the result is too long.
   */
  lemma RestoreRearranged(lits: seq<string>, toks: seq<string>, mapping: map<string, string>, limit: Option<int>)
    requires WellFormed(lits, toks)
    ensures RestoreTokensOf(Interleave(lits, toks), mapping, limit)
         == if limit.Some? && limit.value < 0 then Failure(BadLimit)
            else if toks == [] || !Known(toks, mapping) then Failure(UnknownToken)
            else if limit.Some? && |Interleave(lits, Mapped(toks, mapping))| > limit.value then Failure(TooLarge)
            else Success(Interleave(lits, Mapped(toks, mapping)))
  {
    ScanInterleaving(lits, toks);
    SubstituteInterleaving(lits, toks, mapping);
  }

  lemma {:induction false} TokenMapEntries(items: seq<Replacement>)
    requires forall j, k :: 0 <= j < |items| && 0 <= k < |items| && items[j].replacement == items[k].replacement ==>
               items[j].original == items[k].original
    ensures TokenMap(items).Keys == ToSet(Values(items))
    ensures forall k :: 0 <= k < |items| ==>
              items[k].replacement in TokenMap(items) && TokenMap(items)[items[k].replacement] == items[k].original
  {
    if items != [] {
      var rest, last := items[..|items| - 1], items[|items| - 1];
      TokenMapEntries(rest);
      assert items == rest + [last];
      ValuesSnoc(rest, last);
      SetOfConcat(Values(rest), [last.replacement]);
      assert ToSet([last.replacement]) == {last.replacement};
      forall k | 0 <= k < |items|
        ensures items[k].replacement in TokenMap(items) && TokenMap(items)[items[k].replacement] == items[k].original
      {
        if k < |rest| {
          assert rest[k] == items[k];
        }
      }
    }
  }

  /** Arbitrary literals between tokens may hide further tokens; refining them exposes these. */
  lemma {:induction false} RefineLiterals(lits: seq<string>, toks: seq<string>) returns (l: seq<string>, t: seq<string>)
    requires |lits| == |toks| + 1 && forall x :: x in toks ==> IsToken(x)
    ensures WellFormed(l, t) && Interleave(l, t) == Interleave(lits, toks)
    ensures (forall x :: x in lits ==> TokenFree(x)) ==> l == lits && t == toks
    ensures !(forall x :: x in lits ==> TokenFree(x)) ==>
              exists x, lit :: x in t && lit in lits && Contains(lit, x)
    decreases |toks|
  {
    if forall x :: x in lits ==> TokenFree(x) {
      l, t := lits, toks;
      return;
    }
    var l0, t0 := EveryTextInterleaves(lits[0]);
    if t0 != [] {
      FirstTokenInside(l0, t0);
      assert lits[0] in lits && t0[0] in t0;
    }
    assert t0 == [] ==> lits[0] == l0[0] && l0[0] in l0;
    if toks == [] {
      l, t := l0, t0;
    } else {
      var l1, t1 := RefineLiterals(lits[1..], toks[1..]);
      l, t := l0 + l1, t0 + [toks[0]] + t1;
      InterleaveConcat(l0, t0, toks[0], l1, t1);
      if t0 == [] {
        assert !(forall x :: x in lits[1..] ==> TokenFree(x)) by {
          assert forall x :: x in lits <==> x == lits[0] || x in lits[1..];
        }
        var x, lit :| x in t1 && lit in lits[1..] && Contains(lit, x);
        assert x in t && lit in lits;
      } else {
        assert t0[0] in t;
      }
    }
  }

  lemma FirstTokenInside(lits: seq<string>, toks: seq<string>)
    requires |lits| == |toks| + 1 && toks != []
    ensures Contains(Interleave(lits, toks), toks[0])
  {
    assert OccursAt(Interleave(lits, toks), toks[0], |lits[0]|);
  }

  lemma {:induction false} InterleaveConcat(l0: seq<string>, t0: seq<string>, tok: string, l1: seq<string>,
                                            t1: seq<string>)
    requires |l0| == |t0| + 1 && |l1| == |t1| + 1
    ensures |l0 + l1| == |t0 + [tok] + t1| + 1
    ensures Interleave(l0 + l1, t0 + [tok] + t1) == Interleave(l0, t0) + tok + Interleave(l1, t1)
    decreases |t0|
  {
    if t0 == [] {
      assert (l0 + l1)[1..] == l1 && (t0 + [tok] + t1)[1..] == t1;
    } else {
      InterleaveConcat(l0[1..], t0[1..], tok, l1, t1);
      assert (l0 + l1)[1..] == l0[1..] + l1 && (t0 + [tok] + t1)[1..] == t0[1..] + [tok] + t1;
      assert l0[0] + t0[0] + (Interleave(l0[1..], t0[1..]) + tok + Interleave(l1, t1))
          == l0[0] + t0[0] + Interleave(l0[1..], t0[1..]) + tok + Interleave(l1, t1);
    }
  }

  ghost predicate TokenRecord(style: Style, text: string, spans: seq<Span>, masked: string, items: seq<Replacement>)
    requires InText(spans, text)
  {
    && style.IssuesTokens() && (forall k :: 0 <= k < |spans| ==> IsKind(spans[k].kind))
    && IsMasking(text, spans, masked, items)
    && ValuesFit(style, text, Identities(text, spans), Token, Values(items))
  }

  /** In token mode equal tokens stand for equal originals. */
  lemma SameToken(style: Style, text: string, spans: seq<Span>, masked: string, items: seq<Replacement>, j: nat, k: nat)
    requires InText(spans, text) && IsMasking(text, spans, masked, items)
    requires ValuesFit(style, text, Identities(text, spans), Token, Values(items))
    requires j < |items| && k < |items| && items[j].replacement == items[k].replacement
    ensures items[j].original == items[k].original
  {
    assert Values(items)[j] == Values(items)[k];
    assert Identities(text, spans)[j] == Identities(text, spans)[k];
  }

  lemma TokensMapped(style: Style, text: string, spans: seq<Span>, masked: string, items: seq<Replacement>)
    requires InText(spans, text) && IsMasking(text, spans, masked, items)
    requires ValuesFit(style, text, Identities(text, spans), Token, Values(items))
    ensures TokenMap(items).Keys == ToSet(Values(items))
    ensures forall k :: 0 <= k < |items| ==>
              items[k].replacement in TokenMap(items) && TokenMap(items)[items[k].replacement] == items[k].original
  {
    forall j, k | 0 <= j < |items| && 0 <= k < |items| && items[j].replacement == items[k].replacement
      ensures items[j].original == items[k].original
    {
      SameToken(style, text, spans, masked, items, j, k);
    }
    TokenMapEntries(items);
  }

  /** The tokens of a record are exactly what its dictionary knows, each with the original it stands for. */
  lemma TokenRecordMap(style: Style, text: string, spans: seq<Span>, masked: string, items: seq<Replacement>)
    requires InText(spans, text) && TokenRecord(style, text, spans, masked, items)
    ensures forall t :: t in Values(items) ==> IsToken(t) && !Contains(text, t)
    ensures TokenMap(items).Keys == ToSet(Values(items))
    ensures Mapped(Values(items), TokenMap(items)) == OriginalsOf(items)
  {
    var ids, values := Identities(text, spans), Values(items);
    forall t | t in values ensures IsToken(t) && !Contains(text, t) {
      var k :| 0 <= k < |values| && values[k] == t;
      assert IssuedFor(style, text, ids[k].0, values[k]);
      assert IsKind(spans[k].kind);
    }
    TokensMapped(style, text, spans, masked, items);
  }

  // ----- a record's tokens in another order -----

  ghost predicate Picks(picks: seq<nat>, n: nat) {
    forall k :: 0 <= k < |picks| ==> picks[k] < n
  }

  /** The tokens of the picked replacements, in the order of picking. */
  ghost function TokensAt(items: seq<Replacement>, picks: seq<nat>): (r: seq<string>)
    requires Picks(picks, |items|)
    ensures |r| == |picks|
  {
    seq(|picks|, k requires 0 <= k < |picks| => items[picks[k]].replacement)
  }

  ghost function OriginalsAt(items: seq<Replacement>, picks: seq<nat>): (r: seq<string>)
    requires Picks(picks, |items|)
    ensures |r| == |picks|
  {
    seq(|picks|, k requires 0 <= k < |picks| => items[picks[k]].original)
  }

  /** A text made of a record's tokens, in any order and multiplicity, becomes the originals in that order. */
  lemma PickedTokensRestore(style: Style, text: string, spans: seq<Span>, masked: string, items: seq<Replacement>,
                            lits: seq<string>, picks: seq<nat>, limit: nat)
    requires InText(spans, text) && IsMasking(text, spans, masked, items)
    requires ValuesFit(style, text, Identities(text, spans), Token, Values(items))
    requires picks != [] && Picks(picks, |items|) && WellFormed(lits, TokensAt(items, picks))
    ensures RestoreTokensOf(Interleave(lits, TokensAt(items, picks)), TokenMap(items), Some(limit))
         == if |Interleave(lits, OriginalsAt(items, picks))| > limit then Failure(TooLarge)
            else Success(Interleave(lits, OriginalsAt(items, picks)))
  {
    var toks, mapping := TokensAt(items, picks), TokenMap(items);
    TokensMapped(style, text, spans, masked, items);
    assert Known(toks, mapping);
    assert Mapped(toks, mapping) == OriginalsAt(items, picks);
    RestoreRearranged(lits, toks, mapping, Some(limit));
  }

  lemma TokenFreeGapsRestore(style: Style, text: string, spans: seq<Span>, masked: string, items: seq<Replacement>)
    requires InText(spans, text) && TokenRecord(style, text, spans, masked, items)
    requires forall g :: g in Gaps(text, spans) ==> TokenFree(g)
    ensures RestoreTokensOf(masked, TokenMap(items), None)
         == if spans == [] then Failure(UnknownToken) else Success(text)
  {
    var gaps, values := Gaps(text, spans), Values(items);
    TokenRecordMap(style, text, spans, masked, items);
    assert Known(values, TokenMap(items));
    RestoreRearranged(gaps, values, TokenMap(items), None);
    Rebuild(text, spans, OriginalsOf(items));
  }

  lemma StrayTokenRefused(style: Style, text: string, spans: seq<Span>, masked: string, items: seq<Replacement>)
    requires InText(spans, text) && TokenRecord(style, text, spans, masked, items)
    requires !(forall g :: g in Gaps(text, spans) ==> TokenFree(g))
    ensures RestoreTokensOf(masked, TokenMap(items), None) == Failure(UnknownToken)
  {
    var gaps, values := Gaps(text, spans), Values(items);
    TokenRecordMap(style, text, spans, masked, items);
    var l, t := RefineLiterals(gaps, values);
    RestoreRearranged(l, t, TokenMap(items), None);
    var x := StrayInText(text, spans, t);
    assert x !in ToSet(values);
  }

  lemma StrayInText(text: string, spans: seq<Span>, toks: seq<string>) returns (x: string)
    requires InText(spans, text) && exists x, lit :: x in toks && lit in Gaps(text, spans) && Contains(lit, x)
    ensures x in toks && Contains(text, x)
  {
    var lit;
    x, lit :| x in toks && lit in Gaps(text, spans) && Contains(lit, x);
    var k :| 0 <= k < |Gaps(text, spans)| && Gaps(text, spans)[k] == lit;
    GapInText(text, spans, k, x);
  }

  /**
   * Restoring the unedited token-mode text through its tokens returns the original exactly when some
   * span was replaced and no text between the spans already looked like a token.
   */
  lemma TokenModeRestores(style: Style, text: string, spans: seq<Span>, masked: string, items: seq<Replacement>)
    requires InText(spans, text) && TokenRecord(style, text, spans, masked, items)
    ensures RestoreTokensOf(masked, TokenMap(items), None) == Success(text) <==>
            spans != [] && forall g :: g in Gaps(text, spans) ==> TokenFree(g)
  {
    if forall g :: g in Gaps(text, spans) ==> TokenFree(g) {
      TokenFreeGapsRestore(style, text, spans, masked, items);
    } else {
      StrayTokenRefused(style, text, spans, masked, items);
    }
  }

  lemma GapInText(text: string, spans: seq<Span>, k: nat, x: string)
    requires InText(spans, text) && k <= |spans| && Contains(Gaps(text, spans)[k], x)
    ensures Contains(text, x)
  {
    var lo, hi := PrevEnd(spans, k), if k < |spans| then spans[k].start else |text|;
    var p :| 0 <= p <= hi - lo && OccursAt(text[lo..hi], x, p);
    SliceOfSlice(text, lo, hi, p, p + |x|);
    assert OccursAt(text, x, lo + p);
  }
}
