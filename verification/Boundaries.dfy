/** Refining resolved spans to the boundaries of compatible model components. */
module Boundaries {
  import opened Base
  import opened Spans
  import opened Text
  import opened CoverIndex
  import opened Transform
  import opened Restore

  const ADDRESS_KINDS: set<string> :=
    {"ADDRESS", "LOCATION", "COUNTRY", "REGION", "DISTRICT", "CITY", "STREET", "HOUSE", "APARTMENT", "POSTAL_CODE"}
  const ATOMIC_KINDS: set<string> := {"PERSON", "CARDHOLDER", "ADDRESS"}

  /** `isIp` stands for the parser of complete network addresses. */
  datatype Rules = Rules(chars: CharTable, isIp: string -> bool)

  function Family(kind: string): string {
    if kind in ADDRESS_KINDS then "ADDRESS" else kind
  }

  predicate WordChar(chars: CharTable, c: char) {
    chars.isAlnum(c) || chars.isMark(c)
  }

  predicate WordBoundary(chars: CharTable, text: string, offset: nat)
    requires offset <= |text|
  {
    offset == 0 || offset == |text| || !(WordChar(chars, text[offset - 1]) && WordChar(chars, text[offset]))
  }

  function WithoutBlanks(s: string): string {
    if s == [] then [] else (if s[0] == ' ' || s[0] == '\t' then [] else [s[0]]) + WithoutBlanks(s[1..])
  }

  predicate AtomicIp(rules: Rules, text: string, span: Span)
    requires Nonempty(span) && span.end <= |text|
  {
    span.kind == "IP_ADDRESS" && rules.isIp(WithoutBlanks(text[span.start..span.end]))
  }

  /** The parts tile complete words inside `original` and mean the same kind of thing. */
  ghost predicate Compatible(chars: CharTable, text: string, original: Span, parts: seq<Span>)
    requires original.end <= |text|
  {
    && SortedDisjoint(parts) && Within(parts, original.start, original.end)
    && forall i :: 0 <= i < |parts| ==> FitsIn(chars, text, original, parts[i])
  }

  ghost predicate FitsIn(chars: CharTable, text: string, original: Span, part: Span) {
    && Family(part.kind) == Family(original.kind)
    && part.start <= |text| && part.end <= |text|
    && WordBoundary(chars, text, part.start) && WordBoundary(chars, text, part.end)
  }

  /** `_compatible_parts`: one cursor pass decides pairwise disjointness and containment. */
  method CompatibleParts(chars: CharTable, text: string, original: Span, parts: seq<Span>) returns (b: bool)
    requires Nonempty(original) && original.end <= |text|
    ensures b <==> Compatible(chars, text, original, parts)
  {
    var cursor := original.start;
    for n := 0 to |parts|
      invariant original.start <= cursor
      invariant cursor == if n == 0 then original.start else parts[n - 1].end
      invariant Compatible(chars, text, original, parts[..n])
    {
      var part := parts[n];
      NextPart(chars, text, original, parts, n);
      if part.start < cursor || part.end > original.end || part.end <= part.start
         || Family(part.kind) != Family(original.kind)
         || !WordBoundary(chars, text, part.start) || !WordBoundary(chars, text, part.end) {
        return false;
      }
      cursor := part.end;
    }
    assert parts[..|parts|] == parts;
    return true;
  }

  /** One part more: it must follow the previous one inside the span and fit. */
  lemma NextPart(chars: CharTable, text: string, original: Span, parts: seq<Span>, n: nat)
    requires n < |parts| && Nonempty(original) && original.end <= |text|
    requires Compatible(chars, text, original, parts[..n])
    ensures var part, cursor := parts[n], if n == 0 then original.start else parts[n - 1].end;
            && original.start <= cursor
            && (cursor <= part.start < part.end <= original.end && FitsIn(chars, text, original, part)
                ==> Compatible(chars, text, original, parts[..n + 1]))
            && (Compatible(chars, text, original, parts)
                ==> cursor <= part.start < part.end <= original.end && FitsIn(chars, text, original, part))
  {
    var part := parts[n];
    assert parts[..n + 1] == parts[..n] + [part];
    if part.start < part.end && (n > 0 ==> parts[n - 1].end <= part.start) {
      ConcatSortedDisjoint(parts[..n], [part]);
    }
  }

  ghost predicate HasAlnum(chars: CharTable, text: string, a: nat, b: nat)
    requires a <= b <= |text|
  {
    exists p :: a <= p < b && chars.isAlnum(text[p])
  }

  /** `[s, e)` is `[a, b)` without whitespace at its ends. */
  ghost predicate Stripped(chars: CharTable, text: string, a: nat, b: nat, s: nat, e: nat)
    requires a <= b <= |text|
  {
    && a <= s < e <= b
    && (forall p :: a <= p < s ==> chars.isSpace(text[p]))
    && (forall p :: e <= p < b ==> chars.isSpace(text[p]))
    && !chars.isSpace(text[s]) && !chars.isSpace(text[e - 1])
  }

  /** What `_remainder` keeps of the stretch `[a, b)`: nothing without a letter or digit, else its core. */
  ghost predicate RemainderOf(chars: CharTable, text: string, original: Span, a: nat, b: nat, pieces: seq<Span>)
    requires a <= b <= |text|
  {
    if HasAlnum(chars, text, a, b) then
      |pieces| == 1 && SameMeaning(pieces[0], original) && Stripped(chars, text, a, b, pieces[0].start, pieces[0].end)
    else pieces == []
  }

  predicate SameMeaning(piece: Span, original: Span) {
    piece.kind == original.kind && piece.confidence == original.confidence && piece.reason == original.reason
  }

  method Remainder(chars: CharTable, text: string, original: Span, start: nat, end: nat) returns (pieces: seq<Span>)
    requires chars.Lawful() && start <= end <= |text|
    ensures RemainderOf(chars, text, original, start, end, pieces)
  {
    if !exists p :: start <= p < end && chars.isAlnum(text[p]) {
      return [];
    }
    ghost var witness_ :| start <= witness_ < end && chars.isAlnum(text[witness_]);
    var s, e := start, end;
    while s < e && chars.isSpace(text[s])
      invariant start <= s <= witness_ < e
      invariant forall p :: start <= p < s ==> chars.isSpace(text[p])
    {
      s := s + 1;
    }
    while s < e && chars.isSpace(text[e - 1])
      invariant s <= witness_ < e <= end
      invariant forall p :: e <= p < end ==> chars.isSpace(text[p])
    {
      e := e - 1;
    }
    return [original.(start := s, end := e)];
  }

  /** The stretch of `original` in front of part `k`, or behind the last part. */
  ghost function GapStart(original: Span, parts: seq<Span>, k: nat): nat
    requires k <= |parts|
  {
    if k == 0 then original.start else parts[k - 1].end
  }

  ghost function GapEnd(original: Span, parts: seq<Span>, k: nat): nat
    requires k <= |parts|
  {
    if k < |parts| then parts[k].start else original.end
  }

  predicate AsPart(original: Span, part: Span, piece: Span) {
    piece == original.(start := part.start, end := part.end)
  }

  ghost predicate FromGap(chars: CharTable, text: string, original: Span, parts: seq<Span>, k: nat, piece: Span)
    requires k <= |parts|
  {
    && GapStart(original, parts, k) <= GapEnd(original, parts, k) <= |text|
    && HasAlnum(chars, text, GapStart(original, parts, k), GapEnd(original, parts, k))
    && SameMeaning(piece, original)
    && Stripped(chars, text, GapStart(original, parts, k), GapEnd(original, parts, k), piece.start, piece.end)
  }

  /** A piece is one of the parts or the core of one of the gaps, with the meaning of `original`. */
  ghost predicate Justified(chars: CharTable, text: string, original: Span, parts: seq<Span>, piece: Span) {
    (exists k :: 0 <= k < |parts| && AsPart(original, parts[k], piece)) ||
    (exists k :: 0 <= k <= |parts| && FromGap(chars, text, original, parts, k, piece))
  }

  /** `pieces` refine `original`: every part is one, the rest are the cores of the gaps, no letter is lost. */
  ghost predicate Refines(chars: CharTable, text: string, original: Span, parts: seq<Span>, pieces: seq<Span>)
    requires original.end <= |text|
  {
    && SortedDisjoint(pieces) && Within(pieces, original.start, original.end)
    && (forall k :: 0 <= k < |parts| ==> original.(start := parts[k].start, end := parts[k].end) in pieces)
    && (forall piece :: piece in pieces ==>
          Justified(chars, text, original, parts, piece))
    && (forall p :: original.start <= p < original.end && chars.isAlnum(text[p]) ==> Protected(pieces, p))
  }

  method Partition(chars: CharTable, text: string, original: Span, parts: seq<Span>) returns (pieces: seq<Span>)
    requires chars.Lawful() && Nonempty(original) && original.end <= |text|
    requires Compatible(chars, text, original, parts)
    ensures Refines(chars, text, original, parts, pieces)
  {
    pieces := [];
    var cursor := original.start;
    for n := 0 to |parts|
      invariant cursor == GapStart(original, parts, n) && original.start <= cursor <= original.end
      invariant RefinesUpTo(chars, text, original, parts, n, cursor, pieces)
    {
      var part := parts[n];
      assert n > 0 ==> parts[n - 1].end <= part.start;
      var rest := Remainder(chars, text, original, cursor, part.start);
      AddRemainder(chars, text, original, parts, n, pieces, rest);
      AddPart(chars, text, original, parts, n, pieces + rest);
      pieces := pieces + rest;
      pieces := pieces + [original.(start := part.start, end := part.end)];
      cursor := part.end;
    }
    var rest := Remainder(chars, text, original, cursor, original.end);
    AddRemainder(chars, text, original, parts, |parts|, pieces, rest);
    pieces := pieces + rest;
  }

  /** The state of the partition: everything before `cursor` is settled and the first `n` parts are pieces. */
  ghost predicate RefinesUpTo(chars: CharTable, text: string, original: Span, parts: seq<Span>, n: nat, cursor: nat,
                              pieces: seq<Span>)
    requires n <= |parts| && cursor <= |text|
  {
    && SortedDisjoint(pieces) && Within(pieces, original.start, cursor)
    && (forall k :: 0 <= k < n ==> original.(start := parts[k].start, end := parts[k].end) in pieces)
    && (forall piece :: piece in pieces ==> Justified(chars, text, original, parts, piece))
    && (forall p :: original.start <= p < cursor && chars.isAlnum(text[p]) ==> Protected(pieces, p))
  }

  lemma ProtectedConcat(a: seq<Span>, b: seq<Span>, p: int)
    ensures Protected(a + b, p) <==> Protected(a, p) || Protected(b, p)
  {
    if k :| 0 <= k < |a| && a[k].start <= p < a[k].end {
      assert (a + b)[k] == a[k];
    }
    if k :| 0 <= k < |b| && b[k].start <= p < b[k].end {
      assert (a + b)[|a| + k] == b[k];
    }
  }

  /** Appending one justified piece settles everything up to `next`. */
  lemma AddPiece(chars: CharTable, text: string, original: Span, parts: seq<Span>, n: nat, cursor: nat, next: nat,
                 pieces: seq<Span>, piece: Span)
    requires n <= |parts| && original.start <= cursor <= piece.start < piece.end <= next <= |text|
    requires RefinesUpTo(chars, text, original, parts, n, cursor, pieces)
    requires Justified(chars, text, original, parts, piece)
    requires forall p :: cursor <= p < next && chars.isAlnum(text[p]) ==> piece.start <= p < piece.end
    ensures RefinesUpTo(chars, text, original, parts, n, next, pieces + [piece])
  {
    ConcatSortedDisjoint(pieces, [piece]);
    forall p | original.start <= p < next && chars.isAlnum(text[p]) ensures Protected(pieces + [piece], p) {
      ProtectedConcat(pieces, [piece], p);
      assert p >= cursor ==> [piece][0].start <= p < [piece][0].end;
    }
  }

  lemma AddRemainder(chars: CharTable, text: string, original: Span, parts: seq<Span>, n: nat, pieces: seq<Span>,
                     rest: seq<Span>)
    requires chars.Lawful() && n <= |parts| && original.end <= |text|
    requires original.start <= GapStart(original, parts, n) <= GapEnd(original, parts, n) <= original.end
    requires RefinesUpTo(chars, text, original, parts, n, GapStart(original, parts, n), pieces)
    requires RemainderOf(chars, text, original, GapStart(original, parts, n), GapEnd(original, parts, n), rest)
    ensures RefinesUpTo(chars, text, original, parts, n, GapEnd(original, parts, n), pieces + rest)
  {
    var a, b := GapStart(original, parts, n), GapEnd(original, parts, n);
    if HasAlnum(chars, text, a, b) {
      assert rest == [rest[0]];
      assert FromGap(chars, text, original, parts, n, rest[0]);
      AddPiece(chars, text, original, parts, n, a, b, pieces, rest[0]);
    } else {
      assert pieces + rest == pieces;
    }
  }

  lemma AddPart(chars: CharTable, text: string, original: Span, parts: seq<Span>, n: nat, pieces: seq<Span>)
    requires n < |parts| && original.end <= |text| && Nonempty(parts[n]) && parts[n].end <= original.end
    requires original.start <= parts[n].start
    requires RefinesUpTo(chars, text, original, parts, n, parts[n].start, pieces)
    ensures RefinesUpTo(chars, text, original, parts, n + 1, parts[n].end,
                        pieces + [original.(start := parts[n].start, end := parts[n].end)])
  {
    var piece := original.(start := parts[n].start, end := parts[n].end);
    assert AsPart(original, parts[n], piece);
    AddPiece(chars, text, original, parts, n, parts[n].start, parts[n].end, pieces, piece);
  }

  // ----- the whole list -----

  /** `(start, end, type)`, the order models are indexed in. */
  predicate ModelLe(a: Span, b: Span) {
    if a.start != b.start then a.start < b.start
    else if a.end != b.end then a.end < b.end
    else a.kind == b.kind || StrLess(a.kind, b.kind)
  }

  lemma ModelLeIsTotalPreorder()
    ensures TotalPreorder(ModelLe)
  {
    forall a, b ensures ModelLe(a, b) || ModelLe(b, a) {
      StrLessTotal(a.kind, b.kind);
    }
    forall a, b, c | ModelLe(a, b) && ModelLe(b, c) ensures ModelLe(a, c) {
      if StrLess(a.kind, b.kind) && StrLess(b.kind, c.kind) {
        StrLessTransitive(a.kind, b.kind, c.kind);
      }
    }
  }

  /** When a resolved span is refined at all. `parts` are the models overlapping it. */
  ghost predicate Splits(rules: Rules, text: string, original: Span, parts: seq<Span>)
    requires Nonempty(original) && original.end <= |text|
  {
    && parts != []
    && !(|parts| == 1 && parts[0].start == original.start && parts[0].end == original.end)
    && original.kind !in ATOMIC_KINDS && original.reason != "custom-rule"
    && !AtomicIp(rules, text, original)
    && Compatible(rules.chars, text, original, parts)
  }

  /** What becomes of one resolved span. */
  ghost predicate Refined(rules: Rules, text: string, original: Span, models: seq<Span>, pieces: seq<Span>)
    requires Nonempty(original) && original.end <= |text|
  {
    var parts := OverlapsOf(models, original);
    if Splits(rules, text, original, parts) then Refines(rules.chars, text, original, parts, pieces)
    else pieces == [original]
  }

  ghost function Flatten(groups: seq<seq<Span>>): seq<Span> {
    if groups == [] then [] else Flatten(groups[..|groups| - 1]) + groups[|groups| - 1]
  }

  lemma FlattenSnoc(groups: seq<seq<Span>>, group: seq<Span>)
    ensures Flatten(groups + [group]) == Flatten(groups) + group
  {
    assert (groups + [group])[..|groups|] == groups;
  }

  /** `groups[k]` is what becomes of `resolved[k]`. */
  ghost predicate RefinedAll(rules: Rules, text: string, resolved: seq<Span>, models: seq<Span>, groups: seq<seq<Span>>)
  {
    && |groups| == |resolved|
    && forall k :: 0 <= k < |resolved| ==>
         Nonempty(resolved[k]) && resolved[k].end <= |text| && Refined(rules, text, resolved[k], models, groups[k])
  }

  /** One pass of the loop of `preserve_model_boundaries`. */
  method RefineSpan(rules: Rules, text: string, original: Span, models: seq<Span>, starts: seq<int>,
                    coverEnds: seq<int>)
    returns (pieces: seq<Span>)
    requires rules.chars.Lawful() && Nonempty(original) && original.end <= |text|
    requires Indexed(models, starts, coverEnds)
    ensures Refined(rules, text, original, models, pieces)
  {
    var parts := ModelParts(models, starts, coverEnds, original);
    var same := |parts| == 1 && parts[0].start == original.start && parts[0].end == original.end;
    var compatible := CompatibleParts(rules.chars, text, original, parts);
    if same || original.kind in ATOMIC_KINDS || original.reason == "custom-rule" || parts == []
       || AtomicIp(rules, text, original) || !compatible {
      return [original];
    }
    pieces := Partition(rules.chars, text, original, parts);
  }

  // ----- which boundaries the list ends up with, in terms of the candidates -----

  lemma {:induction false} WithoutBlanksConcat(a: string, b: string)
    ensures WithoutBlanks(a + b) == WithoutBlanks(a) + WithoutBlanks(b)
  {
    if a == [] {
      assert a + b == b;
    } else {
      assert (a + b)[1..] == a[1..] + b;
      WithoutBlanksConcat(a[1..], b);
    }
  }

  /** Blanks and tabs go, everything else stays in order. */
  lemma WithoutBlanksMeans(a: string, c: char)
    ensures WithoutBlanks("") == ""
    ensures WithoutBlanks(a + [c]) == WithoutBlanks(a) + if c == ' ' || c == '\t' then "" else [c]
  {
    WithoutBlanksConcat(a, [c]);
    assert [c][1..] == [];
  }

  /** Names, full addresses, custom rules and complete network addresses keep their boundaries. */
  ghost predicate KeptWhole(rules: Rules, text: string, original: Span)
    requires original.start <= original.end <= |text|
  {
    || original.kind == "PERSON" || original.kind == "CARDHOLDER" || original.kind == "ADDRESS"
    || original.reason == "custom-rule"
    || (original.kind == "IP_ADDRESS" && rules.isIp(WithoutBlanks(text[original.start..original.end])))
  }

  /** The same kind, or two kinds of places. */
  predicate SameFamily(a: string, b: string) {
    a == b || (IsPlace(a) && IsPlace(b))
  }

  predicate IsPlace(kind: string) {
    kind in {"ADDRESS", "LOCATION", "COUNTRY", "REGION", "DISTRICT", "CITY", "STREET", "HOUSE", "APARTMENT",
             "POSTAL_CODE"}
  }

  /** No word, marks included, runs across the offset. */
  ghost predicate BetweenWords(chars: CharTable, text: string, offset: nat) {
    0 < offset < |text| ==>
      exists p :: offset - 1 <= p <= offset && !chars.isAlnum(text[p]) && !chars.isMark(text[p])
  }

  ghost predicate IsComponent(chars: CharTable, text: string, original: Span, c: Span) {
    && original.start <= c.start < c.end <= original.end && SameFamily(c.kind, original.kind)
    && BetweenWords(chars, text, c.start) && BetweenWords(chars, text, c.end)
  }

  /** The candidates that reach into the span are components of it, each listed once and apart from the others. */
  ghost predicate MadeOfComponents(chars: CharTable, text: string, original: Span, candidates: seq<Span>) {
    && (forall c :: c in candidates && !Apart(c, original) ==>
          IsComponent(chars, text, original, c) && multiset(candidates)[c] == 1)
    && (forall a, b :: a in candidates && !Apart(a, original) && b in candidates && !Apart(b, original) && a != b ==>
          Apart(a, b))
  }

  ghost predicate Untouched(original: Span, candidates: seq<Span>) {
    forall c :: c in candidates ==> Apart(c, original)
  }

  /** The span stands in the output, or each component reaching into it does with the span's own meaning. */
  ghost predicate KeepsBoundaries(rules: Rules, text: string, original: Span, candidates: seq<Span>, output: seq<Span>)
    requires original.start <= original.end <= |text|
  {
    if KeptWhole(rules, text, original) || !MadeOfComponents(rules.chars, text, original, candidates)
       || Untouched(original, candidates)
    then original in output
    else forall c :: c in candidates && !Apart(c, original) ==> original.(start := c.start, end := c.end) in output
  }

  /**
   * A stretch of the span between its components: it holds a letter or digit, and from its edges to the next
   * component or the end of the span there is only whitespace.
   */
  ghost predicate IsRest(chars: CharTable, text: string, original: Span, candidates: seq<Span>, piece: Span)
    requires original.start <= original.end <= |text|
  {
    && SameMeaning(piece, original) && original.start <= piece.start < piece.end <= original.end
    && (exists p :: piece.start <= p < piece.end && chars.isAlnum(text[p]))
    && (forall c :: c in candidates && !Apart(c, original) ==> Apart(c, piece))
    && !chars.isSpace(text[piece.start]) && !chars.isSpace(text[piece.end - 1])
    && (forall p :: original.start <= p < piece.start && !chars.isSpace(text[p]) ==>
          exists c :: c in candidates && !Apart(c, original) && p < c.end <= piece.start)
    && (forall p :: piece.end <= p < original.end && !chars.isSpace(text[p]) ==>
          exists c :: c in candidates && !Apart(c, original) && piece.end <= c.start <= p)
  }

  /** The span itself when it is kept, or else one of its components or of the stretches between them. */
  ghost predicate IsPiece(rules: Rules, text: string, original: Span, candidates: seq<Span>, piece: Span)
    requires original.start <= original.end <= |text|
  {
    if KeptWhole(rules, text, original) || !MadeOfComponents(rules.chars, text, original, candidates)
       || Untouched(original, candidates)
    then piece == original
    else
      || (exists c :: c in candidates && !Apart(c, original) && piece == original.(start := c.start, end := c.end))
      || IsRest(rules.chars, text, original, candidates, piece)
  }

  lemma FamilyIsShared(a: string, b: string)
    ensures Family(a) == Family(b) <==> SameFamily(a, b)
  {
  }

  lemma BoundaryIsBetween(chars: CharTable, text: string, offset: nat)
    requires offset <= |text|
    ensures WordBoundary(chars, text, offset) <==> BetweenWords(chars, text, offset)
  {
    assert 0 < offset < |text| ==> offset - 1 <= offset - 1 <= offset;
  }

  lemma ComponentFits(chars: CharTable, text: string, original: Span, c: Span)
    requires original.end <= |text|
    ensures IsComponent(chars, text, original, c) <==>
            original.start <= c.start < c.end <= original.end && FitsIn(chars, text, original, c)
  {
    FamilyIsShared(c.kind, original.kind);
    if c.start < c.end <= original.end {
      BoundaryIsBetween(chars, text, c.start);
      BoundaryIsBetween(chars, text, c.end);
    }
  }

  lemma {:induction false} OverlapsCount(models: seq<Span>, original: Span, c: Span)
    ensures multiset(OverlapsOf(models, original))[c] == if !Apart(c, original) then multiset(models)[c] else 0
  {
    if models != [] {
      assert models == [models[0]] + models[1..];
      OverlapsCount(models[1..], original, c);
    }
  }

  lemma {:induction false} OverlapsSorted(models: seq<Span>, original: Span)
    requires StartsSorted(models)
    ensures StartsSorted(OverlapsOf(models, original))
  {
    if models != [] {
      OverlapsSorted(models[1..], original);
      OverlapsOfMembers(models[1..], original);
      var rest := OverlapsOf(models[1..], original);
      forall j | 0 <= j < |rest| ensures models[0].start <= rest[j].start {
        assert rest[j] in models[1..];
      }
    }
  }

  /** The cursor pass accepts exactly the components. */
  lemma CompatibleMeans(chars: CharTable, text: string, original: Span, models: seq<Span>)
    requires original.end <= |text| && StartsSorted(models)
    ensures Compatible(chars, text, original, OverlapsOf(models, original)) <==>
            MadeOfComponents(chars, text, original, models)
  {
    if Compatible(chars, text, original, OverlapsOf(models, original)) {
      CompatibleAreComponents(chars, text, original, models);
    }
    if MadeOfComponents(chars, text, original, models) {
      ComponentsAreCompatible(chars, text, original, models);
    }
  }

  lemma CompatibleAreComponents(chars: CharTable, text: string, original: Span, models: seq<Span>)
    requires original.end <= |text| && Compatible(chars, text, original, OverlapsOf(models, original))
    ensures MadeOfComponents(chars, text, original, models)
  {
    var parts := OverlapsOf(models, original);
    OverlapsOfMembers(models, original);
    PartsDistinct(parts);
    forall c | c in models && !Apart(c, original)
      ensures IsComponent(chars, text, original, c) && multiset(models)[c] == 1
    {
      assert c in parts;
      var i :| 0 <= i < |parts| && parts[i] == c;
      ComponentFits(chars, text, original, c);
      OverlapsCount(models, original, c);
    }
    forall a, b | a in models && !Apart(a, original) && b in models && !Apart(b, original) && a != b
      ensures Apart(a, b)
    {
      assert a in parts && b in parts;
      var i :| 0 <= i < |parts| && parts[i] == a;
      var j :| 0 <= j < |parts| && parts[j] == b;
    }
  }

  lemma PartsDistinct(parts: seq<Span>)
    requires SortedDisjoint(parts)
    ensures forall c :: c in parts ==> multiset(parts)[c] == 1
  {
    DistinctMeansCountOne(parts);
  }

  lemma ComponentsAreCompatible(chars: CharTable, text: string, original: Span, models: seq<Span>)
    requires original.end <= |text| && StartsSorted(models) && MadeOfComponents(chars, text, original, models)
    ensures Compatible(chars, text, original, OverlapsOf(models, original))
  {
    var parts := OverlapsOf(models, original);
    OverlapsOfMembers(models, original);
    OverlapsSorted(models, original);
    forall c | c in parts ensures IsComponent(chars, text, original, c) && multiset(parts)[c] == 1 {
      OverlapsCount(models, original, c);
    }
    CountOneMeansDistinct(parts);
    forall i | 0 <= i < |parts|
      ensures Nonempty(parts[i]) && original.start <= parts[i].start && parts[i].end <= original.end
      ensures FitsIn(chars, text, original, parts[i])
    {
      assert parts[i] in parts;
      ComponentFits(chars, text, original, parts[i]);
    }
    forall i, j | 0 <= i < j < |parts| ensures parts[i].end <= parts[j].start {
      assert parts[i] in parts && parts[j] in parts && Apart(parts[i], parts[j]);
    }
  }

  /** What becomes of one resolved span. */
  lemma RefinedMeans(rules: Rules, text: string, original: Span, models: seq<Span>, pieces: seq<Span>)
    requires rules.chars.Lawful() && Nonempty(original) && original.end <= |text| && StartsSorted(models)
    requires Refined(rules, text, original, models, pieces)
    ensures KeepsBoundaries(rules, text, original, models, pieces)
    ensures forall piece :: piece in pieces ==> IsPiece(rules, text, original, models, piece)
  {
    var parts := OverlapsOf(models, original);
    OverlapsOfMembers(models, original);
    CompatibleMeans(rules.chars, text, original, models);
    if Splits(rules, text, original, parts) {
      SplitMeans(rules, text, original, models, parts, pieces);
    } else {
      NotSplitMeans(rules, text, original, models, parts);
    }
  }

  lemma NotSplitMeans(rules: Rules, text: string, original: Span, models: seq<Span>, parts: seq<Span>)
    requires Nonempty(original) && original.end <= |text| && !Splits(rules, text, original, parts)
    requires forall s :: s in parts <==> s in models && Overlap(s, original)
    requires Compatible(rules.chars, text, original, parts) <==> MadeOfComponents(rules.chars, text, original, models)
    ensures KeepsBoundaries(rules, text, original, models, [original])
    ensures IsPiece(rules, text, original, models, original)
  {
    if |parts| == 1 && parts[0].start == original.start && parts[0].end == original.end {
      assert parts[0] in parts && !Apart(parts[0], original);
      assert original == original.(start := parts[0].start, end := parts[0].end);
      forall c | c in models && !Apart(c, original) ensures c == parts[0] {
        assert c in parts;
      }
    }
  }

  lemma SplitMeans(rules: Rules, text: string, original: Span, models: seq<Span>, parts: seq<Span>, pieces: seq<Span>)
    requires rules.chars.Lawful() && Nonempty(original) && original.end <= |text|
    requires Splits(rules, text, original, parts)
    requires forall s :: s in parts <==> s in models && Overlap(s, original)
    requires MadeOfComponents(rules.chars, text, original, models)
    requires Refines(rules.chars, text, original, parts, pieces)
    ensures KeepsBoundaries(rules, text, original, models, pieces)
    ensures forall piece :: piece in pieces ==> IsPiece(rules, text, original, models, piece)
  {
    hide MadeOfComponents, FitsIn, IsPiece, WithoutBlanks, Justified;
    assert parts[0] in parts && !Apart(parts[0], original);
    forall c | c in models && !Apart(c, original) ensures original.(start := c.start, end := c.end) in pieces {
      assert c in parts;
      var k :| 0 <= k < |parts| && parts[k] == c;
    }
    forall piece | piece in pieces ensures IsPiece(rules, text, original, models, piece) {
      assert Justified(rules.chars, text, original, parts, piece);
      JustifiedIsPiece(rules, text, original, models, parts, piece);
    }
  }

  lemma JustifiedIsPiece(rules: Rules, text: string, original: Span, models: seq<Span>, parts: seq<Span>, piece: Span)
    requires rules.chars.Lawful() && Nonempty(original) && original.end <= |text|
    requires Splits(rules, text, original, parts) && Justified(rules.chars, text, original, parts, piece)
    requires forall s :: s in parts <==> s in models && Overlap(s, original)
    requires MadeOfComponents(rules.chars, text, original, models)
    ensures IsPiece(rules, text, original, models, piece)
  {
    hide MadeOfComponents, FitsIn, IsRest, WithoutBlanks, Stripped, HasAlnum;
    assert parts[0] in parts && !Apart(parts[0], original);
    if k :| 0 <= k < |parts| && AsPart(original, parts[k], piece) {
      assert parts[k] in parts;
    } else {
      var k :| 0 <= k <= |parts| && FromGap(rules.chars, text, original, parts, k, piece);
      GapIsRest(rules.chars, text, original, models, parts, k, piece);
    }
  }

  lemma GapIsRest(chars: CharTable, text: string, original: Span, models: seq<Span>, parts: seq<Span>, k: nat,
                  piece: Span)
    requires chars.Lawful() && original.start <= original.end <= |text| && SortedDisjoint(parts)
    requires Within(parts, original.start, original.end)
    requires forall s :: s in parts <==> s in models && Overlap(s, original)
    requires k <= |parts| && FromGap(chars, text, original, parts, k, piece)
    ensures IsRest(chars, text, original, models, piece)
  {
    var a, b := GapStart(original, parts, k), GapEnd(original, parts, k);
    var q :| a <= q < b && chars.isAlnum(text[q]);
    assert chars.isAlnum(text[q]) && !chars.isSpace(text[q]);
    assert piece.start <= q < piece.end;
    forall c | c in models && !Apart(c, original) ensures Apart(c, piece) {
      assert c in parts;
      var i :| 0 <= i < |parts| && parts[i] == c;
    }
    forall p | original.start <= p < piece.start && !chars.isSpace(text[p])
      ensures exists c :: c in models && !Apart(c, original) && p < c.end <= piece.start
    {
      assert parts[k - 1] in parts;
    }
    forall p | piece.end <= p < original.end && !chars.isSpace(text[p])
      ensures exists c :: c in models && !Apart(c, original) && piece.end <= c.start <= p
    {
      assert parts[k] in parts;
    }
  }

  lemma {:induction false} InFlatten(groups: seq<seq<Span>>, k: nat, piece: Span)
    requires k < |groups| && piece in groups[k]
    ensures piece in Flatten(groups)
  {
    if k < |groups| - 1 {
      InFlatten(groups[..|groups| - 1], k, piece);
    }
  }

  lemma {:induction false} FromFlatten(groups: seq<seq<Span>>, piece: Span) returns (k: nat)
    requires piece in Flatten(groups)
    ensures k < |groups| && piece in groups[k]
  {
    k := |groups| - 1;
    if piece !in groups[k] {
      k := FromFlatten(groups[..k], piece);
    }
  }

  /** The whole list in terms of the sorted models. */
  lemma RefinedAllMeans(rules: Rules, text: string, resolved: seq<Span>, models: seq<Span>, groups: seq<seq<Span>>)
    requires rules.chars.Lawful() && StartsSorted(models) && RefinedAll(rules, text, resolved, models, groups)
    ensures forall original :: original in resolved ==>
              && original.start <= original.end <= |text|
              && KeepsBoundaries(rules, text, original, models, Flatten(groups))
    ensures forall piece :: piece in Flatten(groups) ==>
              exists original :: original in resolved && IsPiece(rules, text, original, models, piece)
  {
    forall original | original in resolved
      ensures original.start <= original.end <= |text|
      ensures KeepsBoundaries(rules, text, original, models, Flatten(groups))
    {
      var k :| 0 <= k < |resolved| && resolved[k] == original;
      RefinedMeans(rules, text, original, models, groups[k]);
      forall piece | piece in groups[k] ensures piece in Flatten(groups) {
        InFlatten(groups, k, piece);
      }
    }
    forall piece | piece in Flatten(groups)
      ensures exists original :: original in resolved && IsPiece(rules, text, original, models, piece)
    {
      var k := FromFlatten(groups, piece);
      RefinedMeans(rules, text, resolved[k], models, groups[k]);
      assert resolved[k] in resolved;
    }
  }

  lemma SortedComponents(chars: CharTable, text: string, original: Span, candidates: seq<Span>, models: seq<Span>)
    requires multiset(models) == multiset(candidates)
    ensures MadeOfComponents(chars, text, original, models) <==> MadeOfComponents(chars, text, original, candidates)
    ensures Untouched(original, models) <==> Untouched(original, candidates)
  {
    assert forall c :: c in models <==> c in multiset(models);
    assert forall c :: c in candidates <==> c in multiset(candidates);
  }

  /** The whole list in terms of the candidates, in whatever order they come. */
  lemma RefinementMeans(rules: Rules, text: string, resolved: seq<Span>, candidates: seq<Span>, groups: seq<seq<Span>>)
    requires rules.chars.Lawful() && RefinedAll(rules, text, resolved, Sort(ModelLe, candidates), groups)
    ensures forall original :: original in resolved ==>
              && original.start <= original.end <= |text|
              && KeepsBoundaries(rules, text, original, candidates, Flatten(groups))
    ensures forall piece :: piece in Flatten(groups) ==>
              exists original :: original in resolved && IsPiece(rules, text, original, candidates, piece)
  {
    var models := Sort(ModelLe, candidates);
    ModelLeIsTotalPreorder();
    SortIsSorted(ModelLe, candidates);
    RefinedAllMeans(rules, text, resolved, models, groups);
    forall original | original in resolved
      ensures KeepsBoundaries(rules, text, original, candidates, Flatten(groups))
    {
      SortedPieces(rules, text, original, candidates, models);
    }
    forall piece | piece in Flatten(groups)
      ensures exists original :: original in resolved && IsPiece(rules, text, original, candidates, piece)
    {
      var original :| original in resolved && IsPiece(rules, text, original, models, piece);
      SortedPieces(rules, text, original, candidates, models);
      assert IsPiece(rules, text, original, candidates, piece);
    }
  }

  lemma SortedPieces(rules: Rules, text: string, original: Span, candidates: seq<Span>, models: seq<Span>)
    requires multiset(models) == multiset(candidates) && original.start <= original.end <= |text|
    ensures forall output :: KeepsBoundaries(rules, text, original, models, output) ==>
              KeepsBoundaries(rules, text, original, candidates, output)
    ensures forall piece :: IsPiece(rules, text, original, models, piece) ==>
              IsPiece(rules, text, original, candidates, piece)
  {
    SortedComponents(rules.chars, text, original, candidates, models);
    assert forall c :: c in models <==> c in multiset(models);
    assert forall c :: c in candidates <==> c in multiset(candidates);
  }

  lemma UnmodelledAreRefined(rules: Rules, text: string, resolved: seq<Span>, candidates: seq<Span>,
                             groups: seq<seq<Span>>)
    requires InText(resolved, text) && (resolved == [] || candidates == []) && |groups| == |resolved|
    requires forall k :: 0 <= k < |resolved| ==> groups[k] == [resolved[k]]
    ensures RefinedAll(rules, text, resolved, Sort(ModelLe, candidates), groups)
  {
  }

  method PreserveModelBoundaries(rules: Rules, text: string, resolved: seq<Span>, candidates: seq<Span>)
    returns (output: seq<Span>, ghost groups: seq<seq<Span>>)
    requires rules.chars.Lawful() && InText(resolved, text)
    ensures output == Flatten(groups)
    ensures RefinedAll(rules, text, resolved, Sort(ModelLe, candidates), groups)
    ensures InText(output, text) && forall piece :: piece in output ==> Inherited(resolved, piece)
    ensures forall p :: 0 <= p < |text| && rules.chars.isAlnum(text[p]) ==>
              (Protected(output, p) <==> Protected(resolved, p))
    ensures forall original :: original in resolved ==>
              && original.start <= original.end <= |text|
              && KeepsBoundaries(rules, text, original, candidates, output)
    ensures forall piece :: piece in output ==>
              exists original :: original in resolved && IsPiece(rules, text, original, candidates, piece)
  {
    hide KeepsBoundaries, IsPiece, Protected, Inherited, Flatten;
    var models := Sort(ModelLe, candidates);
    if resolved == [] || candidates == [] {
      groups := Singletons(resolved);
      UnmodelledAreRefined(rules, text, resolved, candidates, groups);
      RefinementKeepsCoverage(rules, text, resolved, models, groups);
      RefinementMeans(rules, text, resolved, candidates, groups);
      return resolved, groups;
    }
    ModelsIndexed(candidates);
    var starts, coverEnds := IndexModels(models);
    output, groups := RefineEach(rules, text, resolved, models, starts, coverEnds);
    RefinementKeepsCoverage(rules, text, resolved, models, groups);
    RefinementMeans(rules, text, resolved, candidates, groups);
  }

  /** The loop over the resolved spans. */
  method RefineEach(rules: Rules, text: string, resolved: seq<Span>, models: seq<Span>, starts: seq<int>,
                    coverEnds: seq<int>)
    returns (output: seq<Span>, ghost groups: seq<seq<Span>>)
    requires rules.chars.Lawful() && InText(resolved, text) && Indexed(models, starts, coverEnds)
    ensures output == Flatten(groups) && RefinedAll(rules, text, resolved, models, groups)
  {
    output, groups := [], [];
    for n := 0 to |resolved|
      invariant output == Flatten(groups) && RefinedAll(rules, text, resolved[..n], models, groups)
    {
      var pieces := RefineSpan(rules, text, resolved[n], models, starts, coverEnds);
      RefinedOneMore(rules, text, resolved, models, groups, pieces, n);
      output := output + pieces;
      groups := groups + [pieces];
    }
    assert resolved[..|resolved|] == resolved;
  }

  lemma RefinedOneMore(rules: Rules, text: string, resolved: seq<Span>, models: seq<Span>, groups: seq<seq<Span>>,
                       pieces: seq<Span>, n: nat)
    requires n < |resolved| && RefinedAll(rules, text, resolved[..n], models, groups)
    requires Nonempty(resolved[n]) && resolved[n].end <= |text| && Refined(rules, text, resolved[n], models, pieces)
    ensures RefinedAll(rules, text, resolved[..n + 1], models, groups + [pieces])
    ensures Flatten(groups + [pieces]) == Flatten(groups) + pieces
  {
    FlattenSnoc(groups, pieces);
  }

  lemma ModelsIndexed(candidates: seq<Span>)
    ensures StartsSorted(Sort(ModelLe, candidates))
  {
    ModelLeIsTotalPreorder();
    SortIsSorted(ModelLe, candidates);
  }

  lemma {:induction false} Singletons(resolved: seq<Span>) returns (groups: seq<seq<Span>>)
    ensures Flatten(groups) == resolved && |groups| == |resolved|
    ensures forall k :: 0 <= k < |resolved| ==> groups[k] == [resolved[k]]
  {
    groups := [];
    for n := 0 to |resolved|
      invariant |groups| == n && Flatten(groups) == resolved[..n]
      invariant forall k :: 0 <= k < n ==> groups[k] == [resolved[k]]
    {
      FlattenSnoc(groups, [resolved[n]]);
      groups := groups + [[resolved[n]]];
      assert resolved[..n + 1] == resolved[..n] + [resolved[n]];
    }
    assert resolved[..|resolved|] == resolved;
  }

  // ----- what refinement keeps -----

  /** Every piece lies in one resolved span and carries its type, confidence and reason. */
  ghost predicate Inherited(resolved: seq<Span>, piece: Span) {
    exists original :: original in resolved && SameMeaning(piece, original)
      && original.start <= piece.start && piece.end <= original.end
  }

  /** One refined span stays inside the original, keeps its meaning and covers the same letters and digits. */
  lemma RefinedPieces(rules: Rules, text: string, original: Span, models: seq<Span>, pieces: seq<Span>)
    requires Nonempty(original) && original.end <= |text| && Refined(rules, text, original, models, pieces)
    ensures SortedDisjoint(pieces) && Within(pieces, original.start, original.end)
    ensures forall piece :: piece in pieces ==> SameMeaning(piece, original)
    ensures forall p :: 0 <= p < |text| && rules.chars.isAlnum(text[p]) ==>
              (Protected(pieces, p) <==> original.start <= p < original.end)
  {
    if pieces == [original] {
      forall p | original.start <= p < original.end ensures Protected(pieces, p) {
        assert pieces[0].start <= p < pieces[0].end;
      }
    }
  }

  lemma AppendRefined(resolved: seq<Span>, original: Span, output: seq<Span>, pieces: seq<Span>, p: int)
    requires Protected(pieces, p) <==> original.start <= p < original.end
    requires Protected(output, p) <==> Protected(resolved, p)
    ensures Protected(output + pieces, p) <==> Protected(resolved + [original], p)
  {
    ProtectedConcat(output, pieces, p);
    ProtectedConcat(resolved, [original], p);
    assert [original][0] == original;
  }

  lemma RestSorted(rest: seq<Span>, last: Span)
    requires SortedDisjoint(rest + [last])
    ensures SortedDisjoint(rest)
  {
    forall i | 0 <= i < |rest| ensures rest[i] == (rest + [last])[i] {
    }
  }

  lemma {:induction false} RefinementSorted(rules: Rules, text: string, resolved: seq<Span>, models: seq<Span>,
                                            groups: seq<seq<Span>>)
    requires SortedDisjoint(resolved) && RefinedAll(rules, text, resolved, models, groups)
    ensures SortedDisjoint(Flatten(groups)) && EndsBy(Flatten(groups), resolved)
  {
    if resolved != [] {
      var n := |resolved| - 1;
      SplitLast(resolved);
      RestSorted(resolved[..n], resolved[n]);
      RefinementSorted(rules, text, resolved[..n], models, groups[..n]);
      RefinedPieces(rules, text, resolved[n], models, groups[n]);
      AppendSorted(resolved[..n], resolved[n], Flatten(groups[..n]), groups[n]);
    }
  }

  /** The last piece ends no later than the last resolved span. */
  ghost predicate EndsBy(output: seq<Span>, resolved: seq<Span>) {
    output != [] ==> resolved != [] && output[|output| - 1].end <= resolved[|resolved| - 1].end
  }

  lemma AppendSorted(rest: seq<Span>, original: Span, output: seq<Span>, pieces: seq<Span>)
    requires SortedDisjoint(rest + [original]) && SortedDisjoint(output) && EndsBy(output, rest)
    requires SortedDisjoint(pieces) && Within(pieces, original.start, original.end)
    ensures SortedDisjoint(output + pieces) && EndsBy(output + pieces, rest + [original])
  {
    var all := rest + [original];
    assert all[|rest|] == original;
    assert rest != [] ==> all[|rest| - 1] == rest[|rest| - 1] && all[|rest| - 1].end <= original.start;
    assert original.start < original.end;
    ConcatSortedDisjoint(output, pieces);
  }

  lemma {:induction false} RefinementInherits(rules: Rules, text: string, resolved: seq<Span>, models: seq<Span>,
                                              groups: seq<seq<Span>>, piece: Span)
    requires SortedDisjoint(resolved) && RefinedAll(rules, text, resolved, models, groups) && piece in Flatten(groups)
    ensures Inherited(resolved, piece)
  {
    if resolved != [] {
      var n := |resolved| - 1;
      if piece in groups[n] {
        RefinedPieces(rules, text, resolved[n], models, groups[n]);
        assert resolved[n] in resolved && SameMeaning(piece, resolved[n]);
      } else {
        RefinementInherits(rules, text, resolved[..n], models, groups[..n], piece);
        assert Inherited(resolved[..n], piece);
      }
    }
  }

  lemma {:induction false} RefinementCovers(rules: Rules, text: string, resolved: seq<Span>, models: seq<Span>,
                                            groups: seq<seq<Span>>, p: nat)
    requires RefinedAll(rules, text, resolved, models, groups)
    requires p < |text| && rules.chars.isAlnum(text[p])
    ensures Protected(Flatten(groups), p) <==> Protected(resolved, p)
  {
    if resolved != [] {
      var n := |resolved| - 1;
      RefinementCovers(rules, text, resolved[..n], models, groups[..n], p);
      RefinedPieces(rules, text, resolved[n], models, groups[n]);
      AppendRefined(resolved[..n], resolved[n], Flatten(groups[..n]), groups[n], p);
      assert resolved == resolved[..n] + [resolved[n]];
    }
  }

  lemma InheritedInText(resolved: seq<Span>, text: string, piece: Span)
    requires InText(resolved, text) && Inherited(resolved, piece)
    ensures piece.end <= |text|
  {
    var original :| original in resolved && original.start <= piece.start && piece.end <= original.end;
    var k :| 0 <= k < |resolved| && resolved[k] == original;
  }

  /**
   * Refining to model boundaries keeps the list sorted and disjoint, invents no meaning, and covers
   * exactly the same letters and digits.
   */
  lemma RefinementKeepsCoverage(rules: Rules, text: string, resolved: seq<Span>, models: seq<Span>,
                                groups: seq<seq<Span>>)
    requires InText(resolved, text) && RefinedAll(rules, text, resolved, models, groups)
    ensures InText(Flatten(groups), text)
    ensures forall piece :: piece in Flatten(groups) ==> Inherited(resolved, piece)
    ensures forall p :: 0 <= p < |text| && rules.chars.isAlnum(text[p]) ==>
              (Protected(Flatten(groups), p) <==> Protected(resolved, p))
  {
    RefinementSorted(rules, text, resolved, models, groups);
    var output := Flatten(groups);
    forall piece | piece in output ensures Inherited(resolved, piece) {
      RefinementInherits(rules, text, resolved, models, groups, piece);
    }
    forall i | 0 <= i < |output| ensures 0 <= output[i].start && output[i].end <= |text| {
      InheritedInText(resolved, text, output[i]);
    }
    forall p | 0 <= p < |text| && rules.chars.isAlnum(text[p])
      ensures Protected(output, p) <==> Protected(resolved, p)
    {
      RefinementCovers(rules, text, resolved, models, groups, p);
    }
  }

  /** Mask mode cannot tell the refined list from the resolved one, character for character. */
  lemma RefinementKeepsMaskedText(rules: Rules, style: Style, text: string, resolved: seq<Span>, models: seq<Span>,
                                  groups: seq<seq<Span>>, masked1: string, items1: seq<Replacement>,
                                  masked2: string, items2: seq<Replacement>)
    requires style.chars == rules.chars
    requires InText(resolved, text) && RefinedAll(rules, text, resolved, models, groups)
    requires InText(Flatten(groups), text)
    requires IsMasking(text, resolved, masked1, items1)
    requires ValuesFit(style, text, Identities(text, resolved), Mask, Values(items1))
    requires IsMasking(text, Flatten(groups), masked2, items2)
    requires ValuesFit(style, text, Identities(text, Flatten(groups)), Mask, Values(items2))
    ensures masked1 == masked2
  {
    RefinementKeepsCoverage(rules, text, resolved, models, groups);
    MaskModeStars(style, text, resolved, masked1, items1);
    MaskModeStars(style, text, Flatten(groups), masked2, items2);
    assert Starred(rules.chars, text, resolved) == Starred(rules.chars, text, Flatten(groups));
  }
}
