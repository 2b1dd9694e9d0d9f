/** Every assumption that a theorem makes can be met: one example, or a construction, for each. */
module Witnesses {
  import opened Base
  import opened Text
  import opened Words
  import opened Spans
  import opened Tokens
  import opened Transform
  import opened Restore
  import opened Entities
  import opened Decoder
  import opened Batch
  import BatchErrors
  import Chunks
  import Vault
  import WeightedCycle

  // ----- characters -----

  function AsciiTable(): CharTable {
    CharTable((c: char) => Digit(c) || Upper(c) || 'a' <= c <= 'z',
              (c: char) => c == ' ' || c == '\n', (c: char) => c == '^')
  }

  lemma CharactersCanBeTold()
    ensures AsciiTable().Lawful()
  {
  }

  // ----- random draws -----

  function HexDigit(d: nat): (c: char)
    requires d < 16
    ensures Digit(c) || 'a' <= c <= 'f'
  {
    "0123456789abcdef"[d]
  }

  /** The last `digits` hexadecimal digits of `n`. */
  function HexOf(n: nat, digits: nat): (r: string)
    ensures |r| == digits && forall i :: 0 <= i < digits ==> Digit(r[i]) || 'a' <= r[i] <= 'f'
  {
    if digits == 0 then "" else HexOf(n / 16, digits - 1) + [HexDigit(n % 16)]
  }

  function Power(base: nat, n: nat): nat {
    if n == 0 then 1 else base * Power(base, n - 1)
  }

  lemma HexDigitInjective(a: nat, b: nat)
    requires a < 16 && b < 16 && HexDigit(a) == HexDigit(b)
    ensures a == b
  {
  }

  lemma {:induction false} HexInjective(m: nat, n: nat, digits: nat)
    requires m < Power(16, digits) && n < Power(16, digits) && HexOf(m, digits) == HexOf(n, digits)
    ensures m == n
  {
    if digits > 0 {
      var a, b := HexOf(m / 16, digits - 1), HexOf(n / 16, digits - 1);
      assert (a + [HexDigit(m % 16)])[..digits - 1] == a && (b + [HexDigit(n % 16)])[..digits - 1] == b;
      assert HexOf(m, digits)[digits - 1] == HexDigit(m % 16) && HexOf(n, digits)[digits - 1] == HexDigit(n % 16);
      HexDigitInjective(m % 16, n % 16);
      HexInjective(m / 16, n / 16, digits - 1);
    }
  }

  /** A source that counts through all sixteen-digit strings. */
  function Counting(): nat -> string {
    (n: nat) => HexOf(n, 16)
  }

  const SUPPLY: nat := 0x1_0000_0000_0000_0000

  lemma {:induction false} PowerSplit(base: nat, m: nat, n: nat)
    ensures Power(base, m + n) == Power(base, m) * Power(base, n)
  {
    if m > 0 {
      PowerSplit(base, m - 1, n);
      TimesAssociative(base, Power(base, m - 1), Power(base, n));
    }
  }

  lemma TimesAssociative(a: nat, b: nat, c: nat)
    ensures a * (b * c) == (a * b) * c
  {
  }

  lemma SupplyIsPower()
    ensures Power(16, 16) == SUPPLY
  {
    assert Power(16, 4) == 0x1_0000;
    PowerSplit(16, 4, 4);
    PowerSplit(16, 8, 8);
  }

  /** All 2^64 tokens of a kind are different, so a source may yield 2^64 draws before it repeats itself. */
  lemma SupplyExists()
    ensures FreshSupply(Counting(), SUPPLY)
  {
    SupplyIsPower();
    forall m: nat, n: nat | m < SUPPLY && n < SUPPLY && m != n ensures Counting()(m) != Counting()(n) {
      if HexOf(m, 16) == HexOf(n, 16) {
        HexInjective(m, n, 16);
      }
    }
  }

  function CountingStyle(): Style {
    ServiceStyle(AsciiTable(), Counting(), SUPPLY)
  }

  lemma StyleExists()
    ensures CountingStyle().Lawful() && CountingStyle().Fresh() && CountingStyle().IssuesTokens()
  {
    SupplyExists();
    ServiceStyleIsLawful(AsciiTable(), Counting(), SUPPLY);
  }

  /** That supply is enough to mask any selection of spans in any text below 2^32 characters. */
  lemma CountingLasts(text: string, spans: seq<Span>)
    requires Transform.InText(spans, text) && |text| < 0x1_0000_0000
    ensures DrawsFor(|spans|, text) <= CountingStyle().supply
  {
    SupplySuffices(text, spans);
  }

  // ----- a text that already holds a token -----

  lemma OneToken(token: string, rest: string)
    ensures Interleave(["", rest], [token]) == token + rest
  {
    assert [token][1..] == [] && ["", rest][1..] == [rest];
    assert Interleave(["", rest], [token]) == "" + token + Interleave([rest], []);
  }

  lemma TokenIsNotFree(token: string)
    requires IsToken(token)
    ensures !TokenFree(token)
  {
    assert token[0..|token|] == token;
  }

  /** A digit and, behind it, something of the shape of a token; the digit is masked, the rest is left alone. */
  datatype Stray = Stray(style: Style)
  {
    ghost predicate Valid() {
      style.Fresh() && style.IssuesTokens() && 2 <= style.supply
    }

    function Old(): string {
      style.token("INN", 0)
    }

    function New(): string {
      style.token("INN", 1)
    }

    function Input(): string {
      "7" + Old()
    }

    function Chosen(): seq<Span> {
      [Span(0, 1, "INN", 1.0, "rule")]
    }

    function Output(): string {
      New() + Old()
    }

    function Items(): seq<Replacement> {
      [Replacement(0, |New()|, "7", New())]
    }

    lemma AreTokens()
      requires Valid()
      ensures IsToken(Old()) && IsToken(New()) && Old() != New() && |Old()| == |New()| && New() != ""
    {
      assert IsKind("INN");
    }

    lemma NewIsNew()
      requires Valid()
      ensures !Contains(Input(), New())
    {
      AreTokens();
      BracketsAtEnds(New());
      var text, token := Input(), New();
      forall p | 0 <= p <= |text| ensures !OccursAt(text, token, p) {
        if p == 0 {
          assert text[0..|token|][0] == '7';
        } else if p == 1 {
          assert text[1..1 + |token|] == Old();
        }
      }
    }

    lemma Parts()
      requires Valid()
      ensures Transform.InText(Chosen(), Input())
      ensures Gaps(Input(), Chosen()) == ["", Old()] && Identities(Input(), Chosen()) == [("INN", "7")]
    {
      assert Input()[0..1] == "7" && Input()[1..|Input()|] == Old();
    }

    lemma IsMasked()
      requires Valid()
      ensures Transform.InText(Chosen(), Input()) && IsMasking(Input(), Chosen(), Output(), Items())
    {
      Parts();
      OneToken(New(), Old());
      assert Values(Items()) == [New()];
      OnePlaced(New(), Old());
    }

    lemma OnePlaced(token: string, rest: string)
      ensures Placed([Replacement(0, |token|, "7", token)], ["", rest], [token], 0)
    {
      var items := [Replacement(0, |token|, "7", token)];
      assert items[1..] == [];
    }

    lemma Fits()
      requires Valid()
      ensures Transform.InText(Chosen(), Input())
      ensures ValuesFit(style, Input(), Identities(Input(), Chosen()), Mode.Token, Values(Items()))
    {
      Parts();
      AreTokens();
      NewIsNew();
      assert Values(Items()) == [New()];
      assert IssuedFor(style, Input(), "INN", New());
    }

    lemma GapHoldsToken()
      requires Valid()
      ensures Transform.InText(Chosen(), Input())
      ensures Old() in Gaps(Input(), Chosen()) && !TokenFree(Old())
    {
      Parts();
      AreTokens();
      TokenIsNotFree(Old());
      assert ["", Old()][1] == Old();
    }

    /** Token restoration refuses the untouched output; exact restoration gives the text back. */
    lemma Refused()
      requires Valid()
      ensures Transform.InText(Chosen(), Input()) && TokenRecord(style, Input(), Chosen(), Output(), Items())
      ensures RestoreTokensOf(Output(), TokenMap(Items()), None) == Failure(UnknownToken)
      ensures RestoreFrom(Output(), Items(), 0) == Success(Input())
    {
      IsMasked();
      Fits();
      Parts();
      AreTokens();
      assert IsKind(Chosen()[0].kind);
      GapHoldsToken();
      StrayTokenRefused(style, Input(), Chosen(), Output(), Items());
      MaskThenRestore(style, Input(), Chosen(), Mode.Token, Output(), Items());
    }
  }

  lemma StrayTokenExists() returns (s: Stray)
    ensures s.Valid() && s.style == CountingStyle()
  {
    StyleExists();
    s := Stray(CountingStyle());
  }

  // ----- the network -----

  /** One token per word; a token's logit is its id, wherever it stands. */
  function PlainRuntime(): Runtime {
    Runtime(words => (seq(|words|, k => k), seq(|words|, k => k)), word => false, true, 0, 1, 2,
            (ids: seq<seq<int>>, attention: seq<seq<bool>>) =>
               seq(|ids|, r requires 0 <= r < |ids| => LogitsOf(ids[r])),
            (row: Row) => Prediction(if row == [7.0] then Begin("FIRST_NAME") else Outside, 1.0))
  }

  function LogitsOf(ids: seq<int>): (r: seq<Row>)
    ensures |r| == |ids|
  {
    seq(|ids|, p requires 0 <= p < |ids| => [ids[p] as real])
  }

  lemma {:induction false} OwnedOnce(owners: seq<int>, w: int)
    requires forall k :: 0 <= k < |owners| ==> owners[k] == k
    ensures CountOf(owners, w) == if 0 <= w < |owners| then 1 else 0
  {
    if owners != [] {
      OwnedOnce(owners[..|owners| - 1], w);
    }
  }

  lemma PlainRowAgrees(ids: seq<seq<int>>, attention: seq<seq<bool>>, r: nat, c: nat)
    requires r < |ids| && c <= |ids[r]|
    ensures |PlainRuntime().run(ids, attention)| == |ids|
    ensures |PlainRuntime().run([ids[r][..c]], [Ones(c)])| == 1
    ensures RowAgrees(PlainRuntime().run(ids, attention)[r], PlainRuntime().run([ids[r][..c]], [Ones(c)])[0], c)
  {
    assert PlainRuntime().run(ids, attention)[r] == LogitsOf(ids[r]);
    assert PlainRuntime().run([ids[r][..c]], [Ones(c)])[0] == LogitsOf(ids[r][..c]);
  }

  /** A network that looks at each token alone is well shaped, ignores padding and reads native types. */
  lemma NetworkExists()
    ensures WellShaped(PlainRuntime()) && PaddingIndependent(PlainRuntime()) && ReadsNative(PlainRuntime())
  {
    var rt := PlainRuntime();
    forall ids: seq<seq<int>>, attention: seq<seq<bool>>, r: nat, c: nat
      | |ids| == |attention| && r < |ids| && |attention[r]| == |ids[r]| && AttendsTo(attention[r], c)
        && |rt.run(ids, attention)| == |ids| && |rt.run(ids, attention)[r]| == |ids[r]|
        && |rt.run([ids[r][..c]], [Ones(c)])| == 1
      ensures RowAgrees(rt.run(ids, attention)[r], rt.run([ids[r][..c]], [Ones(c)])[0], c)
    {
      PlainRowAgrees(ids, attention, r, c);
    }
  }

  /** And a tokenizer with one token per word keeps its contract on every text. */
  lemma TokenizerExists(words: seq<string>)
    ensures TokenizeOf(PlainRuntime(), words).Success?
  {
    var owners := PlainRuntime().encode(words).1;
    assert InOrder(owners, |words|);
    forall w | 0 <= w < |words| ensures CountsOf(owners, |words|)[w] == 1 {
      OwnedOnce(owners, w);
    }
  }

  /** A model with a wrong label inventory, whose tokenizer returns an id without an owner. */
  function BrokenRuntime(): Runtime {
    PlainRuntime().(encode := words => ([0], []), labelsValid := false)
  }

  lemma OneWordTiles()
    ensures Tiles(SplittingAlphabet(AsciiTable()), "a", 1, [Word("a", 0, 1)])
  {
    var ab, w := SplittingAlphabet(AsciiTable()), Word("a", 0, 1);
    assert "a"[0..1] == "a" && ProperWord(ab, "a", w);
    assert [w][0].start <= 0 < [w][0].end;
    assert InSomeWord([w], 0) && !Skipped(ab, "a"[0]);
  }

  lemma BrokenIsShaped()
    ensures WellShaped(BrokenRuntime())
  {
    NetworkExists();
    assert BrokenRuntime().run == PlainRuntime().run;
  }

  lemma BrokenTokenizer(words: seq<string>)
    ensures TokenizeOf(BrokenRuntime(), words) == Failure(BadAlignment)
  {
  }

  lemma BrokenFails()
    ensures FailsTokenizing(BrokenRuntime(), AsciiTable(), "a", BadAlignment)
  {
    OneWordTiles();
    BrokenTokenizer(WordTexts([Word("a", 0, 1)]));
  }

  /** On the text "a" the batch reports the tokenizer's failure, and decoding it alone reports the labels. */
  lemma ErrorsDiffer(texts: seq<string>)
    requires texts == ["a"]
    ensures WellShaped(BrokenRuntime())
    ensures FirstFails(BrokenRuntime(), AsciiTable(), texts, 0, BadAlignment)
    ensures BatchErrors.StopsAt(BrokenRuntime(), AsciiTable(), texts, 0, BadLabels)
  {
    BrokenIsShaped();
    BrokenFails();
    BatchErrors.AloneReports(BrokenRuntime(), AsciiTable(), "a", BadAlignment);
  }

  // ----- chunk replies -----

  /** The entities that touch the chunk, clipped to it. */
  function ClipsOf(entities: seq<Span>, chunk: Chunks.Chunk): (r: seq<Chunks.WireItem>)
    ensures |r| <= |entities|
    ensures forall item :: item in r <==>
              exists e :: e in entities && Chunks.Touches(e, chunk) && item == Chunks.ClipTo(e, chunk)
  {
    if entities == [] then []
    else
      var last := entities[|entities| - 1];
      assert forall e :: e in entities <==> e in entities[..|entities| - 1] || e == last;
      ClipsOf(entities[..|entities| - 1], chunk)
      + if Chunks.Touches(last, chunk) then [Chunks.ClipTo(last, chunk)] else []
  }

  lemma ClipsAreReported(entities: seq<Span>, chunk: Chunks.Chunk)
    requires |entities| <= Chunks.MAX_ENTITIES
    ensures Chunks.ReportsClipped(Chunks.Body(ClipsOf(entities, chunk)), chunk, ToSet(entities))
  {
    var items := ClipsOf(entities, chunk);
    forall i | 0 <= i < |items| ensures Chunks.IsClipOfSome(items[i], chunk, ToSet(entities)) {
      assert items[i] in items;
      var e :| e in entities && Chunks.Touches(e, chunk) && items[i] == Chunks.ClipTo(e, chunk);
      assert e in ToSet(entities);
    }
  }

  function Clipper(entities: seq<Span>): Chunks.Chunk -> Chunks.Reply {
    (chunk: Chunks.Chunk) => Chunks.Body(ClipsOf(entities, chunk))
  }

  /** For any entities that the wire contract admits some model service answers every chunk consistently with them. */
  lemma ConsistentServiceExists(text: string, chunks: seq<Chunks.Chunk>, entities: seq<Span>)
    requires Chunks.WholeEntities(text, ToSet(entities)) && |entities| <= Chunks.MAX_ENTITIES
    ensures Chunks.Consistent(Clipper(entities), text, chunks, ToSet(entities))
  {
    forall k | 0 <= k < |chunks|
      ensures Chunks.ReportsClipped(Clipper(entities)(chunks[k]), chunks[k], ToSet(entities))
    {
      ClipsAreReported(entities, chunks[k]);
    }
  }

  // ----- runs of the record store and of the visit schedule -----

  ghost predicate InTimeOrder<R(!new)>(ops: seq<Vault.Op<R>>) {
    && (forall i :: 0 <= i < |ops| ==> Vault.Began(ops[i]) <= Vault.Ended(ops[i]))
    && (forall i, j :: 0 <= i < j < |ops| ==> Vault.Ended(ops[i]) <= Vault.Began(ops[j]))
  }

  /** Every list of operations in time order is the list of some run. */
  lemma {:induction false} StoreRunExists<R(!new)>(limits: Vault.Limits<R>, ops: seq<Vault.Op<R>>)
    returns (states: seq<seq<Vault.Entry<R>>>)
    requires limits.Valid() && InTimeOrder(ops)
    ensures Vault.Run(limits, states, ops)
  {
    states := [[]];
    for n := 0 to |ops|
      invariant |states| == n + 1 && states[0] == []
      invariant forall i :: 0 <= i < n ==> states[i + 1] == Vault.After(limits, states[i], ops[i])
    {
      states := states + [Vault.After(limits, states[n], ops[n])];
    }
  }

  lemma {:induction false} LeastVisit(visits: seq<WeightedCycle.Visit>, n: nat) returns (least: nat)
    requires 0 < n <= |visits|
    ensures least < n
    ensures forall j :: 0 <= j < n ==>
              WeightedCycle.ItemLe(WeightedCycle.ItemAt(visits, least), WeightedCycle.ItemAt(visits, j))
  {
    if n == 1 {
      least := 0;
    } else {
      least := LeastVisit(visits, n - 1);
      if WeightedCycle.ItemLe(WeightedCycle.ItemAt(visits, n - 1), WeightedCycle.ItemAt(visits, least)) {
        least := n - 1;
      }
    }
  }

  /** Whatever the positive weights and the jitters, there is a run of the schedule with one draw per jitter. */
  lemma {:induction false} ScheduleRunExists(weights: seq<real>, jitters: seq<real>)
    returns (states: seq<seq<WeightedCycle.Visit>>, draws: seq<nat>)
    requires WeightedCycle.Weights(weights) && forall n :: 0 <= n < |jitters| ==> WeightedCycle.Jitter(jitters[n])
    ensures WeightedCycle.Run(weights, states, draws, jitters) && |draws| == |jitters|
  {
    var first := seq(|weights|, i requires 0 <= i < |weights| => WeightedCycle.VisitFor(0, 0.0, weights[i]));
    forall i | 0 <= i < |weights| ensures WeightedCycle.InSlot(first[i], weights[i]) {
      WeightedCycle.VisitInSlot(0, 0.0, weights[i]);
    }
    states, draws := [first], [];
    for n := 0 to |jitters|
      invariant |states| == n + 1 && |draws| == n && states[0] == first && |states[n]| == |weights|
      invariant forall m :: 0 <= m < n ==>
                  WeightedCycle.Turn(weights, states[m], draws[m], jitters[m], states[m + 1])
    {
      var draw := LeastVisit(states[n], |weights|);
      states := states + [WeightedCycle.Advance(weights, states[n], draw, jitters[n])];
      draws := draws + [draw];
      assert WeightedCycle.Turn(weights, states[n], draws[n], jitters[n], states[n + 1]);
    }
  }
}
