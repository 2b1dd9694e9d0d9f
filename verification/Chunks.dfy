/** Detection over overlapping chunks: each chunk goes to the model, and entities at artificial edges are dropped. */
module Chunks {
  import opened Base
  import opened Spans

  const NER_TYPES: set<string> := {
    "PERSON", "LOCATION", "EMAIL", "PHONE", "CARD", "PASSPORT", "DRIVER_LICENSE", "INN",
    "SNILS", "OMS", "IP_ADDRESS", "URL", "MILITARY_ID", "BIRTH_CERTIFICATE"
  }
  const MAX_ENTITIES: nat := 2048
  const MAX_NER_SPAN: nat := 2048
  const CHUNK_SIZE: nat := 16000
  const GROUP: nat := 4

  datatype NerError = InvalidChunks | InvalidResponse | Incomplete

  // ----- chunks -----

  datatype Chunk = Chunk(offset: nat, part: string)

  function ChunksFrom(text: string, size: nat, overlap: nat, start: nat): seq<Chunk>
    requires overlap < size
    decreases |text| - start
  {
    if start >= |text| then []
    else
      var end := Min(|text|, start + size);
      [Chunk(start, text[start..end])] + if end == |text| then [] else ChunksFrom(text, size, overlap, end - overlap)
  }

  method SplitChunks(text: string, size: int, overlap: int) returns (r: Result<seq<Chunk>, NerError>)
    ensures r == if 0 <= overlap < size then Success(ChunksFrom(text, size, overlap, 0)) else Failure(InvalidChunks)
  {
    if size <= overlap || overlap < 0 {
      return Failure(InvalidChunks);
    }
    var start: nat := 0;
    var result: seq<Chunk> := [];
    ghost var whole := ChunksFrom(text, size, overlap, 0);
    var last := false;
    while !last && start < |text|
      invariant whole == result + if last then [] else ChunksFrom(text, size, overlap, start)
      decreases !last, |text| - start
    {
      var end := Min(|text|, start + size);
      NextChunk(text, size, overlap, start, result);
      result := result + [Chunk(start, text[start..end])];
      if end == |text| {
        last := true;
        assert result + [] == result;
      } else {
        start := end - overlap;
      }
    }
    assert result + [] == result;
    return Success(result);
  }

  lemma NextChunk(text: string, size: nat, overlap: nat, start: nat, before: seq<Chunk>)
    requires overlap < size && start < |text|
    ensures var end := Min(|text|, start + size);
            before + ChunksFrom(text, size, overlap, start)
            == before + [Chunk(start, text[start..end])]
               + if end == |text| then [] else ChunksFrom(text, size, overlap, end - overlap)
  {
  }

  // ----- one reply -----

  /** An item of a reply, as it arrives; anything that is not a record of the four fields is malformed. */
  datatype WireItem = Item(start: int, end: int, score: real, kind: string) | Malformed

  /** What the model service answers for a chunk; chunks with equal texts may be answered differently. */
  datatype Reply = Unavailable | BadBody | Body(entities: seq<WireItem>)

  function MaxEntityChars(kind: string): (r: nat)
    ensures 200 <= r <= MAX_NER_SPAN
  {
    if kind == "URL" then MAX_NER_SPAN else if kind == "EMAIL" then 320 else 200
  }

  predicate ValidEntity(item: WireItem, length: nat) {
    && item.Item? && item.kind in NER_TYPES && 0 <= item.start < item.end <= length
    && item.end - item.start <= MaxEntityChars(item.kind) && 0.0 <= item.score <= 1.0
  }

  /** The item touches an edge of the chunk that is not an edge of the whole text. */
  predicate Clipped(item: WireItem, chunk: Chunk, total: nat)
    requires item.Item?
  {
    (chunk.offset != 0 && item.start == 0) || (chunk.offset + |chunk.part| < total && item.end == |chunk.part|)
  }

  function SpanOf(item: WireItem, offset: nat): Span
    requires item.Item? && 0 <= item.start && 0 <= item.end
  {
    Span(offset + item.start, offset + item.end, item.kind, item.score, "private-ner")
  }

  function Accepted(items: seq<WireItem>, chunk: Chunk, total: nat): seq<Span>
    requires forall i :: 0 <= i < |items| ==> ValidEntity(items[i], |chunk.part|)
  {
    if items == [] then []
    else
      var last := items[|items| - 1];
      assert ValidEntity(last, |chunk.part|);
      Accepted(items[..|items| - 1], chunk, total)
      + if Clipped(last, chunk, total) then [] else [SpanOf(last, chunk.offset)]
  }

  function ParseOf(reply: Reply, chunk: Chunk, total: nat): Result<seq<Span>, NerError> {
    if !reply.Body? || |reply.entities| > MAX_ENTITIES
       || exists i :: 0 <= i < |reply.entities| && !ValidEntity(reply.entities[i], |chunk.part|)
    then Failure(InvalidResponse)
    else Success(Accepted(reply.entities, chunk, total))
  }

  /** `_parse_entities`: stops at the first invalid item and skips clipped ones. */
  method ParseEntities(reply: Reply, chunk: Chunk, total: nat) returns (r: Result<seq<Span>, NerError>)
    ensures r == ParseOf(reply, chunk, total)
  {
    if !reply.Body? || |reply.entities| > MAX_ENTITIES {
      return Failure(InvalidResponse);
    }
    var items, result := reply.entities, [];
    for n := 0 to |items|
      invariant forall i :: 0 <= i < n ==> ValidEntity(items[i], |chunk.part|)
      invariant result == Accepted(items[..n], chunk, total)
    {
      assert items[..n + 1][..n] == items[..n];
      if !ValidEntity(items[n], |chunk.part|) {
        return Failure(InvalidResponse);
      }
      if !Clipped(items[n], chunk, total) {
        result := result + [SpanOf(items[n], chunk.offset)];
      }
    }
    assert items[..|items|] == items;
    return Success(result);
  }

  // ----- all chunks -----

  /** Parsed replies of all chunks in order, unless one of them is refused. */
  function ParseAll(serve: Chunk -> Reply, chunks: seq<Chunk>, total: nat): Result<seq<Span>, NerError> {
    if chunks == [] then Success([])
    else
      var chunk := chunks[|chunks| - 1];
      var before :- ParseAll(serve, chunks[..|chunks| - 1], total);
      var parsed :- ParseOf(serve(chunk), chunk, total);
      Success(before + parsed)
  }

  lemma {:induction false} ParseAllConcat(serve: Chunk -> Reply, a: seq<Chunk>, b: seq<Chunk>, total: nat)
    ensures var whole, left, right :=
                  ParseAll(serve, a + b, total), ParseAll(serve, a, total), ParseAll(serve, b, total);
            && (whole.Success? <==> left.Success? && right.Success?)
            && (whole.Success? ==> whole.value == left.value + right.value)
  {
    if b == [] {
      assert a + b == a;
    } else {
      assert (a + b)[..|a + b| - 1] == a + b[..|b| - 1];
      ParseAllConcat(serve, a, b[..|b| - 1], total);
    }
  }

  lemma ParseAllSnoc(serve: Chunk -> Reply, rest: seq<Chunk>, last: Chunk, total: nat)
    requires ParseAll(serve, rest, total).Success? && ParseOf(serve(last), last, total).Success?
    ensures ParseAll(serve, rest + [last], total)
         == Success(ParseAll(serve, rest, total).value + ParseOf(serve(last), last, total).value)
  {
    assert (rest + [last])[..|rest|] == rest;
  }

  /** `_detect_batch`: the replies may arrive in any order; they are collected in input order. */
  method DetectBatch(serve: Chunk -> Reply, pending: seq<Chunk>, total: nat) returns (r: Result<seq<Span>, NerError>)
    ensures r.Success? <==> ParseAll(serve, pending, total).Success?
    ensures r.Success? ==> r == ParseAll(serve, pending, total)
  {
    var result: seq<Span> := [];
    for n := 0 to |pending|
      invariant ParseAll(serve, pending[..n], total) == Success(result)
    {
      assert pending[..n + 1][..n] == pending[..n];
      var parsed := ParseEntities(serve(pending[n]), pending[n], total);
      if parsed.Failure? {
        assert pending[..n + 1] + pending[n + 1..] == pending;
        ParseAllConcat(serve, pending[..n + 1], pending[n + 1..], total);
        return Failure(Incomplete);
      }
      result := result + parsed.value;
    }
    assert pending[..|pending|] == pending;
    return Success(result);
  }

  /** Before chunk `n`: the pending chunks end there, and `result` is what those before them gave. */
  ghost predicate Progress(serve: Chunk -> Reply, chunks: seq<Chunk>, n: int, total: nat, pending: seq<Chunk>,
                           result: seq<Span>)
  {
    && |pending| <= n <= |chunks| && pending == chunks[n - |pending|..n]
    && ParseAll(serve, chunks[..n - |pending|], total) == Success(result)
  }

  /** Sends the pending chunks, which end at chunk `n`. */
  method Flush(serve: Chunk -> Reply, ghost chunks: seq<Chunk>, ghost n: int, pending: seq<Chunk>, total: nat,
               result: seq<Span>)
    returns (r: Result<seq<Span>, NerError>)
    requires Progress(serve, chunks, n, total, pending, result)
    ensures r.Success? ==> Progress(serve, chunks, n, total, [], r.value)
    ensures r.Failure? ==> r == Failure(Incomplete) && ParseAll(serve, chunks, total).Failure?
  {
    assert chunks[..n - |pending|] + pending == chunks[..n] && chunks[..n] + chunks[n..] == chunks;
    ParseAllConcat(serve, chunks[..n - |pending|], pending, total);
    ParseAllConcat(serve, chunks[..n], chunks[n..], total);
    var detected := DetectBatch(serve, pending, total);
    if detected.Failure? {
      return Failure(Incomplete);
    }
    return Success(result + detected.value);
  }

  lemma OneMorePending(serve: Chunk -> Reply, chunks: seq<Chunk>, n: int, total: nat, pending: seq<Chunk>,
                       result: seq<Span>)
    requires Progress(serve, chunks, n, total, pending, result) && n < |chunks|
    ensures Progress(serve, chunks, n + 1, total, pending + [chunks[n]], result)
  {
    SliceSnoc(chunks, n - |pending|, n);
  }

  // ----- which replies are accepted, and what is reported -----

  /** A record of one of the wire's kinds, inside the chunk, short enough, with a probability. */
  predicate WellFormed(item: WireItem, length: nat) {
    && item.Item? && 0 <= item.start < item.end <= length && 0.0 <= item.score <= 1.0
    && item.kind in {"PERSON", "LOCATION", "EMAIL", "PHONE", "CARD", "PASSPORT", "DRIVER_LICENSE", "INN", "SNILS",
                     "OMS", "IP_ADDRESS", "URL", "MILITARY_ID", "BIRTH_CERTIFICATE"}
    && item.end - item.start <= if item.kind == "URL" then 2048 else if item.kind == "EMAIL" then 320 else 200
  }

  predicate WellAnswered(reply: Reply, length: nat) {
    && reply.Body? && |reply.entities| <= 2048
    && forall i :: 0 <= i < |reply.entities| ==> WellFormed(reply.entities[i], length)
  }

  ghost predicate AllWellAnswered(serve: Chunk -> Reply, chunks: seq<Chunk>) {
    forall k :: 0 <= k < |chunks| ==> WellAnswered(serve(chunks[k]), |chunks[k].part|)
  }

  /** The item, away from the chunk's artificial edges, is `s` in the offsets of the text. */
  predicate Places(item: WireItem, chunk: Chunk, total: nat, s: Span) {
    && item.Item? && s.start == chunk.offset + item.start && s.end == chunk.offset + item.end
    && s.kind == item.kind && s.confidence == item.score && s.reason == "private-ner"
    && (chunk.offset == 0 || item.start != 0)
    && (chunk.offset + |chunk.part| >= total || item.end != |chunk.part|)
  }

  ghost predicate PlacedBy(reply: Reply, chunk: Chunk, total: nat, s: Span) {
    reply.Body? && exists i :: 0 <= i < |reply.entities| && Places(reply.entities[i], chunk, total, s)
  }

  ghost predicate Reported(serve: Chunk -> Reply, chunks: seq<Chunk>, total: nat, s: Span) {
    exists k :: 0 <= k < |chunks| && PlacedBy(serve(chunks[k]), chunks[k], total, s)
  }

  lemma ParsedMeans(reply: Reply, chunk: Chunk, total: nat)
    ensures var parsed := ParseOf(reply, chunk, total);
            && (parsed.Success? <==> WellAnswered(reply, |chunk.part|))
            && (parsed.Success? ==> forall s :: s in parsed.value <==> PlacedBy(reply, chunk, total, s))
  {
    if reply.Body? {
      var items := reply.entities;
      forall i | 0 <= i < |items| ensures WellFormed(items[i], |chunk.part|) <==> ValidEntity(items[i], |chunk.part|) {
      }
      if ParseOf(reply, chunk, total).Success? {
        forall s ensures s in Accepted(items, chunk, total) <==> PlacedBy(reply, chunk, total, s) {
          AcceptedArePlaced(items, chunk, total, s);
        }
      }
    }
  }

  lemma AcceptedArePlaced(items: seq<WireItem>, chunk: Chunk, total: nat, s: Span)
    requires forall i :: 0 <= i < |items| ==> ValidEntity(items[i], |chunk.part|)
    ensures s in Accepted(items, chunk, total) <==>
            exists i :: 0 <= i < |items| && Places(items[i], chunk, total, s)
  {
    AcceptedMembers(items, chunk, total, s);
    forall i | 0 <= i < |items|
      ensures Places(items[i], chunk, total, s) <==>
              !Clipped(items[i], chunk, total) && s == SpanOf(items[i], chunk.offset)
    {
      assert ValidEntity(items[i], |chunk.part|);
    }
  }

  /** All chunks are accepted exactly when each is well answered, and then exactly the placed items are reported. */
  lemma {:induction false} AllParsedMeans(serve: Chunk -> Reply, chunks: seq<Chunk>, total: nat)
    ensures var all := ParseAll(serve, chunks, total);
            && (all.Success? <==> AllWellAnswered(serve, chunks))
            && (all.Success? ==> forall s :: s in all.value <==> Reported(serve, chunks, total, s))
  {
    hide WellAnswered, PlacedBy, ParseOf;
    if chunks != [] {
      var rest, last := chunks[..|chunks| - 1], chunks[|chunks| - 1];
      assert chunks == rest + [last];
      AllParsedMeans(serve, rest, total);
      ParsedMeans(serve(last), last, total);
      assert AllWellAnswered(serve, chunks) <==>
             AllWellAnswered(serve, rest) && WellAnswered(serve(last), |last.part|);
      forall s ensures Reported(serve, chunks, total, s) <==>
                     Reported(serve, rest, total, s) || PlacedBy(serve(last), last, total, s)
      {
        ReportedSnoc(serve, rest, last, total, s);
      }
    }
  }

  lemma ReportedSnoc(serve: Chunk -> Reply, rest: seq<Chunk>, last: Chunk, total: nat, s: Span)
    ensures Reported(serve, rest + [last], total, s) <==>
            Reported(serve, rest, total, s) || PlacedBy(serve(last), last, total, s)
  {
    hide PlacedBy;
    var chunks := rest + [last];
    if Reported(serve, rest, total, s) {
      var k :| 0 <= k < |rest| && PlacedBy(serve(rest[k]), rest[k], total, s);
      assert chunks[k] == rest[k];
    } else if PlacedBy(serve(last), last, total, s) {
      assert chunks[|rest|] == last;
    }
  }

  lemma FirstChunk(text: string, size: nat, overlap: nat, start: nat)
    requires overlap < size
    ensures var chunks := ChunksFrom(text, size, overlap, start);
            && (chunks != [] <==> start < |text|)
            && (start < |text| ==>
                  && chunks[0] == Chunk(start, text[start..Min(|text|, start + size)])
                  && if start + size >= |text| then |chunks| == 1
                     else chunks[1..] == ChunksFrom(text, size, overlap, start + size - overlap))
  {
  }

  /**
   * The first chunk begins at `start`, each next one the overlap before the end of the one before it; every chunk is
   * as long as the text allows, and the last one is the first that reaches the end of the text.
   */
  lemma {:induction false} ChunksAdvance(text: string, size: nat, overlap: nat, start: nat, k: nat)
    requires overlap < size
    ensures var chunks := ChunksFrom(text, size, overlap, start);
            && (chunks != [] <==> start < |text|) && (chunks != [] ==> chunks[0].offset == start)
            && (k < |chunks| ==>
                  && chunks[k].offset < |text|
                  && chunks[k].part == text[chunks[k].offset..Min(|text|, chunks[k].offset + size)]
                  && (k + 1 == |chunks| <==> chunks[k].offset + size >= |text|))
            && (k + 1 < |chunks| ==> chunks[k + 1].offset + overlap == chunks[k].offset + size)
    decreases k
  {
    hide ChunksFrom;
    FirstChunk(text, size, overlap, start);
    if start < |text| && start + size < |text| {
      var chunks := ChunksFrom(text, size, overlap, start);
      assert forall i :: 0 < i < |chunks| ==> chunks[i] == chunks[1..][i - 1];
      FirstChunk(text, size, overlap, start + size - overlap);
      if k > 0 {
        ChunksAdvance(text, size, overlap, start + size - overlap, k - 1);
      }
    }
  }

  /** `detect`: groups of four chunks; any failure refuses the whole text. */
  method Detect(serve: Chunk -> Reply, text: string, size: int, overlap: int) returns (r: Result<seq<Span>, NerError>)
    ensures r == if 0 <= overlap < size && ParseAll(serve, ChunksFrom(text, size, overlap, 0), |text|).Success?
                 then ParseAll(serve, ChunksFrom(text, size, overlap, 0), |text|)
                 else Failure(Incomplete)
    ensures r.Success? <==> 0 <= overlap < size && AllWellAnswered(serve, ChunksFrom(text, size, overlap, 0))
    ensures r.Success? ==>
              forall s :: s in r.value <==> Reported(serve, ChunksFrom(text, size, overlap, 0), |text|, s)
  {
    hide AllWellAnswered, Reported, ParseAll;
    if 0 <= overlap < size {
      AllParsedMeans(serve, ChunksFrom(text, size, overlap, 0), |text|);
    }
    var split := SplitChunks(text, size, overlap);
    if split.Failure? {
      return Failure(Incomplete);
    }
    r := DetectChunks(serve, split.value, |text|);
  }

  /** The loop of `detect` over the chunks. */
  method DetectChunks(serve: Chunk -> Reply, chunks: seq<Chunk>, total: nat) returns (r: Result<seq<Span>, NerError>)
    ensures r == if ParseAll(serve, chunks, total).Success? then ParseAll(serve, chunks, total) else Failure(Incomplete)
  {
    var result: seq<Span> := [];
    var pending: seq<Chunk> := [];
    for n := 0 to |chunks|
      invariant |pending| < GROUP && Progress(serve, chunks, n, total, pending, result)
    {
      OneMorePending(serve, chunks, n, total, pending, result);
      pending := pending + [chunks[n]];
      if |pending| == GROUP {
        var sent := Flush(serve, chunks, n + 1, pending, total, result);
        if sent.Failure? {
          return Failure(Incomplete);
        }
        pending, result := [], sent.value;
      }
    }
    r := FlushLast(serve, chunks, pending, total, result);
  }

  /** Sends what is pending behind the last chunk. */
  method FlushLast(serve: Chunk -> Reply, ghost chunks: seq<Chunk>, pending: seq<Chunk>, total: nat, result: seq<Span>)
    returns (r: Result<seq<Span>, NerError>)
    requires Progress(serve, chunks, |chunks|, total, pending, result)
    ensures r == if ParseAll(serve, chunks, total).Success? then ParseAll(serve, chunks, total) else Failure(Incomplete)
  {
    assert chunks[..|chunks|] == chunks;
    if pending != [] {
      r := Flush(serve, chunks, |chunks|, pending, total, result);
    } else {
      r := Success(result);
    }
  }

  // ----- what the chunks hold -----

  /** The chunk holds `[a, b)` and, except at an end of the whole text, holds it away from its edges. */
  predicate HoldsInside(chunk: Chunk, total: nat, a: int, b: int) {
    && chunk.offset <= a && b <= chunk.offset + |chunk.part|
    && (chunk.offset == 0 || chunk.offset < a)
    && (chunk.offset + |chunk.part| >= total || b < chunk.offset + |chunk.part|)
  }

  ghost predicate Held(chunks: seq<Chunk>, total: nat, a: int, b: int) {
    exists k :: 0 <= k < |chunks| && HoldsInside(chunks[k], total, a, b)
  }

  /** Chunks are stretches of the text. */
  lemma {:induction false} ChunksQuote(text: string, size: nat, overlap: nat, start: nat, k: nat)
    requires overlap < size && k < |ChunksFrom(text, size, overlap, start)|
    ensures var c := ChunksFrom(text, size, overlap, start)[k];
            && start <= c.offset && 0 < |c.part| <= size && c.offset + |c.part| <= |text|
            && c.part == text[c.offset..c.offset + |c.part|]
    decreases k
  {
    if k > 0 {
      ChunksQuote(text, size, overlap, Min(|text|, start + size) - overlap, k - 1);
    }
  }

  /** An entity shorter than the overlap lies away from the edges of some chunk. */
  lemma {:induction false} ShortIsHeld(text: string, size: nat, overlap: nat, start: nat, a: nat, b: nat)
    requires overlap < size && a < b <= |text| && b - a < overlap && (start == 0 || start < a)
    ensures Held(ChunksFrom(text, size, overlap, start), |text|, a, b)
    decreases |text| - start
  {
    var chunks := ChunksFrom(text, size, overlap, start);
    var end := Min(|text|, start + size);
    if end == |text| || b < end {
      assert HoldsInside(chunks[0], |text|, a, b);
    } else {
      ShortIsHeld(text, size, overlap, end - overlap, a, b);
      var rest := ChunksFrom(text, size, overlap, end - overlap);
      var k :| 0 <= k < |rest| && HoldsInside(rest[k], |text|, a, b);
      assert chunks[k + 1] == rest[k];
    }
  }

  /** The stretch as long as the overlap (at least one character) in front of the first artificial edge is lost. */
  lemma EdgeIsLost(text: string, size: nat, overlap: nat)
    requires overlap < size < |text|
    ensures !Held(ChunksFrom(text, size, overlap, 0), |text|, size - Max(overlap, 1), size)
  {
    var chunks := ChunksFrom(text, size, overlap, 0);
    forall k | 0 <= k < |chunks| ensures !HoldsInside(chunks[k], |text|, size - Max(overlap, 1), size) {
      if k > 0 {
        ChunksQuote(text, size, overlap, size - overlap, k - 1);
      }
    }
  }

  /**
   * For any text of more than one chunk, every entity of at most `limit` characters survives iff the overlap
   * exceeds `limit`.
   */
  lemma OverlapMustExceedLimit(text: string, size: nat, overlap: nat, limit: nat)
    requires overlap < size < |text| && 0 < limit
    ensures (forall a: nat, b :: a < b <= |text| && b - a <= limit ==>
               Held(ChunksFrom(text, size, overlap, 0), |text|, a, b))
            <==> limit < overlap
  {
    if limit < overlap {
      forall a: nat, b | a < b <= |text| && b - a <= limit
        ensures Held(ChunksFrom(text, size, overlap, 0), |text|, a, b)
      {
        ShortIsHeld(text, size, overlap, 0, a, b);
      }
    } else {
      EdgeIsLost(text, size, overlap);
    }
  }

  // ----- chunked detection against the whole text -----

  /** Entities of the whole text that the wire contract admits. */
  ghost predicate WholeEntities(text: string, entities: set<Span>) {
    forall e :: e in entities ==>
      && e.reason == "private-ner" && ValidEntity(Item(e.start, e.end, e.confidence, e.kind), |text|)
  }

  /** The entity and the chunk share a character. */
  predicate Touches(e: Span, chunk: Chunk) {
    Max(e.start, chunk.offset) < Min(e.end, chunk.offset + |chunk.part|)
  }

  /** The part of `e` inside the chunk, in the chunk's offsets. */
  function ClipTo(e: Span, chunk: Chunk): WireItem {
    Item(Max(e.start, chunk.offset) - chunk.offset, Min(e.end, chunk.offset + |chunk.part|) - chunk.offset,
         e.confidence, e.kind)
  }

  /** The model reports for the chunk every entity of the text clipped to the chunk, and nothing else. */
  ghost predicate ReportsClipped(reply: Reply, chunk: Chunk, entities: set<Span>) {
    && reply.Body? && |reply.entities| <= MAX_ENTITIES
    && (forall i :: 0 <= i < |reply.entities| ==> IsClipOfSome(reply.entities[i], chunk, entities))
    && (forall e :: e in entities && Touches(e, chunk) ==> ClipTo(e, chunk) in reply.entities)
  }

  ghost predicate IsClipOfSome(item: WireItem, chunk: Chunk, entities: set<Span>) {
    exists e :: e in entities && Touches(e, chunk) && item == ClipTo(e, chunk)
  }

  lemma {:induction false} AcceptedMembers(items: seq<WireItem>, chunk: Chunk, total: nat, s: Span)
    requires forall i :: 0 <= i < |items| ==> ValidEntity(items[i], |chunk.part|)
    ensures s in Accepted(items, chunk, total) <==>
            exists i :: 0 <= i < |items| && !Clipped(items[i], chunk, total) && s == SpanOf(items[i], chunk.offset)
  {
    if items != [] {
      AcceptedMembers(items[..|items| - 1], chunk, total, s);
    }
  }

  /** A clipped entity that is not dropped is the entity itself, held away from the edges. */
  lemma SurvivorIsWhole(e: Span, chunk: Chunk, total: nat)
    requires Nonempty(e) && e.reason == "private-ner" && Touches(e, chunk)
    requires chunk.offset + |chunk.part| <= total && e.end <= total
    ensures !Clipped(ClipTo(e, chunk), chunk, total) <==> HoldsInside(chunk, total, e.start, e.end)
    ensures !Clipped(ClipTo(e, chunk), chunk, total) ==> SpanOf(ClipTo(e, chunk), chunk.offset) == e
  {
  }

  lemma ChunkKeepsHeld(text: string, chunk: Chunk, reply: Reply, entities: set<Span>)
    requires WholeEntities(text, entities) && ReportsClipped(reply, chunk, entities)
    requires chunk.offset + |chunk.part| <= |text|
    ensures ParseOf(reply, chunk, |text|).Success?
    ensures forall s :: s in ParseOf(reply, chunk, |text|).value <==>
                        s in entities && HoldsInside(chunk, |text|, s.start, s.end)
  {
    var items := reply.entities;
    forall i | 0 <= i < |items| ensures ValidEntity(items[i], |chunk.part|) {
      assert IsClipOfSome(items[i], chunk, entities);
      var e :| e in entities && Touches(e, chunk) && items[i] == ClipTo(e, chunk);
      assert ValidEntity(Item(e.start, e.end, e.confidence, e.kind), |text|);
    }
    forall s ensures s in Accepted(items, chunk, |text|) <==>
                   s in entities && HoldsInside(chunk, |text|, s.start, s.end)
    {
      AcceptedMembers(items, chunk, |text|, s);
      if s in entities && HoldsInside(chunk, |text|, s.start, s.end) {
        SurvivorIsWhole(s, chunk, |text|);
        assert ClipTo(s, chunk) in items;
      }
      if s in Accepted(items, chunk, |text|) {
        var i :| 0 <= i < |items| && !Clipped(items[i], chunk, |text|) && s == SpanOf(items[i], chunk.offset);
        assert IsClipOfSome(items[i], chunk, entities);
        var e :| e in entities && Touches(e, chunk) && items[i] == ClipTo(e, chunk);
        SurvivorIsWhole(e, chunk, |text|);
      }
    }
  }

  lemma {:induction false} HeldBySome(text: string, serve: Chunk -> Reply, chunks: seq<Chunk>, entities: set<Span>)
    requires WholeEntities(text, entities)
    requires forall k :: 0 <= k < |chunks| ==> chunks[k].offset + |chunks[k].part| <= |text|
    requires forall k :: 0 <= k < |chunks| ==> ReportsClipped(serve(chunks[k]), chunks[k], entities)
    ensures ParseAll(serve, chunks, |text|).Success?
    ensures forall s :: s in ParseAll(serve, chunks, |text|).value <==>
                        s in entities && Held(chunks, |text|, s.start, s.end)
  {
    if chunks != [] {
      var rest, last := chunks[..|chunks| - 1], chunks[|chunks| - 1];
      assert chunks == rest + [last];
      HeldBySome(text, serve, rest, entities);
      ChunkKeepsHeld(text, last, serve(last), entities);
      ParseAllSnoc(serve, rest, last, |text|);
      forall s ensures s in ParseAll(serve, chunks, |text|).value <==>
                     s in entities && Held(chunks, |text|, s.start, s.end)
      {
        HeldSnoc(rest, last, |text|, s.start, s.end);
      }
    }
  }

  lemma HeldSnoc(rest: seq<Chunk>, last: Chunk, total: nat, a: int, b: int)
    ensures Held(rest + [last], total, a, b) <==> Held(rest, total, a, b) || HoldsInside(last, total, a, b)
  {
    var chunks := rest + [last];
    if Held(rest, total, a, b) {
      var k :| 0 <= k < |rest| && HoldsInside(rest[k], total, a, b);
      assert HoldsInside(chunks[k], total, a, b);
    } else if HoldsInside(last, total, a, b) {
      assert HoldsInside(chunks[|rest|], total, a, b);
    }
  }

  /** The model answers every chunk of the text with the clipped entities. */
  ghost predicate Consistent(serve: Chunk -> Reply, text: string, chunks: seq<Chunk>, entities: set<Span>) {
    && WholeEntities(text, entities)
    && forall k :: 0 <= k < |chunks| ==> ReportsClipped(serve(chunks[k]), chunks[k], entities)
  }

  /** Chunked detection reports exactly the entities that some chunk holds away from its artificial edges. */
  lemma DetectedAreHeld(serve: Chunk -> Reply, text: string, size: nat, overlap: nat, entities: set<Span>)
    requires overlap < size && Consistent(serve, text, ChunksFrom(text, size, overlap, 0), entities)
    ensures var chunks := ChunksFrom(text, size, overlap, 0);
            && ParseAll(serve, chunks, |text|).Success?
            && ToSet(ParseAll(serve, chunks, |text|).value) ==
               set e | e in entities && Held(chunks, |text|, e.start, e.end)
  {
    var chunks := ChunksFrom(text, size, overlap, 0);
    forall k | 0 <= k < |chunks| ensures chunks[k].offset + |chunks[k].part| <= |text| {
      ChunksQuote(text, size, overlap, 0, k);
    }
    HeldBySome(text, serve, chunks, entities);
  }

  /** When every entity is shorter than the overlap, chunked detection loses nothing and invents nothing. */
  lemma ChunkedEqualsWhole(serve: Chunk -> Reply, text: string, size: nat, overlap: nat, entities: set<Span>)
    requires overlap < size && Consistent(serve, text, ChunksFrom(text, size, overlap, 0), entities)
    requires forall e :: e in entities ==> e.end - e.start < overlap
    ensures ParseAll(serve, ChunksFrom(text, size, overlap, 0), |text|).Success?
    ensures ToSet(ParseAll(serve, ChunksFrom(text, size, overlap, 0), |text|).value) == entities
  {
    DetectedAreHeld(serve, text, size, overlap, entities);
    forall e | e in entities ensures Held(ChunksFrom(text, size, overlap, 0), |text|, e.start, e.end) {
      ShortIsHeld(text, size, overlap, 0, e.start, e.end);
    }
  }

  lemma EntitiesAreShort(text: string, entities: set<Span>)
    requires WholeEntities(text, entities)
    ensures forall e :: e in entities ==> e.end - e.start <= MAX_NER_SPAN
  {
    forall e | e in entities ensures e.end - e.start <= MAX_NER_SPAN {
      assert ValidEntity(Item(e.start, e.end, e.confidence, e.kind), |text|);
    }
  }

  /** Detection with the dimensions in use: complete for everything the wire contract admits. */
  method DetectText(serve: Chunk -> Reply, text: string, ghost entities: set<Span>)
    returns (r: Result<seq<Span>, NerError>)
    ensures r.Success? <==> AllWellAnswered(serve, ChunksFrom(text, 16000, 2080, 0))
    ensures r.Success? ==> forall s :: s in r.value <==> Reported(serve, ChunksFrom(text, 16000, 2080, 0), |text|, s)
    ensures Consistent(serve, text, ChunksFrom(text, CHUNK_SIZE, MAX_NER_SPAN + 32, 0), entities) ==>
              r.Success? && ToSet(r.value) == entities
  {
    r := Detect(serve, text, CHUNK_SIZE, MAX_NER_SPAN + 32);
    if Consistent(serve, text, ChunksFrom(text, CHUNK_SIZE, MAX_NER_SPAN + 32, 0), entities) {
      EntitiesAreShort(text, entities);
      ChunkedEqualsWhole(serve, text, CHUNK_SIZE, MAX_NER_SPAN + 32, entities);
    }
  }
}
