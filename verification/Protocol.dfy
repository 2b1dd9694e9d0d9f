/** Concurrent requests on shared correlation records: read, compute, put if absent, answer. */
module Protocol {
  import opened Base
  import opened Spans
  import opened Transform
  import opened Restore
  import opened Tokens
  import Vault

  datatype Operation = Process | MaskOnly | Unmask

  datatype Policy = Policy(allowUnmask: bool)

  type Key = (string, string)

  /** `digest` stands for the keyed fingerprint of a text and `keyName` for that of a tenant and payload id. */
  datatype Settings = Settings(digest: string -> string, keyName: Key -> string, policy: string -> Policy,
                               maxChars: nat, style: Style)
  {
    /** No two texts share a fingerprint and no two keys share a name. */
    ghost predicate Valid() {
      && (forall a, b :: digest(a) == digest(b) ==> a == b)
      && (forall a, b :: keyName(a) == keyName(b) ==> a == b)
    }
  }

  datatype Request = Request(tenant: string, payloadId: string, payload: string, op: Operation, mode: Mode)

  function KeyOf(st: Settings, q: Request): string {
    st.keyName((q.tenant, q.payloadId))
  }

  datatype Record = Record(originalHash: string, maskedHash: string, masked: string,
                           items: seq<Replacement>, mode: Mode)

  datatype Refusal =
    | UnmaskDisabled | OutputTooLarge | ForeignToken | PayloadConflict
    | ModeConflict | MappingExpired | VaultFull | Unavailable

  datatype Reply = Masked(text: string) | Restored(text: string) | Refused(reason: Refusal)

  // ----- what one request computes -----

  /** `_restore_record`. */
  function RestoreReply(st: Settings, q: Request, rec: Record): Reply {
    var fingerprint := st.digest(q.payload);
    if !st.policy(q.tenant).allowUnmask then Refused(UnmaskDisabled)
    else if fingerprint == rec.maskedHash then
      var r := RestoreFrom(rec.masked, rec.items, 0);
      if r.Success? then Restored(r.value) else Refused(Unavailable)
    else if q.op == Unmask && rec.mode == Token then
      var r := RestoreTokensOf(q.payload, TokenMap(rec.items), Some(st.maxChars));
      if r.Success? then Restored(r.value)
      else if r.error.TooLarge? then Refused(OutputTooLarge) else Refused(ForeignToken)
    else Refused(PayloadConflict)
  }

  /** `_resolve_record` when the read found a record. */
  function ResolveReply(st: Settings, q: Request, rec: Record): Reply {
    var fingerprint := st.digest(q.payload);
    if q.op == Unmask || (q.op == Process && fingerprint == rec.maskedHash && fingerprint != rec.originalHash) then
      RestoreReply(st, q, rec)
    else if fingerprint == rec.originalHash then
      if q.op == MaskOnly && q.mode != rec.mode then Refused(ModeConflict) else Masked(rec.masked)
    else Refused(PayloadConflict)
  }

  /** The end of `_detect_and_transform`, on the record that the store kept. */
  function KeptReply(st: Settings, q: Request, rec: Record): Reply {
    if rec.originalHash != st.digest(q.payload) then Refused(PayloadConflict)
    else if q.op == MaskOnly && rec.mode != q.mode then Refused(ModeConflict)
    else Masked(rec.masked)
  }

  /** `rec` is what transforming the request's text yields for some selected spans. */
  ghost predicate Built(st: Settings, q: Request, rec: Record) {
    && rec.originalHash == st.digest(q.payload) && rec.maskedHash == st.digest(rec.masked) && rec.mode == q.mode
    && exists spans, items :: BuiltFrom(st, q, rec, spans, items)
  }

  ghost predicate BuiltFrom(st: Settings, q: Request, rec: Record, spans: seq<Span>, items: seq<Replacement>) {
    && InText(spans, q.payload) && IsMasking(q.payload, spans, rec.masked, items)
    && ValuesFit(st.style, q.payload, Identities(q.payload, spans), q.mode, Values(items))
    && rec.items == if st.policy(q.tenant).allowUnmask then items else []
  }

  /** A record restores its own masked text to the text it was built from. */
  lemma BuiltRestores(st: Settings, q: Request, rec: Record)
    requires Built(st, q, rec) && st.policy(q.tenant).allowUnmask
    ensures RestoreFrom(rec.masked, rec.items, 0) == Success(q.payload)
  {
    var spans, items :| BuiltFrom(st, q, rec, spans, items);
    MaskThenRestore(st.style, q.payload, spans, q.mode, rec.masked, items);
  }

  /** And so does a text made of the record's own tokens, which become their originals. */
  lemma BuiltUnmasks(st: Settings, first: Request, rec: Record, lits: seq<string>, picks: seq<nat>, limit: nat)
    requires Built(st, first, rec) && st.policy(first.tenant).allowUnmask && rec.mode == Token
    requires picks != [] && Picks(picks, |rec.items|) && WellFormed(lits, TokensAt(rec.items, picks))
    ensures RestoreTokensOf(Interleave(lits, TokensAt(rec.items, picks)), TokenMap(rec.items), Some(limit))
         == if |Interleave(lits, OriginalsAt(rec.items, picks))| > limit then Failure(TooLarge)
            else Success(Interleave(lits, OriginalsAt(rec.items, picks)))
  {
    var spans, items :| BuiltFrom(st, first, rec, spans, items);
    PickedTokensRestore(st.style, first.payload, spans, rec.masked, items, lits, picks, limit);
  }

  /** The answer in terms of texts: `first` is the request whose record was kept. */
  function Expected(st: Settings, first: Request, rec: Record, q: Request): Reply {
    if q.op != Unmask && q.payload == first.payload then
      if q.op == MaskOnly && q.mode != first.mode then Refused(ModeConflict) else Masked(rec.masked)
    else if q.op == MaskOnly || (q.op == Process && q.payload != rec.masked) then Refused(PayloadConflict)
    else if !st.policy(q.tenant).allowUnmask then Refused(UnmaskDisabled)
    else if q.payload == rec.masked then Restored(first.payload)
    else if first.mode != Token then Refused(PayloadConflict)
    else
      match RestoreTokensOf(q.payload, TokenMap(rec.items), Some(st.maxChars))
      case Success(text) => Restored(text)
      case Failure(error) => if error.TooLarge? then Refused(OutputTooLarge) else Refused(ForeignToken)
  }

  lemma RestoreIsExpected(st: Settings, first: Request, rec: Record, q: Request)
    requires st.Valid() && Built(st, first, rec) && q.tenant == first.tenant && q.op != MaskOnly
    requires q.op == Process ==> q.payload == rec.masked && q.payload != first.payload
    ensures RestoreReply(st, q, rec) == Expected(st, first, rec, q)
  {
    assert st.digest(q.payload) == st.digest(rec.masked) ==> q.payload == rec.masked;
    if st.policy(first.tenant).allowUnmask {
      BuiltRestores(st, first, rec);
    }
  }

  lemma ResolveIsExpected(st: Settings, first: Request, rec: Record, q: Request)
    requires st.Valid() && Built(st, first, rec) && q.tenant == first.tenant
    ensures ResolveReply(st, q, rec) == Expected(st, first, rec, q)
  {
    assert st.digest(q.payload) == rec.originalHash <==> q.payload == first.payload;
    assert st.digest(q.payload) == rec.maskedHash <==> q.payload == rec.masked;
    if q.op == Unmask || (q.op == Process && q.payload == rec.masked && q.payload != first.payload) {
      RestoreIsExpected(st, first, rec, q);
    }
  }

  /** A writer that meets another's record is answered like a reader, except that it never restores. */
  lemma KeptIsExpected(st: Settings, first: Request, rec: Record, q: Request)
    requires st.Valid() && Built(st, first, rec) && q.tenant == first.tenant && q.op != Unmask
    ensures KeptReply(st, q, rec)
         == if q.payload != first.payload then Refused(PayloadConflict) else Expected(st, first, rec, q)
  {
  }

  /** The handler's next move after reading the store: an answer, or nothing when it must compute a record. */
  function AfterLook(st: Settings, q: Request, found: Vault.Reply<Record>): Option<Reply> {
    match found
    case Existing(rec) => Some(ResolveReply(st, q, rec))
    case _ => if q.op == Unmask then Some(Refused(MappingExpired)) else None
  }

  function AfterStore(st: Settings, q: Request, kept: Vault.Reply<Record>): Reply {
    match kept
    case Existing(winner) => KeptReply(st, q, winner)
    case Stored(own) => KeptReply(st, q, own)
    case _ => Refused(VaultFull)
  }

  // ----- the handler's atomic sections on a real store -----

  class Handler {
    const st: Settings
    const vault: Vault.MemoryVault<Record>

    constructor (st: Settings, vault: Vault.MemoryVault<Record>)
      ensures this.st == st && this.vault == vault
    {
      this.st, this.vault := st, vault;
    }

    method RestoreRecord(q: Request, rec: Record) returns (reply: Reply)
      ensures reply == RestoreReply(st, q, rec)
    {
      if !st.policy(q.tenant).allowUnmask {
        return Refused(UnmaskDisabled);
      }
      if st.digest(q.payload) == rec.maskedHash {
        var r := RestoreExact(rec.masked, rec.items);
        return if r.Success? then Restored(r.value) else Refused(Unavailable);
      }
      if q.op == Unmask && rec.mode == Token {
        var r := RestoreTokens(q.payload, rec.items, Some(st.maxChars));
        if r.Success? {
          return Restored(r.value);
        }
        return Refused(if r.error.TooLarge? then OutputTooLarge else ForeignToken);
      }
      return Refused(PayloadConflict);
    }

    /** Reads the store and answers, unless a new record must be computed. */
    method Look(q: Request, now: real) returns (reply: Option<Reply>)
      requires vault.Valid() && vault.clock <= now
      modifies vault
      ensures vault.Valid() && vault.clock == now
      ensures vault.records == Vault.After(vault.limits, old(vault.records), Vault.Get(KeyOf(st, q), now))
      ensures reply == AfterLook(st, q, Vault.Answer(vault.limits, old(vault.records), Vault.Get(KeyOf(st, q), now)))
    {
      var found := vault.Read(KeyOf(st, q), now);
      if !found.Existing? {
        return if q.op == Unmask then Some(Refused(MappingExpired)) else None;
      }
      var rec := found.record;
      var fingerprint := st.digest(q.payload);
      if q.op == Unmask || (q.op == Process && fingerprint == rec.maskedHash && fingerprint != rec.originalHash) {
        var restored := RestoreRecord(q, rec);
        return Some(restored);
      }
      if fingerprint != rec.originalHash {
        return Some(Refused(PayloadConflict));
      }
      return Some(if q.op == MaskOnly && q.mode != rec.mode then Refused(ModeConflict) else Masked(rec.masked));
    }

    /** Transforms the selected spans into a record; in token mode the random source must last. */
    method Compute(q: Request, selected: seq<Span>) returns (rec: Record)
      requires InText(selected, q.payload) && st.style.Lawful()
      requires q.mode == Token ==> st.style.Fresh() && DrawsFor(|selected|, q.payload) <= st.style.supply
      ensures Built(st, q, rec)
      ensures !st.policy(q.tenant).allowUnmask ==> rec.items == []
    {
      var masked, items := MaskText(st.style, q.payload, selected, q.mode);
      rec := Record(st.digest(q.payload), st.digest(masked), masked,
                    if st.policy(q.tenant).allowUnmask then items else [], q.mode);
      assert BuiltFrom(st, q, rec, selected, items);
    }

    /** Puts the record if absent and answers from the record that the store kept. */
    method Store(q: Request, rec: Record, now: real, later: real) returns (reply: Reply)
      requires vault.Valid() && vault.clock <= now <= later
      modifies vault
      ensures vault.Valid() && vault.clock == later
      ensures var put := Vault.Put(KeyOf(st, q), rec, now, later);
              && vault.records == Vault.After(vault.limits, old(vault.records), put)
              && reply == AfterStore(st, q, Vault.Answer(vault.limits, old(vault.records), put))
    {
      var kept := vault.PutIfAbsent(KeyOf(st, q), rec, now, later);
      match kept
      case Existing(winner) => return KeptReply(st, q, winner);
      case Stored(own) => return KeptReply(st, q, own);
      case _ => return Refused(VaultFull);
    }
  }
}
