/** Issued tokens: their grammar, the leftmost scan for them, and single-pass restoration. */
module Tokens {
  import opened Base

  predicate Upper(c: char) {
    'A' <= c <= 'Z'
  }

  predicate Digit(c: char) {
    '0' <= c <= '9'
  }

  predicate IsKind(s: string) {
    2 <= |s| <= 40 && Upper(s[0]) && forall i :: 0 < i < |s| ==> Upper(s[i]) || Digit(s[i]) || s[i] == '_'
  }

  predicate IsHex(s: string) {
    |s| == 16 && forall i :: 0 <= i < 16 ==> Digit(s[i]) || 'a' <= s[i] <= 'f'
  }

  function MakeToken(kind: string, hex: string): string {
    "⟦PD:" + kind + ":" + hex + "⟧"
  }

  /** A full match of the token pattern. */
  predicate IsToken(t: string) {
    && |t| >= 24
    && IsKind(t[4..|t| - 18])
    && IsHex(t[|t| - 17..|t| - 1])
    && t == MakeToken(t[4..|t| - 18], t[|t| - 17..|t| - 1])
  }

  lemma MadeTokenMatches(kind: string, hex: string)
    requires IsKind(kind) && IsHex(hex)
    ensures IsToken(MakeToken(kind, hex))
  {
    var t := MakeToken(kind, hex);
    assert t[4..|t| - 18] == kind;
    assert t[|t| - 17..|t| - 1] == hex;
  }

  /** The brackets occur only at the two ends of a token. */
  lemma BracketsAtEnds(t: string)
    requires IsToken(t)
    ensures t[0] == '⟦' && t[|t| - 1] == '⟧'
    ensures forall i :: 0 < i < |t| ==> t[i] != '⟦'
    ensures forall i :: 0 <= i < |t| - 1 ==> t[i] != '⟧'
  {
    var kind, hex := t[4..|t| - 18], t[|t| - 17..|t| - 1];
    forall i | 0 < i < |t| - 1 ensures t[i] != '⟦' && t[i] != '⟧' {
      if 4 <= i < |t| - 18 {
        assert t[i] == kind[i - 4];
      } else if |t| - 17 <= i {
        assert t[i] == hex[i - (|t| - 17)];
      } else {
        assert t[i] == ("⟦PD:" + kind + ":")[i];
      }
    }
  }

  /** Whether the pattern matches at the head of `s`; the length of the match, searched from `n` up. */
  function MatchLength(s: string, n: nat): (r: Option<nat>)
    requires n <= |s|
    ensures r.Some? ==> n <= r.value <= |s| && IsToken(s[..r.value])
    ensures r.None? ==> forall k :: n <= k <= |s| ==> !IsToken(s[..k])
    decreases |s| - n
  {
    if IsToken(s[..n]) then Some(n)
    else if n == |s| then None
    else MatchLength(s, n + 1)
  }

  lemma PrefixBrackets(s: string, k: nat)
    requires k <= |s| && IsToken(s[..k])
    ensures k > 0 && s[k - 1] == '⟧' && forall i :: 0 <= i < k - 1 ==> s[i] != '⟧'
    ensures forall i :: 0 < i < k ==> s[i] != '⟦'
  {
    BracketsAtEnds(s[..k]);
    assert forall i :: 0 <= i < k ==> s[..k][i] == s[i];
  }

  /** At most one prefix of a string is a token, so the match is unambiguous. */
  lemma MatchUnique(s: string, a: nat, b: nat)
    requires a <= |s| && b <= |s| && IsToken(s[..a]) && IsToken(s[..b])
    ensures a == b
  {
    PrefixBrackets(s, a);
    PrefixBrackets(s, b);
  }

  datatype Piece = Literal(c: char) | Issued(token: string)

  /** The leftmost nonoverlapping scan of `finditer` and `sub`. */
  function Scan(s: string): seq<Piece>
    decreases |s|
  {
    if s == [] then []
    else
      var m := MatchLength(s, 0);
      if m.Some? && m.value > 0 then [Issued(s[..m.value])] + Scan(s[m.value..])
      else [Literal(s[0])] + Scan(s[1..])
  }

  ghost predicate TokenFree(s: string) {
    forall i, j :: 0 <= i <= j <= |s| ==> !IsToken(s[i..j])
  }

  function Chars(s: string): seq<Piece> {
    seq(|s|, i requires 0 <= i < |s| => Literal(s[i]))
  }

  /** `lits[0] + toks[0] + lits[1] + ...`: one literal more than tokens. */
  ghost function Interleave(lits: seq<string>, toks: seq<string>): string
    requires |lits| == |toks| + 1
  {
    if toks == [] then lits[0] else lits[0] + toks[0] + Interleave(lits[1..], toks[1..])
  }

  ghost function InterleavePieces(lits: seq<string>, toks: seq<string>): seq<Piece>
    requires |lits| == |toks| + 1
  {
    if toks == [] then Chars(lits[0])
    else Chars(lits[0]) + [Issued(toks[0])] + InterleavePieces(lits[1..], toks[1..])
  }

  ghost predicate WellFormed(lits: seq<string>, toks: seq<string>) {
    && |lits| == |toks| + 1
    && (forall l :: l in lits ==> TokenFree(l))
    && (forall t :: t in toks ==> IsToken(t))
  }

  lemma ScanToken(t: string, rest: string)
    requires IsToken(t)
    ensures Scan(t + rest) == [Issued(t)] + Scan(rest)
  {
    var s := t + rest;
    assert s[..|t|] == t && s[|t|..] == rest;
    var m := MatchLength(s, 0);
    MatchUnique(s, m.value, |t|);
  }

  /** No match starts inside a token-free literal, even across its border with a token. */
  lemma NoMatchInLiteral(lit: string, rest: string)
    requires lit != [] && TokenFree(lit)
    requires rest == [] || rest[0] == '⟦'
    ensures MatchLength(lit + rest, 0).None?
  {
    var s := lit + rest;
    assert rest != [] ==> s[|lit|] == rest[0];
    forall k | 0 <= k <= |s| ensures !IsToken(s[..k]) {
      if k <= |lit| {
        assert s[..k] == lit[0..k];
      } else if IsToken(s[..k]) {
        PrefixBrackets(s, k);
      }
    }
  }

  lemma TailTokenFree(lit: string)
    requires lit != [] && TokenFree(lit)
    ensures TokenFree(lit[1..])
  {
    forall i, j | 0 <= i <= j <= |lit[1..]| ensures !IsToken(lit[1..][i..j]) {
      assert lit[1..][i..j] == lit[i + 1..j + 1];
    }
  }

  lemma {:induction false} ScanLiteral(lit: string, rest: string)
    requires TokenFree(lit)
    requires rest == [] || rest[0] == '⟦'
    ensures Scan(lit + rest) == Chars(lit) + Scan(rest)
  {
    if lit == [] {
      assert lit + rest == rest;
      assert Chars(lit) + Scan(rest) == Scan(rest);
    } else {
      NoMatchInLiteral(lit, rest);
      assert (lit + rest)[1..] == lit[1..] + rest;
      TailTokenFree(lit);
      ScanLiteral(lit[1..], rest);
      assert Chars(lit) == [Literal(lit[0])] + Chars(lit[1..]);
    }
  }

  lemma ScanFront(lit: string, tok: string, rest: string)
    requires TokenFree(lit) && IsToken(tok)
    ensures Scan(lit + tok + rest) == Chars(lit) + [Issued(tok)] + Scan(rest)
  {
    BracketsAtEnds(tok);
    ScanToken(tok, rest);
    ScanLiteral(lit, tok + rest);
    ConcatAssociative(lit, tok, rest);
    ConcatAssociative(Chars(lit), [Issued(tok)], Scan(rest));
  }

  /** The scan of an interleaving finds exactly its tokens, in order. */
  lemma {:induction false} ScanInterleaving(lits: seq<string>, toks: seq<string>)
    requires WellFormed(lits, toks)
    ensures Scan(Interleave(lits, toks)) == InterleavePieces(lits, toks)
  {
    if toks == [] {
      ScanLiteral(lits[0], []);
      assert lits[0] + [] == lits[0];
      assert Chars(lits[0]) + Scan([]) == Chars(lits[0]);
    } else {
      ScanInterleaving(lits[1..], toks[1..]);
      ScanFront(lits[0], toks[0], Interleave(lits[1..], toks[1..]));
    }
  }

  /** Every text is such an interleaving, so the results about interleavings cover every input. */
  lemma {:induction false} EveryTextInterleaves(text: string) returns (lits: seq<string>, toks: seq<string>)
    ensures WellFormed(lits, toks) && Interleave(lits, toks) == text
    decreases |text|
  {
    if i :| 0 <= i <= |text| && MatchLength(text[i..], 0).Some?
           && forall j :: 0 <= j < i ==> MatchLength(text[j..], 0).None?
    {
      var n := MatchLength(text[i..], 0).value;
      var tok := text[i..][..n];
      var restLits, restToks := EveryTextInterleaves(text[i..][n..]);
      lits, toks := [text[..i]] + restLits, [tok] + restToks;
      assert lits[1..] == restLits && toks[1..] == restToks;
      forall a, b | 0 <= a <= b <= i ensures !IsToken(text[..i][a..b]) {
        assert text[..i][a..b] == text[a..][..b - a];
        if a == b {
          assert |text[a..][..b - a]| == 0;
        } else {
          assert MatchLength(text[a..], 0).None?;
        }
      }
      assert text == text[..i] + tok + text[i..][n..];
    } else {
      LeastMatch(text);
      forall a, b | 0 <= a <= b <= |text| ensures !IsToken(text[a..b]) {
        assert text[a..b] == text[a..][..b - a];
        assert MatchLength(text[a..], 0).None?;
      }
      lits, toks := [text], [];
    }
  }

  lemma LeastMatch(text: string)
    ensures (exists i :: 0 <= i <= |text| && MatchLength(text[i..], 0).Some?) ==>
            exists i :: 0 <= i <= |text| && MatchLength(text[i..], 0).Some?
                          && forall j :: 0 <= j < i ==> MatchLength(text[j..], 0).None?
  {
    var k := 0;
    while k <= |text| && MatchLength(text[k..], 0).None?
      invariant 0 <= k <= |text| + 1
      invariant forall j :: 0 <= j < k ==> MatchLength(text[j..], 0).None?
    {
      k := k + 1;
    }
  }
}
