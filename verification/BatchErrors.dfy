/** Which error a batch reports, against the errors its texts report when decoded alone. */
module BatchErrors {
  import opened Base
  import opened Text
  import opened Words
  import opened Decoder
  import opened Batch

  /** Decoding the text alone fails with this error. */
  ghost predicate AloneFails(rt: Runtime, chars: CharTable, text: string, error: DecodeError)
    requires WellShaped(rt)
  {
    exists words ::
      Tiles(SplittingAlphabet(chars), text, |text|, words) && DecodeOf(rt, text, words) == Failure(error)
  }

  ghost predicate AloneSucceeds(rt: Runtime, chars: CharTable, text: string)
    requires WellShaped(rt)
  {
    forall words :: Tiles(SplittingAlphabet(chars), text, |text|, words) ==> DecodeOf(rt, text, words).Success?
  }

  /** Decoding the texts one after the other stops at text `n` with this error. */
  ghost predicate StopsAt(rt: Runtime, chars: CharTable, texts: seq<string>, n: nat, error: DecodeError)
    requires WellShaped(rt)
  {
    && n < |texts| && AloneFails(rt, chars, texts[n], error)
    && forall m :: 0 <= m < n ==> AloneSucceeds(rt, chars, texts[m])
  }

  ghost predicate AllTokenize(rt: Runtime, chars: CharTable, texts: seq<string>) {
    forall m :: 0 <= m < |texts| ==> Tokenizable(rt, chars, texts[m])
  }

  /** Alone, a text that the tokenizer fails reports that failure, but a wrong label inventory comes first. */
  lemma AloneReports(rt: Runtime, chars: CharTable, text: string, error: DecodeError)
    requires WellShaped(rt) && FailsTokenizing(rt, chars, text, error)
    ensures AloneFails(rt, chars, text, if rt.labelsValid then error else BadLabels)
  {
    var words :| words != [] && Tiles(SplittingAlphabet(chars), text, |text|, words)
                 && TokenizeOf(rt, WordTexts(words)) == Failure(error);
    assert DecodeOf(rt, text, words) == Failure(if rt.labelsValid then error else BadLabels);
  }

  lemma OneErrorAlone(rt: Runtime, chars: CharTable, text: string, a: DecodeError, b: DecodeError)
    requires WellShaped(rt) && AloneFails(rt, chars, text, a) && AloneFails(rt, chars, text, b)
    ensures a == b
  {
    var ab := SplittingAlphabet(chars);
    var v :| Tiles(ab, text, |text|, v) && DecodeOf(rt, text, v) == Failure(a);
    var w :| Tiles(ab, text, |text|, w) && DecodeOf(rt, text, w) == Failure(b);
    TilingUnique(ab, text, v, w, 0);
  }

  /** The first text that the tokenizer fails reports the batch's error alone exactly when the labels are valid. */
  lemma FirstTextAgrees(rt: Runtime, chars: CharTable, texts: seq<string>, n: nat, error: DecodeError)
    requires WellShaped(rt) && FirstFails(rt, chars, texts, n, error)
    ensures AloneFails(rt, chars, texts[n], error) <==> rt.labelsValid
  {
    AloneReports(rt, chars, texts[n], error);
    TokenizeErrors(rt, chars, texts[n], error);
    if AloneFails(rt, chars, texts[n], error) && !rt.labelsValid {
      OneErrorAlone(rt, chars, texts[n], error, BadLabels);
    }
  }

  /** Alone, a text fails by its labels or by the tokenizer, in this order. */
  lemma AloneMeans(rt: Runtime, chars: CharTable, text: string, error: DecodeError)
    requires WellShaped(rt) && AloneFails(rt, chars, text, error)
    ensures if rt.labelsValid then FailsTokenizing(rt, chars, text, error) else error == BadLabels
  {
  }

  lemma SucceedsMeans(rt: Runtime, chars: CharTable, text: string)
    requires WellShaped(rt) && rt.labelsValid && AloneSucceeds(rt, chars, text)
    ensures Tokenizable(rt, chars, text)
  {
  }

  lemma NotBoth(rt: Runtime, chars: CharTable, text: string, error: DecodeError)
    requires Tokenizable(rt, chars, text)
    ensures !FailsTokenizing(rt, chars, text, error)
  {
  }

  /** With valid labels the text at which sequential decoding stops is the first that the tokenizer fails. */
  lemma SameFirst(rt: Runtime, chars: CharTable, texts: seq<string>, m: nat, error: DecodeError, n: nat,
                  alone: DecodeError)
    requires WellShaped(rt) && rt.labelsValid
    requires FirstFails(rt, chars, texts, m, error) && StopsAt(rt, chars, texts, n, alone)
    ensures m == n && error == alone
  {
    AloneMeans(rt, chars, texts[n], alone);
    if m < n {
      SucceedsMeans(rt, chars, texts[m]);
      NotBoth(rt, chars, texts[m], error);
    } else if n < m {
      NotBoth(rt, chars, texts[n], alone);
    } else {
      AloneReports(rt, chars, texts[n], error);
      OneErrorAlone(rt, chars, texts[n], error, alone);
    }
  }

  /**
   * A failing batch reports the error at which decoding the texts one after the other stops, exactly when the
   * labels are valid or the tokenizer fails no text.
   */
  lemma ErrorsAgree(rt: Runtime, chars: CharTable, texts: seq<string>, error: DecodeError, n: nat, alone: DecodeError)
    requires WellShaped(rt) && BatchError(rt, chars, texts, error) && StopsAt(rt, chars, texts, n, alone)
    ensures error == alone <==> rt.labelsValid || AllTokenize(rt, chars, texts)
  {
    AloneMeans(rt, chars, texts[n], alone);
    if SomeFirstFails(rt, chars, texts, error) {
      var m: nat :| FirstFails(rt, chars, texts, m, error);
      if rt.labelsValid {
        SameFirst(rt, chars, texts, m, error, n, alone);
      } else {
        TokenizeErrors(rt, chars, texts[m], error);
        assert !Tokenizable(rt, chars, texts[m]);
      }
    }
  }
}
