/** Splitting text into words with offsets. */
module Words {
  import opened Base
  import opened Text

  datatype Word = Word(text: string, start: nat, end: nat)

  /** The characters that always stand alone. */
  const MARKS: set<char> := {
    '(', ')', '{', '}', '[', ']', '«', '»', '"', '“', '”', '‘', '’', '\'', ',', ';', ':', '!', '?'
  }

  /** What word splitting knows of the characters; `marks` is `MARKS`. */
  datatype Alphabet = Alphabet(isSpace: char -> bool, marks: set<char>)

  function SplittingAlphabet(chars: CharTable): Alphabet {
    Alphabet(chars.isSpace, MARKS)
  }

  predicate Skipped(ab: Alphabet, c: char) {
    ab.isSpace(c) && c !in ab.marks
  }

  /** A character that can be part of a longer word. */
  predicate InRun(ab: Alphabet, c: char) {
    !ab.isSpace(c) && c !in ab.marks
  }

  predicate Lone(ab: Alphabet, w: Word) {
    |w.text| == 1 && (w.text[0] == '.' || w.text[0] in ab.marks)
  }

  /** No run continues across the left side of position `r`. */
  ghost predicate RunStartsAt(ab: Alphabet, text: string, r: int) {
    0 <= r <= |text| && (r == 0 || !InRun(ab, text[r - 1]))
  }

  ghost predicate RunEndsAt(ab: Alphabet, text: string, r: int) {
    0 <= r <= |text| && (r == |text| || !InRun(ab, text[r]))
  }

  /** Only dots separate position `p` from the left border of its run. */
  ghost predicate LeadingDot(ab: Alphabet, text: string, p: nat) {
    exists r :: r <= p && RunStartsAt(ab, text, r) && DotsOnly(text, r, p + 1)
  }

  /** Only dots separate position `p` from the right border of its run. */
  ghost predicate TrailingDot(ab: Alphabet, text: string, p: nat) {
    exists r :: p < r && RunEndsAt(ab, text, r) && DotsOnly(text, p, r)
  }

  ghost predicate DotsOnly(text: string, from: int, to: int) {
    0 <= from <= to <= |text| && forall q :: from <= q < to ==> text[q] == '.'
  }

  /**
   * A word quotes its text. It is a special mark, a dot at the border of its run, or a run of other
   * characters that neither starts nor ends with a dot.
   */
  ghost predicate ProperWord(ab: Alphabet, text: string, w: Word) {
    && w.start < w.end <= |text| && w.text == text[w.start..w.end]
    && if Lone(ab, w) then text[w.start] !in ab.marks ==>
             LeadingDot(ab, text, w.start) || TrailingDot(ab, text, w.start)
       else w.text[0] != '.' && w.text[|w.text| - 1] != '.' && forall q :: w.start <= q < w.end ==> InRun(ab, text[q])
  }

  ghost predicate InSomeWord(words: seq<Word>, p: int) {
    exists k :: 0 <= k < |words| && words[k].start <= p < words[k].end
  }

  /** Words follow each other; where two touch, one of them is a lone mark, so runs are never cut short. */
  ghost predicate Sequential(ab: Alphabet, words: seq<Word>) {
    && (forall i, j :: 0 <= i < j < |words| ==> words[i].end <= words[j].start)
    && (forall i :: 0 <= i < |words| - 1 && words[i].end == words[i + 1].start ==>
           Lone(ab, words[i]) || Lone(ab, words[i + 1]))
  }

  /** The words tile `text[..upto]`: every character that is not skipped lies in exactly one of them. */
  ghost predicate Tiles(ab: Alphabet, text: string, upto: nat, words: seq<Word>)
    requires upto <= |text|
  {
    && Sequential(ab, words)
    && (forall k :: 0 <= k < |words| ==> ProperWord(ab, text, words[k]) && words[k].end <= upto)
    && (forall p :: 0 <= p < upto ==> (InSomeWord(words, p) <==> !Skipped(ab, text[p])))
  }

  lemma SequentialSnoc(ab: Alphabet, words: seq<Word>, w: Word)
    requires Sequential(ab, words) && forall k :: 0 <= k < |words| ==> words[k].end <= w.start
    requires words != [] && words[|words| - 1].end == w.start ==> Lone(ab, words[|words| - 1]) || Lone(ab, w)
    ensures Sequential(ab, words + [w])
  {
  }

  lemma OneMoreWord(ab: Alphabet, text: string, words: seq<Word>, w: Word)
    requires w.start < w.end <= |text|
    requires Tiles(ab, text, w.start, words) && ProperWord(ab, text, w)
    requires forall c :: c in w.text ==> !Skipped(ab, c)
    requires words != [] && words[|words| - 1].end == w.start ==> Lone(ab, words[|words| - 1]) || Lone(ab, w)
    ensures Tiles(ab, text, w.end, words + [w])
  {
    var all := words + [w];
    SequentialSnoc(ab, words, w);
    forall p | 0 <= p < w.end ensures InSomeWord(all, p) <==> !Skipped(ab, text[p]) {
      InOneMore(words, w, p);
      if p >= w.start {
        assert text[p] == w.text[p - w.start];
      }
    }
    forall k | 0 <= k < |all| ensures ProperWord(ab, text, all[k]) && all[k].end <= w.end {
      assert k < |words| ==> all[k] == words[k];
    }
  }

  lemma InOneMore(words: seq<Word>, w: Word, p: int)
    ensures InSomeWord(words + [w], p) <==> InSomeWord(words, p) || w.start <= p < w.end
  {
    var all := words + [w];
    if k :| 0 <= k < |words| && words[k].start <= p < words[k].end {
      assert all[k] == words[k];
    }
    assert all[|words|] == w;
  }

  lemma SkipOne(ab: Alphabet, text: string, pos: nat, words: seq<Word>)
    requires pos < |text| && Skipped(ab, text[pos]) && Tiles(ab, text, pos, words)
    ensures Tiles(ab, text, pos + 1, words)
  {
    forall k | 0 <= k < |words| ensures !(words[k].start <= pos < words[k].end) {
    }
  }

  /** A word that ends where a run starts is a lone mark. */
  lemma LastBeforeRun(ab: Alphabet, text: string, pos: nat, words: seq<Word>)
    requires RunStartsAt(ab, text, pos) && Tiles(ab, text, pos, words)
    ensures words != [] && words[|words| - 1].end == pos ==> Lone(ab, words[|words| - 1])
  {
  }

  /** `before` with lone dots appended for the positions `[from, i)`. */
  ghost predicate Dotted(ab: Alphabet, text: string, from: nat, i: int, before: seq<Word>, words: seq<Word>) {
    && from <= i <= |text| && Tiles(ab, text, i, words)
    && if i == from then words == before else words != [] && Lone(ab, words[|words| - 1])
  }

  /** The dots `[from, to)` lie at a border of their run. */
  ghost predicate BorderDots(ab: Alphabet, text: string, from: nat, to: nat) {
    && DotsOnly(text, from, to) && (from < to ==> RunStartsAt(ab, text, from) || RunEndsAt(ab, text, to))
    && forall p :: from <= p < to ==> InRun(ab, text[p])
  }

  lemma OneMoreDot(ab: Alphabet, text: string, from: nat, to: nat, i: nat, before: seq<Word>, words: seq<Word>)
    requires BorderDots(ab, text, from, to) && i < to && Dotted(ab, text, from, i, before, words)
    ensures Dotted(ab, text, from, i + 1, before, words + [Word(".", i, i + 1)])
  {
    var dot := Word(".", i, i + 1);
    assert dot.text == text[i..i + 1];
    assert DotsOnly(text, from, i + 1) && DotsOnly(text, i, to);
    OneMoreWord(ab, text, words, dot);
  }

  /** Lone dots, one per position of `[from, to)`. */
  method AppendDots(ab: Alphabet, text: string, from: nat, to: nat, before: seq<Word>) returns (words: seq<Word>)
    requires BorderDots(ab, text, from, to) && Dotted(ab, text, from, from, before, before)
    ensures Dotted(ab, text, from, to, before, words)
  {
    words := before;
    var i := from;
    while i != to
      invariant from <= i <= to && Dotted(ab, text, from, i, before, words)
    {
      OneMoreDot(ab, text, from, to, i, before, words);
      words := words + [Word(".", i, i + 1)];
      i := i + 1;
    }
  }

  /** Splits the boundary dots off one run `[from, to)` and appends the pieces. */
  method AppendRun(ab: Alphabet, text: string, from: nat, to: nat, before: seq<Word>) returns (words: seq<Word>)
    requires from < to <= |text| && Tiles(ab, text, from, before)
    requires forall p :: from <= p < to ==> InRun(ab, text[p])
    requires RunStartsAt(ab, text, from) && RunEndsAt(ab, text, to)
    ensures Tiles(ab, text, to, words)
  {
    LastBeforeRun(ab, text, from, before);
    var leading, trailing := CoreOfRun(text, from, to);
    words := AppendDots(ab, text, from, leading, before);
    if leading < trailing {
      OneMoreCore(ab, text, leading, trailing, words);
      words := words + [Word(text[leading..trailing], leading, trailing)];
    }
    words := AppendDots(ab, text, trailing, to, words);
  }

  /** `core.lstrip(".")` and `rstrip(".")` as offsets. */
  method CoreOfRun(text: string, from: nat, to: nat) returns (leading: nat, trailing: nat)
    requires from < to <= |text|
    ensures from <= leading <= trailing <= to && DotsOnly(text, from, leading) && DotsOnly(text, trailing, to)
    ensures leading < trailing ==> text[leading] != '.' && text[trailing - 1] != '.'
  {
    leading := from;
    while leading < to && text[leading] == '.'
      invariant from <= leading <= to
      invariant forall p :: from <= p < leading ==> text[p] == '.'
    {
      leading := leading + 1;
    }
    trailing := to;
    while trailing > from && text[trailing - 1] == '.'
      invariant from <= trailing <= to
      invariant forall p :: trailing <= p < to ==> text[p] == '.'
    {
      trailing := trailing - 1;
    }
    trailing := Max(leading, trailing);
  }

  lemma OneMoreCore(ab: Alphabet, text: string, from: nat, to: nat, words: seq<Word>)
    requires from < to <= |text| && Tiles(ab, text, from, words) && text[from] != '.' && text[to - 1] != '.'
    requires forall p :: from <= p < to ==> InRun(ab, text[p])
    requires words != [] && words[|words| - 1].end == from ==> Lone(ab, words[|words| - 1])
    ensures Tiles(ab, text, to, words + [Word(text[from..to], from, to)])
  {
    var core := Word(text[from..to], from, to);
    assert core.text[0] == text[from] && core.text[|core.text| - 1] == text[to - 1];
    OneMoreWord(ab, text, words, core);
  }

  /** The end of the run that starts at `pos`. */
  method RunFrom(ab: Alphabet, text: string, pos: nat) returns (end: nat)
    requires pos < |text| && InRun(ab, text[pos])
    ensures pos < end <= |text| && (forall p :: pos <= p < end ==> InRun(ab, text[p]))
    ensures end < |text| ==> !InRun(ab, text[end])
  {
    end := pos + 1;
    while end < |text| && InRun(ab, text[end])
      invariant pos < end <= |text|
      invariant forall p :: pos <= p < end ==> InRun(ab, text[p])
    {
      end := end + 1;
    }
  }

  lemma OneMoreMark(ab: Alphabet, text: string, pos: nat, words: seq<Word>)
    requires pos < |text| && text[pos] in ab.marks && !InRun(ab, text[pos]) && Tiles(ab, text, pos, words)
    ensures Tiles(ab, text, pos + 1, words + [Word([text[pos]], pos, pos + 1)])
  {
    var mark := Word([text[pos]], pos, pos + 1);
    assert mark.text == text[pos..pos + 1];
    OneMoreWord(ab, text, words, mark);
  }

  /** `words_with_offsets`. */
  method WordsWithOffsets(ab: Alphabet, text: string) returns (words: seq<Word>)
    ensures Tiles(ab, text, |text|, words)
  {
    words := [];
    var pos := 0;
    while pos < |text|
      invariant pos <= |text| && Tiles(ab, text, pos, words)
      invariant RunStartsAt(ab, text, pos) || RunEndsAt(ab, text, pos)
    {
      if InRun(ab, text[pos]) {
        var end := RunFrom(ab, text, pos);
        words := AppendRun(ab, text, pos, end, words);
        pos := end;
      } else if text[pos] in ab.marks {
        OneMoreMark(ab, text, pos, words);
        words := words + [Word([text[pos]], pos, pos + 1)];
        pos := pos + 1;
      } else {
        SkipOne(ab, text, pos, words);
        pos := pos + 1;
      }
    }
  }

  // ----- the tiling is the only one -----

  /** The next word of any tiling starts at the first character that is not skipped. */
  lemma NextWordStart(ab: Alphabet, text: string, words: seq<Word>, k: nat)
    requires Tiles(ab, text, |text|, words) && k <= |words|
    ensures var from := if k == 0 then 0 else words[k - 1].end;
            forall p :: from <= p < (if k < |words| then words[k].start else |text|) ==> Skipped(ab, text[p])
    ensures k < |words| ==> !Skipped(ab, text[words[k].start])
  {
    var from, to := if k == 0 then 0 else words[k - 1].end, if k < |words| then words[k].start else |text|;
    forall p | from <= p < to ensures Skipped(ab, text[p]) {
      BetweenWords(ab, words, k, p);
    }
    if k < |words| {
      assert words[k].start <= words[k].start < words[k].end;
      assert InSomeWord(words, words[k].start);
    }
  }

  lemma BetweenWords(ab: Alphabet, words: seq<Word>, k: nat, p: int)
    requires Sequential(ab, words) && k <= |words| && forall j :: 0 <= j < |words| ==> words[j].start < words[j].end
    requires (k > 0 ==> words[k - 1].end <= p) && (k < |words| ==> p < words[k].start < words[k].end)
    ensures !InSomeWord(words, p)
  {
    forall j | 0 <= j < |words| ensures !(words[j].start <= p < words[j].end) {
      if j < k - 1 {
        assert words[j].end <= words[k - 1].start;
      } else if j > k {
        assert words[k].end <= words[j].start;
      }
    }
  }

  /** A run word cannot stop while another tiling's run word goes on: the next character would not be a border dot. */
  lemma RunsEndTogether(ab: Alphabet, text: string, a: seq<Word>, b: seq<Word>, k: nat)
    requires Tiles(ab, text, |text|, a) && Tiles(ab, text, |text|, b)
    requires k < |a| && k < |b| && a[k].start == b[k].start && !Lone(ab, a[k]) && !Lone(ab, b[k])
    ensures a[k].end >= b[k].end
  {
    if a[k].end < b[k].end {
      ShorterRunStopsInside(ab, text, a[k], b[k]);
      AfterRun(ab, text, a, k);
    }
  }

  lemma ShorterRunStopsInside(ab: Alphabet, text: string, u: Word, v: Word)
    requires ProperWord(ab, text, u) && ProperWord(ab, text, v) && !Lone(ab, u) && !Lone(ab, v)
    requires u.start == v.start && u.end < v.end
    ensures InRun(ab, text[u.end]) && !LeadingDot(ab, text, u.end) && !TrailingDot(ab, text, u.end)
  {
    LastCharacter(ab, text, u);
    LastCharacter(ab, text, v);
    InsideRunNoBorderDot(ab, text, v.start, v.end, u.end);
  }

  /** If a character of the same run follows a run word, it is a border dot. */
  lemma AfterRun(ab: Alphabet, text: string, a: seq<Word>, k: nat)
    requires Tiles(ab, text, |text|, a) && k < |a| && !Lone(ab, a[k])
    requires a[k].end < |text| && InRun(ab, text[a[k].end])
    ensures LeadingDot(ab, text, a[k].end) || TrailingDot(ab, text, a[k].end)
  {
    NextWordStart(ab, text, a, k + 1);
    assert a[k + 1].start == a[k].end;
    LastCharacter(ab, text, a[k + 1]);
    assert Lone(ab, a[k + 1]);
  }

  lemma LastCharacter(ab: Alphabet, text: string, w: Word)
    requires ProperWord(ab, text, w)
    ensures |w.text| == w.end - w.start && w.text[|w.text| - 1] == text[w.end - 1] && w.text[0] == text[w.start]
  {
  }

  /** A position between two characters of a run that are not dots holds no border dot. */
  lemma InsideRunNoBorderDot(ab: Alphabet, text: string, from: nat, to: nat, p: nat)
    requires from < p < to <= |text| && forall q :: from <= q < to ==> InRun(ab, text[q])
    requires text[p - 1] != '.' && text[to - 1] != '.'
    ensures InRun(ab, text[p]) && !LeadingDot(ab, text, p) && !TrailingDot(ab, text, p)
  {
    forall r | r <= p && RunStartsAt(ab, text, r) ensures !DotsOnly(text, r, p + 1) {
    }
    forall r | p < r && RunEndsAt(ab, text, r) ensures !DotsOnly(text, p, r) {
    }
  }

  /** The first characters of the `k`-th words agree, and so do the words. */
  lemma NextWordUnique(ab: Alphabet, text: string, a: seq<Word>, b: seq<Word>, k: nat)
    requires Tiles(ab, text, |text|, a) && Tiles(ab, text, |text|, b)
    requires k < |a| && k < |b| && a[k].start == b[k].start
    ensures a[k] == b[k]
  {
    assert a[k].text[0] == text[a[k].start] == b[k].text[0];
    assert ProperWord(ab, text, a[k]) && ProperWord(ab, text, b[k]);
    if Lone(ab, a[k]) {
      assert Lone(ab, b[k]);
    } else {
      assert !Lone(ab, b[k]);
      RunsEndTogether(ab, text, a, b, k);
      RunsEndTogether(ab, text, b, a, k);
    }
  }

  /** The tiling of a text is unique, so the postcondition of `WordsWithOffsets` determines its result. */
  lemma {:induction false} TilingUnique(ab: Alphabet, text: string, a: seq<Word>, b: seq<Word>, k: nat)
    requires Tiles(ab, text, |text|, a) && Tiles(ab, text, |text|, b)
    requires k <= |a| && k <= |b| && forall i :: 0 <= i < k ==> a[i] == b[i]
    ensures a == b
    decreases |a| - k
  {
    NextWordStart(ab, text, a, k);
    NextWordStart(ab, text, b, k);
    if k < |a| && k < |b| {
      assert a[k].start == b[k].start;
      NextWordUnique(ab, text, a, b, k);
      TilingUnique(ab, text, a, b, k + 1);
    } else {
      assert k == |a| == |b|;
    }
  }

  // ----- what the words are, character by character -----

  predicate IsMark(c: char) {
    c in "(){}[]«»\"“”‘’',;:!?"
  }

  /** A character that is neither whitespace nor a mark. */
  predicate Plain(chars: CharTable, c: char) {
    !chars.isSpace(c) && !IsMark(c)
  }

  /** Positions `p` and `q` hold plain characters that are no dots, with only plain ones between them. */
  ghost predicate Together(chars: CharTable, text: string, p: nat, q: nat) {
    p <= q < |text| && text[p] != '.' && text[q] != '.' && forall r :: p <= r <= q ==> Plain(chars, text[r])
  }

  /** A mark, or a plain dot with only dots between it and the left or the right end of its run of plain characters. */
  ghost predicate StandsAlone(chars: CharTable, text: string, p: nat) {
    && p < |text|
    && if IsMark(text[p]) then true
       else
         && text[p] == '.' && Plain(chars, '.')
         && ((exists r :: RunBeginsAt(chars, text, r) && DotsOnly(text, r, p + 1))
             || (exists r :: RunStopsAt(chars, text, r) && DotsOnly(text, p, r) && p < r))
  }

  ghost predicate RunBeginsAt(chars: CharTable, text: string, r: int) {
    0 <= r <= |text| && (r > 0 ==> !Plain(chars, text[r - 1]))
  }

  ghost predicate RunStopsAt(chars: CharTable, text: string, r: int) {
    0 <= r <= |text| && (r < |text| ==> !Plain(chars, text[r]))
  }

  lemma PlainIsInRun(chars: CharTable, c: char)
    ensures InRun(SplittingAlphabet(chars), c) <==> Plain(chars, c)
    ensures c in SplittingAlphabet(chars).marks <==> IsMark(c)
  {
  }

  /** A position of a word's run that is not its last is not where the word ends. */
  lemma RunGoesOn(ab: Alphabet, text: string, words: seq<Word>, k: nat, q: nat)
    requires Tiles(ab, text, |text|, words) && k < |words| && !Lone(ab, words[k])
    requires words[k].start <= q < |text| && text[q] != '.'
    requires forall r :: words[k].start <= r <= q ==> InRun(ab, text[r])
    ensures q < words[k].end
  {
    hide LeadingDot, TrailingDot, Sequential, Skipped, InSomeWord, InRun;
    assert ProperWord(ab, text, words[k]);
    if words[k].end <= q {
      LastCharacter(ab, text, words[k]);
      InsideRunNoBorderDot(ab, text, words[k].start, q + 1, words[k].end);
      AfterRun(ab, text, words, k);
    }
  }

  /** Plain characters other than dots are in one word with all others of their run. */
  lemma TogetherInOneWord(chars: CharTable, text: string, words: seq<Word>, p: nat, q: nat) returns (k: nat)
    requires Tiles(SplittingAlphabet(chars), text, |text|, words) && Together(chars, text, p, q)
    ensures k < |words| && words[k].start <= p && q < words[k].end
  {
    hide Sequential, ProperWord, LeadingDot, TrailingDot, IsMark, SplittingAlphabet;
    var ab := SplittingAlphabet(chars);
    forall r | p <= r <= q ensures InRun(ab, text[r]) {
      PlainIsInRun(chars, text[r]);
    }
    PlainIsInRun(chars, text[p]);
    assert InSomeWord(words, p);
    k :| 0 <= k < |words| && words[k].start <= p < words[k].end;
    RunWord(ab, text, words[k], p);
    RunGoesOn(ab, text, words, k, q);
  }

  lemma RunWord(ab: Alphabet, text: string, w: Word, p: nat)
    requires ProperWord(ab, text, w) && w.start <= p < w.end && InRun(ab, text[p]) && text[p] != '.'
    ensures !Lone(ab, w) && forall r :: w.start <= r < w.end ==> InRun(ab, text[r])
  {
  }

  /** Marks and the dots at the border of a run are words of their own. */
  lemma AloneIsAWord(chars: CharTable, text: string, words: seq<Word>, p: nat) returns (k: nat)
    requires Tiles(SplittingAlphabet(chars), text, |text|, words) && StandsAlone(chars, text, p)
    ensures k < |words| && words[k].start == p && words[k].end == p + 1
  {
    var ab := SplittingAlphabet(chars);
    PlainIsInRun(chars, text[p]);
    assert InSomeWord(words, p);
    k :| 0 <= k < |words| && words[k].start <= p < words[k].end;
    var w := words[k];
    assert ProperWord(ab, text, w);
    if !Lone(ab, w) {
      BorderIsNotInside(chars, text, w, p);
    }
  }

  lemma BorderIsNotInside(chars: CharTable, text: string, w: Word, p: nat)
    requires ProperWord(SplittingAlphabet(chars), text, w) && !Lone(SplittingAlphabet(chars), w)
    requires w.start <= p < w.end
    ensures !StandsAlone(chars, text, p)
  {
    var ab := SplittingAlphabet(chars);
    LastCharacter(ab, text, w);
    forall r | w.start <= r < w.end ensures Plain(chars, text[r]) {
      PlainIsInRun(chars, text[r]);
    }
    forall r | RunBeginsAt(chars, text, r) ensures !DotsOnly(text, r, p + 1) {
    }
    forall r | RunStopsAt(chars, text, r) && p < r ensures !DotsOnly(text, p, r) {
    }
  }

  /**
   * The words of a text: exactly the characters that are marks or no whitespace lie in words; marks and the dots at a
   * border of a run of plain characters are words of their own; all other characters of a run are in one word.
   */
  lemma WordsSpelledOut(chars: CharTable, text: string, words: seq<Word>, p: nat, q: nat)
    requires Tiles(SplittingAlphabet(chars), text, |text|, words) && p < |text|
    ensures InSomeWord(words, p) <==> IsMark(text[p]) || !chars.isSpace(text[p])
    ensures StandsAlone(chars, text, p) ==> exists k :: 0 <= k < |words| && words[k] == Word([text[p]], p, p + 1)
    ensures Together(chars, text, p, q) ==> exists k :: 0 <= k < |words| && words[k].start <= p && q < words[k].end
  {
    hide StandsAlone, Together, Sequential;
    PlainIsInRun(chars, text[p]);
    if StandsAlone(chars, text, p) {
      var k := AloneIsAWord(chars, text, words, p);
      assert ProperWord(SplittingAlphabet(chars), text, words[k]);
      assert words[k].text == text[p..p + 1] == [text[p]];
    }
    if Together(chars, text, p, q) {
      var k := TogetherInOneWord(chars, text, words, p, q);
    }
  }
}
