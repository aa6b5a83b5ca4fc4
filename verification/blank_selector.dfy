/**
 * Blank selection (`ObjectiveTest.identify_potential_questions`): from one
 * annotated sentence, decide which word or words to blank and build the
 * candidate question record, or decide the sentence yields none.
 *
 * Tokenising, POS tagging and chunking are NLTK's; their results arrive as
 * fields of `Sentence`. WordNet arrives as a `Lexicon`.
 */
module BlankSelector {
  import opened Wrappers
  import opened Text
  import opened Distractors

  /** A sentence whose first tag is this (adverb) yields no question. */
  const AdverbTag := "RB"

  /** A sentence with fewer word tokens than this yields no question. */
  const MinTokens := 4

  /** The starting value of the triviality key, and so its largest value. */
  const KeyCap := 99

  /** The blank marker written once per blanked word. */
  const Blank := "__________"

  /** A chunked phrase starting with this character stops the phrase scan. */
  const Quote := '\''

  /** A (word, POS tag) pair as `nltk.pos_tag` returns it. */
  type TaggedWord = (string, string)

  /**
   * One sentence with its annotations: `tags` is `nltk.pos_tag(sentence)`,
   * `tokenCount` is `len(nltk.word_tokenize(sentence))`, and `nounPhrases`
   * are the flattened CHUNK subtrees of the chunk parse, in tree order.
   */
  datatype Sentence = Sentence(
    text: string,
    tags: seq<TaggedWord>,
    tokenCount: nat,
    nounPhrases: seq<string>)

  /** The dictionary `identify_potential_questions` returns. */
  datatype QuestionSet = QuestionSet(
    answer: string,
    key: nat,
    similar: seq<string>,
    question: string)

  // ---------------------------------------------------------------------------
  // chunk flattening

  /**
   * The text of one CHUNK subtree: each leaf word followed by a space, then
   * the whole stripped.
   */
  function ChunkText(leaves: seq<string>): string
  {
    Strip(SpaceTerminated(leaves))
  }

  function SpaceTerminated(leaves: seq<string>): (r: string)
    ensures |leaves| > 0 ==> r == Join(leaves, " ") + " "
  {
    if |leaves| == 0 then "" else leaves[0] + " " + SpaceTerminated(leaves[1..])
  }

  lemma {:induction false} JoinEnds(ws: seq<string>)
    requires |ws| > 0 && AllWords(ws)
    ensures var j := Join(ws, " "); |j| > 0 && !IsSpace(j[0]) && !IsSpace(j[|j| - 1])
  {
    if |ws| > 1 {
      JoinEnds(ws[1..]);
    }
  }

  /**
   * A chunk of words reads as those words joined by single spaces, is never
   * empty, and splits back into its words.
   */
  lemma ChunkTextOfWords(leaves: seq<string>)
    requires |leaves| > 0 && AllWords(leaves)
    ensures ChunkText(leaves) == Join(leaves, " ")
    ensures |ChunkText(leaves)| > 0
    ensures Split(ChunkText(leaves)) == leaves
  {
    var j := Join(leaves, " ");
    JoinEnds(leaves);
    var s := j + " ";
    assert s[|s| - 1] == ' ';
    assert s[0] == j[0];
    var lead := LeadingSpaces(s);
    assert lead == 0;
    assert s[lead..] == s;
    var trail := TrailingSpaces(s);
    assert s[..|s| - 1] == j;
    assert trail == 1;
    assert s[..|s| - trail] == j;
    SplitJoin(leaves);
  }

  // ---------------------------------------------------------------------------
  // which words to blank

  /** Every chunked phrase can be indexed at 0, as the scan does. */
  predicate WellAnnotated(s: Sentence) {
    |s.tags| > 0 && forall i :: 0 <= i < |s.nounPhrases| ==> |s.nounPhrases[i]| > 0
  }

  /** The sentence is skipped before any chunking. */
  predicate Rejected(s: Sentence)
    requires |s.tags| > 0
  {
    s.tags[0].1 == AdverbTag || s.tokenCount < MinTokens
  }

  /** The phrase scan stops at `phrase`: it starts with a quote, or it contains `word`. */
  predicate StopsScan(word: string, phrase: string)
    requires |phrase| > 0
  {
    phrase[0] == Quote || Contains(phrase, word)
  }

  /**
   * The inner loop over the phrases for one tagged word: a quoted phrase
   * ends it with nothing found; the first phrase containing the word gives
   * that phrase's last two words.
   */
  function ScanPhrases(word: string, phrases: seq<string>): (r: seq<string>)
    requires forall i :: 0 <= i < |phrases| ==> |phrases[i]| > 0
    ensures |r| <= 2
  {
    if |phrases| == 0 then []
    else if phrases[0][0] == Quote then []
    else if Contains(phrases[0], word) then LastTwo(Split(phrases[0]))
    else ScanPhrases(word, phrases[1..])
  }

  /**
   * The blanked words for a sentence whose first tagged word is `word`
   * (the outer loop always stops after that word): the scan's result, or
   * the word alone when the scan found nothing.
   */
  function BlankedWords(word: string, phrases: seq<string>): (r: seq<string>)
    requires forall i :: 0 <= i < |phrases| ==> |phrases[i]| > 0
    ensures 1 <= |r| <= 2
  {
    var found := ScanPhrases(word, phrases);
    if |found| == 0 then [word] else found
  }

  /** With no phrase stopping the scan, the word alone is blanked. */
  lemma {:induction false} BlankedWordsWithoutStop(word: string, phrases: seq<string>)
    requires forall i :: 0 <= i < |phrases| ==> |phrases[i]| > 0
    requires forall i :: 0 <= i < |phrases| ==> !StopsScan(word, phrases[i])
    ensures BlankedWords(word, phrases) == [word]
  {
    if |phrases| > 0 {
      assert !StopsScan(word, phrases[0]);
      BlankedWordsWithoutStop(word, phrases[1..]);
    }
  }

  /**
   * When phrase `j` is the first to stop the scan: a quoted phrase gives the
   * word alone; otherwise the phrase's last (at most two) words are blanked,
   * or the word alone if the phrase has no words at all.
   */
  lemma {:induction false} BlankedWordsAtStop(word: string, phrases: seq<string>, j: nat)
    requires forall i :: 0 <= i < |phrases| ==> |phrases[i]| > 0
    requires j < |phrases| && StopsScan(word, phrases[j])
    requires forall i :: 0 <= i < j ==> !StopsScan(word, phrases[i])
    ensures phrases[j][0] == Quote ==> BlankedWords(word, phrases) == [word]
    ensures phrases[j][0] != Quote ==>
      var tail := LastTwo(Split(phrases[j]));
      BlankedWords(word, phrases) == if tail == [] then [word] else tail
  {
    if j > 0 {
      assert !StopsScan(word, phrases[0]);
      BlankedWordsAtStop(word, phrases[1..], j - 1);
    }
  }

  /**
   * When the first stopping phrase is a chunk of words, the blanked words
   * are its last two words (its only word, for a one-word chunk).
   */
  lemma BlankedWordsOfChunk(word: string, phrases: seq<string>, j: nat, leaves: seq<string>)
    requires forall i :: 0 <= i < |phrases| ==> |phrases[i]| > 0
    requires |leaves| > 0 && AllWords(leaves) && leaves[0][0] != Quote
    requires j < |phrases| && phrases[j] == ChunkText(leaves) && Contains(phrases[j], word)
    requires forall i :: 0 <= i < j ==> !StopsScan(word, phrases[i])
    ensures BlankedWords(word, phrases) == LastTwo(leaves)
  {
    ChunkTextOfWords(leaves);
    assert phrases[j][0] == leaves[0][0] by {
      assert ChunkText(leaves) == Join(leaves, " ");
      if |leaves| > 1 {
        assert Join(leaves, " ") == leaves[0] + " " + Join(leaves[1..], " ");
      }
    }
    BlankedWordsAtStop(word, phrases, j);
  }

  // ---------------------------------------------------------------------------
  // the triviality key

  /** `k` is the length of the shortest of `words`, or `KeyCap` when that is shorter. */
  predicate IsCappedShortestLength(k: nat, words: seq<string>) {
    && k <= KeyCap
    && (forall i :: 0 <= i < |words| ==> k <= |words[i]|)
    && (k == KeyCap || exists i :: 0 <= i < |words| && |words[i]| == k)
  }

  /** The loop computing "Key": start at `KeyCap` and lower it to any shorter word's length. */
  function TrivialityKey(words: seq<string>): (k: nat)
    ensures IsCappedShortestLength(k, words)
  {
    if |words| == 0 then KeyCap
    else
      var init := words[..|words| - 1];
      var last := words[|words| - 1];
      var v := TrivialityKey(init);
      assert forall i :: 0 <= i < |init| ==> words[i] == init[i];
      if |last| < v then |last| else v
  }

  // ---------------------------------------------------------------------------
  // the question text

  /** Python's `s * n` on strings. */
  function Repeat(s: string, n: nat): (r: string)
    ensures |r| == n * |s|
    ensures forall i :: 0 <= i < |r| ==> r[i] in s
  {
    if n == 0 then "" else s + Repeat(s, n - 1)
  }

  /** `("__________" * count).strip()`: ten underscores per blanked word. */
  function BlankRun(count: nat): (r: string)
    ensures |r| == |Blank| * count
    ensures forall i :: 0 <= i < |r| ==> r[i] == '_'
  {
    var run := Repeat(Blank, count);
    assert forall i :: 0 <= i < |run| ==> run[i] == '_';
    assert |run| == 0 ==> AllSpace(run);
    assert |run| > 0 ==> !IsSpace(run[0]) && !IsSpace(run[|run| - 1]);
    assert Strip(run) == run;
    Strip(run)
  }

  /**
   * `question` is `text` with the first case-insensitive occurrence of
   * `answer` replaced by `count` blank markers, or `text` itself when
   * `answer` does not occur.
   */
  ghost predicate BlanksFirstMatch(question: string, text: string, answer: string, count: nat) {
    && ((forall j: nat :: !MatchesAt(text, answer, j)) ==> question == text)
    && (forall j: nat :: FirstMatchAt(text, answer, j) ==>
          question == text[..j] + BlankRun(count) + text[j + |answer|..])
  }

  /**
   * The question text: the first case-insensitive occurrence of `answer` in
   * the sentence replaced by one blank marker per blanked word.
   */
  function BlankOut(text: string, answer: string, count: nat): (q: string)
    ensures BlanksFirstMatch(q, text, answer, count)
  {
    ReplaceFirstIgnoringCase(text, answer, BlankRun(count))
  }

  // ---------------------------------------------------------------------------
  // the record

  /**
   * Building a record for `s` would reach `answer_options` for a word whose
   * first noun sense has no hypernym, and fail there.
   */
  predicate LookupFails(s: Sentence, lexicon: Lexicon)
    requires WellAnnotated(s)
  {
    && !Rejected(s)
    && var words := BlankedWords(s.tags[0].0, s.nounPhrases);
    && |words| == 1
    && !HasBroaderCategory(lexicon(words[0]))
  }

  /** `identify_potential_questions` returns rather than raising. */
  predicate Processable(s: Sentence, lexicon: Lexicon) {
    WellAnnotated(s) && !LookupFails(s, lexicon)
  }

  /** The record for `s`, or `None` for a sentence that is skipped. */
  function IdentifyPotentialQuestions(s: Sentence, lexicon: Lexicon): (r: Option<QuestionSet>)
    requires Processable(s, lexicon)
    ensures r.None? <==> s.tags[0].1 == AdverbTag || s.tokenCount < MinTokens
    ensures r.Some? ==>
      var words := BlankedWords(s.tags[0].0, s.nounPhrases);
      var q := r.value;
      && q.answer == Join(words, " ")
      && IsCappedShortestLength(q.key, words)
      && (|words| == 2 ==> q.similar == [])
      && (|words| == 1 ==> q.similar == DistractorsOf(words[0], lexicon(words[0])))
      && |q.similar| <= MaxOptions
      && (forall i :: 0 <= i < |q.similar| ==> q.similar[i] != q.answer)
      && BlanksFirstMatch(q.question, s.text, q.answer, |words|)
  {
    if Rejected(s) then None
    else
      var words := BlankedWords(s.tags[0].0, s.nounPhrases);
      var answer := Join(words, " ");
      var similar := if |words| == 1 then DistractorsOf(words[0], lexicon(words[0])) else [];
      assert |words| == 1 ==> answer == words[0];
      var key := TrivialityKey(words);
      var question := BlankOut(s.text, answer, |words|);
      Some(QuestionSet(answer, key, similar, question))
  }

  /**
   * Writing the answer back over the blank markers of a question gives the
   * sentence again, up to the case of the replaced span.
   */
  lemma BlankOutRestores(text: string, answer: string, count: nat, j: nat)
    requires FirstMatchAt(text, answer, j)
    ensures var q := BlankOut(text, answer, count);
      && j + |Blank| * count <= |q|
      && q[j..j + |Blank| * count] == BlankRun(count)
      && EqualIgnoringCase(q[..j] + answer + q[j + |Blank| * count..], text)
  {
    RestoreReplaced(text, answer, BlankRun(count), j);
  }
}
