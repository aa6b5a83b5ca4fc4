/**
 * Test assembly (`ObjectiveTest.get_question_sets` and `generate_test`):
 * collect the records of all sentences, keep the non-trivial ones, and draw
 * from them until enough distinct questions are gathered.
 *
 * The random draws of `np.random.randint` are an input sequence of indices.
 */
module TestAssembler {
  import opened Wrappers
  import opened Sequences
  import opened Distractors
  import opened BlankSelector

  /** A record is kept for the test only when its key exceeds this. */
  const TrivialKey := 3

  /** The number of questions `generate_test` builds when the caller names none. */
  const DefaultQuestionCount := 3

  /** All sentences can be processed without the distractor lookup failing. */
  predicate AllProcessable(sentences: seq<Sentence>, lexicon: Lexicon) {
    forall i :: 0 <= i < |sentences| ==> Processable(sentences[i], lexicon)
  }

  /** The per-sentence step, as a function of the sentence alone. */
  function RecordOf(lexicon: Lexicon): Sentence --> Option<QuestionSet> {
    s requires Processable(s, lexicon) => IdentifyPotentialQuestions(s, lexicon)
  }

  /** The records of the sentences that yield one, in sentence order. */
  function GetQuestionSets(sentences: seq<Sentence>, lexicon: Lexicon): (r: seq<QuestionSet>)
    requires AllProcessable(sentences, lexicon)
    ensures |r| <= |sentences|
  {
    assert AppliesToAll(sentences, RecordOf(lexicon));
    FilterMap(sentences, RecordOf(lexicon))
  }

  /** A record is aggregated exactly when some sentence yields it. */
  lemma GetQuestionSetsSpec(sentences: seq<Sentence>, lexicon: Lexicon)
    requires AllProcessable(sentences, lexicon)
    ensures forall q :: q in GetQuestionSets(sentences, lexicon) <==>
      exists i :: 0 <= i < |sentences| && IdentifyPotentialQuestions(sentences[i], lexicon) == Some(q)
  {
    var f := RecordOf(lexicon);
    assert AppliesToAll(sentences, f);
    FilterMapSound(sentences, f);
    forall q ensures q in GetQuestionSets(sentences, lexicon) <==>
      exists i :: 0 <= i < |sentences| && IdentifyPotentialQuestions(sentences[i], lexicon) == Some(q)
    {
      if q in GetQuestionSets(sentences, lexicon) {
        var i :| MapsTo(sentences, f, i, q);
        assert IdentifyPotentialQuestions(sentences[i], lexicon) == Some(q);
      }
      if exists i :: 0 <= i < |sentences| && IdentifyPotentialQuestions(sentences[i], lexicon) == Some(q) {
        var i :| 0 <= i < |sentences| && IdentifyPotentialQuestions(sentences[i], lexicon) == Some(q);
        FilterMapComplete(sentences, f, i);
      }
    }
  }

  /** Aggregation keeps sentence order: it distributes over concatenation. */
  lemma GetQuestionSetsAppend(a: seq<Sentence>, b: seq<Sentence>, lexicon: Lexicon)
    requires AllProcessable(a, lexicon) && AllProcessable(b, lexicon)
    ensures AllProcessable(a + b, lexicon)
    ensures GetQuestionSets(a + b, lexicon) == GetQuestionSets(a, lexicon) + GetQuestionSets(b, lexicon)
  {
    var f := RecordOf(lexicon);
    assert AppliesToAll(a, f) && AppliesToAll(b, f);
    FilterMapAppend(a, b, f);
  }

  /** The records whose key exceeds `TrivialKey`, in order. */
  function NonTrivial(sets: seq<QuestionSet>): (r: seq<QuestionSet>)
    ensures |r| <= |sets|
    ensures forall q :: q in r ==> q in sets && q.key > TrivialKey
    ensures forall q :: q in sets && q.key > TrivialKey ==> q in r
  {
    if |sets| == 0 then []
    else
      var init := sets[..|sets| - 1];
      var last := sets[|sets| - 1];
      assert sets == init + [last];
      var prev := NonTrivial(init);
      if last.key > TrivialKey then prev + [last] else prev
  }

  /** The records `generate_test` draws from. */
  function CandidatePool(sentences: seq<Sentence>, lexicon: Lexicon): seq<QuestionSet>
    requires AllProcessable(sentences, lexicon)
  {
    NonTrivial(GetQuestionSets(sentences, lexicon))
  }

  function Questions(sets: seq<QuestionSet>): (r: seq<string>)
    ensures |r| == |sets|
    ensures forall i :: 0 <= i < |sets| ==> r[i] == sets[i].question
  {
    seq(|sets|, i requires 0 <= i < |sets| => sets[i].question)
  }

  function Answers(sets: seq<QuestionSet>): (r: seq<string>)
    ensures |r| == |sets|
    ensures forall i :: 0 <= i < |sets| ==> r[i] == sets[i].answer
  {
    seq(|sets|, i requires 0 <= i < |sets| => sets[i].answer)
  }

  predicate Distinct(qs: seq<string>) {
    forall i, j :: 0 <= i < j < |qs| ==> qs[i] != qs[j]
  }

  /** The distinct question texts available in `pool`. */
  function QuestionTexts(pool: seq<QuestionSet>): set<string> {
    set q | q in pool :: q.question
  }

  /**
   * The records the drawing loop has collected after `draws`: each drawn
   * record whose question was not collected before, in draw order.
   */
  function Collected(pool: seq<QuestionSet>, draws: seq<nat>): (r: seq<QuestionSet>)
    requires forall k :: 0 <= k < |draws| ==> draws[k] < |pool|
    ensures |r| <= |draws|
    ensures Distinct(Questions(r))
    ensures forall i :: 0 <= i < |r| ==> r[i] in pool
  {
    if |draws| == 0 then []
    else
      var init := draws[..|draws| - 1];
      var prev := Collected(pool, init);
      var pick := pool[draws[|draws| - 1]];
      assert forall k :: 0 <= k < |init| ==> init[k] == draws[k];
      if pick.question in Questions(prev) then prev
      else
        assert Questions(prev + [pick]) == Questions(prev) + [pick.question];
        prev + [pick]
  }

  /** Every drawn record's question is among the collected ones. */
  lemma {:induction false} CollectedCovers(pool: seq<QuestionSet>, draws: seq<nat>)
    requires forall k :: 0 <= k < |draws| ==> draws[k] < |pool|
    ensures forall k :: 0 <= k < |draws| ==> pool[draws[k]].question in Questions(Collected(pool, draws))
  {
    if |draws| > 0 {
      var n := |draws| - 1;
      var init := draws[..n];
      CollectedCovers(pool, init);
      var prev := Collected(pool, init);
      var pick := pool[draws[n]];
      QuestionsAnswersSnoc(prev, pick);
      forall k | 0 <= k < |draws| ensures pool[draws[k]].question in Questions(Collected(pool, draws)) {
        if k < n {
          assert init[k] == draws[k];
        }
      }
    }
  }

  /** A sequence of distinct texts all drawn from `texts` is no longer than `texts`. */
  lemma {:induction false} DistinctWithin(qs: seq<string>, texts: set<string>)
    requires Distinct(qs)
    requires forall i :: 0 <= i < |qs| ==> qs[i] in texts
    ensures |qs| <= |texts|
  {
    if |qs| > 0 {
      var last := qs[|qs| - 1];
      var init := qs[..|qs| - 1];
      forall i | 0 <= i < |init| ensures init[i] in texts - {last} {
        assert init[i] == qs[i];
      }
      DistinctWithin(init, texts - {last});
    }
  }

  /** Whatever the draws, no more distinct questions can be collected than the pool holds. */
  lemma CollectedBound(pool: seq<QuestionSet>, draws: seq<nat>)
    requires forall k :: 0 <= k < |draws| ==> draws[k] < |pool|
    ensures |Collected(pool, draws)| <= |QuestionTexts(pool)|
  {
    var c := Collected(pool, draws);
    forall i | 0 <= i < |c| ensures Questions(c)[i] in QuestionTexts(pool) {
      assert c[i] in pool;
    }
    DistinctWithin(Questions(c), QuestionTexts(pool));
  }

  /** One more draw either repeats a collected question or adds its record at the end. */
  lemma CollectedStep(pool: seq<QuestionSet>, draws: seq<nat>, k: nat)
    requires forall k :: 0 <= k < |draws| ==> draws[k] < |pool|
    requires k < |draws|
    ensures var prev := Collected(pool, draws[..k]);
      var pick := pool[draws[k]];
      Collected(pool, draws[..k + 1]) == (if pick.question in Questions(prev) then prev else prev + [pick])
  {
    var ds := draws[..k + 1];
    assert ds[..|ds| - 1] == draws[..k];
    assert ds[|ds| - 1] == draws[k];
  }

  lemma QuestionsAnswersSnoc(sets: seq<QuestionSet>, q: QuestionSet)
    ensures Questions(sets + [q]) == Questions(sets) + [q.question]
    ensures Answers(sets + [q]) == Answers(sets) + [q.answer]
  {
  }

  /** Each collected question comes with the answer of one pool record holding it. */
  lemma CollectedFromPool(pool: seq<QuestionSet>, draws: seq<nat>)
    requires forall k :: 0 <= k < |draws| ==> draws[k] < |pool|
    ensures var c := Collected(pool, draws);
      forall i :: 0 <= i < |c| ==>
        exists q :: q in pool && q.question == Questions(c)[i] && q.answer == Answers(c)[i]
  {
  }

  /** The test lists exactly the questions and answers collected by `draws`. */
  predicate CollectedBy(r: TestOutcome, pool: seq<QuestionSet>, draws: seq<nat>)
    requires r.Test?
    requires forall k :: 0 <= k < |draws| ==> draws[k] < |pool|
  {
    var c := Collected(pool, draws);
    r.questions == Questions(c) && r.answers == Answers(c)
  }

  /** How `generate_test` ends. */
  datatype TestOutcome =
    | Test(questions: seq<string>, answers: seq<string>)
      /** `np.random.randint(0, 0)` raises: questions are wanted but no record qualifies. */
    | NoCandidates
      /** The draws ran out before enough distinct questions were found; the original keeps drawing. */
    | OutOfDraws

  /**
   * The drawing loop of `generate_test` over the non-trivial records `pool`:
   * draw a record index, add its question and answer unless the question
   * was already collected, and repeat until `numQuestions` questions are
   * collected.
   */
  method DrawTest(pool: seq<QuestionSet>, numQuestions: int, draws: seq<nat>) returns (r: TestOutcome)
    requires forall k :: 0 <= k < |draws| ==> draws[k] < |pool|
    ensures r.NoCandidates? <==> 0 < numQuestions && |pool| == 0
    ensures r.Test? ==> |r.questions| == |r.answers| == (if numQuestions < 0 then 0 else numQuestions)
    ensures r.Test? ==> Distinct(r.questions)
    ensures r.Test? ==> forall i :: 0 <= i < |r.questions| ==>
      exists q :: q in pool && q.question == r.questions[i] && q.answer == r.answers[i]
    ensures r.Test? ==> exists n :: 0 <= n <= |draws| && CollectedBy(r, pool, draws[..n])
    ensures r.Test? ==> numQuestions <= |QuestionTexts(pool)|
    ensures r.OutOfDraws? ==> 0 < numQuestions && |Collected(pool, draws)| < numQuestions
  {
    if 0 < numQuestions && |pool| == 0 {
      return NoCandidates;
    }
    var questions: seq<string> := [];
    var answers: seq<string> := [];
    var k := 0;
    while |questions| < numQuestions
      invariant 0 <= k <= |draws|
      invariant questions == Questions(Collected(pool, draws[..k]))
      invariant answers == Answers(Collected(pool, draws[..k]))
      invariant |questions| <= (if numQuestions < 0 then 0 else numQuestions)
      decreases |draws| - k
    {
      if k == |draws| {
        assert draws[..k] == draws;
        return OutOfDraws;
      }
      var pick := pool[draws[k]];
      CollectedStep(pool, draws, k);
      QuestionsAnswersSnoc(Collected(pool, draws[..k]), pick);
      if pick.question !in questions {
        questions := questions + [pick.question];
        answers := answers + [pick.answer];
      }
      k := k + 1;
    }
    CollectedBound(pool, draws[..k]);
    CollectedFromPool(pool, draws[..k]);
    r := Test(questions, answers);
    assert CollectedBy(r, pool, draws[..k]);
  }

  /**
   * `generate_test`: aggregate the records of all sentences, keep those
   * whose key exceeds `TrivialKey`, and draw the test from them.
   */
  method GenerateTest(sentences: seq<Sentence>, lexicon: Lexicon, draws: seq<nat>, numQuestions: int := DefaultQuestionCount)
    returns (r: TestOutcome)
    requires AllProcessable(sentences, lexicon)
    requires forall k :: 0 <= k < |draws| ==> draws[k] < |CandidatePool(sentences, lexicon)|
    ensures r.NoCandidates? <==> 0 < numQuestions && |CandidatePool(sentences, lexicon)| == 0
    ensures r.Test? ==> |r.questions| == |r.answers| == (if numQuestions < 0 then 0 else numQuestions)
    ensures r.Test? ==> Distinct(r.questions)
    ensures r.Test? ==> forall i :: 0 <= i < |r.questions| ==>
      exists q :: q in GetQuestionSets(sentences, lexicon) && q.key > TrivialKey
        && q.question == r.questions[i] && q.answer == r.answers[i]
    ensures r.Test? ==> numQuestions <= |QuestionTexts(CandidatePool(sentences, lexicon))|
    ensures r.OutOfDraws? ==> |Collected(CandidatePool(sentences, lexicon), draws)| < numQuestions
  {
    var sets := GetQuestionSets(sentences, lexicon);
    var pool := NonTrivial(sets);
    r := DrawTest(pool, numQuestions, draws);
  }

  /** `generate_test()` called without a count builds `DefaultQuestionCount` questions. */
  method GenerateDefaultTest(sentences: seq<Sentence>, lexicon: Lexicon, draws: seq<nat>) returns (r: TestOutcome)
    requires AllProcessable(sentences, lexicon)
    requires forall k :: 0 <= k < |draws| ==> draws[k] < |CandidatePool(sentences, lexicon)|
    ensures r.NoCandidates? <==> |CandidatePool(sentences, lexicon)| == 0
    ensures r.Test? ==> |r.questions| == |r.answers| == DefaultQuestionCount
    ensures r.Test? ==> Distinct(r.questions)
    ensures r.Test? ==> forall i :: 0 <= i < |r.questions| ==>
      exists q :: q in GetQuestionSets(sentences, lexicon) && q.key > TrivialKey
        && q.question == r.questions[i] && q.answer == r.answers[i]
    ensures r.Test? ==> DefaultQuestionCount <= |QuestionTexts(CandidatePool(sentences, lexicon))|
    ensures r.OutOfDraws? ==> |Collected(CandidatePool(sentences, lexicon), draws)| < DefaultQuestionCount
  {
    r := GenerateTest(sentences, lexicon, draws);
  }
}
