/**
 * Distractor generation (`ObjectiveTest.answer_options`): the wrong answer
 * options offered beside a one-word answer, taken from the word's siblings in
 * the WordNet noun hierarchy. WordNet itself is an input: a `NounSenses`
 * value holds exactly the part of the hierarchy the lookup reads.
 */
module Distractors {
  import opened Text
  import opened Sequences

  /** At most this many distractors are collected. */
  const MaxOptions := 8

  /** The word separator inside WordNet lemma names. */
  const LemmaSeparator := '_'

  /** A hypernym synset, reduced to the first lemma name of each of its hyponyms, in WordNet order. */
  datatype Hypernym = Hypernym(hyponymNames: seq<string>)

  /** What `wn.synsets(word, pos="n")` leads to. */
  datatype NounSenses =
    | NoNounSense
      /** The hypernyms of the first (most common) noun synset, in WordNet order. */
    | FirstNounSense(hypernyms: seq<Hypernym>)

  /** The lexical hierarchy, as seen from any word. */
  type Lexicon = string -> NounSenses

  /** The lookup does not fail at `hypernyms()[0]`: a noun sense, if there is one, has a hypernym. */
  predicate HasBroaderCategory(senses: NounSenses) {
    senses.FirstNounSense? ==> |senses.hypernyms| > 0
  }

  /** `name.replace("_", " ")`. */
  function Respell(name: string): (r: string)
    ensures |r| == |name|
    ensures LemmaSeparator !in r
    ensures forall i :: 0 <= i < |name| ==> r[i] == (if name[i] == LemmaSeparator then ' ' else name[i])
  {
    seq(|name|, i requires 0 <= i < |name| => if name[i] == LemmaSeparator then ' ' else name[i])
  }

  function RespellAll(names: seq<string>): (r: seq<string>)
    ensures |r| == |names|
    ensures forall i :: 0 <= i < |names| ==> r[i] == Respell(names[i])
  {
    seq(|names|, i requires 0 <= i < |names| => Respell(names[i]))
  }

  /** The respelled names that differ from `word`, in order and without a cap. */
  function Candidates(names: seq<string>, word: string): (r: seq<string>)
    ensures |r| <= |names|
    ensures forall i :: 0 <= i < |r| ==> r[i] != word && LemmaSeparator !in r[i]
    ensures forall i :: 0 <= i < |names| && Respell(names[i]) != word ==> Respell(names[i]) in r
  {
    if |names| == 0 then []
    else
      var init := names[..|names| - 1];
      var prev := Candidates(init, word);
      var w := Respell(names[|names| - 1]);
      assert forall i :: 0 <= i < |init| ==> names[i] == init[i];
      if w != word then prev + [w] else prev
  }

  /**
   * The distractors for `word`: the first `MaxOptions` candidates among the
   * hyponyms of the first hypernym of the word's first noun sense, none when
   * the word has no noun sense.
   */
  function DistractorsOf(word: string, senses: NounSenses): (r: seq<string>)
    requires HasBroaderCategory(senses)
    ensures |r| <= MaxOptions
    ensures forall i :: 0 <= i < |r| ==> r[i] != word && LemmaSeparator !in r[i]
    ensures senses.NoNounSense? ==> r == []
    ensures senses.FirstNounSense? ==> r <= Candidates(senses.hypernyms[0].hyponymNames, word)
    ensures senses.FirstNounSense? ==>
      var c := Candidates(senses.hypernyms[0].hyponymNames, word);
      |r| == if |c| < MaxOptions then |c| else MaxOptions
  {
    match senses
    case NoNounSense => []
    case FirstNounSense(hypernyms) =>
      var c := Candidates(hypernyms[0].hyponymNames, word);
      if |c| <= MaxOptions then c else c[..MaxOptions]
  }

  /** The candidates of a prefix of the names are a prefix of the candidates of all of them. */
  lemma {:induction false} CandidatesOfPrefix(names: seq<string>, word: string, n: nat)
    requires n <= |names|
    ensures Candidates(names[..n], word) <= Candidates(names, word)
  {
    if n == |names| {
      assert names[..n] == names;
    } else {
      var init := names[..|names| - 1];
      CandidatesOfPrefix(init, word, n);
      assert init[..n] == names[..n];
    }
  }

  /**
   * The loop of `answer_options`: walk the hyponyms in order, keep each
   * respelled name that differs from `word`, and stop as soon as
   * `MaxOptions` are kept.
   */
  method AnswerOptions(word: string, senses: NounSenses) returns (similar: seq<string>)
    requires HasBroaderCategory(senses)
    ensures similar == DistractorsOf(word, senses)
    ensures senses.NoNounSense? ==> similar == []
    ensures |similar| <= MaxOptions
    ensures word !in similar
    ensures forall i :: 0 <= i < |similar| ==> LemmaSeparator !in similar[i]
    ensures senses.FirstNounSense? ==> IsSubsequence(similar, RespellAll(senses.hypernyms[0].hyponymNames))
  {
    if senses.NoNounSense? {
      return [];
    }
    var hyponyms := senses.hypernyms[0].hyponymNames;
    ghost var respelled := RespellAll(hyponyms);
    ghost var idx: seq<nat> := [];
    similar := [];
    var i := 0;
    while i < |hyponyms|
      invariant 0 <= i <= |hyponyms|
      invariant similar == Candidates(hyponyms[..i], word)
      invariant |similar| < MaxOptions
      invariant Embeds(idx, similar, respelled)
      invariant forall k :: 0 <= k < |idx| ==> idx[k] < i
    {
      var similarWord := Respell(hyponyms[i]);
      assert hyponyms[..i + 1][..i] == hyponyms[..i];
      if similarWord != word {
        EmbedsExtend(idx, similar, respelled, i);
        similar := similar + [similarWord];
        idx := idx + [i];
      }
      i := i + 1;
      if |similar| == MaxOptions {
        StoppedWalk(word, senses, i, similar);
        break;
      }
    }
    if i == |hyponyms| {
      StoppedWalk(word, senses, i, similar);
    }
  }

  /** Wherever the hyponym walk stops, by the cap or at the end, it has the distractors. */
  lemma StoppedWalk(word: string, senses: NounSenses, n: nat, similar: seq<string>)
    requires HasBroaderCategory(senses) && senses.FirstNounSense?
    requires n <= |senses.hypernyms[0].hyponymNames|
    requires similar == Candidates(senses.hypernyms[0].hyponymNames[..n], word)
    requires |similar| <= MaxOptions
    requires n == |senses.hypernyms[0].hyponymNames| || |similar| == MaxOptions
    ensures similar == DistractorsOf(word, senses)
  {
    var names := senses.hypernyms[0].hyponymNames;
    CandidatesOfPrefix(names, word, n);
    if n == |names| {
      assert names[..n] == names;
    } else {
      assert Candidates(names, word)[..MaxOptions] == similar;
    }
  }

  /**
   * A word with no noun sense gets no options; "dog" among the hyponyms
   * fox, wolf, dog, coyote gets the other three, in hierarchy order.
   */
  lemma DogExample(lexicon: Lexicon)
    requires lexicon("dog") == FirstNounSense([Hypernym(["fox", "wolf", "dog", "coyote"])])
    requires lexicon("quickly") == NoNounSense
    ensures DistractorsOf("dog", lexicon("dog")) == ["fox", "wolf", "coyote"]
    ensures DistractorsOf("quickly", lexicon("quickly")) == []
  {
    var names := ["fox", "wolf", "dog", "coyote"];
    assert Respell("fox") == "fox" && Respell("wolf") == "wolf";
    assert Respell("dog") == "dog" && Respell("coyote") == "coyote";
    assert names[..1][..0] == [];
    assert Candidates(names[..1], "dog") == ["fox"];
    assert names[..2][..1] == names[..1];
    assert Candidates(names[..2], "dog") == ["fox", "wolf"];
    assert names[..3][..2] == names[..2];
    assert Candidates(names[..3], "dog") == ["fox", "wolf"];
    assert names[..3] == names[..|names| - 1];
    assert Candidates(names, "dog") == ["fox", "wolf", "coyote"];
  }
}
