# Objective test generation, modelled in Dafny

This project models the question-building logic of `ObjectiveTest` in
`src/objective.py` of the automated-test-app. The class turns a text
passage into fill-in-the-blank questions:

- For each sentence, `identify_potential_questions` may build a record with
  four fields: `Answer`, `Key` (a triviality score), `Similar` (distractor
  options) and `Question`. It may also skip the sentence.
- `answer_options` looks up distractors for a one-word answer in WordNet.
- `get_question_sets` collects the records of all sentences.
- `generate_test` keeps the records with `Key > 3`. It then draws records at
  random until it has the requested number of distinct questions.

NLTK and WordNet are not part of this model, and neither is the random
number generator. Their results are inputs:

- A `BlankSelector.Sentence` carries the sentence text and
  `nltk.pos_tag(sentence)` as `tags`. It also carries the number of
  `nltk.word_tokenize` tokens and the flattened CHUNK phrases of the chunk
  parse. The source tags the raw sentence string, not the token list, so
  `tags` is kept as an opaque sequence. Only `tags[0]` is ever read.
- WordNet is a `Distractors.Lexicon`. It maps a word to its noun senses.
  For the first sense, it gives the hypernyms, and for each hypernym the
  first lemma name of every hyponym.
- `np.random.randint` becomes a finite sequence of indices, `draws`.

Modules:

- `Wrappers` holds `Option`.
- `Text` holds the Python string operations: `split()`, `join`, `strip()`,
  `in`, and the first case-insensitive match and replace of `re`.
- `Sequences` holds the filter-map that `get_question_sets` performs, and
  subsequences.
- `Distractors` models `answer_options`.
- `BlankSelector` models `identify_potential_questions` and the chunk
  flattening.
- `TestAssembler` models `get_question_sets` and `generate_test`.

## Model

| member | source | states |
|---|---|---|
| BlankSelector.IdentifyPotentialQuestions | src/objective.py:101-174 | No record exactly when the first tag is `RB` or there are fewer than 4 word tokens. Otherwise: the answer is the blanked words joined by spaces; the key is the shortest blanked length capped at 99; the options are empty for two blanked words and the word's distractors for one, at most 8 and never the answer; the question is the sentence with the first case-insensitive occurrence of the answer replaced by the blank run, or the sentence itself if the answer does not occur |
| BlankSelector.BlankedWords | src/objective.py:131-148 | One or two words are always blanked, so the `None` return for an empty blank list cannot happen |
| BlankSelector.ScanPhrases | src/objective.py:132-141 | The phrase scan yields at most two words |
| BlankSelector.BlankedWordsWithoutStop | src/objective.py:131-145 | If no phrase starts with a quote or contains the first tagged word, that word alone is blanked |
| BlankSelector.BlankedWordsAtStop | src/objective.py:131-145 | Take the first phrase that starts with a quote or contains the word. If it is quoted, the word alone is blanked. Otherwise the phrase's last one or two words are blanked, or the word alone if the phrase has no words |
| BlankSelector.BlankedWordsOfChunk | src/objective.py:121-145 | When the first phrase to stop the scan is a flattened chunk of words, the blanked words are that chunk's last two leaf words |
| BlankSelector.SpaceTerminated | src/objective.py:123-126 | Writing each leaf followed by one space gives the single-space join of the leaves plus one trailing space |
| BlankSelector.ChunkTextOfWords | src/objective.py:121-128 | A flattened chunk is its leaf words joined by single spaces. It is never empty, and splitting it gives the leaves back |
| BlankSelector.TrivialityKey | src/objective.py:150-155 | The key is at most 99, at most every blanked word's length, and equal to one of those lengths unless it is 99 |
| BlankSelector.BlankRun | src/objective.py:170 | The stripped blank run is 10 underscores per blanked word, so `strip()` removes nothing |
| BlankSelector.BlankOut | src/objective.py:169-173 | The question is the text with the first case-insensitive occurrence of the answer replaced by the blank run. Text before and after the match is kept. With no occurrence, the text is returned unchanged |
| BlankSelector.BlankOutRestores | src/objective.py:169-173 | The blank run sits exactly where the answer occurred. Writing the answer back over it gives the sentence again, up to the case of that span |
| Text.ReplaceFirstIgnoringCase | src/objective.py:171-172 | A `re.sub(..., count=1)` with an escaped `IGNORECASE` pattern. It replaces only the leftmost match and keeps the text on both sides. With no match, the text is unchanged |
| Text.FirstMatch | src/objective.py:171-172 | The search finds the leftmost case-insensitive occurrence, and finds none exactly when the pattern occurs nowhere |
| Text.RestoreReplaced | src/objective.py:171-172 | Putting the pattern back where the replacement stands gives the original text up to case. Putting back the original span gives it exactly |
| Text.Split | src/objective.py:140 | `str.split()` yields nonempty whitespace-free words, and none exactly when the string is all whitespace |
| Text.SplitJoin | src/objective.py:127-140 | Splitting words that were joined by single spaces gives the same words |
| Text.LastTwo | src/objective.py:140 | `[-2:]` keeps the last two elements, or all of them when there are fewer |
| Text.Strip | src/objective.py:127 | The result is a slice of the string with only whitespace before and after it, and it neither starts nor ends with whitespace. It is unchanged when already trimmed, and empty exactly when the string is all whitespace |
| Distractors.AnswerOptions | src/objective.py:188-210 | The loop returns no options when there is no noun sense. Otherwise it returns at most 8, never the word itself, none with `_`, in hyponym order as a subsequence of the respelled names. It equals the first 8 candidates |
| Distractors.DistractorsOf | src/objective.py:188-210 | The options are at most 8, never the word, free of `_`, and empty without a noun sense. With a noun sense they are the first min(8, n) of the n candidates among the first hypernym's hyponyms |
| Distractors.StoppedWalk | src/objective.py:203-210 | Whether the hyponym walk stops at the cap of 8 or runs out of hyponyms, what it has collected is exactly the distractors |
| Distractors.Candidates | src/objective.py:204-207 | The uncapped filter never keeps the word or an underscore. It keeps every respelled name that differs from the word |
| Distractors.CandidatesOfPrefix | src/objective.py:203-209 | Stopping the hyponym walk early gives a prefix of the full candidate list, so breaking at 8 gives the first 8 candidates |
| Distractors.Respell | src/objective.py:205 | `replace("_", " ")` keeps the length, turns every underscore into a space, and changes nothing else |
| Distractors.DogExample | src/objective.py:188-210 | With hyponyms fox, wolf, dog, coyote, the options for "dog" are fox, wolf, coyote in that order. A word with no noun sense gets no options |
| Sequences.FilterMapSound | src/objective.py:84-89 | Every collected value is the `Some` image of some element |
| Sequences.FilterMapComplete | src/objective.py:84-89 | Every `Some` image is collected |
| Sequences.FilterMapAppend | src/objective.py:84-89 | Collecting over a concatenation concatenates the results, so element order is kept |
| TestAssembler.GetQuestionSets | src/objective.py:84-89 | There are no more records than sentences |
| TestAssembler.GetQuestionSetsSpec | src/objective.py:84-89 | A record is collected exactly when some sentence yields it, with `None` results dropped |
| TestAssembler.GetQuestionSetsAppend | src/objective.py:84-89 | Records keep sentence order: collecting `a + b` gives the records of `a` followed by those of `b` |
| TestAssembler.NonTrivial | src/objective.py:51-54 | It keeps exactly the records whose key exceeds 3 |
| TestAssembler.Collected | src/objective.py:57-62 | The drawing loop collects pairwise distinct questions, all from pool records |
| TestAssembler.CollectedCovers | src/objective.py:57-62 | The question of every drawn record is among the collected questions |
| TestAssembler.CollectedStep | src/objective.py:59-62 | One more draw either repeats an already collected question and changes nothing, or appends its record at the end |
| TestAssembler.CollectedFromPool | src/objective.py:60-62 | Every collected question comes paired with the answer of one pool record holding that question |
| TestAssembler.CollectedBound | src/objective.py:57-62 | No sequence of draws collects more questions than the pool has distinct question texts |
| TestAssembler.DrawTest | src/objective.py:56-63 | It fails only when questions are wanted and the pool is empty. On success it returns exactly `num_questions` questions (none for a non-positive count) with as many answers. The questions are pairwise distinct, each question-answer pair at the same index comes from one pool record, and the result is what some prefix of the draws collects. It succeeds only if the pool has enough distinct questions. It runs out of draws only when the draws collected too few |
| TestAssembler.GenerateTest | src/objective.py:38-63 | Equal-length question and answer lists of the requested size (3 when no count is given). The questions are distinct, and each pair at the same index comes from one collected record with key > 3. Success needs enough distinct question texts among those records |
| TestAssembler.GenerateDefaultTest | src/objective.py:38-63 | Called without a count, a successful test has 3 questions and 3 answers; the questions are pairwise distinct and each question-answer pair comes from one record with key > 3; success needs at least 3 distinct question texts among those records, and the draws run out only when they collected fewer than 3. It fails for lack of candidates exactly when no record has key > 3 |
| TestAssembler.DistinctWithin | src/objective.py:58-62 | A list of distinct questions drawn from a set is no longer than that set |

## Left out

- Loading the corpus file and logging (src/objective.py:22-36, 74-77) are I/O. The sentences arrive already split.
- `sent_tokenize`, `word_tokenize` and `pos_tag` (src/objective.py:73, 102-103, 116-117) are NLTK code that is not part of this model. Their results are fields of `Sentence`.
- If `sent_tokenize` fails, the source logs the error and then hits an unbound `sentences`. That error path is not modelled.
- The chunk grammar and `RegexpParser` (src/objective.py:106-118) are not modelled. `nounPhrases` is an input. Only the flattening of each CHUNK subtree into text is modelled (`ChunkText`).
- The WordNet calls `synsets`, `hypernyms`, `hyponyms` and `lemmas` (src/objective.py:188-205) become the `Lexicon` input.
- `np.random.randint` (src/objective.py:59) becomes the `draws` input, whose indices must lie within the pool.
- `randint(0, 0)` raises `ValueError`. This is the `NoCandidates` outcome.
- The source loop never ends when there are too few distinct questions. The model returns `OutOfDraws` when the draws run out, and `CollectedBound` shows that success needs enough distinct questions.
- `re.IGNORECASE` uses Unicode case folding. The model compares after ASCII lower-casing (`Text.Lower`), so non-ASCII case pairs are treated as different.
- `IdentifyPotentialQuestions`: the `hypernyms()[0]` `IndexError` at line 197 is a precondition (`Processable`), not an error result. So is `tags[0]` on empty tags at line 103, and `phrase[0]` on an empty phrase at line 134. `Processable` excludes at least the inputs that reach those crashes; the next line says what else it excludes.
- `IdentifyPotentialQuestions`: every noun phrase must be nonempty, although the source indexes only the phrases its scan reaches, and a rejected sentence reaches none. Flattened chunks are never empty (`ChunkTextOfWords`), so this costs nothing for real chunker output.
- `GetQuestionSets`: its own contract only bounds the length. Membership and order are stated in `GetQuestionSetsSpec` and `GetQuestionSetsAppend`.
- `DrawTest`: it takes the count as a plain argument; the default of 3 at src/objective.py:38 lives on `GenerateTest` (`DefaultQuestionCount`).
- Two behaviours of the code worth knowing:
  - `answer_options` keeps duplicate hyponym names.
  - The key starts at 99 and never exceeds it.
