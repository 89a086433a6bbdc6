# A verified model of the LAPPS question-answering pipeline

The repository is a pipeline of four LAPPS processing services. Each
service's `execute` method reads the views of a container and adds one new
view of annotations. This project models the text algorithm inside each
`execute` and the annotation record the services share. It then proves what
those algorithms guarantee.

- **Element annotation** (`Segmenter`) splits the text into lines. A line
  whose first field is `Q` becomes the annotation `Question`. Every other
  line becomes `A1`, `A2`, … with its score field and its sentence.
- **Token annotation** (`Tokenizer`) splits each sentence of view 0 on
  whitespace. It finds each word with `indexOf` from a cursor and adds a
  Token annotation numbered by a counter shared by the whole run.
- **N-gram annotation** (`Ngrams`) counts, for each sentence of view 0, the
  windows of one, two and three words. Each count goes into a `"1-Gram"`,
  `"2-Gram"` or `"3-Gram"` table.
- **Answer scoring** (`Scoring`) treats the first annotation of the last
  view as the question. It scores every later annotation by the clipped
  overlap of its n-gram table with the question's, divided by the question's
  total count. It also takes the answer's group from the ID prefix before the
  first `-`.

Shared material:

- `Lif` holds the annotation record, the LAPPS constants, the `Result` type
  and a generic outer loop `Layer`. A `Failure` is the Java exception (or
  error return) that ends `execute`.
- `Text` models the Java string operations the services use: `indexOf`,
  `trim`, `split("\\s+")`, `split` on one character, `replaceAll` with a
  character class, and `Integer.toString`.
- `Counting` models the `HashMap` counting loop and the sum of a table.

Every stage has three parts:

1. A specification function, such as `Ngrams.NgramStage`.
2. An imperative method with the source's loops, proved equal to that
   function. For example `Ngrams.Annotate` ensures
   `r == NgramStage(views)`.
3. Lemmas that state the stage's properties about the function.

The scorer is a class. Its order `n` is set by its two constructors.

The model keeps these behaviours of the code as written:

- A malformed line makes the element service stop silently and keep what it
  made so far. It does not report an error.
- Element offsets are relative to their line.
- The token cursor is the previous token's start, not its end.
- Token offsets are relative to their sentence.
- A question total of 0 gives the score 0/0. That is NaN in Java, and no
  error is raised.
- Two `Q` lines both get the ID `Question`.
- A blank sentence splits into the one empty word. Its 1-Gram table is
  `{"": 1}` and its 2-Gram and 3-Gram tables are empty, so a blank question
  scored by unigrams has `totalques` 1.

Four definitions carry only the facts their uses need, and the lemmas about
their uses state what they mean. `Lif.SentenceOf` reads the sentence feature
(`Tokenizer.MatchSucceeds` and `Ngrams.CountSucceeds` say when a stage fails
on it). `Lif.FeatureMap` reads an n-gram table (`Scoring.JudgedAnswer`).
`Counting.Clipped` clips the answer's counts (`Counting.OverlapBounds`,
`Counting.OverlapSelf` and `Counting.OverlapDisjoint`).
`Segmenter.Entries` parses each line (`Segmenter.SegmentSpec`).

## Model

| member | source | states |
|---|---|---|
| Lif.LayerSucceeds | pi4-yuqiz1-token/src/main/java/org/lappsgrid/example/TokenAnnotation.java:118-144 | the outer loop over source annotations succeeds exactly when every item succeeds, and fails only with an error of an item |
| Lif.LayerOfOnes | pi4-yuqiz1-score/src/main/java/org/lappsgrid/example/AnswerScoring.java:147-169 | when each source annotation yields one output, output k is item i + k's, numbered next + k |
| Lif.LayerAt | pi4-yuqiz1-token/src/main/java/org/lappsgrid/example/TokenAnnotation.java:118-144 | every output of the outer loop is an output of one item, made when the counter had a value between next and next + k |
| Lif.LayerSized | pi4-yuqiz1-token/src/main/java/org/lappsgrid/example/TokenAnnotation.java:118-144 | when each item gives a known number of outputs, the outer loop gives their total, and output k is output k - m of the one item whose predecessors give m <= k outputs, numbered from next + m: the outputs are the items' outputs concatenated in order |
| Text.IndexOf | pi4-yuqiz1-token/src/main/java/org/lappsgrid/example/TokenAnnotation.java:128 | `indexOf(w, from)` is -1 or an occurrence of w at or after from, where from is clamped to the length |
| Text.IndexOfAtMost | pi4-yuqiz1-token/src/main/java/org/lappsgrid/example/TokenAnnotation.java:126-128 | searching from at or before a known occurrence finds an occurrence no later than it |
| Text.IndexOfMisses | pi4-yuqiz1-token/src/main/java/org/lappsgrid/example/TokenAnnotation.java:128 | no occurrence lies between from and the result, and none lies after from when the result is -1 |
| Text.WordSpans | pi4-yuqiz1-token/src/main/java/org/lappsgrid/example/TokenAnnotation.java:124 | `trim().split("\\s+")` yields at least one word, each a span inside the sentence |
| Text.WordSpansCover | pi4-yuqiz1-token/src/main/java/org/lappsgrid/example/TokenAnnotation.java:124 | every character between the bounds `trim` keeps that is not `\s` whitespace, control characters included, lies inside a word |
| Text.RunIsSolid | pi4-yuqiz1-token/src/main/java/org/lappsgrid/example/TokenAnnotation.java:124 | no character inside a word is whitespace |
| Text.RunIsMaximal | pi4-yuqiz1-token/src/main/java/org/lappsgrid/example/TokenAnnotation.java:124 | a word ends at whitespace or at the end of the trimmed text |
| Text.RunsOrdered | pi4-yuqiz1-token/src/main/java/org/lappsgrid/example/TokenAnnotation.java:124 | each word ends before the next one starts |
| Text.RunsCover | pi4-yuqiz1-token/src/main/java/org/lappsgrid/example/TokenAnnotation.java:124 | no run is dropped: every non-whitespace character between the bounds lies inside a run |
| Text.RunStart | pi4-yuqiz1-token/src/main/java/org/lappsgrid/example/TokenAnnotation.java:124 | every run starts at the lower bound or just after a whitespace character |
| Text.WordSpansOrdered | pi4-yuqiz1-token/src/main/java/org/lappsgrid/example/TokenAnnotation.java:124 | each word starts after the one before it |
| Text.WordSpansMonotone | pi4-yuqiz1-ngram/src/main/java/org/lappsgrid/example/NgramAnnotation.java:125 | later words start no earlier |
| Text.WordAt | pi4-yuqiz1-token/src/main/java/org/lappsgrid/example/TokenAnnotation.java:124 | word k is the text of span k, so it occurs in the sentence where the span starts |
| Text.WordsHaveNoSpace | pi4-yuqiz1-token/src/main/java/org/lappsgrid/example/TokenAnnotation.java:124 | no word holds whitespace |
| Text.WordsEmptyIff | pi4-yuqiz1-token/src/main/java/org/lappsgrid/example/TokenAnnotation.java:124 | the words are [""] exactly when the sentence trims to ""; otherwise no word is empty |
| Text.WordsOfBlank | pi4-yuqiz1-token/src/main/java/org/lappsgrid/example/TokenAnnotation.java:124 | a blank sentence splits into the single empty word at [0, 0) |
| Text.WordsOfRepeated | pi4-yuqiz1-token/src/main/java/org/lappsgrid/example/TokenAnnotation.java:124 | "a a" splits into "a" at [0, 1) and "a" at [2, 3) |
| Text.Without | pi4-yuqiz1-token/src/main/java/org/lappsgrid/example/TokenAnnotation.java:136 | `replaceAll` with a class never lengthens the string and leaves no character of the class; `Text.WithoutAppend` and `Text.WithoutCounts` state that it keeps the other characters, in order |
| Text.WithoutAppend | pi4-yuqiz1-token/src/main/java/org/lappsgrid/example/TokenAnnotation.java:136 | removal goes character by character: removing from a + b is removing from a followed by removing from b, so the kept characters stay in order |
| Text.WithoutCounts | pi4-yuqiz1-ngram/src/main/java/org/lappsgrid/example/NgramAnnotation.java:137 | every kept character occurs as often as before, and every removed one not at all |
| Text.RemoveNonWord | pi4-yuqiz1-token/src/main/java/org/lappsgrid/example/TokenAnnotation.java:136 | `replaceAll("\\W", "")` leaves only characters of [A-Za-z0-9_] |
| Text.StripPunct | pi4-yuqiz1-ngram/src/main/java/org/lappsgrid/example/NgramAnnotation.java:137 | `replaceAll("[,.?!;:]", "")` leaves none of those characters |
| Text.RemovalCounts | pi4-yuqiz1-token/src/main/java/org/lappsgrid/example/TokenAnnotation.java:136 | both removals keep every other character as often as it occurred |
| Text.Idempotent | pi4-yuqiz1-ngram/src/main/java/org/lappsgrid/example/NgramAnnotation.java:137 | applying either removal twice is applying it once |
| Text.SplitSpec | pi4-yuqiz1-element/src/main/java/org/lappsgrid/example/ElementAnnotation.java:123 | `split` on one character: no piece holds it; the pieces joined back give the text up to trailing separators; the last piece is non-empty unless the separator is absent; the result is empty exactly for a run of separators |
| Text.SplitFirst | pi4-yuqiz1-score/src/main/java/org/lappsgrid/example/AnswerScoring.java:167 | the first piece of a split is the text before the first separator |
| Text.NatToString | pi4-yuqiz1-token/src/main/java/org/lappsgrid/example/TokenAnnotation.java:138 | `Integer.toString` of a counter is a non-empty string of digits |
| Text.DecimalRoundTrip | pi4-yuqiz1-token/src/main/java/org/lappsgrid/example/TokenAnnotation.java:138 | the decimal rendering reads back as the same number |
| Text.NumberedIdsDistinct | pi4-yuqiz1-token/src/main/java/org/lappsgrid/example/TokenAnnotation.java:138 | IDs prefix + tag + k with different counters k differ, whatever the prefixes |
| Text.GramKeys | pi4-yuqiz1-ngram/src/main/java/org/lappsgrid/example/NgramAnnotation.java:147 | orders 1, 2 and 3 are stored under "1-Gram", "2-Gram" and "3-Gram" |
| Counting.TallyNext | pi4-yuqiz1-ngram/src/main/java/org/lappsgrid/example/NgramAnnotation.java:138-144 | the `containsKey`/`put` update of a count is counting one more item |
| Counting.TallyCounts | pi4-yuqiz1-ngram/src/main/java/org/lappsgrid/example/NgramAnnotation.java:138-144 | a count table has exactly the counted items as keys, each with its number of occurrences |
| Counting.TallySum | pi4-yuqiz1-ngram/src/main/java/org/lappsgrid/example/NgramAnnotation.java:130-146 | the counts of a table add up to the number of items counted |
| Counting.TallySize | pi4-yuqiz1-ngram/src/main/java/org/lappsgrid/example/NgramAnnotation.java:138-144 | a table has no more keys than items counted, and every count is at least 1 |
| Counting.SumRestrictStep | pi4-yuqiz1-score/src/main/java/org/lappsgrid/example/AnswerScoring.java:134-136 | visiting one more key of `keySet()` adds its count to the sum of the keys visited |
| Counting.OverlapBounds | pi4-yuqiz1-score/src/main/java/org/lappsgrid/example/AnswerScoring.java:156-165 | with non-negative counts, 0 <= overlap <= the question's total |
| Counting.OverlapSelf | pi4-yuqiz1-score/src/main/java/org/lappsgrid/example/AnswerScoring.java:158 | an answer table equal to the question's scores the question's full total |
| Counting.OverlapDisjoint | pi4-yuqiz1-score/src/main/java/org/lappsgrid/example/AnswerScoring.java:157 | an answer sharing no key with the question scores 0 |
| Counting.OverlapIgnoresAnswerOnlyKeys | pi4-yuqiz1-score/src/main/java/org/lappsgrid/example/AnswerScoring.java:156-157 | keys that only the answer has contribute nothing |
| Counting.OverlapMonotone | pi4-yuqiz1-score/src/main/java/org/lappsgrid/example/AnswerScoring.java:158 | raising answer counts or adding answer keys never lowers the overlap |
| Segmenter.Segment | pi4-yuqiz1-element/src/main/java/org/lappsgrid/example/ElementAnnotation.java:119-147 | the new view is the annotations of the lines of `text.split("\n")` |
| Segmenter.SegmentLines | pi4-yuqiz1-element/src/main/java/org/lappsgrid/example/ElementAnnotation.java:120-147 | the loop adds one annotation per line, in order, and stops at the first line that throws, keeping the earlier ones |
| Segmenter.LineAnnotation | pi4-yuqiz1-element/src/main/java/org/lappsgrid/example/ElementAnnotation.java:128-141 | the loop body on one line adds the annotation of its entry and counts answers, or throws |
| Segmenter.QuestionLine | pi4-yuqiz1-element/src/main/java/org/lappsgrid/example/ElementAnnotation.java:128-134 | "Q " + sentence is the question with that sentence, spanning [1, length) |
| Segmenter.AnswerLine | pi4-yuqiz1-element/src/main/java/org/lappsgrid/example/ElementAnnotation.java:135-141 | first + " " + score + " " + sentence, with first not "Q", is an answer with that score and sentence, spanning from the second space to the end |
| Segmenter.LineWithoutSpace | pi4-yuqiz1-element/src/main/java/org/lappsgrid/example/ElementAnnotation.java:128-130 | a line without any space throws, including "" and "Q" |
| Segmenter.AnswerLineWithOneSpace | pi4-yuqiz1-element/src/main/java/org/lappsgrid/example/ElementAnnotation.java:136-137 | a non-question line with a single space throws |
| Segmenter.ParseLineShape | pi4-yuqiz1-element/src/main/java/org/lappsgrid/example/ElementAnnotation.java:128-141 | every accepted line is "Q" + " " + sentence or first + " " + score + " " + sentence with no space in first or score; the span starts at a space, and 0 <= start < end == length |
| Segmenter.AnnotateShape | pi4-yuqiz1-element/src/main/java/org/lappsgrid/example/ElementAnnotation.java:131-141 | an answer entry becomes "A" + (answers before + 1) with Type Answer and its Score; a question entry becomes "Question"; both keep the entry's span and sentence |
| Segmenter.SegmentSpec | pi4-yuqiz1-element/src/main/java/org/lappsgrid/example/ElementAnnotation.java:121-147 | the view holds, in line order, the annotation of each line up to the first line that throws, and that line is the one after the last annotation |
| Segmenter.SegmentsStop | pi4-yuqiz1-element/src/main/java/org/lappsgrid/example/ElementAnnotation.java:144-146 | when fewer annotations than lines are made, the line after the last annotation is one the body throws on |
| Segmenter.AnswerIdAt | pi4-yuqiz1-element/src/main/java/org/lappsgrid/example/ElementAnnotation.java:120-138 | the k-th answer of a view has ID "A" + k |
| Segmenter.AnswerIdsDistinct | pi4-yuqiz1-element/src/main/java/org/lappsgrid/example/ElementAnnotation.java:120-138 | no two answers of a view share an ID |
| Tokenizer.Starts | pi4-yuqiz1-token/src/main/java/org/lappsgrid/example/TokenAnnotation.java:126-133 | when every word is found, one position is found per word |
| Tokenizer.TokensAt | pi4-yuqiz1-token/src/main/java/org/lappsgrid/example/TokenAnnotation.java:135-140 | one token per found word |
| Tokenizer.Tokenize | pi4-yuqiz1-token/src/main/java/org/lappsgrid/example/TokenAnnotation.java:112-144 | the outer loop over view 0 computes the stage's view, or its exception |
| Tokenizer.SentenceTokens | pi4-yuqiz1-token/src/main/java/org/lappsgrid/example/TokenAnnotation.java:119-143 | the body for one annotation splits its sentence and returns that sentence's tokens |
| Tokenizer.WordTokens | pi4-yuqiz1-token/src/main/java/org/lappsgrid/example/TokenAnnotation.java:126-143 | the inner loop finds each word from the previous word's start and adds its token, or returns the "Unable to match word" error |
| Tokenizer.StartsSucceed | pi4-yuqiz1-token/src/main/java/org/lappsgrid/example/TokenAnnotation.java:128-133 | for the sentence's own words, `indexOf` never returns -1, so the error branch is unreachable |
| Tokenizer.StartAt | pi4-yuqiz1-token/src/main/java/org/lappsgrid/example/TokenAnnotation.java:126-128 | each word is found at an occurrence of it, at or after the cursor and no earlier than the word before |
| Tokenizer.TokenAt | pi4-yuqiz1-token/src/main/java/org/lappsgrid/example/TokenAnnotation.java:128-140 | token k of a sentence has 0 <= start <= end == start + length <= sentence length, covers exactly word k, starts no earlier than token k - 1, has WORD = the word without non-word characters, Group = source ID, and ID source + "-tok" + counter |
| Tokenizer.EmptySentenceToken | pi4-yuqiz1-token/src/main/java/org/lappsgrid/example/TokenAnnotation.java:124-140 | an empty or blank sentence still yields one token, the empty word at [0, 0) |
| Tokenizer.RepeatedWordSharesOffset | pi4-yuqiz1-token/src/main/java/org/lappsgrid/example/TokenAnnotation.java:126-128 | in "a a" both tokens are found at [0, 1), because the cursor is the previous start |
| Tokenizer.MatchSucceeds | pi4-yuqiz1-token/src/main/java/org/lappsgrid/example/TokenAnnotation.java:123-133 | matching a sentence fails only for a missing sentence, with NullPointerException |
| Tokenizer.TokenStageSucceeds | pi4-yuqiz1-token/src/main/java/org/lappsgrid/example/TokenAnnotation.java:112-144 | the stage fails exactly when there is no view or some annotation of view 0 lacks its sentence |
| Tokenizer.StageTokenFrom | pi4-yuqiz1-token/src/main/java/org/lappsgrid/example/TokenAnnotation.java:118-140 | the stage is the tokens of the annotations of view 0 concatenated in order: token k is token k - n of annotation j, where n is the number of tokens of the annotations before j and n <= k < n + the word count of j |
| Tokenizer.StageTokenCount | pi4-yuqiz1-token/src/main/java/org/lappsgrid/example/TokenAnnotation.java:118-140 | the stage has exactly one token per word of each annotation of view 0 |
| Tokenizer.StageTokenAt | pi4-yuqiz1-token/src/main/java/org/lappsgrid/example/TokenAnnotation.java:117-140 | output token k has ID source + "-tok" + k, category Token, the source's Group, and lies within the source's sentence |
| Tokenizer.TokenIdsDistinct | pi4-yuqiz1-token/src/main/java/org/lappsgrid/example/TokenAnnotation.java:117-138 | token IDs are pairwise distinct |
| Ngrams.Windows | pi4-yuqiz1-ngram/src/main/java/org/lappsgrid/example/NgramAnnotation.java:129-137 | there are max(0, words - t) windows; a failure is StringIndexOutOfBoundsException; what each window's text is, is stated by Ngrams.SentenceWindowSpans |
| Ngrams.TablesFrom | pi4-yuqiz1-ngram/src/main/java/org/lappsgrid/example/NgramAnnotation.java:127-150 | one table per order from t + 1 to 3 |
| Ngrams.Annotate | pi4-yuqiz1-ngram/src/main/java/org/lappsgrid/example/NgramAnnotation.java:113-152 | the loop over view 0 computes the stage's view, or its exception |
| Ngrams.SentenceNgrams | pi4-yuqiz1-ngram/src/main/java/org/lappsgrid/example/NgramAnnotation.java:121-151 | the body for one annotation adds that annotation's n-gram annotation |
| Ngrams.GramTables | pi4-yuqiz1-ngram/src/main/java/org/lappsgrid/example/NgramAnnotation.java:127-150 | the loop over the orders stores each order's table under its key, or fails as the first failing order does |
| Ngrams.CountWindows | pi4-yuqiz1-ngram/src/main/java/org/lappsgrid/example/NgramAnnotation.java:128-146 | the counting loop of one order computes the table of that order's window texts |
| Ngrams.WindowsNext | pi4-yuqiz1-ngram/src/main/java/org/lappsgrid/example/NgramAnnotation.java:132-137 | one step of the counting loop either throws in `substring` or adds the stripped window text |
| Ngrams.WindowInside | pi4-yuqiz1-ngram/src/main/java/org/lappsgrid/example/NgramAnnotation.java:134-136 | for words found in order, with the cursor no later than the first word's place, the first `indexOf` finds an occurrence of the first word at or before its place, the second finds an occurrence of the last word between that start and the last word's place, and start <= end <= sentence length |
| Ngrams.WindowsSucceed | pi4-yuqiz1-ngram/src/main/java/org/lappsgrid/example/NgramAnnotation.java:129-137 | for words found in order, with the cursor never past the next word, `substring` never throws |
| Ngrams.WindowsStep | pi4-yuqiz1-ngram/src/main/java/org/lappsgrid/example/NgramAnnotation.java:134-137 | a window lying within the sentence, followed by windows that succeed, succeeds and its stripped text comes first |
| Ngrams.WindowSpans | pi4-yuqiz1-ngram/src/main/java/org/lappsgrid/example/NgramAnnotation.java:129-137 | for words found in order, the windows succeed and are placed: each runs from an occurrence of its first word to the end of an occurrence of its last, both at or before the words' own places, no window starting before the previous one or before the cursor |
| Ngrams.PlacedAt | pi4-yuqiz1-ngram/src/main/java/org/lappsgrid/example/NgramAnnotation.java:132-137 | in placed windows, window k is the stripped text from an occurrence of word z + k to the end of an occurrence of word z + k + t, found no later than those words' places, and starts no earlier than window k - 1 |
| Ngrams.SentenceWindowSpans | pi4-yuqiz1-ngram/src/main/java/org/lappsgrid/example/NgramAnnotation.java:129-137 | for a sentence's own words, 2-gram and 3-gram keys included, window k is `StripPunct(ques[s..e])` where word k occurs at s, word k + t occurs ending at e, s <= e - len(word k + t), both found no later than the words' start offsets, and s is no earlier than the previous window's start |
| Ngrams.SentenceWindows | pi4-yuqiz1-ngram/src/main/java/org/lappsgrid/example/NgramAnnotation.java:129-137 | for the sentence's own words, every order's windows are made without an exception |
| Ngrams.WindowsStripped | pi4-yuqiz1-ngram/src/main/java/org/lappsgrid/example/NgramAnnotation.java:137 | no window text holds any of `,.?!;:` |
| Ngrams.UnigramWindow | pi4-yuqiz1-ngram/src/main/java/org/lappsgrid/example/NgramAnnotation.java:132-137 | a one-word window is the word with punctuation removed |
| Ngrams.UnigramTable | pi4-yuqiz1-ngram/src/main/java/org/lappsgrid/example/NgramAnnotation.java:130-144 | the 1-gram table counts exactly the words with `,.?!;:` removed, and its counts sum to the word count |
| Ngrams.TableFacts | pi4-yuqiz1-ngram/src/main/java/org/lappsgrid/example/NgramAnnotation.java:127-146 | order t + 1's table is made, its counts sum to max(0, words - t), it has at most that many keys, every count is >= 1, and no key holds `,.?!;:` |
| Ngrams.BlankSentenceTables | pi4-yuqiz1-ngram/src/main/java/org/lappsgrid/example/NgramAnnotation.java:124-146 | a blank sentence gives the 1-Gram table {"": 1} and empty 2-Gram and 3-Gram tables |
| Ngrams.RepeatedWordBigram | pi4-yuqiz1-ngram/src/main/java/org/lappsgrid/example/NgramAnnotation.java:134-136 | the 2-gram table of "a a" is {"a": 1}, because the second word is found at the first word's place |
| Ngrams.TablesSucceed | pi4-yuqiz1-ngram/src/main/java/org/lappsgrid/example/NgramAnnotation.java:127-150 | all three orders of a sentence's own words are counted without an exception |
| Ngrams.TablesAt | pi4-yuqiz1-ngram/src/main/java/org/lappsgrid/example/NgramAnnotation.java:127-147 | entry o - t of the tables is order o + 1's table |
| Ngrams.CountSucceeds | pi4-yuqiz1-ngram/src/main/java/org/lappsgrid/example/NgramAnnotation.java:124-125 | counting fails only for a missing sentence, with NullPointerException |
| Ngrams.NgramStageSucceeds | pi4-yuqiz1-ngram/src/main/java/org/lappsgrid/example/NgramAnnotation.java:113-152 | the stage fails exactly when there is no view or some annotation of view 0 lacks its sentence |
| Ngrams.GramFeaturesOfThree | pi4-yuqiz1-ngram/src/main/java/org/lappsgrid/example/NgramAnnotation.java:147 | the three tables are stored under exactly "1-Gram", "2-Gram" and "3-Gram" |
| Ngrams.StageNgram | pi4-yuqiz1-ngram/src/main/java/org/lappsgrid/example/NgramAnnotation.java:119-123 | the stage makes one annotation per annotation of view 0, numbered by its position |
| Ngrams.CountedNgram | pi4-yuqiz1-ngram/src/main/java/org/lappsgrid/example/NgramAnnotation.java:119-151 | the annotation for a source has ID source + "-ngram" + k, category Sentence, the source's span, and exactly the features 1-Gram, 2-Gram, 3-Gram (the three tables) and Group = source ID |
| Ngrams.NgramIdsDistinct | pi4-yuqiz1-ngram/src/main/java/org/lappsgrid/example/NgramAnnotation.java:119-122 | the IDs of the stage's annotations are pairwise distinct |
| Scoring.AnswerScoring.constructor | pi4-yuqiz1-score/src/main/java/org/lappsgrid/example/AnswerScoring.java:29-32 | the default order is 1 |
| Scoring.AnswerScoring.WithOrder | pi4-yuqiz1-score/src/main/java/org/lappsgrid/example/AnswerScoring.java:33-36 | the order is the one given |
| Scoring.AnswerScoring.Execute | pi4-yuqiz1-score/src/main/java/org/lappsgrid/example/AnswerScoring.java:118-168 | execute computes the stage's view, or its exception |
| Scoring.ScoreAnswers | pi4-yuqiz1-score/src/main/java/org/lappsgrid/example/AnswerScoring.java:147-169 | the loop over annotations 1, 2, … adds each answer's scored annotation, or stops with the first exception |
| Scoring.Total | pi4-yuqiz1-score/src/main/java/org/lappsgrid/example/AnswerScoring.java:134-136 | `totalques` is the sum of all counts of the question's table, in any key order |
| Scoring.Credit | pi4-yuqiz1-score/src/main/java/org/lappsgrid/example/AnswerScoring.java:156-159 | the loop over the question's keys computes the clipped overlap, in any key order |
| Scoring.ScoreAnswer | pi4-yuqiz1-score/src/main/java/org/lappsgrid/example/AnswerScoring.java:148-167 | the body for one answer: overlap over totalques and the group, or IndexOutOfBounds when the answer has a table and the question none, or ArrayIndexOutOfBounds for an all-dash ID |
| Scoring.GroupIsPrefix | pi4-yuqiz1-score/src/main/java/org/lappsgrid/example/AnswerScoring.java:167 | the group is the ID up to its first `-`; only an all-dash ID has none, and it fails with ArrayIndexOutOfBounds |
| Scoring.GroupOfPrefixed | pi4-yuqiz1-score/src/main/java/org/lappsgrid/example/AnswerScoring.java:167 | the group of p + "-" + rest, with p non-empty and dash-free, is p |
| Scoring.GroupOfNgramId | pi4-yuqiz1-score/src/main/java/org/lappsgrid/example/AnswerScoring.java:167 | the group of "A1-ngram1" is "A1" |
| Scoring.JudgeSucceeds | pi4-yuqiz1-score/src/main/java/org/lappsgrid/example/AnswerScoring.java:154-167 | scoring an answer fails exactly when it has a table the question lacks or an all-dash ID |
| Scoring.ScoreStageSucceeds | pi4-yuqiz1-score/src/main/java/org/lappsgrid/example/AnswerScoring.java:118-168 | the stage fails exactly when there is no view, the last view is empty, or some answer cannot be scored; a question without a table is no error |
| Scoring.StageScoreAt | pi4-yuqiz1-score/src/main/java/org/lappsgrid/example/AnswerScoring.java:126-150 | the stage makes one annotation per last-view annotation after the first, in order, namely that answer's scored annotation; the question gets none |
| Scoring.JudgedAnswer | pi4-yuqiz1-score/src/main/java/org/lappsgrid/example/AnswerScoring.java:131-167 | a scored answer keeps the answer's ID and span, has category Token and exactly the features Score and Group; Score = overlap / totalques, with overlap 0 for an answer without a table |
| Scoring.ScoreInRange | pi4-yuqiz1-score/src/main/java/org/lappsgrid/example/AnswerScoring.java:156-165 | with non-negative counts, 0 <= overlap <= totalques, and a zero total comes with a zero overlap |
| Scoring.NoQuestionTable | pi4-yuqiz1-score/src/main/java/org/lappsgrid/example/AnswerScoring.java:142-165 | a question without a table is no error: an answer without one is scored 0 / 0, which is NaN |
| Scoring.NgramTablesPositive | pi4-yuqiz1-ngram/src/main/java/org/lappsgrid/example/NgramAnnotation.java:138-147 | each n-gram annotation has an n-Gram table for n = 1, 2, 3, with every count >= 1 |
| Scoring.PipelineScoreInRange | pi4-yuqiz1-score/src/main/java/org/lappsgrid/example/AnswerScoring.java:119-165 | scoring the view the n-gram stage adds, by an order it counts, succeeds and gives every answer a score in [0, 1] or 0 / 0 |
| Scoring.PipelineScores | pi4-yuqiz1-score/src/main/java/org/lappsgrid/example/AnswerScoring.java:119-165 | scoring the view the n-gram stage adds, by an order it counts, never fails on a non-empty view and scores every annotation after the first |
| Scoring.ScoreExtremes | pi4-yuqiz1-score/src/main/java/org/lappsgrid/example/AnswerScoring.java:156-159 | an answer table equal to the question's scores totalques / totalques, and one sharing no key scores 0 / totalques |
| Scoring.ScoreMonotone | pi4-yuqiz1-score/src/main/java/org/lappsgrid/example/AnswerScoring.java:156-159 | raising answer counts or adding answer keys never lowers the score |

## Left out

- LAPPS plumbing is not modelled: parsing the input JSON, dispatching on the discriminator, the `Container`/`View` classes and JSON output. A container is modelled as its sequence of views, and a view as its sequence of annotations. Views are only read, and each stage's result is the new view it adds.
- `generateMetadata` and `getMetadata` are not modelled. They only build a descriptive payload from library setters.
- `printStackTrace` is not modelled, since it is console output. The exceptions the scorer catches are modelled as the caught path.
- Floating point is not modelled. `score / totalques` and `Double.toString` are modelled as the pair `Fraction(overlap, totalques)`, so the NaN produced by 0 / 0 is the pair (0, 0). The rendered decimal text is not modelled.
- 32-bit overflow of `int` is not modelled. This covers the counters `id`, the counts `tempcount + 1`, and `totalques`. Counts are not bounded, because no sentence in memory can reach 2^31 words.
- General Java regular expressions are not modelled. Only the classes the services use are: `\s` for splitting, `\W` for token words, and `[,.?!;:]` for n-gram keys.
- `getFeatureMap` belongs to the LAPPS library, which is not part of this model. It is taken to throw `LappsIOException` when the feature is absent or is not a table. A table stored as something other than a map of integers is not modelled.
- Iteration order of `HashMap.keySet()` is not modelled. `Scoring.Total` and `Scoring.Credit` pick each next key arbitrarily and are proved for every order.
- The `type` variables that the token and score services assign and never use are left out. So are the lines that are commented out.
- A `null` text or sentence is not modelled, since the text is always a string. A missing sentence feature is modelled: it is the NullPointerException of `trim()`.
- Lif.SentenceOf: a sentence feature that is present but not a string is taken to fail like a missing one, with NullPointerException. What `getFeature` returns for such a value belongs to the LAPPS library, which is not part of this model.
- Strings are sequences of Dafny characters, which are Unicode scalar values. Java strings count UTF-16 code units. Offsets, lengths and `indexOf` results agree with Java only for text within the Basic Multilingual Plane. Text outside it is not modelled.
