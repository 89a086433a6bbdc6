/** The whitespace tokenizer (TokenAnnotation): every sentence annotation of
    view 0 is split on whitespace, each word is located in the sentence with
    `indexOf` from a cursor, and a Token annotation is added for it. */
module Tokenizer {
  import opened Lif
  import opened Text

  /** The annotation added for word number k of the whole run (the counter
      starts at -1 and is pre-incremented, so the first token is "-tok0"),
      found at `start` in the sentence of the annotation with ID src. */
  function TokenOf(src: string, k: nat, start: nat, word: string): Annotation
  {
    Annotation(src + "-tok" + NatToString(k), TOKEN, start, start + |word|,
               map[WORD := Str(RemoveNonWord(word)), "Group" := Str(src)])
  }

  /** Where the inner loop finds words i, i + 1, ... of the sentence, the
      cursor being where the previous word was found (its start, not its
      end); or the error Data that execute returns for a word it cannot
      match. */
  function Starts(ques: string, words: seq<string>, i: nat, cursor: nat): (r: Result<seq<nat>>)
    requires i <= |words|
    ensures r.Success? ==> |r.value| == |words| - i
    decreases |words| - i
  {
    if i == |words| then Success([])
    else
      var start := IndexOf(ques, words[i], cursor);
      if start < 0 then Failure("Unable to match word: " + words[i])
      else Then([start], Starts(ques, words, i + 1, start))
  }

  /** The token annotations of the first |starts| words, found at starts,
      numbered from next. */
  function TokensAt(src: string, words: seq<string>, starts: seq<nat>, next: nat): (r: seq<Annotation>)
    requires |starts| <= |words|
    ensures |r| == |starts|
    decreases |starts|
  {
    if starts == [] then []
    else
      var n := |starts| - 1;
      TokensAt(src, words, starts[..n], next) + [TokenOf(src, next + n, starts[n], words[n])]
  }

  /** Token k is word k found at start k, numbered next + k. */
  lemma {:induction false} TokensAtIndex(src: string, words: seq<string>, starts: seq<nat>, next: nat, k: nat)
    requires |starts| <= |words| && k < |starts|
    ensures TokensAt(src, words, starts, next)[k] == TokenOf(src, next + k, starts[k], words[k])
    decreases |starts|
  {
    var n := |starts| - 1;
    if k < n {
      TokensAtIndex(src, words, starts[..n], next, k);
    }
  }

  /** One more word found: one more token. */
  lemma TokensAtSnoc(src: string, words: seq<string>, starts: seq<nat>, s: nat, next: nat)
    requires |starts| < |words|
    ensures TokensAt(src, words, starts + [s], next)
            == TokensAt(src, words, starts, next) + [TokenOf(src, next + |starts|, s, words[|starts|])]
  {
    assert (starts + [s])[..|starts|] == starts;
  }

  /** A sentence once split into words and matched against its text: the
      ID of its annotation, the words, and where each was found. */
  datatype Matching = Matching(src: string, words: seq<string>, starts: seq<nat>)
  type Matched = m: Matching | |m.starts| == |m.words| witness Matching("", [], [])

  /** The part of the inner loop that does not depend on the token counter:
      `ques.trim()` on a missing sentence throws NullPointerException, and a
      word that cannot be found ends execute with an error. */
  function Match(a: Annotation): Result<Matched>
  {
    match SentenceOf(a)
    case Failure(e) => Failure(e)
    case Success(ques) => Found(a.id, ques, Words(ques))
  }

  /** The words of the sentence ques of annotation src, found in it. */
  function Found(src: string, ques: string, words: seq<string>): Result<Matched>
  {
    match Starts(ques, words, 0, 0)
    case Failure(e) => Failure(e)
    case Success(starts) => Success(Matching(src, words, starts))
  }

  /** The tokens of a matched sentence, numbered from next. */
  function Number(m: Result<Matched>, next: nat): Result<seq<Annotation>>
  {
    match m
    case Failure(e) => Failure(e)
    case Success(s) => Success(TokensAt(s.src, s.words, s.starts, next))
  }

  /** The tokens of one source annotation, numbered from next. */
  function Tokens(a: Annotation, next: nat): Result<seq<Annotation>>
  {
    Number(Match(a), next)
  }

  /** The new view execute adds: the tokens of the annotations of view 0,
      in order (`getView(0)` on a container without views is out of bounds). */
  function TokenStage(views: seq<seq<Annotation>>): Result<seq<Annotation>>
  {
    if views == [] then Failure(INDEX_OUT_OF_BOUNDS) else Layer(Number, Each(Match, views[0]), 0, 0)
  }

  /** TokenAnnotation.execute on the views of the container: the outer loop
      over the annotations of view 0. */
  method Tokenize(views: seq<seq<Annotation>>) returns (r: Result<seq<Annotation>>)
    ensures r == TokenStage(views)
  {
    if |views| == 0 {
      return Failure(INDEX_OUT_OF_BOUNDS);
    }
    var annotations := views[0];
    var newview: seq<Annotation> := [];
    var id: nat := 0;  // one more than the Java counter: the number of the next token
    var i := 0;
    ghost var ms := Each(Match, annotations);
    ThenNothing(Layer(Number, ms, 0, 0));
    while i < |annotations|
      invariant 0 <= i <= |annotations|
      invariant Layer(Number, ms, 0, 0) == Then(newview, Layer(Number, ms, i, id))
    {
      var toks := SentenceTokens(annotations, i, id);
      LayerNext(Number, ms, i, id, Layer(Number, ms, 0, 0), newview, toks);
      if toks.Failure? {
        return Failure(toks.error);
      }
      newview := newview + toks.value;
      id := id + |toks.value|;
      i := i + 1;
    }
    assert newview + [] == newview;
    r := Success(newview);
  }

  /** The body of the outer loop, for annotation i: `ques.trim()` (which
      throws on a missing sentence) split on whitespace, then the inner loop. */
  method SentenceTokens(annotations: seq<Annotation>, i: nat, id: nat) returns (r: Result<seq<Annotation>>)
    requires i < |annotations|
    ensures r == Number(Each(Match, annotations)[i], id)
  {
    EachAt(Match, annotations, i);
    var temp := annotations[i];
    if !(SENTENCE in temp.features && temp.features[SENTENCE].Str?) {
      return Failure(NULL_POINTER);
    }
    var ques := temp.features[SENTENCE].s;
    var words := Words(ques);
    r := WordTokens(temp.id, ques, words, id);
  }

  /** The inner loop: each word is looked for from the cursor, which is where
      the previous word was found, and becomes a token numbered from id. */
  method WordTokens(src: string, ques: string, words: seq<string>, id: nat) returns (r: Result<seq<Annotation>>)
    ensures r == Number(Found(src, ques, words), id)
  {
    var toks: seq<Annotation> := [];
    ghost var starts: seq<nat> := [];
    var start: nat := 0;
    var j := 0;
    ThenNothing(Starts(ques, words, 0, 0));
    while j < |words|
      invariant 0 <= j <= |words| && |starts| == j
      invariant Starts(ques, words, 0, 0) == Then(starts, Starts(ques, words, j, start))
      invariant toks == TokensAt(src, words, starts, id)
    {
      var word := words[j];
      var s := IndexOf(ques, word, start);
      if s < 0 {
        return Failure("Unable to match word: " + word);
      }
      ThenThen(starts, [s], Starts(ques, words, j + 1, s));
      start := s;
      var end := start + |word|;
      var a := Annotation(src + "-tok" + NatToString(id + j), TOKEN, start, end,
                          map[WORD := Str(RemoveNonWord(word)), "Group" := Str(src)]);
      assert a == TokenOf(src, id + j, start, word);
      TokensAtSnoc(src, words, starts, start, id);
      toks := toks + [a];
      starts := starts + [start];
      j := j + 1;
    }
    assert starts + [] == starts;
    r := Success(toks);
  }

  // ------------------------------------------------------------ one sentence

  /** Searching from a cursor no later than the next word's own place never
      fails, so "Unable to match word" cannot be returned for the words of
      the sentence itself. */
  lemma {:induction false} StartsSucceed(ques: string, i: nat, cursor: nat)
    requires i <= |Words(ques)|
    requires i < |Words(ques)| ==> cursor <= WordSpans(ques)[i].start
    ensures Starts(ques, Words(ques), i, cursor).Success?
    decreases |Words(ques)| - i
  {
    var words := Words(ques);
    var sp := WordSpans(ques);
    if i < |words| {
      WordAt(ques, i);
      IndexOfAtMost(ques, words[i], cursor, sp[i].start);
      var start := IndexOf(ques, words[i], cursor);
      if i + 1 < |words| {
        WordSpansOrdered(ques, i);
      }
      StartsSucceed(ques, i + 1, start);
    }
  }

  /** Word i + k is found at or after the cursor, at an occurrence of it in
      the sentence, and no earlier than word i + k - 1. */
  lemma {:induction false} StartAt(ques: string, words: seq<string>, i: nat, cursor: nat, k: nat)
    requires i <= |words| && cursor <= |ques|
    requires Starts(ques, words, i, cursor).Success?
    requires k < |words| - i
    ensures var st := Starts(ques, words, i, cursor).value;
            && cursor <= st[k]
            && OccursAt(ques, words[i + k], st[k])
            && (k > 0 ==> st[k - 1] <= st[k])
    decreases k
  {
    var start := IndexOf(ques, words[i], cursor);
    var rest := Starts(ques, words, i + 1, start);
    var st := Starts(ques, words, i, cursor).value;
    assert st == [start] + rest.value;
    if k > 0 {
      StartAt(ques, words, i + 1, start, k - 1);
      assert st[k] == rest.value[k - 1];
      if k > 1 {
        assert st[k - 1] == rest.value[k - 2];
      }
    }
  }

  /** Token k of words that were all found covers an occurrence of word k,
      is numbered next + k, and starts no earlier than token k - 1. */
  lemma FoundToken(src: string, ques: string, words: seq<string>, next: nat, k: nat)
    requires Starts(ques, words, 0, 0).Success? && k < |words|
    ensures var r := TokensAt(src, words, Starts(ques, words, 0, 0).value, next);
            var t := r[k];
            && t.id == src + "-tok" + NatToString(next + k)
            && t.category == TOKEN
            && t.end == t.start + |words[k]|
            && OccursAt(ques, words[k], t.start)
            && t.features == map[WORD := Str(RemoveNonWord(words[k])), "Group" := Str(src)]
            && (k > 0 ==> r[k - 1].start <= t.start)
  {
    var st := Starts(ques, words, 0, 0).value;
    StartAt(ques, words, 0, 0, k);
    TokensAtIndex(src, words, st, next, k);
    if k > 0 {
      TokensAtIndex(src, words, st, next, k - 1);
    }
  }

  /** Token k of a sentence covers exactly word k of it: 0 <= start <=
      end == start + |word| <= |ques| and ques[start..end] is the word; its
      start is no earlier than token k - 1's; WORD is the word without non-word
      characters, Group the source ID, and the token is numbered next + k. */
  lemma TokenAt(a: Annotation, next: nat, k: nat)
    requires SentenceOf(a).Success? && k < |Words(SentenceOf(a).value)|
    ensures var ques := SentenceOf(a).value;
            var words := Words(ques);
            var r := Tokens(a, next);
            && r.Success? && |r.value| == |words|
            && var t := r.value[k];
               && t.id == a.id + "-tok" + NatToString(next + k)
               && t.category == TOKEN
               && 0 <= t.start <= t.end == t.start + |words[k]| <= |ques|
               && ques[t.start..t.end] == words[k]
               && t.features == map[WORD := Str(RemoveNonWord(words[k])), "Group" := Str(a.id)]
               && (k > 0 ==> r.value[k - 1].start <= t.start)
  {
    var ques := SentenceOf(a).value;
    StartsSucceed(ques, 0, 0);
    FoundToken(a.id, ques, Words(ques), next, k);
  }

  /** A sentence that is empty (or only whitespace) still yields one token:
      the empty word, at [0, 0). */
  lemma EmptySentenceToken(a: Annotation, next: nat)
    requires SentenceOf(a).Success?
    requires forall j :: 0 <= j < |SentenceOf(a).value| ==> IsTrimmable(SentenceOf(a).value[j])
    ensures Tokens(a, next) == Success([TokenOf(a.id, next, 0, "")])
  {
    var ques := SentenceOf(a).value;
    WordsEmptyIff(ques);
    IndexOfAtMost(ques, "", 0, 0);
    assert Starts(ques, [""], 1, 0) == Success([]);
    assert [0] + [] == [0];
    assert Starts(ques, [""], 0, 0) == Success([0]);
    assert TokensAt(a.id, [""], [0], next) == [TokenOf(a.id, next, 0, "")];
  }

  /** The cursor is the previous token's start, not its end: in "a a" both
      tokens are found at [0, 1). */
  lemma RepeatedWordSharesOffset(src: string, next: nat)
    ensures var a := Annotation(src, SENTENCE, 0, 3, map[SENTENCE := Str("a a")]);
            Tokens(a, next) == Success([TokenOf(src, next, 0, "a"), TokenOf(src, next + 1, 0, "a")])
  {
    var s := "a a";
    WordsOfRepeated();
    assert OccursAt(s, "a", 0);
    assert IndexOf(s, "a", 0) == 0;
    assert Starts(s, ["a", "a"], 2, 0) == Success([]);
    assert [0] + [] == [0] && [0] + [0] == [0, 0];
    assert Starts(s, ["a", "a"], 1, 0) == Success([0]);
    assert Starts(s, ["a", "a"], 0, 0) == Success([0, 0]);
    assert TokensAt(src, ["a", "a"], [0, 0], next) == [TokenOf(src, next, 0, "a"), TokenOf(src, next + 1, 0, "a")];
  }

  // ------------------------------------------------------------ the layer

  /** Matching fails only for a missing sentence: every word is found. */
  lemma MatchSucceeds(a: Annotation)
    ensures Match(a).Success? == SentenceOf(a).Success?
    ensures Match(a).Failure? ==> Match(a).error == NULL_POINTER
  {
    if SentenceOf(a).Success? {
      StartsSucceed(SentenceOf(a).value, 0, 0);
    }
  }

  /** The stage fails exactly when there is no view or some annotation of
      view 0 lacks its sentence; "Unable to match word" never happens. */
  lemma TokenStageSucceeds(views: seq<seq<Annotation>>)
    ensures TokenStage(views).Success? <==>
            views != [] && forall j :: 0 <= j < |views[0]| ==> SentenceOf(views[0][j]).Success?
    ensures TokenStage(views).Failure? ==> TokenStage(views).error in {INDEX_OUT_OF_BOUNDS, NULL_POINTER}
  {
    if views != [] {
      var anns := views[0];
      var ms := Each(Match, anns);
      forall j | 0 <= j < |anns|
        ensures ms[j] == Match(anns[j])
        ensures ms[j].Success? == SentenceOf(anns[j]).Success?
        ensures ms[j].Failure? ==> ms[j].error == NULL_POINTER
      {
        EachAt(Match, anns, j);
        MatchSucceeds(anns[j]);
      }
      LayerSucceeds(Number, (m: Result<Matched>) => m.Success?, {NULL_POINTER}, ms, 0, 0);
    }
  }

  /** How many tokens annotation a gives: one per word of its sentence
      (none when it has no sentence, which ends the stage). */
  function WordCount(a: Annotation): nat
  {
    match SentenceOf(a)
    case Success(ques) => |Words(ques)|
    case Failure(_) => 0
  }

  /** How many tokens the annotations anns give together. */
  function TokenCount(anns: seq<Annotation>): nat
  {
    if anns == [] then 0 else WordCount(anns[0]) + TokenCount(anns[1..])
  }

  /** How many tokens a matched sentence gives. */
  function MatchSize(m: Result<Matched>): nat
  {
    if m.Success? then |m.value.words| else 0
  }

  /** Counting matched sentences is counting the words of their annotations. */
  lemma {:induction false} MatchOutputs(anns: seq<Annotation>, i: nat, j: nat)
    requires i <= j <= |anns|
    ensures Outputs(MatchSize, Each(Match, anns), i, j) == TokenCount(anns[i..j])
    decreases j - i
  {
    if i < j {
      MatchOutputs(anns, i + 1, j);
      EachAt(Match, anns, i);
      MatchCount(anns[i]);
      assert anns[i..j][0] == anns[i] && anns[i..j][1..] == anns[i + 1..j];
    }
  }

  /** A sentence matches into as many words as it has. */
  lemma MatchCount(a: Annotation)
    ensures MatchSize(Match(a)) == WordCount(a)
  {
    MatchSucceeds(a);
  }

  /** The numbering of a matched sentence gives one token per word. */
  lemma NumberSized(ms: seq<Result<Matched>>)
    ensures forall j, n :: 0 <= j < |ms| && Number(ms[j], n).Success? ==> |Number(ms[j], n).value| == MatchSize(ms[j])
  {
  }

  /** The stage has one token per word of each annotation of view 0. */
  lemma StageTokenCount(views: seq<seq<Annotation>>)
    requires TokenStage(views).Success?
    ensures |TokenStage(views).value| == TokenCount(views[0])
  {
    var anns := views[0];
    var ms := Each(Match, anns);
    NumberSized(ms);
    var _ := LayerSized(Number, MatchSize, ms, 0, 0, 0);
    MatchOutputs(anns, 0, |anns|);
    assert anns[0..|anns|] == anns;
  }

  /** The layer over matched sentences is their numbered tokens one after
      the other. */
  lemma LayerTokenFrom(ms: seq<Result<Matched>>, k: nat) returns (j: nat, m: nat)
    requires Layer(Number, ms, 0, 0).Success? && k < |Layer(Number, ms, 0, 0).value|
    ensures && j < |ms| && m == Outputs(MatchSize, ms, 0, j)
            && m <= k < m + MatchSize(ms[j])
            && Number(ms[j], m).Success? && |Number(ms[j], m).value| == MatchSize(ms[j])
            && Layer(Number, ms, 0, 0).value[k] == Number(ms[j], m).value[k - m]
  {
    NumberSized(ms);
    j := LayerSized(Number, MatchSize, ms, 0, 0, k);
    m := Outputs(MatchSize, ms, 0, j);
    assert 0 + m == m;
  }

  /** The stage is the tokens of the annotations of view 0 one after the
      other: token k of the stage is token k - n of annotation j, numbered
      from n, the count of the tokens of the annotations before j. */
  lemma StageTokenFrom(views: seq<seq<Annotation>>, k: nat) returns (j: nat, n: nat)
    requires TokenStage(views).Success? && k < |TokenStage(views).value|
    ensures && j < |views[0]| && n == TokenCount(views[0][..j])
            && n <= k < n + WordCount(views[0][j])
            && Tokens(views[0][j], n).Success? && |Tokens(views[0][j], n).value| == WordCount(views[0][j])
            && TokenStage(views).value[k] == Tokens(views[0][j], n).value[k - n]
  {
    var anns := views[0];
    var ms := Each(Match, anns);
    j, n := LayerTokenFrom(ms, k);
    MatchOutputs(anns, 0, j);
    assert anns[0..j] == anns[..j];
    EachAt(Match, anns, j);
    MatchCount(anns[j]);
  }

  /** Token k of the stage comes from annotation j of view 0: it is numbered
      k, grouped under that annotation's ID, and lies within its sentence. */
  lemma StageTokenAt(views: seq<seq<Annotation>>, k: nat) returns (j: nat)
    requires TokenStage(views).Success? && k < |TokenStage(views).value|
    ensures var t := TokenStage(views).value[k];
            && j < |views[0]| && SentenceOf(views[0][j]).Success?
            && t.id == views[0][j].id + "-tok" + NatToString(k)
            && t.category == TOKEN && "Group" in t.features && t.features["Group"] == Str(views[0][j].id)
            && 0 <= t.start <= t.end <= |SentenceOf(views[0][j]).value|
  {
    var n;
    j, n := StageTokenFrom(views, k);
    var a := views[0][j];
    MatchSucceeds(a);
    TokenAt(a, n, k - n);
    assert n + (k - n) == k;
  }

  /** Token IDs are pairwise distinct: they end in "-tok" and the value of a
      counter shared by all sentences. */
  lemma TokenIdsDistinct(views: seq<seq<Annotation>>)
    requires TokenStage(views).Success?
    ensures var r := TokenStage(views).value;
            forall k1, k2 :: 0 <= k1 < k2 < |r| ==> r[k1].id != r[k2].id
  {
    var r := TokenStage(views).value;
    forall k1, k2 | 0 <= k1 < k2 < |r|
      ensures r[k1].id != r[k2].id
    {
      var j1 := StageTokenAt(views, k1);
      var j2 := StageTokenAt(views, k2);
      NumberedIdsDistinct(views[0][j1].id, views[0][j2].id, "-tok", k1, k2);
    }
  }
}
