/** The clipped-overlap scorer (AnswerScoring): over the last view, the
    first annotation is the question; every later annotation (an answer)
    scores the sum, over the question's n-gram keys, of the smaller of the
    two counts, divided by the question's total count. */
module Scoring {
  import opened Lif
  import opened Text
  import opened Counting
  import opened Ngrams

  /** The question as the scorer reads it: the feature key `n + "-Gram"`,
      the question's table under it (None when `getFeatureMap` throws the
      LappsIOException that execute catches, leaving `quesngram` empty), and
      `totalques`, the sum of its counts (0 without a table). */
  datatype Question = Question(key: string, table: Option<map<string, int>>, total: int)

  ghost function Ask(n: int, question: Annotation): Question
  {
    var key := GramKey(n);
    match FeatureMap(question, key)
    case None => Question(key, None, 0)
    case Some(t) => Question(key, Some(t), Sum(t))
  }

  /** `id.split("-")[0]`: an ID made only of dashes splits into no parts
      at all, and indexing the empty array throws. */
  function GroupOf(id: string): Result<string>
  {
    var parts := Split(id, '-');
    if |parts| == 0 then Failure(ARRAY_INDEX_OUT_OF_BOUNDS) else Success(parts[0])
  }

  /** The overlap of an answer: 0 when it has no table (the exception is
      caught and the score stays 0); `quesngram.get(0)` throws when the
      answer has a table but the question had none. */
  ghost function AnswerOverlap(q: Question, ans: Annotation): Result<int>
  {
    match FeatureMap(ans, q.key)
    case None => Success(0)
    case Some(a) =>
      match q.table
      case None => Failure(INDEX_OUT_OF_BOUNDS)
      case Some(t) => Success(Overlap(a, t))
  }

  /** The annotation added for an answer: same ID and span, category Token,
      the score overlap / totalques, and the group. */
  function ScoredAnswer(ans: Annotation, overlap: int, total: int, group: string): Annotation
  {
    Annotation(ans.id, TOKEN, ans.start, ans.end,
               map["Score" := Fraction(overlap, total), "Group" := Str(group)])
  }

  ghost function Judge(q: Question, ans: Annotation): Result<seq<Annotation>>
  {
    match AnswerOverlap(q, ans)
    case Failure(e) => Failure(e)
    case Success(overlap) =>
      match GroupOf(ans.id)
      case Failure(e) => Failure(e)
      case Success(g) => Success([ScoredAnswer(ans, overlap, q.total, g)])
  }

  /** Judge as the item function of a layer (answers are not numbered). */
  ghost function Judging(q: Question): (Annotation, nat) -> Result<seq<Annotation>>
  {
    (ans: Annotation, next: nat) => Judge(q, ans)
  }

  /** The new view execute adds for order n: one annotation per answer of
      the last view. `getView(-1)` on a container without views and
      `annotations.get(0)` on an empty last view are out of bounds. */
  ghost function ScoreStage(n: int, views: seq<seq<Annotation>>): Result<seq<Annotation>>
  {
    if views == [] then Failure(INDEX_OUT_OF_BOUNDS)
    else
      var anns := views[|views| - 1];
      if anns == [] then Failure(INDEX_OUT_OF_BOUNDS)
      else Layer(Judging(Ask(n, anns[0])), anns, 1, 0)
  }

  // ------------------------------------------------------------ execute

  /** The service, with the n-gram order it scores by. */
  class AnswerScoring {
    const n: int

    /** `new AnswerScoring()` scores by unigrams. */
    constructor ()
      ensures n == 1
    {
      n := 1;
    }

    constructor WithOrder(n: int)
      ensures this.n == n
    {
      this.n := n;
    }

    /** AnswerScoring.execute on the views of the container. */
    method Execute(views: seq<seq<Annotation>>) returns (r: Result<seq<Annotation>>)
      ensures r == ScoreStage(n, views)
    {
      if |views| == 0 {
        return Failure(INDEX_OUT_OF_BOUNDS);
      }
      var annotations := views[|views| - 1];
      if |annotations| == 0 {
        return Failure(INDEX_OUT_OF_BOUNDS);
      }
      var question := annotations[0];
      var key := GramKey(n);
      var quesngram: seq<map<string, int>> := [];
      var totalques := 0;
      var quesMap := FeatureMap(question, key);
      if quesMap.Some? {
        quesngram := [quesMap.value];
        totalques := Total(quesMap.value);
      }
      r := ScoreAnswers(annotations, key, quesngram, totalques, Ask(n, question));
    }
  }

  /** The loop of execute over the answers, the annotations after the
      question. */
  method ScoreAnswers(annotations: seq<Annotation>, key: string, quesngram: seq<map<string, int>>,
                      totalques: int, ghost q: Question) returns (r: Result<seq<Annotation>>)
    requires |annotations| >= 1
    requires q.key == key && q.total == totalques
    requires quesngram == if q.table.Some? then [q.table.value] else []
    ensures r == Layer(Judging(q), annotations, 1, 0)
  {
    ghost var f := Judging(q);
    var newview: seq<Annotation> := [];
    var i := 1;
    ThenNothing(Layer(f, annotations, 1, 0));
    while i < |annotations|
      invariant 1 <= i <= |annotations| && |newview| == i - 1
      invariant Layer(f, annotations, 1, 0) == Then(newview, Layer(f, annotations, i, i - 1))
    {
      var a := ScoreAnswer(annotations[i], key, quesngram, totalques, q);
      LayerNext(f, annotations, i, i - 1, Layer(f, annotations, 1, 0), newview, a);
      if a.Failure? {
        return Failure(a.error);
      }
      newview := newview + a.value;
      i := i + 1;
    }
    assert newview + [] == newview;
    r := Success(newview);
  }

  /** The loop over the question's keys that computes `totalques`. */
  method Total(m: map<string, int>) returns (total: int)
    ensures total == Sum(m)
  {
    total := 0;
    var keys := m.Keys;
    assert Restrict(m, keys) == m;
    while keys != {}
      invariant keys <= m.Keys
      invariant total + Sum(Restrict(m, keys)) == Sum(m)
      decreases |keys|
    {
      var word :| word in keys;
      SumRestrictStep(m, keys, word);
      total := total + m[word];
      keys := keys - {word};
    }
    assert Restrict(m, keys) == map[];
  }

  /** The loop over the question's keys that adds up the clipped counts. */
  method Credit(ansmap: map<string, int>, ques: map<string, int>) returns (score: int)
    ensures score == Overlap(ansmap, ques)
  {
    score := 0;
    ghost var c := Clipped(ansmap, ques);
    var keys := ques.Keys;
    assert Restrict(c, keys) == c;
    while keys != {}
      invariant keys <= ques.Keys
      invariant score + Sum(Restrict(c, keys)) == Sum(c)
      decreases |keys|
    {
      var quesword :| quesword in keys;
      SumRestrictStep(c, keys, quesword);
      if quesword in ansmap {
        score := score + Min(ansmap[quesword], ques[quesword]);
      }
      keys := keys - {quesword};
    }
    assert Restrict(c, keys) == map[];
  }

  /** The body of the loop over the answers, given what was read from the
      question. */
  method ScoreAnswer(ans: Annotation, key: string, quesngram: seq<map<string, int>>, totalques: int,
                     ghost q: Question) returns (r: Result<seq<Annotation>>)
    requires q.key == key && q.total == totalques
    requires quesngram == if q.table.Some? then [q.table.value] else []
    ensures r == Judge(q, ans)
  {
    var score := 0;
    var ansmap := FeatureMap(ans, key);
    if ansmap.Some? {
      if |quesngram| == 0 {
        return Failure(INDEX_OUT_OF_BOUNDS);
      }
      score := Credit(ansmap.value, quesngram[0]);
    }
    var parts := Split(ans.id, '-');
    if |parts| == 0 {
      return Failure(ARRAY_INDEX_OUT_OF_BOUNDS);
    }
    r := Success([Annotation(ans.id, TOKEN, ans.start, ans.end,
                             map["Score" := Fraction(score, totalques), "Group" := Str(parts[0])])]);
  }

  // ------------------------------------------------------------ properties

  /** s is non-empty and made only of dashes. */
  predicate AllDashes(s: string) {
    s != [] && forall i :: 0 <= i < |s| ==> s[i] == '-'
  }

  /** The group is the ID up to its first dash (all of it when it has none),
      and only an ID made of dashes has none. */
  lemma GroupIsPrefix(id: string)
    ensures GroupOf(id).Failure? <==> AllDashes(id)
    ensures GroupOf(id).Failure? ==> GroupOf(id).error == ARRAY_INDEX_OUT_OF_BOUNDS
    ensures GroupOf(id).Success? ==>
              var g := GroupOf(id).value;
              && g <= id && '-' !in g
              && (|g| < |id| ==> id[|g|] == '-')
  {
    SplitSpec(id, '-');
    if Split(id, '-') != [] {
      SplitFirst(id, '-');
    }
  }

  /** The group of an ID made of a non-empty dash-free prefix, a dash and
      anything after it is that prefix: the group of n-gram "A1-ngram1"
      is "A1". */
  lemma GroupOfPrefixed(p: string, rest: string)
    requires p != [] && '-' !in p
    ensures GroupOf(p + "-" + rest) == Success(p)
  {
    var id := p + "-" + rest;
    assert forall i :: 0 <= i < |p| ==> id[i] == p[i];
    assert id[|p|] == '-';
    GroupIsPrefix(id);
    var g := GroupOf(id).value;
    assert g == id[..|p|] == p;
  }

  /** The group of the n-gram ID "A1-ngram1" is "A1". */
  lemma GroupOfNgramId()
    ensures GroupOf("A1-ngram1") == Success("A1")
  {
    assert "A1" + "-" + "ngram1" == "A1-ngram1";
    GroupOfPrefixed("A1", "ngram1");
  }

  /** Whether answer ans can be scored: a table in the answer needs one in
      the question, and the ID must not be all dashes. */
  predicate Scorable(q: Question, ans: Annotation) {
    && (FeatureMap(ans, q.key).Some? ==> q.table.Some?)
    && !AllDashes(ans.id)
  }

  /** Every answer of anns (all but the first annotation) can be scored. */
  predicate AllScorable(q: Question, anns: seq<Annotation>) {
    forall j :: 1 <= j < |anns| ==> Scorable(q, anns[j])
  }

  lemma JudgeSucceeds(q: Question, ans: Annotation)
    ensures Judge(q, ans).Success? == Scorable(q, ans)
    ensures Judge(q, ans).Failure? ==> Judge(q, ans).error in {INDEX_OUT_OF_BOUNDS, ARRAY_INDEX_OUT_OF_BOUNDS}
  {
    GroupIsPrefix(ans.id);
  }

  /** The stage fails exactly when there is no view, the last view is
      empty, an answer has a table the question lacks, or an answer's ID is
      all dashes; a question without a table (or with a zero total) is not
      an error. */
  lemma ScoreStageSucceeds(n: int, views: seq<seq<Annotation>>)
    ensures ScoreStage(n, views).Success? <==>
            && views != []
            && views[|views| - 1] != []
            && AllScorable(Ask(n, views[|views| - 1][0]), views[|views| - 1])
    ensures ScoreStage(n, views).Failure? ==>
              ScoreStage(n, views).error in {INDEX_OUT_OF_BOUNDS, ARRAY_INDEX_OUT_OF_BOUNDS}
  {
    if views != [] && views[|views| - 1] != [] {
      var anns := views[|views| - 1];
      var q := Ask(n, anns[0]);
      forall j, next: nat | 1 <= j < |anns|
        ensures Judging(q)(anns[j], next).Success? == Scorable(q, anns[j])
        ensures Judging(q)(anns[j], next).Failure? ==>
                  Judging(q)(anns[j], next).error in {INDEX_OUT_OF_BOUNDS, ARRAY_INDEX_OUT_OF_BOUNDS}
      {
        JudgeSucceeds(q, anns[j]);
      }
      LayerSucceeds(Judging(q), (a: Annotation) => Scorable(q, a),
                    {INDEX_OUT_OF_BOUNDS, ARRAY_INDEX_OUT_OF_BOUNDS}, anns, 1, 0);
    }
  }

  /** Output k of the stage is what answer k + 1 of the last view is judged
      to be, the question (annotation 0) getting no output of its own. */
  lemma StageScoreAt(n: int, views: seq<seq<Annotation>>, k: nat)
    requires ScoreStage(n, views).Success?
    ensures views != [] && views[|views| - 1] != []
    ensures |ScoreStage(n, views).value| == |views[|views| - 1]| - 1
    ensures var anns := views[|views| - 1];
            k < |anns| - 1 ==>
              && Judge(Ask(n, anns[0]), anns[k + 1]).Success?
              && ScoreStage(n, views).value[k] == Judge(Ask(n, anns[0]), anns[k + 1]).value[0]
  {
    var anns := views[|views| - 1];
    var q := Ask(n, anns[0]);
    forall j, next: nat | 1 <= j < |anns| && Judging(q)(anns[j], next).Success?
      ensures |Judging(q)(anns[j], next).value| == 1
    {
    }
    LayerOfOnes(Judging(q), anns, 1, 0, k);
  }

  /** What a scored answer carries: its own ID and span, category Token,
      exactly the features Score and Group, the score being overlap /
      totalques, where totalques sums the question's counts and the overlap
      is the clipped overlap of the answer's table with the question's (0
      when the answer has none), and the group being the answer's ID up to
      its first dash. */
  lemma JudgedAnswer(n: int, question: Annotation, ans: Annotation)
    requires Judge(Ask(n, question), ans).Success?
    ensures |Judge(Ask(n, question), ans).value| == 1
    ensures var key := GramKey(n);
            var g := Judge(Ask(n, question), ans).value[0];
            && g.id == ans.id && g.category == TOKEN
            && g.start == ans.start && g.end == ans.end
            && g.features.Keys == {"Score", "Group"}
            && g.features["Score"].Fraction?
            && g.features["Score"].den == (if FeatureMap(question, key).Some? then Sum(FeatureMap(question, key).value) else 0)
            && (FeatureMap(ans, key).None? ==> g.features["Score"].num == 0)
            && (FeatureMap(ans, key).Some? ==>
                  && FeatureMap(question, key).Some?
                  && g.features["Score"].num == Overlap(FeatureMap(ans, key).value, FeatureMap(question, key).value))
            && GroupOf(ans.id).Success?
            && g.features["Group"] == Str(GroupOf(ans.id).value)
  {
    assert "Score" != "Group";
  }

  /** The score of g is overlap / totalques with 0 <= overlap <= totalques,
      a zero total coming with a zero overlap: a score in [0, 1], or NaN. */
  predicate ScoreBetween(g: Annotation) {
    && "Score" in g.features && g.features["Score"].Fraction?
    && 0 <= g.features["Score"].num <= g.features["Score"].den
    && (g.features["Score"].den == 0 ==> g.features["Score"].num == 0)
  }

  /** Clipping keeps every score in [0, 1]: with non-negative counts the
      overlap lies between 0 and totalques, so a zero total (a question
      without a table, or with an empty one) gives 0 / 0, which Java
      evaluates to NaN without raising anything. */
  lemma ScoreInRange(n: int, question: Annotation, ans: Annotation)
    requires Judge(Ask(n, question), ans).Success?
    requires FeatureMap(question, GramKey(n)).Some? ==> NonNegative(FeatureMap(question, GramKey(n)).value)
    requires FeatureMap(ans, GramKey(n)).Some? ==> NonNegative(FeatureMap(ans, GramKey(n)).value)
    ensures ScoreBetween(Judge(Ask(n, question), ans).value[0])
  {
    JudgedAnswer(n, question, ans);
    var key := GramKey(n);
    if FeatureMap(question, key).Some? {
      SumOfNonNegative(FeatureMap(question, key).value);
      if FeatureMap(ans, key).Some? {
        OverlapBounds(FeatureMap(ans, key).value, FeatureMap(question, key).value);
      }
    }
  }

  /** A question without an n-Gram table is no error: an answer without
      one either is scored 0 / 0, NaN. */
  lemma NoQuestionTable(n: int, question: Annotation, ans: Annotation)
    requires FeatureMap(question, GramKey(n)).None? && FeatureMap(ans, GramKey(n)).None?
    requires !AllDashes(ans.id)
    ensures Judge(Ask(n, question), ans).Success?
    ensures Judge(Ask(n, question), ans).value[0].features["Score"] == Fraction(0, 0)
  {
    GroupIsPrefix(ans.id);
  }

  /** The n-gram stage hands the scorer tables of positive counts: for every
      order n from 1 to 3, each annotation it writes has an n-Gram table. */
  lemma NgramTablesPositive(a: Annotation, k: nat, n: int)
    requires Count(a).Success? && 1 <= n <= ORDERS
    ensures var g := NgramOf(Count(a).value, k);
            && FeatureMap(g, GramKey(n)).Some?
            && forall w :: w in FeatureMap(g, GramKey(n)).value ==> FeatureMap(g, GramKey(n)).value[w] >= 1
  {
    var ques := SentenceOf(a).value;
    CountedNgram(a, k);
    GramKeys();
    if n == 1 {
      TableFacts(ques, 0);
    } else if n == 2 {
      TableFacts(ques, 1);
    } else if n == 3 {
      TableFacts(ques, 2);
    }
  }

  /** An n-gram ID is not all dashes: it holds the "n" of "-ngram". */
  lemma NgramIdNotDashes(src: string, k: nat)
    ensures !AllDashes(src + "-ngram" + NatToString(k))
  {
    var id := src + "-ngram" + NatToString(k);
    assert id[|src| + 1] == 'n';
  }

  /** Scoring what the n-gram stage wrote, by an order it counted, never
      fails on a non-empty view: the question has a table, and no n-gram
      ID is all dashes (each contains "-ngram"). Every annotation after
      the first is scored. */
  lemma PipelineScores(views: seq<seq<Annotation>>, n: int)
    requires 1 <= n <= ORDERS
    requires NgramStage(views).Success? && views[0] != []
    ensures ScoreStage(n, views + [NgramStage(views).value]).Success?
    ensures |ScoreStage(n, views + [NgramStage(views).value]).value| == |views[0]| - 1
  {
    var out := NgramStage(views).value;
    var vs := views + [out];
    assert vs[|vs| - 1] == out;
    StageNgram(views, 0);
    NgramTablesPositive(views[0][0], 0, n);
    var q := Ask(n, out[0]);
    forall j | 1 <= j < |out|
      ensures Scorable(q, out[j])
    {
      StageNgram(views, j);
      CountedNgram(views[0][j], j);
      NgramIdNotDashes(views[0][j].id, j);
    }
    ScoreStageSucceeds(n, vs);
    StageScoreAt(n, vs, 0);
  }

  /** Scoring what the n-gram stage wrote, by an order it counted, gives
      every answer a score in [0, 1], or NaN when the question sentence
      has fewer words than the order. */
  lemma PipelineScoreInRange(views: seq<seq<Annotation>>, n: int, k: nat)
    requires 1 <= n <= ORDERS
    requires NgramStage(views).Success? && k + 1 < |views[0]|
    ensures var scored := ScoreStage(n, views + [NgramStage(views).value]);
            && scored.Success? && k < |scored.value|
            && ScoreBetween(scored.value[k])
  {
    PipelineScores(views, n);
    var out := NgramStage(views).value;
    var vs := views + [out];
    assert vs[|vs| - 1] == out;
    StageScoreAt(n, vs, k);
    StageNgram(views, 0);
    StageNgram(views, k + 1);
    NgramTablesPositive(views[0][0], 0, n);
    NgramTablesPositive(views[0][k + 1], k + 1, n);
    ScoreInRange(n, out[0], out[k + 1]);
  }

  /** An answer with exactly the question's table scores totalques /
      totalques; one sharing no key with it scores 0 / totalques. */
  lemma ScoreExtremes(n: int, question: Annotation, ans: Annotation)
    requires Judge(Ask(n, question), ans).Success?
    ensures Judge(Ask(n, question), ans).value[0].features["Score"].Fraction?
    ensures var key := GramKey(n);
            var s := Judge(Ask(n, question), ans).value[0].features["Score"];
            && (FeatureMap(ans, key).Some? && FeatureMap(ans, key) == FeatureMap(question, key)
                ==> s.num == s.den)
            && (FeatureMap(ans, key).Some? && FeatureMap(question, key).Some?
                && FeatureMap(ans, key).value.Keys !! FeatureMap(question, key).value.Keys
                ==> s.num == 0)
  {
    JudgedAnswer(n, question, ans);
    var key := GramKey(n);
    if FeatureMap(ans, key).Some? && FeatureMap(question, key).Some? {
      OverlapSelf(FeatureMap(question, key).value);
      if FeatureMap(ans, key).value.Keys !! FeatureMap(question, key).value.Keys {
        OverlapDisjoint(FeatureMap(ans, key).value, FeatureMap(question, key).value);
      }
    }
  }

  /** More of the question's n-grams, or more of each, never lowers an
      answer's score. */
  lemma ScoreMonotone(n: int, question: Annotation, ans: Annotation, ans': Annotation)
    requires Judge(Ask(n, question), ans).Success? && Judge(Ask(n, question), ans').Success?
    requires FeatureMap(question, GramKey(n)).Some? ==> NonNegative(FeatureMap(question, GramKey(n)).value)
    requires FeatureMap(ans', GramKey(n)).Some? ==> NonNegative(FeatureMap(ans', GramKey(n)).value)
    requires FeatureMap(ans, GramKey(n)).Some? ==> FeatureMap(ans', GramKey(n)).Some?
    requires FeatureMap(ans, GramKey(n)).Some? ==>
               var a := FeatureMap(ans, GramKey(n)).value;
               var a' := FeatureMap(ans', GramKey(n)).value;
               a.Keys <= a'.Keys && forall w :: w in a ==> a[w] <= a'[w]
    ensures Judge(Ask(n, question), ans).value[0].features["Score"].Fraction?
    ensures Judge(Ask(n, question), ans').value[0].features["Score"].Fraction?
    ensures Judge(Ask(n, question), ans).value[0].features["Score"].num
            <= Judge(Ask(n, question), ans').value[0].features["Score"].num
  {
    JudgedAnswer(n, question, ans);
    JudgedAnswer(n, question, ans');
    var key := GramKey(n);
    if FeatureMap(ans', key).Some? {
      var q := FeatureMap(question, key).value;
      var a' := FeatureMap(ans', key).value;
      SumOfNonNegative(Clipped(a', q));
      if FeatureMap(ans, key).Some? {
        OverlapMonotone(FeatureMap(ans, key).value, a', q);
      }
    }
  }
}
