/** The n-gram counter (NgramAnnotation): for every sentence annotation of
    view 0, tables counting the windows of one, two and three consecutive
    words of the sentence, each window being the text between where its
    first word and its last word are found, with ",.?!;:" removed. */
module Ngrams {
  import opened Lif
  import opened Text
  import opened Counting

  /** The orders counted: the loop `for t = 0; t < 3` makes the 1-, 2- and
      3-gram tables. */
  const ORDERS: nat := 3

  /** The texts of the windows z, z + 1, ... of t + 1 words: the first word
      is looked for from the cursor (where the previous window's first word
      was found), the last one from where the first was found, and the text
      runs from the first's position to the end of the last's. An unmatched
      word or a window whose end falls before its start or past the sentence
      makes `substring` throw. */
  function Windows(ques: string, words: seq<string>, t: nat, z: nat, cursor: nat): (r: Result<seq<string>>)
    requires z <= |words|
    ensures r.Success? ==> |r.value| == if z + t < |words| then |words| - t - z else 0
    ensures r.Failure? ==> r.error == STRING_INDEX_OUT_OF_BOUNDS
    decreases |words| - z
  {
    if z + t >= |words| then Success([])
    else
      var start := IndexOf(ques, words[z], cursor);
      if start < 0 then Failure(STRING_INDEX_OUT_OF_BOUNDS)
      else
        var end := IndexOf(ques, words[z + t], start) + |words[z + t]|;
        if end < start || end > |ques| then Failure(STRING_INDEX_OUT_OF_BOUNDS)
        else Then([StripPunct(ques[start..end])], Windows(ques, words, t, z + 1, start))
  }

  /** The table of order t + 1: each window text with its number of
      occurrences. */
  function Table(ques: string, words: seq<string>, t: nat): Result<map<string, int>>
  {
    match Windows(ques, words, t, 0, 0)
    case Failure(e) => Failure(e)
    case Success(cs) => Success(Tally(cs))
  }

  /** The tables of orders t + 1 up to ORDERS, in order. */
  function TablesFrom(ques: string, words: seq<string>, t: nat): (r: Result<seq<map<string, int>>>)
    requires t <= ORDERS
    ensures r.Success? ==> |r.value| == ORDERS - t
    decreases ORDERS - t
  {
    if t == ORDERS then Success([])
    else match Table(ques, words, t)
      case Failure(e) => Failure(e)
      case Success(m) => Then([m], TablesFrom(ques, words, t + 1))
  }

  /** A sentence annotation once counted: its ID, its span and its tables. */
  datatype Counted = Counted(id: string, start: int, end: int, tables: seq<map<string, int>>)

  /** The part of the loop body that does not depend on the ID counter:
      `ques.trim()` on a missing sentence throws NullPointerException. */
  function Count(a: Annotation): Result<Counted>
  {
    match SentenceOf(a)
    case Failure(e) => Failure(e)
    case Success(ques) =>
      match TablesFrom(ques, Words(ques), 0)
      case Failure(e) => Failure(e)
      case Success(ts) => Success(Counted(a.id, a.start, a.end, ts))
  }

  /** The features the tables are stored under: table t under the key
      `(t + 1) + "-Gram"`. */
  function GramFeatures(tables: seq<map<string, int>>): map<string, FeatureValue>
    decreases |tables|
  {
    if tables == [] then map[]
    else
      var n := |tables| - 1;
      GramFeatures(tables[..n])[GramKey(n + 1) := Counts(tables[n])]
  }

  /** The annotation added for a counted sentence, the k-th of the run (the
      counter starts at -1 and is pre-incremented): its ID is the source's
      with "-ngram" and k appended, its Group the source's ID. */
  function NgramOf(c: Counted, k: nat): Annotation
  {
    Annotation(c.id + "-ngram" + NatToString(k), SENTENCE, c.start, c.end,
               GramFeatures(c.tables)["Group" := Str(c.id)])
  }

  function Label(c: Result<Counted>, next: nat): Result<seq<Annotation>>
  {
    match c
    case Failure(e) => Failure(e)
    case Success(c) => Success([NgramOf(c, next)])
  }

  /** The new view execute adds: one annotation per annotation of view 0. */
  function NgramStage(views: seq<seq<Annotation>>): Result<seq<Annotation>>
  {
    if views == [] then Failure(INDEX_OUT_OF_BOUNDS) else Layer(Label, Each(Count, views[0]), 0, 0)
  }

  // ------------------------------------------------------------ execute

  /** NgramAnnotation.execute on the views of the container: the loop over
      the annotations of view 0. */
  method Annotate(views: seq<seq<Annotation>>) returns (r: Result<seq<Annotation>>)
    ensures r == NgramStage(views)
  {
    if |views| == 0 {
      return Failure(INDEX_OUT_OF_BOUNDS);
    }
    var annotations := views[0];
    var newview: seq<Annotation> := [];
    var id: nat := 0;  // one more than the Java counter: the number of the next annotation
    var i := 0;
    ghost var cs := Each(Count, annotations);
    ThenNothing(Layer(Label, cs, 0, 0));
    while i < |annotations|
      invariant 0 <= i <= |annotations|
      invariant Layer(Label, cs, 0, 0) == Then(newview, Layer(Label, cs, i, id))
    {
      var a := SentenceNgrams(annotations, i, id);
      LayerNext(Label, cs, i, id, Layer(Label, cs, 0, 0), newview, a);
      if a.Failure? {
        return Failure(a.error);
      }
      newview := newview + a.value;
      id := id + |a.value|;
      i := i + 1;
    }
    assert newview + [] == newview;
    r := Success(newview);
  }

  /** The body of the loop for annotation i: the sentence split into words,
      one table per order, then the Group feature. */
  method SentenceNgrams(annotations: seq<Annotation>, i: nat, id: nat) returns (r: Result<seq<Annotation>>)
    requires i < |annotations|
    ensures r == Label(Each(Count, annotations)[i], id)
  {
    EachAt(Count, annotations, i);
    var temp := annotations[i];
    if !(SENTENCE in temp.features && temp.features[SENTENCE].Str?) {
      return Failure(NULL_POINTER);
    }
    var ques := temp.features[SENTENCE].s;
    var features := GramTables(ques, Words(ques));
    if features.Failure? {
      return Failure(features.error);
    }
    r := Success([Annotation(temp.id + "-ngram" + NatToString(id), SENTENCE, temp.start, temp.end,
                             features.value["Group" := Str(temp.id)])]);
  }

  /** The loop over the orders: the table of order t + 1 is added under the
      key `(t + 1) + "-Gram"`. */
  method GramTables(ques: string, words: seq<string>) returns (r: Result<map<string, FeatureValue>>)
    ensures r.Success? <==> TablesFrom(ques, words, 0).Success?
    ensures r.Success? ==> r.value == GramFeatures(TablesFrom(ques, words, 0).value)
    ensures r.Failure? ==> r.error == TablesFrom(ques, words, 0).error
  {
    var features: map<string, FeatureValue> := map[];
    ghost var tables: seq<map<string, int>> := [];
    var t := 0;
    ThenNothing(TablesFrom(ques, words, 0));
    while t < ORDERS
      invariant 0 <= t <= ORDERS && |tables| == t
      invariant TablesFrom(ques, words, 0) == Then(tables, TablesFrom(ques, words, t))
      invariant features == GramFeatures(tables)
    {
      var count := CountWindows(ques, words, t);
      if count.Failure? {
        return Failure(count.error);
      }
      ThenThen(tables, [count.value], TablesFrom(ques, words, t + 1));
      assert (tables + [count.value])[..t] == tables;
      features := features[GramKey(t + 1) := Counts(count.value)];
      tables := tables + [count.value];
      t := t + 1;
    }
    assert tables + [] == tables;
    r := Success(features);
  }

  /** The counting loop for order t + 1: each window's text, stripped of
      punctuation, is counted in a HashMap. */
  method CountWindows(ques: string, words: seq<string>, t: nat) returns (r: Result<map<string, int>>)
    ensures r == Table(ques, words, t)
  {
    var count: map<string, int> := map[];
    ghost var cs: seq<string> := [];
    var start: nat := 0;
    var z: nat := 0;
    ThenNothing(Windows(ques, words, t, 0, 0));
    while z + t < |words|
      invariant z <= |words|
      invariant Windows(ques, words, t, 0, 0) == Then(cs, Windows(ques, words, t, z, start))
      invariant count == Tally(cs)
      decreases |words| - z
    {
      var word := words[z];
      var nextword := words[z + t];
      var s := IndexOf(ques, word, start);
      if s < 0 {
        // `substring(-1, end)`
        WindowsNext(ques, words, t, z, start, cs, s, 0);
        return Failure(STRING_INDEX_OUT_OF_BOUNDS);
      }
      var end := IndexOf(ques, nextword, s) + |nextword|;
      WindowsNext(ques, words, t, z, start, cs, s, end);
      if end < s || end > |ques| {
        return Failure(STRING_INDEX_OUT_OF_BOUNDS);
      }
      var content := StripPunct(ques[s..end]);
      ghost var before := count;
      if content in count {
        count := count[content := count[content] + 1];
      } else {
        count := count[content := 1];
      }
      TallyNext(cs, content, before, count);
      cs := cs + [content];
      start := s;
      z := z + 1;
    }
    assert cs + [] == cs;
    r := Success(count);
  }

  /** The invariant of the counting loop, carried one window: the windows
      are the texts so far followed by the ones from window z, which either
      throws or adds its text. */
  lemma WindowsNext(ques: string, words: seq<string>, t: nat, z: nat, cursor: nat, cs: seq<string>,
                    start: int, end: int)
    requires z + t < |words|
    requires start == IndexOf(ques, words[z], cursor)
    requires start >= 0 ==> end == IndexOf(ques, words[z + t], start) + |words[z + t]|
    requires Windows(ques, words, t, 0, 0) == Then(cs, Windows(ques, words, t, z, cursor))
    ensures start < 0 || end < start || end > |ques| ==>
              Windows(ques, words, t, 0, 0) == Failure(STRING_INDEX_OUT_OF_BOUNDS)
    ensures 0 <= start <= end <= |ques| ==>
              Windows(ques, words, t, 0, 0)
              == Then(cs + [StripPunct(ques[start..end])], Windows(ques, words, t, z + 1, start))
  {
    if 0 <= start <= end <= |ques| {
      ThenThen(cs, [StripPunct(ques[start..end])], Windows(ques, words, t, z + 1, start));
    }
  }

  // ------------------------------------------------------------ one sentence

  /** Each word occurs in the sentence at its position, and the positions
      never decrease. */
  predicate FoundInOrder(ques: string, words: seq<string>, pos: seq<nat>) {
    && |pos| == |words|
    && (forall k :: 0 <= k < |words| ==> OccursAt(ques, words[k], pos[k]))
    && (forall a, b :: 0 <= a <= b < |pos| ==> pos[a] <= pos[b])
  }

  /** The words of a sentence are found in it in order, at their spans. */
  lemma WordsFoundInOrder(ques: string) returns (pos: seq<nat>)
    ensures FoundInOrder(ques, Words(ques), pos)
    ensures forall k :: 0 <= k < |pos| ==> pos[k] == WordSpans(ques)[k].start
  {
    var sp := WordSpans(ques);
    pos := seq(|sp|, k requires 0 <= k < |sp| => sp[k].start);
    forall k | 0 <= k < |Words(ques)|
      ensures OccursAt(ques, Words(ques)[k], pos[k])
    {
      WordAt(ques, k);
    }
    forall a, b | 0 <= a <= b < |pos|
      ensures pos[a] <= pos[b]
    {
      WordSpansMonotone(ques, a, b);
    }
  }

  /** One window of words found in order, looked for from a cursor no later
      than its first word: both `indexOf` calls find an occurrence, the
      first no later than the first word's own place, the last no earlier
      than the first and no later than its own place, so the window lies
      within the sentence. */
  lemma WindowInside(ques: string, words: seq<string>, pos: seq<nat>, t: nat, z: nat, cursor: nat)
    requires FoundInOrder(ques, words, pos)
    requires z + t < |words| && cursor <= pos[z]
    ensures var start := IndexOf(ques, words[z], cursor);
            && 0 <= start <= pos[z]
            && OccursAt(ques, words[z], start)
            && start <= IndexOf(ques, words[z + t], start) <= pos[z + t]
            && OccursAt(ques, words[z + t], IndexOf(ques, words[z + t], start))
            && start <= IndexOf(ques, words[z + t], start) + |words[z + t]| <= |ques|
  {
    IndexOfAtMost(ques, words[z], cursor, pos[z]);
    var start := IndexOf(ques, words[z], cursor);
    IndexOfAtMost(ques, words[z + t], start, pos[z + t]);
  }

  /** A window within the sentence, followed by windows that succeed,
      succeeds, and its text comes first. */
  lemma WindowsStep(ques: string, words: seq<string>, t: nat, z: nat, cursor: nat)
    requires z + t < |words|
    requires var start := IndexOf(ques, words[z], cursor);
             && 0 <= start <= IndexOf(ques, words[z + t], start) + |words[z + t]| <= |ques|
             && Windows(ques, words, t, z + 1, start).Success?
    ensures var start := IndexOf(ques, words[z], cursor);
            var end := IndexOf(ques, words[z + t], start) + |words[z + t]|;
            && Windows(ques, words, t, z, cursor).Success?
            && Windows(ques, words, t, z, cursor).value
               == [StripPunct(ques[start..end])] + Windows(ques, words, t, z + 1, start).value
  {
    var start := IndexOf(ques, words[z], cursor);
    var end := IndexOf(ques, words[z + t], start) + |words[z + t]|;
    assert Windows(ques, words, t, z, cursor)
           == Then([StripPunct(ques[start..end])], Windows(ques, words, t, z + 1, start));
  }

  /** Counting the windows of words found in order never makes `substring`
      throw. */
  lemma {:induction false} WindowsSucceed(ques: string, words: seq<string>, pos: seq<nat>, t: nat, z: nat, cursor: nat)
    requires FoundInOrder(ques, words, pos) && z <= |words|
    requires z + t < |words| ==> cursor <= pos[z]
    ensures Windows(ques, words, t, z, cursor).Success?
    decreases |words| - z
  {
    if z + t < |words| {
      WindowInside(ques, words, pos, t, z, cursor);
      WindowsSucceed(ques, words, pos, t, z + 1, IndexOf(ques, words[z], cursor));
      WindowsStep(ques, words, t, z, cursor);
    }
  }

  /** Window text of a window spanning sp, whose first word is first and
      whose last word is last: sp runs from an occurrence of first to the
      end of an occurrence of last, which starts no earlier, and the text is
      that stretch of the sentence with ",.?!;:" removed. */
  predicate WindowFrom(ques: string, first: string, last: string, sp: Span, text: string) {
    && sp.start + |last| <= sp.end <= |ques|
    && OccursAt(ques, first, sp.start)
    && OccursAt(ques, last, sp.end - |last|)
    && text == StripPunct(ques[sp.start..sp.end])
  }

  /** The window texts ws of order t + 1 from window z on, placed at sp:
      the first is the text from word z to word z + t, its first word found
      no later than its own place pos[z] and its last word no later than
      pos[z + t], the next window starts no earlier, and so on. */
  predicate WindowsPlaced(ques: string, words: seq<string>, pos: seq<nat>, t: nat, z: nat,
                          sp: seq<Span>, ws: seq<string>)
    decreases |sp|
  {
    && |sp| == |ws|
    && (|sp| > 0 ==>
          && z + t < |words| && z + t < |pos|
          && WindowFrom(ques, words[z], words[z + t], sp[0], ws[0])
          && sp[0].start <= pos[z]
          && sp[0].end - |words[z + t]| <= pos[z + t]
          && (|sp| > 1 ==> sp[0].start <= sp[1].start)
          && WindowsPlaced(ques, words, pos, t, z + 1, sp[1..], ws[1..]))
  }

  /** Placed windows, one at a time: window k is the text from word z + k
      to word z + k + t, found no later than those words' own places, and
      starts no earlier than window k - 1. */
  lemma {:induction false} PlacedAt(ques: string, words: seq<string>, pos: seq<nat>, t: nat, z: nat,
                                    sp: seq<Span>, ws: seq<string>, k: nat)
    requires WindowsPlaced(ques, words, pos, t, z, sp, ws) && k < |sp|
    ensures k < |ws| && z + k + t < |words| && z + k + t < |pos|
    ensures WindowFrom(ques, words[z + k], words[z + k + t], sp[k], ws[k])
    ensures sp[k].start <= pos[z + k] && sp[k].end - |words[z + k + t]| <= pos[z + k + t]
    ensures 0 < k ==> sp[k - 1].start <= sp[k].start
    decreases k
  {
    if k > 0 {
      PlacedAt(ques, words, pos, t, z + 1, sp[1..], ws[1..], k - 1);
      assert sp[1..][k - 1] == sp[k] && ws[1..][k - 1] == ws[k];
      assert z + 1 + (k - 1) == z + k;
      if k > 1 {
        assert sp[1..][k - 2] == sp[k - 1];
      }
    }
  }

  /** Where the windows of words found in order come from: looked for from
      a cursor no later than the first word's place, they are placed as
      WindowsPlaced says, the first starting at or after the cursor. */
  lemma {:induction false} WindowSpans(ques: string, words: seq<string>, pos: seq<nat>, t: nat, z: nat, cursor: nat)
    returns (sp: seq<Span>)
    requires FoundInOrder(ques, words, pos) && z <= |words|
    requires z + t < |words| ==> cursor <= pos[z]
    ensures Windows(ques, words, t, z, cursor).Success?
    ensures WindowsPlaced(ques, words, pos, t, z, sp, Windows(ques, words, t, z, cursor).value)
    ensures |sp| > 0 ==> cursor <= sp[0].start
    decreases |words| - z
  {
    if z + t >= |words| {
      WindowsSucceed(ques, words, pos, t, z, cursor);
      return [];
    }
    NextCursor(ques, words, pos, t, z, cursor);
    var rest := WindowSpans(ques, words, pos, t, z + 1, IndexOf(ques, words[z], cursor));
    sp := FirstWindow(ques, words, pos, t, z, cursor, rest);
  }

  /** The next window is looked for from no later than its first word. */
  lemma NextCursor(ques: string, words: seq<string>, pos: seq<nat>, t: nat, z: nat, cursor: nat)
    requires FoundInOrder(ques, words, pos)
    requires z + t < |words| && cursor <= pos[z]
    ensures 0 <= IndexOf(ques, words[z], cursor)
    ensures z + 1 + t < |words| ==> IndexOf(ques, words[z], cursor) <= pos[z + 1]
  {
    WindowInside(ques, words, pos, t, z, cursor);
    if z + 1 + t < |words| {
      assert pos[z] <= pos[z + 1];
    }
  }

  /** The first window of words found in order, looked for from a cursor no
      later than its first word, in front of the windows after it placed
      from where it was found: they are all placed, the first at or after
      the cursor. */
  lemma FirstWindow(ques: string, words: seq<string>, pos: seq<nat>, t: nat, z: nat, cursor: nat,
                    rest: seq<Span>)
    returns (sp: seq<Span>)
    requires FoundInOrder(ques, words, pos)
    requires z + t < |words| && cursor <= pos[z]
    requires var start := IndexOf(ques, words[z], cursor);
             && start >= 0
             && Windows(ques, words, t, z + 1, start).Success?
             && WindowsPlaced(ques, words, pos, t, z + 1, rest, Windows(ques, words, t, z + 1, start).value)
             && (|rest| > 0 ==> start <= rest[0].start)
    ensures Windows(ques, words, t, z, cursor).Success?
    ensures WindowsPlaced(ques, words, pos, t, z, sp, Windows(ques, words, t, z, cursor).value)
    ensures |sp| > 0 ==> cursor <= sp[0].start
  {
    WindowInside(ques, words, pos, t, z, cursor);
    var start := IndexOf(ques, words[z], cursor);
    var end := IndexOf(ques, words[z + t], start) + |words[z + t]|;
    WindowsStep(ques, words, t, z, cursor);
    var ws := Windows(ques, words, t, z + 1, start).value;
    var text := StripPunct(ques[start..end]);
    sp := [Span(start, end)] + rest;
    assert sp[1..] == rest && ([text] + ws)[1..] == ws;
  }

  /** Where each word of a sentence starts. */
  function WordStarts(ques: string): (pos: seq<nat>)
    ensures |pos| == |Words(ques)|
  {
    seq(|WordSpans(ques)|, k requires 0 <= k < |WordSpans(ques)| => WordSpans(ques)[k].start)
  }

  /** The windows of order t + 1 of a sentence: window k is the text, with
      ",.?!;:" removed, from an occurrence of word k to the end of an
      occurrence of word k + t, each found no later than where the word
      itself starts, and no window starts before the one before it. */
  lemma SentenceWindowSpans(ques: string, t: nat) returns (sp: seq<Span>)
    ensures Windows(ques, Words(ques), t, 0, 0).Success?
    ensures |sp| == |Windows(ques, Words(ques), t, 0, 0).value|
    ensures forall k {:trigger sp[k]} :: 0 <= k < |sp| ==>
              && k + t < |Words(ques)|
              && WindowFrom(ques, Words(ques)[k], Words(ques)[k + t], sp[k], Windows(ques, Words(ques), t, 0, 0).value[k])
              && sp[k].start <= WordStarts(ques)[k]
              && sp[k].end - |Words(ques)[k + t]| <= WordStarts(ques)[k + t]
    ensures forall k :: 0 < k < |sp| ==> sp[k - 1].start <= sp[k].start
  {
    var pos := WordsFoundInOrder(ques);
    assert pos == WordStarts(ques);
    sp := WindowSpans(ques, Words(ques), pos, t, 0, 0);
    var ws := Windows(ques, Words(ques), t, 0, 0).value;
    forall k {:trigger sp[k]} | 0 <= k < |sp|
      ensures && k + t < |Words(ques)|
              && WindowFrom(ques, Words(ques)[k], Words(ques)[k + t], sp[k], ws[k])
              && sp[k].start <= WordStarts(ques)[k]
              && sp[k].end - |Words(ques)[k + t]| <= WordStarts(ques)[k + t]
      ensures 0 < k ==> sp[k - 1].start <= sp[k].start
    {
      PlacedFromStart(ques, Words(ques), pos, t, sp, ws, k);
    }
  }

  /** Placed windows from the first word on, one at a time. */
  lemma PlacedFromStart(ques: string, words: seq<string>, pos: seq<nat>, t: nat,
                        sp: seq<Span>, ws: seq<string>, k: nat)
    requires WindowsPlaced(ques, words, pos, t, 0, sp, ws) && k < |sp|
    ensures k < |ws| && k + t < |words| && k + t < |pos|
    ensures WindowFrom(ques, words[k], words[k + t], sp[k], ws[k])
    ensures sp[k].start <= pos[k] && sp[k].end - |words[k + t]| <= pos[k + t]
    ensures 0 < k ==> sp[k - 1].start <= sp[k].start
  {
    PlacedAt(ques, words, pos, t, 0, sp, ws, k);
  }

  /** In particular for the sentence's own words. */
  lemma SentenceWindows(ques: string, t: nat)
    ensures Windows(ques, Words(ques), t, 0, 0).Success?
  {
    var pos := WordsFoundInOrder(ques);
    WindowsSucceed(ques, Words(ques), pos, t, 0, 0);
  }

  /** No window text holds one of the characters ",.?!;:". */
  lemma {:induction false} WindowsStripped(ques: string, words: seq<string>, t: nat, z: nat, cursor: nat, k: nat)
    requires z <= |words|
    requires Windows(ques, words, t, z, cursor).Success? && k < |Windows(ques, words, t, z, cursor).value|
    ensures forall i :: 0 <= i < |Windows(ques, words, t, z, cursor).value[k]| ==>
              !IsStrippedPunct(Windows(ques, words, t, z, cursor).value[k][i])
    decreases |words| - z
  {
    var start := IndexOf(ques, words[z], cursor);
    if k > 0 {
      WindowsStripped(ques, words, t, z + 1, start, k - 1);
    }
  }

  /** A unigram window is its word: the word is found at `start`, and
      looking for it again from there finds it at the same place. */
  lemma {:induction false} UnigramWindow(ques: string, words: seq<string>, z: nat, cursor: nat, k: nat)
    requires z <= |words|
    requires Windows(ques, words, 0, z, cursor).Success? && k < |Windows(ques, words, 0, z, cursor).value|
    ensures Windows(ques, words, 0, z, cursor).value[k] == StripPunct(words[z + k])
    decreases |words| - z
  {
    var start := IndexOf(ques, words[z], cursor);
    IndexOfAtMost(ques, words[z], start, start);
    if k > 0 {
      UnigramWindow(ques, words, z + 1, start, k - 1);
      assert z + 1 + (k - 1) == z + k;
    }
  }

  /** The words with ",.?!;:" removed. */
  function StripAll(ws: seq<string>): (r: seq<string>)
    ensures |r| == |ws|
  {
    seq(|ws|, k requires 0 <= k < |ws| => StripPunct(ws[k]))
  }

  /** The 1-gram table counts the words of the sentence, punctuation
      removed, and its counts add up to the number of words. */
  lemma UnigramTable(ques: string)
    ensures Table(ques, Words(ques), 0) == Success(Tally(StripAll(Words(ques))))
    ensures Sum(Table(ques, Words(ques), 0).value) == |Words(ques)|
  {
    var words := Words(ques);
    SentenceWindows(ques, 0);
    var cs := Windows(ques, words, 0, 0, 0).value;
    forall k | 0 <= k < |cs|
      ensures cs[k] == StripAll(words)[k]
    {
      UnigramWindow(ques, words, 0, 0, k);
    }
    assert cs == StripAll(words);
    TallySum(cs);
  }

  /** The window texts of order t + 1 of a sentence of w words: there are
      max(w - t, 0) of them, none holding one of ",.?!;:". */
  lemma SentenceWindowTexts(ques: string, t: nat) returns (cs: seq<string>)
    ensures Table(ques, Words(ques), t) == Success(Tally(cs))
    ensures |cs| == if t < |Words(ques)| then |Words(ques)| - t else 0
    ensures forall k, i :: 0 <= k < |cs| && 0 <= i < |cs[k]| ==> !IsStrippedPunct(cs[k][i])
  {
    var words := Words(ques);
    SentenceWindows(ques, t);
    cs := Windows(ques, words, t, 0, 0).value;
    forall k | 0 <= k < |cs|
      ensures forall i :: 0 <= i < |cs[k]| ==> !IsStrippedPunct(cs[k][i])
    {
      WindowsStripped(ques, words, t, 0, 0, k);
    }
  }

  /** A blank sentence is the one empty word: its 1-Gram table counts ""
      once (so scoring by unigrams divides by 1), and it has no bigram or
      trigram window. */
  lemma BlankSentenceTables(ques: string)
    requires forall j :: 0 <= j < |ques| ==> IsTrimmable(ques[j])
    ensures Table(ques, Words(ques), 0) == Success(map["" := 1])
    ensures Table(ques, Words(ques), 1) == Success(map[])
    ensures Table(ques, Words(ques), 2) == Success(map[])
  {
    WordsOfBlank(ques);
    UnigramTable(ques);
    assert StripAll([""]) == [StripPunct("")];
    assert StripPunct("") == "";
    assert Tally([""]) == map["" := 1];
    TableFacts(ques, 1);
    TableFacts(ques, 2);
  }

  /** The table of order t + 1 of a sentence of w words: its counts add up
      to the number of windows, max(w - t, 0), it has at most that many
      keys, every count is at least 1 and no key holds one of ",.?!;:". */
  lemma TableFacts(ques: string, t: nat)
    ensures var words := Words(ques);
            var r := Table(ques, words, t);
            var windows := if t < |words| then |words| - t else 0;
            && r.Success?
            && Sum(r.value) == windows
            && |r.value| <= windows
            && (forall g :: g in r.value ==> r.value[g] >= 1)
            && (forall g :: g in r.value ==> forall i :: 0 <= i < |g| ==> !IsStrippedPunct(g[i]))
  {
    var cs := SentenceWindowTexts(ques, t);
    TallySum(cs);
    TallySize(cs);
    TallyCounts(cs);
    forall g | g in Tally(cs)
      ensures forall i :: 0 <= i < |g| ==> !IsStrippedPunct(g[i])
    {
      assert g in cs;
      var k :| 0 <= k < |cs| && cs[k] == g;
    }
  }

  /** The window of a 2-gram ends where its second word is first found
      after the window's start, which can be the first word itself: the
      bigram table of "a a" is {"a": 1}, not {"a a": 1}. */
  lemma RepeatedWordBigram()
    ensures Table("a a", Words("a a"), 1) == Success(map["a" := 1])
  {
    var s := "a a";
    WordsOfRepeated();
    assert OccursAt(s, "a", 0);
    assert IndexOf(s, "a", 0) == 0;
    assert s[0..1] == "a";
    assert StripPunct("a") == "a" by {
      WithoutKeeps("a", IsStrippedPunct);
    }
    assert ["a", "a"][1] == "a" && ["a"] + [] == ["a"];
    assert Windows(s, ["a", "a"], 1, 1, 0) == Success([]);
    assert Windows(s, ["a", "a"], 1, 0, 0) == Success(["a"]);
    assert Tally(["a"]) == map["a" := 1] by {
      assert ["a"][..0] == [];
    }
  }

  // ------------------------------------------------------------ the stage

  /** Every order's table of a sentence's own words is made. */
  lemma {:induction false} TablesSucceed(ques: string, t: nat)
    requires t <= ORDERS
    ensures TablesFrom(ques, Words(ques), t).Success?
    decreases ORDERS - t
  {
    if t < ORDERS {
      SentenceWindows(ques, t);
      TablesSucceed(ques, t + 1);
    }
  }

  /** Entry o - t of the tables from order t + 1 on is the table of order
      o + 1. */
  lemma {:induction false} TablesAt(ques: string, words: seq<string>, t: nat, o: nat)
    requires t <= o < ORDERS && TablesFrom(ques, words, t).Success?
    ensures Table(ques, words, o).Success?
    ensures TablesFrom(ques, words, t).value[o - t] == Table(ques, words, o).value
    decreases o - t
  {
    if t < o {
      TablesAt(ques, words, t + 1, o);
    }
  }

  /** Counting fails only for a missing sentence. */
  lemma CountSucceeds(a: Annotation)
    ensures Count(a).Success? == SentenceOf(a).Success?
    ensures Count(a).Failure? ==> Count(a).error == NULL_POINTER
  {
    if SentenceOf(a).Success? {
      TablesSucceed(SentenceOf(a).value, 0);
    }
  }

  /** The stage fails exactly when there is no view or some annotation of
      view 0 lacks its sentence; `substring` never throws. */
  lemma NgramStageSucceeds(views: seq<seq<Annotation>>)
    ensures NgramStage(views).Success? <==>
            views != [] && forall j :: 0 <= j < |views[0]| ==> SentenceOf(views[0][j]).Success?
    ensures NgramStage(views).Failure? ==> NgramStage(views).error in {INDEX_OUT_OF_BOUNDS, NULL_POINTER}
  {
    if views != [] {
      var anns := views[0];
      var cs := Each(Count, anns);
      forall j | 0 <= j < |anns|
        ensures cs[j] == Count(anns[j])
        ensures cs[j].Success? == SentenceOf(anns[j]).Success?
        ensures cs[j].Failure? ==> cs[j].error == NULL_POINTER
      {
        EachAt(Count, anns, j);
        CountSucceeds(anns[j]);
      }
      LayerSucceeds(Label, (c: Result<Counted>) => c.Success?, {NULL_POINTER}, cs, 0, 0);
    }
  }

  /** The features of the three tables: exactly the keys "1-Gram",
      "2-Gram" and "3-Gram", table t under the key of order t + 1. */
  lemma GramFeaturesOfThree(ts: seq<map<string, int>>)
    requires |ts| == ORDERS
    ensures GramFeatures(ts).Keys == {"1-Gram", "2-Gram", "3-Gram"}
    ensures GramFeatures(ts)["1-Gram"] == Counts(ts[0])
    ensures GramFeatures(ts)["2-Gram"] == Counts(ts[1])
    ensures GramFeatures(ts)["3-Gram"] == Counts(ts[2])
  {
    GramKeys();
    assert "1-Gram"[0] != "2-Gram"[0] && "1-Gram"[0] != "3-Gram"[0] && "2-Gram"[0] != "3-Gram"[0];
    assert GramFeatures(ts[..1]) == map["1-Gram" := Counts(ts[0])] by {
      assert ts[..1][..0] == [];
    }
    assert GramFeatures(ts[..2]) == map["1-Gram" := Counts(ts[0]), "2-Gram" := Counts(ts[1])] by {
      assert ts[..2][..1] == ts[..1];
    }
    assert ts[..2] == ts[..|ts| - 1];
  }

  /** The stage makes exactly one annotation per annotation of view 0,
      from its count, numbered by its position. */
  lemma StageNgram(views: seq<seq<Annotation>>, k: nat)
    requires NgramStage(views).Success?
    ensures |NgramStage(views).value| == |views[0]|
    ensures k < |views[0]| ==> Count(views[0][k]).Success?
                               && NgramStage(views).value[k] == NgramOf(Count(views[0][k]).value, k)
  {
    var cs := Each(Count, views[0]);
    LayerOfOnes(Label, cs, 0, 0, k);
    if k < |views[0]| {
      EachAt(Count, views[0], k);
      assert cs[0 + k] == Count(views[0][k]);
    }
  }

  /** The annotation made for a sentence annotation a, numbered k: same
      span, ID "<a's ID>-ngram<k>", category Sentence, and the features
      1-Gram, 2-Gram and 3-Gram holding the tables of the sentence's windows
      of one, two and three words, and Group holding a's ID. */
  lemma CountedNgram(a: Annotation, k: nat)
    requires Count(a).Success?
    ensures var ques := SentenceOf(a).value;
            var g := NgramOf(Count(a).value, k);
            && SentenceOf(a).Success?
            && g.id == a.id + "-ngram" + NatToString(k)
            && g.category == SENTENCE
            && g.start == a.start && g.end == a.end
            && g.features.Keys == {"1-Gram", "2-Gram", "3-Gram", "Group"}
            && g.features["Group"] == Str(a.id)
            && Table(ques, Words(ques), 0).Success?
            && Table(ques, Words(ques), 1).Success?
            && Table(ques, Words(ques), 2).Success?
            && g.features["1-Gram"] == Counts(Table(ques, Words(ques), 0).value)
            && g.features["2-Gram"] == Counts(Table(ques, Words(ques), 1).value)
            && g.features["3-Gram"] == Counts(Table(ques, Words(ques), 2).value)
  {
    var ques := SentenceOf(a).value;
    var ts := TablesFrom(ques, Words(ques), 0).value;
    assert Count(a).value.tables == ts;
    GramFeaturesOfThree(ts);
    TablesAt(ques, Words(ques), 0, 0);
    TablesAt(ques, Words(ques), 0, 1);
    TablesAt(ques, Words(ques), 0, 2);
  }

  /** The IDs of the stage's annotations are pairwise distinct, even when
      the source IDs are not. */
  lemma NgramIdsDistinct(views: seq<seq<Annotation>>, k1: nat, k2: nat)
    requires NgramStage(views).Success?
    requires k1 < |NgramStage(views).value| && k2 < |NgramStage(views).value| && k1 != k2
    ensures NgramStage(views).value[k1].id != NgramStage(views).value[k2].id
  {
    StageNgram(views, k1);
    StageNgram(views, k2);
    NumberedIdsDistinct(views[0][k1].id, views[0][k2].id, "-ngram", k1, k2);
  }
}
