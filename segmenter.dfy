/** The line segmenter (ElementAnnotation): the input text is split into
    lines; a line whose first field is "Q" becomes the question, every other
    line an answer "A1", "A2", ... carrying its score field. */
module Segmenter {
  import opened Lif
  import opened Text

  /** What the loop body reads off one line: the span of the annotation it
      adds, its sentence and, for an answer, its score field. */
  datatype Entry =
    | Question(start: nat, end: nat, sentence: string)
    | Answer(start: nat, end: nat, sentence: string, score: string)

  /** The loop body on one line, or None where one of its `substring` calls
      throws: no space at all, or a non-question line with a single space. */
  function ParseLine(line: string): Option<Entry>
  {
    var start := IndexOf(line, " ", 0);
    if start < 0 then None
    else if line[..start] == "Q" then Some(Question(start, |line|, line[start + 1..]))
    else
      var newstart := IndexOf(line, " ", start + 1);
      if newstart < 0 then None
      else Some(Answer(newstart, |line|, line[newstart + 1..], line[start + 1..newstart]))
  }

  /** The annotation the body adds for an entry, `id` being the number of
      answers before it (answer IDs are made with `"A" + (++id)`). */
  function Annotate(e: Entry, id: nat): Annotation
  {
    match e
    case Question(start, end, sentence) =>
      Annotation("Question", SENTENCE, start, end,
                 map["Type" := Str("Question"), SENTENCE := Str(sentence)])
    case Answer(start, end, sentence, score) =>
      Annotation("A" + NatToString(id + 1), SENTENCE, start, end,
                 map["Type" := Str("Answer"), SENTENCE := Str(sentence), "Score" := Str(score)])
  }

  predicate IsAnswer(a: Annotation) {
    "Type" in a.features && a.features["Type"] == Str("Answer")
  }

  /** Number of answer annotations in anns. */
  function AnswersIn(anns: seq<Annotation>): nat
    decreases |anns|
  {
    if anns == [] then 0 else (if IsAnswer(anns[0]) then 1 else 0) + AnswersIn(anns[1..])
  }

  /** What the body makes of each line. */
  function Entries(lines: seq<string>): (es: seq<Option<Entry>>)
    ensures |es| == |lines|
    ensures forall i :: 0 <= i < |lines| ==> es[i] == ParseLine(lines[i])
  {
    seq(|lines|, i requires 0 <= i < |lines| => ParseLine(lines[i]))
  }

  /** The annotations of the loop over the entries of the lines: one per
      line, until the first line on which the body throws; the handler sits
      outside the loop, so the remaining lines are dropped and what was added
      so far is kept. */
  function Segments(es: seq<Option<Entry>>, id: nat): seq<Annotation>
    decreases |es|
  {
    if es == [] then []
    else match es[0]
      case None => []
      case Some(e) => [Annotate(e, id)] + Segments(es[1..], if e.Answer? then id + 1 else id)
  }

  /** ElementAnnotation.execute on the text of the container: the new view. */
  method Segment(text: string) returns (view: seq<Annotation>)
    ensures view == Segments(Entries(Split(text, '\n')), 0)
  {
    var lines := Split(text, '\n');
    view := SegmentLines(lines);
  }

  /** The loop of execute over the lines of the text. */
  method SegmentLines(lines: seq<string>) returns (view: seq<Annotation>)
    ensures view == Segments(Entries(lines), 0)
  {
    ghost var es := Entries(lines);
    var id := 0;
    view := [];
    var i := 0;
    while i < |lines|
      invariant 0 <= i <= |lines|
      invariant Segments(es, 0) == view + Segments(es[i..], id)
    {
      assert es[i..][0] == ParseLine(lines[i]) && es[i..][1..] == es[i + 1..];
      var a, id' := LineAnnotation(lines[i], id);
      if a.None? {
        break;
      }
      view := view + [a.value];
      id := id';
      i := i + 1;
    }
  }

  /** The loop body on qline, `id` answers having been seen: the annotation
      it adds and the new answer count, or None where a `substring` throws. */
  method LineAnnotation(qline: string, id: nat) returns (a: Option<Annotation>, id': nat)
    ensures ParseLine(qline).None? ==> a.None?
    ensures ParseLine(qline).Some? ==>
              && a == Some(Annotate(ParseLine(qline).value, id))
              && id' == if ParseLine(qline).value.Answer? then id + 1 else id
  {
    var start := IndexOf(qline, " ", 0);
    var end := |qline|;
    if start < 0 {
      // qline.substring(0, -1) throws
      return None, id;
    }
    if qline[..start] == "Q" {
      a := Some(Annotation("Question", SENTENCE, start, end,
                           map["Type" := Str("Question"), SENTENCE := Str(qline[start + 1..])]));
      id' := id;
    } else {
      var newstart := IndexOf(qline, " ", start + 1);
      if newstart < 0 {
        // qline.substring(start + 1, -1) throws
        return None, id;
      }
      var score := qline[start + 1..newstart];
      AnswerEntry(qline);
      id' := id + 1;
      a := Some(Annotation("A" + NatToString(id'), SENTENCE, newstart, end,
                           map["Type" := Str("Answer"), SENTENCE := Str(qline[newstart + 1..]), "Score" := Str(score)]));
    }
  }

  // ------------------------------------------------------------ one line

  lemma AnswerEntry(line: string)
    requires IndexOf(line, " ", 0) >= 0 && line[..IndexOf(line, " ", 0)] != "Q"
    requires IndexOf(line, " ", IndexOf(line, " ", 0) + 1) >= 0
    ensures var start := IndexOf(line, " ", 0);
            var newstart := IndexOf(line, " ", start + 1);
            ParseLine(line) == Some(Answer(newstart, |line|, line[newstart + 1..], line[start + 1..newstart]))
  {
  }

  lemma FirstSpaceAt(line: string, from: nat, p: nat)
    requires from <= p < |line| && line[p] == ' '
    requires forall j :: from <= j < p ==> line[j] != ' '
    ensures IndexOf(line, " ", from) == p
  {
    assert line[p..p + 1] == [line[p]];
    IndexOfAtMost(line, " ", from, p);
    var r := IndexOf(line, " ", from);
    assert line[r..r + 1] == [line[r]];
  }

  lemma NoSpaceFrom(line: string, from: nat)
    requires from <= |line|
    requires forall j :: from <= j < |line| ==> line[j] != ' '
    ensures IndexOf(line, " ", from) == -1
  {
    forall j | from <= j <= |line| ensures !OccursAt(line, " ", j) {
      if j < |line| {
        assert line[j..j + 1] == [line[j]];
      }
    }
  }

  /** No space before the first one IndexOf finds. */
  lemma SpaceFreeBefore(line: string, from: nat)
    requires from <= |line| && IndexOf(line, " ", from) >= 0
    ensures var p := IndexOf(line, " ", from);
            line[p] == ' ' && ' ' !in line[from..p]
  {
    var p := IndexOf(line, " ", from);
    assert line[p..p + 1] == " ";
    forall j | from <= j < p ensures line[j] != ' ' {
      IndexOfMisses(line, " ", from, j);
      assert line[j..j + 1] == [line[j]];
    }
    assert forall k :: 0 <= k < p - from ==> line[from..p][k] == line[from + k];
  }

  /** "Q " + sentence is the question: the sentence after the first space,
      spanning [1, |line|). */
  lemma QuestionLine(sentence: string)
    ensures var line := "Q " + sentence;
            ParseLine(line) == Some(Question(1, |line|, sentence))
  {
    var line := "Q " + sentence;
    FirstSpaceAt(line, 0, 1);
    assert line[..1] == "Q";
    assert line[2..] == sentence;
  }

  /** first + " " + score + " " + sentence, with no space in first or score
      and first other than "Q", is an answer spanning from the second space
      to the end of the line. */
  lemma AnswerLine(first: string, score: string, sentence: string)
    requires ' ' !in first && ' ' !in score && first != "Q"
    ensures var line := first + " " + score + " " + sentence;
            ParseLine(line) == Some(Answer(|first| + 1 + |score|, |line|, sentence, score))
  {
    var line := first + " " + score + " " + sentence;
    var p := |first|;
    var q := |first| + 1 + |score|;
    forall j | 0 <= j < p ensures line[j] != ' ' {
      assert line[j] == first[j];
    }
    FirstSpaceAt(line, 0, p);
    forall j | p + 1 <= j < q ensures line[j] != ' ' {
      assert line[j] == score[j - p - 1];
    }
    FirstSpaceAt(line, p + 1, q);
    assert line[..p] == first;
    assert line[p + 1..q] == score;
    assert line[q + 1..] == sentence;
  }

  /** A line without any space ends the loop (this includes "" and "Q"). */
  lemma LineWithoutSpace(line: string)
    requires ' ' !in line
    ensures ParseLine(line) == None
  {
    NoSpaceFrom(line, 0);
  }

  /** So does a non-question line with a single space. */
  lemma AnswerLineWithOneSpace(first: string, rest: string)
    requires ' ' !in first && ' ' !in rest && first != "Q"
    ensures ParseLine(first + " " + rest) == None
  {
    var line := first + " " + rest;
    var p := |first|;
    forall j | 0 <= j < p ensures line[j] != ' ' {
      assert line[j] == first[j];
    }
    FirstSpaceAt(line, 0, p);
    assert line[..p] == first;
    forall j | p + 1 <= j < |line| ensures line[j] != ' ' {
      assert line[j] == rest[j - p - 1];
    }
    NoSpaceFrom(line, p + 1);
  }

  /** Conversely, every line the body accepts has one of those two forms:
      "Q", a space and the sentence; or a space-free first field other than
      "Q", a space, a space-free score, a space and the sentence. Either way
      the annotation starts at a space and ends at the end of the line. */
  lemma ParseLineShape(line: string)
    requires ParseLine(line).Some?
    ensures var e := ParseLine(line).value;
            && e.start < e.end == |line| && line[e.start] == ' '
            && e.sentence == line[e.start + 1..]
            && (e.Question? ==> e.start == 1 && line == "Q" + " " + e.sentence)
            && (e.Answer? ==>
                  var first := line[..e.start - |e.score| - 1];
                  && ' ' !in first && ' ' !in e.score && first != "Q"
                  && line == first + " " + e.score + " " + e.sentence)
  {
    if ParseLine(line).value.Question? {
      QuestionLineShape(line);
    } else {
      AnswerLineShape(line);
    }
  }

  lemma QuestionLineShape(line: string)
    requires ParseLine(line).Some? && ParseLine(line).value.Question?
    ensures var e := ParseLine(line).value;
            && e.start == 1 < e.end == |line| && line[e.start] == ' '
            && e.sentence == line[e.start + 1..]
            && line == "Q" + " " + e.sentence
  {
    var start := IndexOf(line, " ", 0);
    assert line[..start] == "Q";
    assert line == line[..start] + " " + line[start + 1..];
  }

  lemma AnswerLineShape(line: string)
    requires ParseLine(line).Some? && ParseLine(line).value.Answer?
    ensures var e := ParseLine(line).value;
            && e.start < e.end == |line| && line[e.start] == ' '
            && e.sentence == line[e.start + 1..]
            && var first := line[..e.start - |e.score| - 1];
               && ' ' !in first && ' ' !in e.score && first != "Q"
               && line == first + " " + e.score + " " + e.sentence
  {
    var start := IndexOf(line, " ", 0);
    var newstart := IndexOf(line, " ", start + 1);
    var e := ParseLine(line).value;
    assert e == Answer(newstart, |line|, line[newstart + 1..], line[start + 1..newstart]);
    assert line[..e.start - |e.score| - 1] == line[..start];
    assert ' ' !in line[..start] && line[start] == ' ' by {
      SpaceFreeBefore(line, 0);
      assert line[0..start] == line[..start];
    }
    assert ' ' !in e.score && line[newstart] == ' ' by {
      SpaceFreeBefore(line, start + 1);
    }
    AroundTwoSpaces(line, start, newstart);
  }

  /** An answer entry makes an answer annotation numbered one past the
      answers before it; a question entry makes the annotation "Question". */
  lemma AnnotateShape(e: Entry, id: nat)
    ensures var a := Annotate(e, id);
            && IsAnswer(a) == e.Answer?
            && a.category == SENTENCE && a.start == e.start && a.end == e.end
            && SENTENCE in a.features && a.features[SENTENCE] == Str(e.sentence)
            && a.id == (if e.Answer? then "A" + NatToString(id + 1) else "Question")
            && (e.Answer? ==> "Score" in a.features && a.features["Score"] == Str(e.score))
  {
  }

  // ------------------------------------------------------------ all lines

  lemma {:induction false} SegmentsLength(es: seq<Option<Entry>>, id: nat)
    ensures |Segments(es, id)| <= |es|
    decreases |es|
  {
    if es != [] && es[0].Some? {
      var e := es[0].value;
      SegmentsLength(es[1..], if e.Answer? then id + 1 else id);
    }
  }

  /** The j-th annotation is the one entry j makes, numbered after the
      answers before it. */
  lemma {:induction false} SegmentsAt(es: seq<Option<Entry>>, id: nat, j: nat)
    requires j < |Segments(es, id)|
    ensures var r := Segments(es, id);
            && j < |es| && es[j].Some?
            && r[j] == Annotate(es[j].value, id + AnswersIn(r[..j]))
    decreases j
  {
    SegmentsLength(es, id);
    var r := Segments(es, id);
    var e := es[0].value;
    var id' := if e.Answer? then id + 1 else id;
    var rest := Segments(es[1..], id');
    assert r == [Annotate(e, id)] + rest;
    AnnotateShape(e, id);
    if j == 0 {
      assert r[..0] == [];
    } else {
      SegmentsAt(es[1..], id', j - 1);
      assert r[..j][0] == r[0] && r[..j][1..] == rest[..j - 1];
    }
  }

  /** The entry after the last annotation, if there is one, is a line the
      body throws on. */
  lemma {:induction false} SegmentsStop(es: seq<Option<Entry>>, id: nat)
    requires |Segments(es, id)| < |es|
    ensures es[|Segments(es, id)|] == None
    decreases |es|
  {
    if es[0].Some? {
      var e := es[0].value;
      SegmentsStop(es[1..], if e.Answer? then id + 1 else id);
    }
  }

  /** The view of the lines of a text: the lines the body accepts, in
      order, up to the first one it throws on, each with the annotation its
      entry makes. */
  lemma SegmentSpec(lines: seq<string>)
    ensures var r := Segments(Entries(lines), 0);
            && |r| <= |lines|
            && (forall j :: 0 <= j < |r| ==>
                  ParseLine(lines[j]).Some? && r[j] == Annotate(ParseLine(lines[j]).value, AnswersIn(r[..j])))
            && (|r| < |lines| ==> ParseLine(lines[|r|]) == None)
  {
    var es := Entries(lines);
    var r := Segments(es, 0);
    SegmentsLength(es, 0);
    forall j | 0 <= j < |r|
      ensures ParseLine(lines[j]).Some? && r[j] == Annotate(ParseLine(lines[j]).value, AnswersIn(r[..j]))
    {
      SegmentsAt(es, 0, j);
    }
    if |r| < |lines| {
      SegmentsStop(es, 0);
    }
  }

  lemma {:induction false} AnswersInPrefix(anns: seq<Annotation>, i: nat, j: nat)
    requires i <= j <= |anns|
    ensures AnswersIn(anns[..i]) <= AnswersIn(anns[..j])
    ensures i < j && IsAnswer(anns[j - 1]) ==> AnswersIn(anns[..i]) < AnswersIn(anns[..j])
    decreases |anns|
  {
    if i > 0 {
      AnswersInPrefix(anns[1..], i - 1, j - 1);
      assert anns[..i][1..] == anns[1..][..i - 1];
      assert anns[..j][1..] == anns[1..][..j - 1];
    } else if j > 0 {
      AnswersInPrefix(anns[1..], 0, j - 1);
      assert anns[..j][1..] == anns[1..][..j - 1];
      assert anns[1..][..0] == [];
    }
  }

  lemma AnswersInLast(anns: seq<Annotation>, j: nat)
    requires j < |anns|
    ensures AnswersIn(anns[..j + 1]) == AnswersIn(anns[..j]) + (if IsAnswer(anns[j]) then 1 else 0)
    decreases j
  {
    if j > 0 {
      AnswersInLast(anns[1..], j - 1);
      assert anns[..j + 1][1..] == anns[1..][..j];
      assert anns[..j][1..] == anns[1..][..j - 1];
    }
  }

  /** The k-th answer of a view is "A" + k. */
  lemma AnswerIdAt(es: seq<Option<Entry>>, j: nat)
    requires j < |Segments(es, 0)| && IsAnswer(Segments(es, 0)[j])
    ensures var r := Segments(es, 0);
            r[j].id == "A" + NatToString(AnswersIn(r[..j + 1]))
  {
    var r := Segments(es, 0);
    SegmentsAt(es, 0, j);
    AnnotateShape(es[j].value, AnswersIn(r[..j]));
    AnswersInLast(r, j);
  }

  /** No two answers of a view share an ID. */
  lemma AnswerIdsDistinct(es: seq<Option<Entry>>)
    ensures var r := Segments(es, 0);
            forall i, j :: 0 <= i < j < |r| && IsAnswer(r[i]) && IsAnswer(r[j]) ==> r[i].id != r[j].id
  {
    var r := Segments(es, 0);
    forall i, j | 0 <= i < j < |r| && IsAnswer(r[i]) && IsAnswer(r[j])
      ensures r[i].id != r[j].id
    {
      var m := AnswersIn(r[..i + 1]);
      var n := AnswersIn(r[..j + 1]);
      AnswersInPrefix(r, i + 1, j + 1);
      AnswerIdAt(es, i);
      AnswerIdAt(es, j);
      if r[i].id == r[j].id {
        assert NatToString(m) == r[i].id[1..];
        assert NatToString(n) == r[j].id[1..];
        NatToStringInjective(m, n);
      }
    }
  }
}
