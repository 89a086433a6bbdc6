/** The annotation record the four stages share, the LAPPS constants they use,
    and the Result type that stands for an exception escaping a stage. */
module Lif {

  /** A stage either produces its value or fails; `error` names the Java
      exception (or error payload) that ends the stage. */
  datatype Result<+T> = Success(value: T) | Failure(error: string) {
    predicate IsFailure() { Failure? }

    function PropagateFailure<U>(): Result<U>
      requires Failure?
    {
      Failure(error)
    }

    function Extract(): T
      requires Success?
    {
      value
    }
  }

  datatype Option<+T> = None | Some(value: T)

  /** A feature value: a string, a table of counts (an n-gram table), or the
      quotient num / den that the scorer computes in floating point. */
  datatype FeatureValue =
    | Str(s: string)
    | Counts(table: map<string, int>)
    | Fraction(num: int, den: int)

  /** One annotation of a view: identifier, category, [start, end) and features. */
  datatype Annotation = Annotation(
    id: string,
    category: string,
    start: int,
    end: int,
    features: map<string, FeatureValue>)

  /** LAPPS vocabulary: Uri.SENTENCE, Uri.TOKEN and Features.Token.WORD. */
  const SENTENCE: string := "http://vocab.lappsgrid.org/Sentence"
  const TOKEN: string := "http://vocab.lappsgrid.org/Token"
  const WORD: string := "word"

  /** Names of the Java exceptions that can end a stage. */
  const NULL_POINTER: string := "NullPointerException"
  const INDEX_OUT_OF_BOUNDS: string := "IndexOutOfBoundsException"
  const STRING_INDEX_OUT_OF_BOUNDS: string := "StringIndexOutOfBoundsException"
  const ARRAY_INDEX_OUT_OF_BOUNDS: string := "ArrayIndexOutOfBoundsException"

  /** `annotation.getFeature(Uri.SENTENCE)` dereferenced by `trim()`: a missing
      sentence feature is a NullPointerException. A feature that is present
      but not a string is treated the same way. */
  function SentenceOf(a: Annotation): (r: Result<string>)
    ensures r.Success? <==> SENTENCE in a.features && a.features[SENTENCE].Str?
    ensures r.Success? ==> a.features[SENTENCE] == Str(r.value)
    ensures r.Failure? ==> r.error == NULL_POINTER
  {
    if SENTENCE in a.features && a.features[SENTENCE].Str? then Success(a.features[SENTENCE].s)
    else Failure(NULL_POINTER)
  }

  /** `annotation.getFeatureMap(key)`: None where the library raises
      LappsIOException (the feature is absent or is not a table). */
  function FeatureMap(a: Annotation, key: string): (r: Option<map<string, int>>)
    ensures r.Some? <==> key in a.features && a.features[key].Counts?
    ensures r.Some? ==> a.features[key] == Counts(r.value)
  {
    if key in a.features && a.features[key].Counts? then Some(a.features[key].table) else None
  }

  /** `Then(prefix, r)`: the output so far followed by whatever r produces. */
  function Then<T>(prefix: seq<T>, r: Result<seq<T>>): (s: Result<seq<T>>)
    ensures s.Success? <==> r.Success?
    ensures s.Success? ==> s.value == prefix + r.value
    ensures s.Failure? ==> s.error == r.error
  {
    match r
    case Success(v) => Success(prefix + v)
    case Failure(e) => Failure(e)
  }

  lemma ThenNothing<T>(r: Result<seq<T>>)
    ensures Then([], r) == r
  {
    match r
    case Success(v) => assert [] + v == v;
    case Failure(e) =>
  }

  /** Appending in two steps is appending the concatenation. */
  lemma ThenThen<T>(prefix: seq<T>, more: seq<T>, r: Result<seq<T>>)
    ensures Then(prefix, Then(more, r)) == Then(prefix + more, r)
  {
    match r
    case Success(v) => assert prefix + (more + v) == (prefix + more) + v;
    case Failure(e) =>
  }

  // ------------------------------------------------------------ layers

  /** f applied to each of xs, in order: what the stages compute for each
      source annotation before numbering its outputs. */
  function Each<X, Y>(f: X -> Y, xs: seq<X>): (ys: seq<Y>)
    ensures |ys| == |xs|
  {
    if xs == [] then [] else Each(f, xs[..|xs| - 1]) + [f(xs[|xs| - 1])]
  }

  lemma {:induction false} EachAt<X, Y>(f: X -> Y, xs: seq<X>, i: nat)
    requires i < |xs|
    ensures Each(f, xs)[i] == f(xs[i])
    decreases |xs|
  {
    var n := |xs| - 1;
    if i < n {
      EachAt(f, xs[..n], i);
    }
  }

  /** The outer loop shared by the token and n-gram stages: for each item
      (what a source annotation gives) from i on, in order, f gives the annotations to append (or
      the failure that ends the stage), `next` being the number of outputs
      made so far, which the stages use to number their IDs. */
  function Layer<X>(f: (X, nat) -> Result<seq<Annotation>>, anns: seq<X>, i: nat, next: nat): Result<seq<Annotation>>
    requires i <= |anns|
    decreases |anns| - i
  {
    if i == |anns| then Success([])
    else match f(anns[i], next)
      case Failure(e) => Failure(e)
      case Success(out) => Then(out, Layer(f, anns, i + 1, next + |out|))
  }

  /** The loop invariant of a layer, carried one step: when the whole of what
      a stage computes is the output so far followed by the layer from i,
      and r is what f gives for item i, the whole is r's failure, or the
      longer output followed by the layer from i + 1. */
  lemma LayerNext<X>(f: (X, nat) -> Result<seq<Annotation>>, xs: seq<X>, i: nat, next: nat,
                     whole: Result<seq<Annotation>>, prefix: seq<Annotation>, r: Result<seq<Annotation>>)
    requires i < |xs| && f(xs[i], next) == r
    requires whole == Then(prefix, Layer(f, xs, i, next))
    ensures r.Failure? ==> whole == Failure(r.error)
    ensures r.Success? ==> whole == Then(prefix + r.value, Layer(f, xs, i + 1, next + |r.value|))
  {
    if r.Success? {
      ThenThen(prefix, r.value, Layer(f, xs, i + 1, next + |r.value|));
    }
  }

  /** A layer succeeds exactly when every item passes the test that decides
      whether f succeeds on it, and fails only with the errors f can give. */
  lemma {:induction false} LayerSucceeds<X>(f: (X, nat) -> Result<seq<Annotation>>, ok: X -> bool,
                                            errs: set<string>, anns: seq<X>, i: nat, next: nat)
    requires i <= |anns|
    requires forall j, n :: i <= j < |anns| ==> f(anns[j], n).Success? == ok(anns[j])
    requires forall j, n :: i <= j < |anns| && f(anns[j], n).Failure? ==> f(anns[j], n).error in errs
    ensures Layer(f, anns, i, next).Success? <==> forall j :: i <= j < |anns| ==> ok(anns[j])
    ensures Layer(f, anns, i, next).Failure? ==> Layer(f, anns, i, next).error in errs
    decreases |anns| - i
  {
    if i < |anns| && ok(anns[i]) {
      LayerSucceeds(f, ok, errs, anns, i + 1, next + |f(anns[i], next).value|);
    }
  }

  /** A layer whose every item gives exactly one output: output k is the
      one of item i + k, numbered next + k. */
  lemma {:induction false} LayerOfOnes<X>(f: (X, nat) -> Result<seq<Annotation>>, xs: seq<X>,
                                          i: nat, next: nat, k: nat)
    requires i <= |xs|
    requires forall j, n :: i <= j < |xs| && f(xs[j], n).Success? ==> |f(xs[j], n).value| == 1
    requires Layer(f, xs, i, next).Success?
    ensures |Layer(f, xs, i, next).value| == |xs| - i
    ensures k < |xs| - i ==> f(xs[i + k], next + k).Success?
                             && Layer(f, xs, i, next).value[k] == f(xs[i + k], next + k).value[0]
    decreases |xs| - i
  {
    if i < |xs| {
      var out := f(xs[i], next).value;
      var rest := Layer(f, xs, i + 1, next + 1);
      LayerOfOnes(f, xs, i + 1, next + 1, if k > 0 then k - 1 else 0);
      assert Layer(f, xs, i, next).value == out + rest.value;
      if 0 < k < |xs| - i {
        assert i + 1 + (k - 1) == i + k;
      }
    }
  }

  /** Output k of a layer is output k - (n - next) of some item j, f having been applied to it with the count n of outputs before it. */
  lemma {:induction false} LayerAt<X>(f: (X, nat) -> Result<seq<Annotation>>, anns: seq<X>,
                                      i: nat, next: nat, k: nat)
    requires i <= |anns| && Layer(f, anns, i, next).Success? && k < |Layer(f, anns, i, next).value|
    ensures exists j, n :: && i <= j < |anns| && next <= n <= next + k
                           && f(anns[j], n).Success? && next + k - n < |f(anns[j], n).value|
                           && Layer(f, anns, i, next).value[k] == f(anns[j], n).value[next + k - n]
    decreases |anns| - i
  {
    var out := f(anns[i], next).value;
    var r := Layer(f, anns, i, next).value;
    var rest := Layer(f, anns, i + 1, next + |out|);
    assert r == out + rest.value;
    if k < |out| {
      assert r[k] == out[next + k - next];
    } else {
      LayerAt(f, anns, i + 1, next + |out|, k - |out|);
      var j, n :| && i + 1 <= j < |anns| && next + |out| <= n <= next + |out| + k - |out|
                  && f(anns[j], n).Success? && next + |out| + (k - |out|) - n < |f(anns[j], n).value|
                  && rest.value[k - |out|] == f(anns[j], n).value[next + |out| + (k - |out|) - n];
      assert r[k] == rest.value[k - |out|];
    }
  }

  /** The number of outputs items i .. j - 1 of xs give, item x giving size(x). */
  function Outputs<X>(size: X -> nat, xs: seq<X>, i: nat, j: nat): nat
    requires i <= j <= |xs|
    decreases j - i
  {
    if i == j then 0 else size(xs[i]) + Outputs(size, xs, i + 1, j)
  }

  /** A layer whose items each give size(x) outputs is their concatenation:
      it gives Outputs(size, xs, i, |xs|) outputs in all, and output k is
      output k - m of the item j that the m <= k outputs of items i .. j - 1
      precede, f numbering that item's outputs from next + m. */
  lemma {:induction false} LayerSized<X>(f: (X, nat) -> Result<seq<Annotation>>, size: X -> nat,
                                         xs: seq<X>, i: nat, next: nat, k: nat) returns (j: nat)
    requires i <= |xs|
    requires forall j, n :: i <= j < |xs| && f(xs[j], n).Success? ==> |f(xs[j], n).value| == size(xs[j])
    requires Layer(f, xs, i, next).Success?
    ensures |Layer(f, xs, i, next).value| == Outputs(size, xs, i, |xs|)
    ensures k < |Layer(f, xs, i, next).value| ==>
              && i <= j < |xs|
              && var m := Outputs(size, xs, i, j);
                 && m <= k < m + size(xs[j])
                 && f(xs[j], next + m).Success?
                 && Layer(f, xs, i, next).value[k] == f(xs[j], next + m).value[k - m]
    decreases |xs| - i
  {
    if i == |xs| {
      return i;
    }
    var out := f(xs[i], next).value;
    var rest := Layer(f, xs, i + 1, next + |out|);
    assert Layer(f, xs, i, next).value == out + rest.value;
    var j' := LayerSized(f, size, xs, i + 1, next + |out|, if k < |out| then 0 else k - |out|);
    if k < |out| {
      j := i;
    } else {
      j := j';
    }
  }
}
