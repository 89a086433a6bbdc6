/** The Java string operations the stages rely on, restricted to the cases they
    use: `indexOf`, `trim`, `split("\\s+")`, `split` on a one-character literal,
    `replaceAll` with a character class, and decimal rendering of integers. */
module Text {

  /** `\s` of java.util.regex: space, \t, \n, \x0B, \f, \r. */
  predicate IsSpace(c: char) {
    c == ' ' || 9 <= c as int <= 13
  }

  /** What `String.trim` removes: every character up to U+0020. */
  predicate IsTrimmable(c: char) {
    c as int <= 0x20
  }

  /** `\w` of java.util.regex: [a-zA-Z_0-9]; `\W` is its complement. */
  predicate IsWordChar(c: char) {
    ('a' <= c <= 'z') || ('A' <= c <= 'Z') || ('0' <= c <= '9') || c == '_'
  }

  /** The class `[,.?!;:]` that the n-gram stage deletes. */
  predicate IsStrippedPunct(c: char) {
    c == ',' || c == '.' || c == '?' || c == '!' || c == ';' || c == ':'
  }

  predicate IsDigit(c: char) {
    '0' <= c <= '9'
  }

  predicate AllDigits(s: string) {
    forall i :: 0 <= i < |s| ==> IsDigit(s[i])
  }

  // ---------------------------------------------------------------- indexOf

  /** w occurs in s at position i. */
  predicate OccursAt(s: string, w: string, i: int) {
    0 <= i && i + |w| <= |s| && s[i..i + |w|] == w
  }

  function IndexFrom(s: string, w: string, i: nat): (r: int)
    requires i <= |s|
    ensures r == -1 || (i <= r && OccursAt(s, w, r))
    decreases |s| - i
  {
    if i + |w| > |s| then -1
    else if s[i..i + |w|] == w then i
    else IndexFrom(s, w, i + 1)
  }

  /** The search from i finds an occurrence at j or one before it. */
  lemma {:induction false} IndexFromAtMost(s: string, w: string, i: nat, j: nat)
    requires i <= j && OccursAt(s, w, j)
    ensures i <= IndexFrom(s, w, i) <= j
    decreases j - i
  {
    if i < j && s[i..i + |w|] != w {
      IndexFromAtMost(s, w, i + 1, j);
    }
  }

  /** ... and there is no occurrence between i and what it finds, nor any
      at all when it finds none. */
  lemma {:induction false} IndexFromMisses(s: string, w: string, i: nat, j: nat)
    requires i <= j <= |s|
    requires j < IndexFrom(s, w, i) || IndexFrom(s, w, i) == -1
    ensures !OccursAt(s, w, j)
    decreases j - i
  {
    if i < j {
      IndexFromMisses(s, w, i + 1, j);
    }
  }

  /** `s.indexOf(w, from)`: the first occurrence of w at or after from, or -1.
      As in Java, a start past the end is treated as the end (so the empty
      string is found at |s|). */
  function IndexOf(s: string, w: string, from: nat): (r: int)
    ensures r == -1 || ((if from <= |s| then from else |s|) <= r && OccursAt(s, w, r))
  {
    IndexFrom(s, w, if from <= |s| then from else |s|)
  }

  /** The cursor property both stages rely on: searching from at or before a
      known occurrence finds an occurrence no later than it. */
  lemma IndexOfAtMost(s: string, w: string, from: nat, p: int)
    requires from <= p && OccursAt(s, w, p)
    ensures from <= IndexOf(s, w, from) <= p
    ensures OccursAt(s, w, IndexOf(s, w, from))
  {
    IndexFromAtMost(s, w, from, p);
  }

  /** indexOf returns the first occurrence: none lies between from and the
      result, and none lies after from when the result is -1. */
  lemma IndexOfMisses(s: string, w: string, from: nat, j: nat)
    requires from <= j <= |s|
    requires j < IndexOf(s, w, from) || IndexOf(s, w, from) == -1
    ensures !OccursAt(s, w, j)
  {
    IndexFromMisses(s, w, from, j);
  }

  /** A string with a space at i and at j > i is the text before i, the
      text between them and the text after j, joined by single spaces. */
  lemma AroundTwoSpaces(s: string, i: nat, j: nat)
    requires i < j < |s| && s[i] == ' ' && s[j] == ' '
    ensures s == s[..i] + " " + s[i + 1..j] + " " + s[j + 1..]
  {
    var t := s[..i] + " " + s[i + 1..j] + " " + s[j + 1..];
    assert |t| == |s|;
    forall k | 0 <= k < |s| ensures t[k] == s[k] {
      if k < i {
      } else if k == i {
      } else if k < j {
        assert t[k] == s[i + 1..j][k - i - 1];
      } else if k == j {
      } else {
        assert t[k] == s[j + 1..][k - j - 1];
      }
    }
  }

  // ------------------------------------------------------------------- trim

  function TrimStart(s: string, i: nat): (lo: nat)
    requires i <= |s|
    ensures i <= lo <= |s|
    ensures forall j :: i <= j < lo ==> IsTrimmable(s[j])
    ensures lo < |s| ==> !IsTrimmable(s[lo])
    decreases |s| - i
  {
    if i < |s| && IsTrimmable(s[i]) then TrimStart(s, i + 1) else i
  }

  function TrimEnd(s: string, lo: nat, hi: nat): (e: nat)
    requires lo <= hi <= |s|
    ensures lo <= e <= hi
    ensures forall j :: e <= j < hi ==> IsTrimmable(s[j])
    ensures lo < e ==> !IsTrimmable(s[e - 1])
    decreases hi
  {
    if lo < hi && IsTrimmable(s[hi - 1]) then TrimEnd(s, lo, hi - 1) else hi
  }

  // ------------------------------------------------------ split("\\s+")

  datatype Span = Span(start: nat, end: nat)

  function RunEnd(s: string, i: nat, hi: nat): (e: nat)
    requires i <= hi <= |s|
    ensures i <= e <= hi
    ensures forall j :: i <= j < e ==> !IsSpace(s[j])
    ensures e < hi ==> IsSpace(s[e])
    decreases hi - i
  {
    if i < hi && !IsSpace(s[i]) then RunEnd(s, i + 1, hi) else i
  }

  /** The maximal runs of non-whitespace characters of s[i..hi], left to
      right, as absolute spans: what remains of s[i..hi] once every match of
      `\s+` is taken out as a separator. A run ends at hi or at whitespace,
      which the next run cannot start on. */
  function Runs(s: string, i: nat, hi: nat): (r: seq<Span>)
    requires i <= hi <= |s|
    ensures forall k :: 0 <= k < |r| ==> i <= r[k].start < r[k].end <= hi
    decreases hi - i
  {
    if i == hi then []
    else if IsSpace(s[i]) then Runs(s, i + 1, hi)
    else
      var e := RunEnd(s, i, hi);
      var rest := if e == hi then [] else Runs(s, e + 1, hi);
      var r := [Span(i, e)] + rest;
      assert forall k :: 0 < k < |r| ==> r[k] == rest[k - 1];
      r
  }

  /** Nothing inside a run is whitespace. */
  lemma {:induction false} RunIsSolid(s: string, i: nat, hi: nat, k: nat, j: nat)
    requires i <= hi <= |s|
    requires k < |Runs(s, i, hi)| && Runs(s, i, hi)[k].start <= j < Runs(s, i, hi)[k].end
    ensures !IsSpace(s[j])
    decreases hi - i
  {
    var r := Runs(s, i, hi);
    if IsSpace(s[i]) {
      RunIsSolid(s, i + 1, hi, k, j);
    } else {
      var e := RunEnd(s, i, hi);
      var rest := if e == hi then [] else Runs(s, e + 1, hi);
      assert r == [Span(i, e)] + rest;
      if k > 0 {
        assert r[k] == rest[k - 1];
        RunIsSolid(s, e + 1, hi, k - 1, j);
      } else {
        assert r[0] == Span(i, e);
      }
    }
  }

  /** A run ends at whitespace or at hi, so it cannot be extended. */
  lemma {:induction false} RunIsMaximal(s: string, i: nat, hi: nat, k: nat)
    requires i <= hi <= |s|
    requires k < |Runs(s, i, hi)| && Runs(s, i, hi)[k].end < hi
    ensures IsSpace(s[Runs(s, i, hi)[k].end])
    decreases hi - i
  {
    var r := Runs(s, i, hi);
    if IsSpace(s[i]) {
      RunIsMaximal(s, i + 1, hi, k);
    } else {
      var e := RunEnd(s, i, hi);
      var rest := if e == hi then [] else Runs(s, e + 1, hi);
      assert r == [Span(i, e)] + rest;
      if k > 0 {
        assert r[k] == rest[k - 1];
        RunIsMaximal(s, e + 1, hi, k - 1);
      } else {
        assert r[0] == Span(i, e);
      }
    }
  }

  /** Runs come in order, apart: each ends before the next one starts. */
  lemma {:induction false} RunsOrdered(s: string, i: nat, hi: nat, k: nat)
    requires i <= hi <= |s|
    requires k + 1 < |Runs(s, i, hi)|
    ensures Runs(s, i, hi)[k].end < Runs(s, i, hi)[k + 1].start
    decreases hi - i
  {
    var r := Runs(s, i, hi);
    if IsSpace(s[i]) {
      RunsOrdered(s, i + 1, hi, k);
    } else {
      var e := RunEnd(s, i, hi);
      var rest := Runs(s, e + 1, hi);
      assert r == [Span(i, e)] + rest;
      assert r[k + 1] == rest[k];
      if k > 0 {
        assert r[k] == rest[k - 1];
        RunsOrdered(s, e + 1, hi, k - 1);
      }
    }
  }

  /** Runs takes every run, starting with the one at i if there is one. */
  lemma RunsFirst(s: string, i: nat, hi: nat)
    requires i < hi <= |s| && !IsSpace(s[i])
    ensures |Runs(s, i, hi)| > 0 && Runs(s, i, hi)[0].start == i
  {
  }

  /** No run is dropped: every non-whitespace character of s[i..hi] lies
      inside one of the runs. */
  lemma {:induction false} RunsCover(s: string, i: nat, hi: nat, j: nat)
    requires i <= j < hi <= |s| && !IsSpace(s[j])
    ensures exists k :: 0 <= k < |Runs(s, i, hi)| && Runs(s, i, hi)[k].start <= j < Runs(s, i, hi)[k].end
    decreases hi - i
  {
    var r := Runs(s, i, hi);
    if IsSpace(s[i]) {
      RunsCover(s, i + 1, hi, j);
    } else {
      var e := RunEnd(s, i, hi);
      if j < e {
        assert r[0] == Span(i, e);
      } else {
        assert e < hi && IsSpace(s[e]);
        var rest := Runs(s, e + 1, hi);
        assert r == [Span(i, e)] + rest;
        RunsCover(s, e + 1, hi, j);
        var k :| 0 <= k < |rest| && rest[k].start <= j < rest[k].end;
        assert r[k + 1] == rest[k];
      }
    }
  }

  /** Every run starts at i or just after a whitespace character. */
  lemma {:induction false} RunStart(s: string, i: nat, hi: nat, k: nat)
    requires i <= hi <= |s| && k < |Runs(s, i, hi)|
    ensures Runs(s, i, hi)[k].start == i
            || (i < Runs(s, i, hi)[k].start && IsSpace(s[Runs(s, i, hi)[k].start - 1]))
    decreases hi - i
  {
    var r := Runs(s, i, hi);
    if IsSpace(s[i]) {
      RunStart(s, i + 1, hi, k);
    } else {
      var e := RunEnd(s, i, hi);
      var rest := if e == hi then [] else Runs(s, e + 1, hi);
      assert r == [Span(i, e)] + rest;
      if k > 0 {
        assert r[k] == rest[k - 1];
        RunStart(s, e + 1, hi, k - 1);
      }
    }
  }

  /** The spans of `s.trim().split("\\s+")`, relative to s. A string that
      trims to "" splits into the single empty string, placed at 0. */
  function WordSpans(s: string): (r: seq<Span>)
    ensures |r| >= 1
    ensures forall k :: 0 <= k < |r| ==> r[k].start <= r[k].end <= |s|
  {
    var lo := TrimStart(s, 0);
    var hi := TrimEnd(s, lo, |s|);
    if lo == hi then [Span(0, 0)] else Runs(s, lo, hi)
  }

  /** Each word starts after the one before it. */
  lemma WordSpansOrdered(s: string, k: nat)
    requires k + 1 < |WordSpans(s)|
    ensures WordSpans(s)[k].start < WordSpans(s)[k + 1].start
  {
    var lo := TrimStart(s, 0);
    var hi := TrimEnd(s, lo, |s|);
    RunsOrdered(s, lo, hi, k);
  }

  /** No word is lost: every character that `trim` keeps and that is not
      whitespace (control characters included) lies inside one of the words. */
  lemma WordSpansCover(s: string, j: nat)
    requires TrimStart(s, 0) <= j < TrimEnd(s, TrimStart(s, 0), |s|) && !IsSpace(s[j])
    ensures exists k :: 0 <= k < |WordSpans(s)| && WordSpans(s)[k].start <= j < WordSpans(s)[k].end
  {
    var lo := TrimStart(s, 0);
    var hi := TrimEnd(s, lo, |s|);
    assert WordSpans(s) == Runs(s, lo, hi);
    RunsCover(s, lo, hi, j);
  }

  /** Later words start no earlier. */
  lemma {:induction false} WordSpansMonotone(s: string, a: nat, b: nat)
    requires a <= b < |WordSpans(s)|
    ensures WordSpans(s)[a].start <= WordSpans(s)[b].start
    decreases b - a
  {
    if a < b {
      WordSpansOrdered(s, a);
      WordSpansMonotone(s, a + 1, b);
    }
  }

  /** `s.trim().split("\\s+")`. */
  function Words(s: string): (r: seq<string>)
    ensures |r| == |WordSpans(s)|
  {
    Texts(s, WordSpans(s), 0)
  }

  /** "a a" is the two words "a" and "a", at [0, 1) and [2, 3). */
  lemma WordsOfRepeated()
    ensures WordSpans("a a") == [Span(0, 1), Span(2, 3)] && Words("a a") == ["a", "a"]
  {
    var s := "a a";
    assert TrimStart(s, 0) == 0;
    assert TrimEnd(s, 0, 3) == 3;
    assert RunEnd(s, 0, 3) == 1;
    assert RunEnd(s, 2, 3) == 3;
    assert Runs(s, 2, 3) == [Span(2, 3)];
    assert Runs(s, 0, 3) == [Span(0, 1), Span(2, 3)];
    assert s[0..1] == "a" && s[2..3] == "a";
  }

  /** The texts of spans k, k + 1, ... of s. */
  function Texts(s: string, sp: seq<Span>, k: nat): (r: seq<string>)
    requires k <= |sp|
    requires forall j :: 0 <= j < |sp| ==> sp[j].start <= sp[j].end <= |s|
    ensures |r| == |sp| - k
    decreases |sp| - k
  {
    if k == |sp| then [] else [s[sp[k].start..sp[k].end]] + Texts(s, sp, k + 1)
  }

  lemma {:induction false} TextsAt(s: string, sp: seq<Span>, k: nat, j: nat)
    requires k <= |sp|
    requires forall j :: 0 <= j < |sp| ==> sp[j].start <= sp[j].end <= |s|
    requires j < |sp| - k
    ensures Texts(s, sp, k)[j] == s[sp[k + j].start..sp[k + j].end]
    decreases j
  {
    if j > 0 {
      TextsAt(s, sp, k + 1, j - 1);
    }
  }

  /** Word k is the text of span k, so it occurs in s where the span starts. */
  lemma WordAt(s: string, k: nat)
    requires k < |Words(s)|
    ensures Words(s)[k] == s[WordSpans(s)[k].start..WordSpans(s)[k].end]
    ensures OccursAt(s, Words(s)[k], WordSpans(s)[k].start)
  {
    TextsAt(s, WordSpans(s), 0, k);
  }

  /** Character j of word k is not whitespace. */
  lemma WordCharIsNoSpace(s: string, k: nat, j: nat)
    requires k < |Words(s)| && j < |Words(s)[k]|
    ensures !IsSpace(Words(s)[k][j])
  {
    var lo := TrimStart(s, 0);
    var hi := TrimEnd(s, lo, |s|);
    var sp := WordSpans(s);
    WordAt(s, k);
    assert Words(s)[k][j] == s[sp[k].start + j];
    if lo < hi {
      RunIsSolid(s, lo, hi, k, sp[k].start + j);
    }
  }

  /** No word holds whitespace. */
  lemma WordsHaveNoSpace(s: string)
    ensures forall k :: 0 <= k < |Words(s)| ==> forall j :: 0 <= j < |Words(s)[k]| ==> !IsSpace(Words(s)[k][j])
  {
    var w := Words(s);
    forall k, j | 0 <= k < |w| && 0 <= j < |w[k]|
      ensures !IsSpace(w[k][j])
    {
      WordCharIsNoSpace(s, k, j);
    }
  }

  /** A sentence that trims to "" splits into the single empty word, at 0. */
  lemma WordsOfBlank(s: string)
    requires forall j :: 0 <= j < |s| ==> IsTrimmable(s[j])
    ensures WordSpans(s) == [Span(0, 0)] && Words(s) == [""]
  {
    assert TrimStart(s, 0) == |s|;
    WordAt(s, 0);
  }

  /** Any other sentence splits into non-empty words only. */
  lemma WordsOfNonBlank(s: string, j: nat)
    requires j < |s| && !IsTrimmable(s[j])
    ensures forall k :: 0 <= k < |Words(s)| ==> Words(s)[k] != ""
  {
    var lo := TrimStart(s, 0);
    var hi := TrimEnd(s, lo, |s|);
    assert lo <= j < hi;
    var sp := WordSpans(s);
    assert sp == Runs(s, lo, hi);
    forall k | 0 <= k < |Words(s)| ensures Words(s)[k] != "" {
      WordAt(s, k);
      assert sp[k].start < sp[k].end;
    }
  }

  /** The two cases together: the words are [""] exactly when the sentence
      trims to "", and otherwise none of them is empty. */
  lemma WordsEmptyIff(s: string)
    ensures (forall j :: 0 <= j < |s| ==> IsTrimmable(s[j])) <==> Words(s) == [""]
    ensures (forall j :: 0 <= j < |s| ==> IsTrimmable(s[j])) ==> WordSpans(s) == [Span(0, 0)]
    ensures Words(s) != [""] ==> forall k :: 0 <= k < |Words(s)| ==> Words(s)[k] != ""
  {
    if forall j :: 0 <= j < |s| ==> IsTrimmable(s[j]) {
      WordsOfBlank(s);
    } else {
      var j :| 0 <= j < |s| && !IsTrimmable(s[j]);
      WordsOfNonBlank(s, j);
      assert Words(s)[0] != "";
    }
  }

  // ------------------------------------------------- replaceAll("[...]", "")

  /** `s.replaceAll(C, "")` for a character class C: delete every character
      drop holds of, keeping the others in order. */
  function Without(s: string, drop: char -> bool): (r: string)
    ensures |r| <= |s|
    ensures forall i :: 0 <= i < |r| ==> !drop(r[i])
    decreases |s|
  {
    if s == [] then []
    else (if drop(s[0]) then [] else [s[0]]) + Without(s[1..], drop)
  }

  /** Every kept character occurs as often as before, every dropped one not at all. */
  lemma {:induction false} WithoutCounts(s: string, drop: char -> bool)
    ensures forall c :: !drop(c) ==> multiset(Without(s, drop))[c] == multiset(s)[c]
    ensures forall c :: drop(c) ==> multiset(Without(s, drop))[c] == 0
    decreases |s|
  {
    if s != [] {
      WithoutCounts(s[1..], drop);
      assert s == [s[0]] + s[1..];
    }
  }

  lemma {:induction false} WithoutKeeps(s: string, drop: char -> bool)
    requires forall i :: 0 <= i < |s| ==> !drop(s[i])
    ensures Without(s, drop) == s
    decreases |s|
  {
    if s != [] {
      WithoutKeeps(s[1..], drop);
      assert s == [s[0]] + s[1..];
    }
  }

  /** Removal works character by character, so it keeps the order of what
      it keeps: removing from a + b is removing from a, then from b. */
  lemma {:induction false} WithoutAppend(a: string, b: string, drop: char -> bool)
    ensures Without(a + b, drop) == Without(a, drop) + Without(b, drop)
    decreases |a|
  {
    if a == [] {
      assert a + b == b;
    } else {
      var ab := a + b;
      assert ab[0] == a[0] && ab[1..] == a[1..] + b;
      WithoutAppend(a[1..], b, drop);
      var kept := if drop(a[0]) then [] else [a[0]];
      assert Without(ab, drop) == kept + Without(a[1..] + b, drop);
      assert Without(a, drop) == kept + Without(a[1..], drop);
    }
  }

  predicate IsNonWordChar(c: char) { !IsWordChar(c) }

  /** `word.replaceAll("\\W", "")`. */
  function RemoveNonWord(s: string): (r: string)
    ensures forall i :: 0 <= i < |r| ==> IsWordChar(r[i])
  {
    Without(s, IsNonWordChar)
  }

  /** `content.replaceAll("[,.?!;:]", "")`. */
  function StripPunct(s: string): (r: string)
    ensures forall i :: 0 <= i < |r| ==> !IsStrippedPunct(r[i])
  {
    Without(s, IsStrippedPunct)
  }

  /** Both removals keep every other character, as often as it occurred. */
  lemma RemovalCounts(s: string)
    ensures forall c :: IsWordChar(c) ==> multiset(RemoveNonWord(s))[c] == multiset(s)[c]
    ensures forall c :: !IsStrippedPunct(c) ==> multiset(StripPunct(s))[c] == multiset(s)[c]
  {
    WithoutCounts(s, IsNonWordChar);
    WithoutCounts(s, IsStrippedPunct);
  }

  lemma Idempotent(s: string)
    ensures RemoveNonWord(RemoveNonWord(s)) == RemoveNonWord(s)
    ensures StripPunct(StripPunct(s)) == StripPunct(s)
  {
    WithoutKeeps(RemoveNonWord(s), IsNonWordChar);
    WithoutKeeps(StripPunct(s), IsStrippedPunct);
  }

  // --------------------------------------------------- split on a literal

  /** Every piece of s between occurrences of sep (Java's split before the
      trailing empty strings are removed). */
  function SplitAll(s: string, sep: char): (r: seq<string>)
    ensures |r| >= 1
    ensures forall k :: 0 <= k < |r| ==> sep !in r[k]
    decreases |s|
  {
    if s == [] then [[]]
    else
      var rest := SplitAll(s[1..], sep);
      if s[0] == sep then [[]] + rest else [[s[0]] + rest[0]] + rest[1..]
  }

  function Join(parts: seq<string>, sep: char): string
    requires |parts| >= 1
    decreases |parts|
  {
    if |parts| == 1 then parts[0] else parts[0] + [sep] + Join(parts[1..], sep)
  }

  lemma {:induction false} JoinSplitAll(s: string, sep: char)
    ensures Join(SplitAll(s, sep), sep) == s
    decreases |s|
  {
    if s != [] {
      var rest := SplitAll(s[1..], sep);
      JoinSplitAll(s[1..], sep);
      if s[0] == sep {
        assert [[]] + rest == [[]] + rest;
        assert ([[]] + rest)[1..] == rest;
        assert s == [] + [sep] + Join(rest, sep);
      } else {
        var p := [[s[0]] + rest[0]] + rest[1..];
        if |rest| == 1 {
          assert Join(rest, sep) == rest[0];
        } else {
          assert p[1..] == rest[1..];
          assert Join(rest, sep) == rest[0] + [sep] + Join(rest[1..], sep);
        }
      }
    }
  }

  /** Removes the trailing empty strings, as `String.split` does. */
  function DropTrailingEmpty(parts: seq<string>): (r: seq<string>)
    ensures r <= parts
    ensures r == [] || r[|r| - 1] != []
    ensures forall k :: |r| <= k < |parts| ==> parts[k] == []
    decreases |parts|
  {
    if parts != [] && parts[|parts| - 1] == [] then DropTrailingEmpty(parts[..|parts| - 1])
    else parts
  }

  /** `s.split(sep)` for a one-character literal separator: when sep does not
      occur the result is [s] (so "" splits into [""]); otherwise the pieces
      between separators, without the trailing empty ones. */
  function Split(s: string, sep: char): seq<string>
  {
    if sep !in s then [s] else DropTrailingEmpty(SplitAll(s, sep))
  }

  function Repeat(c: char, n: nat): (r: string)
    ensures |r| == n && forall i :: 0 <= i < n ==> r[i] == c
  {
    seq(n, _ => c)
  }

  lemma {:induction false} JoinDropEmpty(parts: seq<string>, m: nat, sep: char)
    requires 1 <= m <= |parts|
    requires forall k :: m <= k < |parts| ==> parts[k] == []
    ensures Join(parts, sep) == Join(parts[..m], sep) + Repeat(sep, |parts| - m)
    decreases |parts|
  {
    if m == |parts| {
      assert parts[..m] == parts;
    } else if m == 1 {
      JoinAllEmpty(parts[1..], sep);
      assert parts[..1] == [parts[0]];
      assert Join(parts, sep) == parts[0] + [sep] + Repeat(sep, |parts| - 2);
    } else {
      JoinDropEmpty(parts[1..], m - 1, sep);
      assert parts[1..][..m - 1] == parts[..m][1..];
    }
  }

  lemma {:induction false} JoinAllEmpty(parts: seq<string>, sep: char)
    requires |parts| >= 1
    requires forall k :: 0 <= k < |parts| ==> parts[k] == []
    ensures Join(parts, sep) == Repeat(sep, |parts| - 1)
    decreases |parts|
  {
    if |parts| > 1 {
      JoinAllEmpty(parts[1..], sep);
    }
  }

  lemma {:induction false} SplitAllOfSeparators(s: string, sep: char)
    requires forall i :: 0 <= i < |s| ==> s[i] == sep
    ensures forall k :: 0 <= k < |SplitAll(s, sep)| ==> SplitAll(s, sep)[k] == []
    decreases |s|
  {
    if s != [] {
      SplitAllOfSeparators(s[1..], sep);
    }
  }

  /** What `s.split(sep)` returns, independently of how it is computed: no
      piece holds sep; joined back with sep the pieces give s up to a run of
      trailing separators; the last piece is not empty unless sep never occurs;
      and the result is empty exactly when s is a non-empty run of separators. */
  lemma SplitSpec(s: string, sep: char)
    ensures forall k :: 0 <= k < |Split(s, sep)| ==> sep !in Split(s, sep)[k]
    ensures sep !in s ==> Split(s, sep) == [s]
    ensures sep in s && Split(s, sep) != [] ==> Split(s, sep)[|Split(s, sep)| - 1] != []
    ensures Split(s, sep) == [] <==> s != [] && forall i :: 0 <= i < |s| ==> s[i] == sep
    ensures Split(s, sep) != [] ==>
              var j := Join(Split(s, sep), sep);
              j <= s && forall i :: |j| <= i < |s| ==> s[i] == sep
  {
    var r := Split(s, sep);
    if s != [] && forall i :: 0 <= i < |s| ==> s[i] == sep {
      assert s[0] == sep;
    }
    if sep in s {
      var parts := SplitAll(s, sep);
      JoinSplitAll(s, sep);
      if s != [] && forall i :: 0 <= i < |s| ==> s[i] == sep {
        SplitAllOfSeparators(s, sep);
      }
      if r == [] {
        JoinAllEmpty(parts, sep);
      } else {
        JoinDropEmpty(parts, |r|, sep);
        assert parts[..|r|] == r;
        assert s == Join(r, sep) + Repeat(sep, |parts| - |r|);
      }
    }
  }

  /** The first piece of a split is the text before the first sep. */
  lemma {:induction false} SplitAllFirst(s: string, sep: char)
    ensures SplitAll(s, sep)[0] <= s
    ensures |SplitAll(s, sep)[0]| < |s| ==> s[|SplitAll(s, sep)[0]|] == sep
    decreases |s|
  {
    if s != [] {
      SplitAllFirst(s[1..], sep);
    }
  }

  lemma SplitFirst(s: string, sep: char)
    requires Split(s, sep) != []
    ensures var p := Split(s, sep)[0];
            p <= s && sep !in p && (|p| < |s| ==> s[|p|] == sep)
  {
    SplitAllFirst(s, sep);
    SplitSpec(s, sep);
  }

  // ---------------------------------------------------------- decimals

  function DigitChar(d: nat): (c: char)
    requires d < 10
    ensures IsDigit(c)
  {
    ('0' as int + d) as char
  }

  /** `Integer.toString` of a non-negative value. */
  function NatToString(n: nat): (r: string)
    ensures |r| >= 1 && AllDigits(r)
    decreases n
  {
    if n < 10 then [DigitChar(n)] else NatToString(n / 10) + [DigitChar(n % 10)]
  }

  /** `Integer.toString`, with a leading '-' for negative values. */
  function IntToString(n: int): string
  {
    if n < 0 then "-" + NatToString(-n) else NatToString(n)
  }

  function DecimalValue(s: string): nat
    requires AllDigits(s)
    decreases |s|
  {
    if s == [] then 0 else DecimalValue(s[..|s| - 1]) * 10 + (s[|s| - 1] as int - '0' as int)
  }

  /** Decimal rendering loses nothing: it can be read back. */
  lemma {:induction false} DecimalRoundTrip(n: nat)
    ensures DecimalValue(NatToString(n)) == n
    decreases n
  {
    if n >= 10 {
      DecimalRoundTrip(n / 10);
      var s := NatToString(n);
      assert s[..|s| - 1] == NatToString(n / 10);
    }
  }

  lemma NatToStringInjective(m: nat, n: nat)
    requires NatToString(m) == NatToString(n)
    ensures m == n
  {
    DecimalRoundTrip(m);
    DecimalRoundTrip(n);
  }

  /** The longest suffix of s made of digits. */
  function DigitSuffix(s: string): (r: string)
    ensures |r| <= |s| && r == s[|s| - |r|..]
    decreases |s|
  {
    if s == [] || !IsDigit(s[|s| - 1]) then []
    else DigitSuffix(s[..|s| - 1]) + [s[|s| - 1]]
  }

  lemma {:induction false} DigitSuffixOfNumbered(prefix: string, d: string)
    requires prefix != [] && !IsDigit(prefix[|prefix| - 1])
    requires AllDigits(d)
    ensures DigitSuffix(prefix + d) == d
    decreases |d|
  {
    if d != [] {
      var s := prefix + d;
      assert s[..|s| - 1] == prefix + d[..|d| - 1];
      DigitSuffixOfNumbered(prefix, d[..|d| - 1]);
    } else {
      assert prefix + d == prefix;
    }
  }

  /** Identifiers of the form p + tag + k, with tag ending in a non-digit,
      differ whenever their numbers differ, whatever the prefixes. */
  lemma NumberedIdsDistinct(p1: string, p2: string, tag: string, m: nat, n: nat)
    requires tag != [] && !IsDigit(tag[|tag| - 1])
    requires m != n
    ensures p1 + tag + NatToString(m) != p2 + tag + NatToString(n)
  {
    var a := p1 + tag;
    var b := p2 + tag;
    assert a[|a| - 1] == tag[|tag| - 1] && b[|b| - 1] == tag[|tag| - 1];
    DigitSuffixOfNumbered(a, NatToString(m));
    DigitSuffixOfNumbered(b, NatToString(n));
    if a + NatToString(m) == b + NatToString(n) {
      NatToStringInjective(m, n);
    }
  }

  /** The feature key `n + "-Gram"` under which the table of order n is stored. */
  function GramKey(n: int): string
  {
    IntToString(n) + "-Gram"
  }

  lemma GramKeys()
    ensures GramKey(1) == "1-Gram" && GramKey(2) == "2-Gram" && GramKey(3) == "3-Gram"
  {
  }
}
