/** Counting tables: the `HashMap<String, Integer>` the n-gram stage fills,
    the sum of a table's counts, and the clipped overlap of two tables. */
module Counting {

  /** One step of the counting loop: `count.put(w, count.get(w) + 1)` when w
      is present, `count.put(w, 1)` otherwise. */
  function Bump(m: map<string, int>, w: string): map<string, int>
  {
    if w in m then m[w := m[w] + 1] else m[w := 1]
  }

  /** A step adds w if it is new, raises its count by one, and leaves the
      other counts alone. */
  lemma BumpCounts(m: map<string, int>, w: string)
    ensures Bump(m, w).Keys == m.Keys + {w}
    ensures Bump(m, w)[w] == if w in m then m[w] + 1 else 1
    ensures forall k :: k in m && k != w ==> Bump(m, w)[k] == m[k]
  {
  }

  /** The table the counting loop builds from the strings ws, in order:
      ws's distinct strings, each with its number of occurrences. */
  function Tally(ws: seq<string>): map<string, int>
    decreases |ws|
  {
    if ws == [] then map[] else Bump(Tally(ws[..|ws| - 1]), ws[|ws| - 1])
  }

  /** One step of the counting loop, from the table of ws to m', counts
      one more string: `count.put(w, count.get(w) + 1)` when w is present,
      `count.put(w, 1)` otherwise. */
  lemma TallyNext(ws: seq<string>, w: string, m: map<string, int>, m': map<string, int>)
    requires m == Tally(ws)
    requires w in m ==> m' == m[w := m[w] + 1]
    requires w !in m ==> m' == m[w := 1]
    ensures m' == Tally(ws + [w])
  {
    assert (ws + [w])[..|ws|] == ws;
  }

  /** The keys of the table are the strings counted, each with its number
      of occurrences. */
  lemma {:induction false} TallyCounts(ws: seq<string>)
    ensures forall w :: w in Tally(ws) <==> w in ws
    ensures forall w :: w in Tally(ws) ==> Tally(ws)[w] == multiset(ws)[w]
    decreases |ws|
  {
    if ws != [] {
      var init := ws[..|ws| - 1];
      assert ws == init + [ws[|ws| - 1]];
      TallyCounts(init);
      BumpCounts(Tally(init), ws[|ws| - 1]);
    }
  }

  /** Sum of the counts of a table, over its keys in any order. */
  ghost function Sum(m: map<string, int>): int
    decreases |m|
  {
    if m == map[] then 0
    else
      var k :| k in m;
      m[k] + Sum(m - {k})
  }

  /** The sum does not depend on the order the keys are visited in. */
  lemma {:induction false} SumRemove(m: map<string, int>, k: string)
    requires k in m
    ensures Sum(m) == m[k] + Sum(m - {k})
    decreases |m|
  {
    var j :| j in m && Sum(m) == m[j] + Sum(m - {j});
    if j != k {
      SumRemove(m - {j}, k);
      SumRemove(m - {k}, j);
      assert m - {j} - {k} == m - {k} - {j};
    }
  }

  lemma {:induction false} SumMonotone(m1: map<string, int>, m2: map<string, int>)
    requires m1.Keys == m2.Keys
    requires forall k :: k in m1 ==> m1[k] <= m2[k]
    ensures Sum(m1) <= Sum(m2)
    decreases |m1|
  {
    if m1 != map[] {
      var k :| k in m1;
      SumRemove(m1, k);
      SumRemove(m2, k);
      SumMonotone(m1 - {k}, m2 - {k});
    }
  }

  lemma SumEqual(m1: map<string, int>, m2: map<string, int>)
    requires m1.Keys == m2.Keys
    requires forall k :: k in m1 ==> m1[k] == m2[k]
    ensures Sum(m1) == Sum(m2)
  {
    SumMonotone(m1, m2);
    SumMonotone(m2, m1);
  }

  lemma {:induction false} SumOfZeros(m: map<string, int>)
    requires forall k :: k in m ==> m[k] == 0
    ensures Sum(m) == 0
    decreases |m|
  {
    if m != map[] {
      var k :| k in m;
      SumRemove(m, k);
      SumOfZeros(m - {k});
    }
  }

  /** A table of positive counts sums to at least its number of keys, so it
      sums to zero exactly when it is empty. */
  lemma {:induction false} SumOfPositive(m: map<string, int>)
    requires forall k :: k in m ==> m[k] >= 1
    ensures Sum(m) >= |m|
    ensures Sum(m) == 0 <==> m == map[]
    decreases |m|
  {
    if m != map[] {
      var k :| k in m;
      SumRemove(m, k);
      SumOfPositive(m - {k});
    }
  }

  lemma SumOfNonNegative(m: map<string, int>)
    requires forall k :: k in m ==> m[k] >= 0
    ensures Sum(m) >= 0
  {
    var zero := map k | k in m :: 0;
    SumMonotone(zero, m);
    SumOfZeros(zero);
  }

  /** The counts of the table of ws add up to |ws|. */
  lemma {:induction false} TallySum(ws: seq<string>)
    ensures Sum(Tally(ws)) == |ws|
    decreases |ws|
  {
    if ws != [] {
      var init := ws[..|ws| - 1];
      var w := ws[|ws| - 1];
      var t := Tally(init);
      var t' := Tally(ws);
      BumpCounts(t, w);
      TallySum(init);
      SumRemove(t', w);
      if w in t {
        SumRemove(t, w);
        SumEqual(t' - {w}, t - {w});
      } else {
        assert t' - {w} == t;
      }
    }
  }

  /** A table built by counting has no more keys than strings counted, and
      every count in it is at least 1. */
  lemma {:induction false} TallySize(ws: seq<string>)
    ensures |Tally(ws)| <= |ws|
    ensures forall w :: w in Tally(ws) ==> Tally(ws)[w] >= 1
    decreases |ws|
  {
    if ws != [] {
      var init := ws[..|ws| - 1];
      TallySize(init);
      var w := ws[|ws| - 1];
      BumpCounts(Tally(init), w);
    }
  }

  /** The entries of m whose keys are in keys. */
  function Restrict(m: map<string, int>, keys: set<string>): map<string, int>
  {
    map k | k in keys && k in m :: m[k]
  }

  /** Visiting one more key of a loop over a key set: the sum of the
      entries still to visit is that key's count plus the rest. */
  lemma SumRestrictStep(m: map<string, int>, keys: set<string>, w: string)
    requires w in keys && keys <= m.Keys
    ensures Sum(Restrict(m, keys)) == m[w] + Sum(Restrict(m, keys - {w}))
  {
    SumRemove(Restrict(m, keys), w);
    assert Restrict(m, keys) - {w} == Restrict(m, keys - {w});
  }

  function Min(a: int, b: int): int {
    if a <= b then a else b
  }

  /** The per-key credit of the scorer: for every question key, the answer's
      count clipped at the question's (0 when the answer lacks the key). */
  function Clipped(a: map<string, int>, q: map<string, int>): (c: map<string, int>)
    ensures c.Keys == q.Keys
    ensures forall k :: k in q ==> c[k] == if k in a then Min(a[k], q[k]) else 0
  {
    map k | k in q :: if k in a then Min(a[k], q[k]) else 0
  }

  /** Clipped overlap: the sum over q's keys of min(a[k], q[k]). */
  ghost function Overlap(a: map<string, int>, q: map<string, int>): int
  {
    Sum(Clipped(a, q))
  }

  predicate NonNegative(m: map<string, int>) {
    forall k :: k in m ==> m[k] >= 0
  }

  /** Clipping bounds the overlap by the question's own total. */
  lemma OverlapBounds(a: map<string, int>, q: map<string, int>)
    requires NonNegative(a) && NonNegative(q)
    ensures 0 <= Overlap(a, q) <= Sum(q)
  {
    SumMonotone(Clipped(a, q), q);
    SumOfNonNegative(Clipped(a, q));
  }

  /** An answer whose table equals the question's scores the full total. */
  lemma OverlapSelf(q: map<string, int>)
    ensures Overlap(q, q) == Sum(q)
  {
    SumEqual(Clipped(q, q), q);
  }

  /** An answer sharing no key with the question scores 0. */
  lemma OverlapDisjoint(a: map<string, int>, q: map<string, int>)
    requires a.Keys !! q.Keys
    ensures Overlap(a, q) == 0
  {
    SumOfZeros(Clipped(a, q));
  }

  /** Keys present only in the answer contribute nothing. */
  lemma OverlapIgnoresAnswerOnlyKeys(a: map<string, int>, q: map<string, int>)
    ensures Overlap(a, q) == Overlap(map k | k in a && k in q :: a[k], q)
  {
    SumEqual(Clipped(a, q), Clipped(map k | k in a && k in q :: a[k], q));
  }

  /** Raising answer counts, or adding answer keys, never lowers the overlap. */
  lemma OverlapMonotone(a: map<string, int>, a': map<string, int>, q: map<string, int>)
    requires NonNegative(a') && NonNegative(q)
    requires a.Keys <= a'.Keys
    requires forall k :: k in a ==> a[k] <= a'[k]
    ensures Overlap(a, q) <= Overlap(a', q)
  {
    SumMonotone(Clipped(a, q), Clipped(a', q));
  }
}
