/**
  `sorted(parse_qsl(query))`: the parsed key/value pairs of a query string put
  in the order Python gives to tuples of `str` (by key, then by value). The
  order is total, so the sorted list depends only on the multiset of pairs —
  which is what makes query-pair order irrelevant after normalisation.
 */
module QuerySort {
  import opened Text

  /** One `(key, value)` pair as `parse_qsl` yields it. */
  type Pair = (string, string)

  /** Python's `p <= q` on a pair of `str`: by key first, then by value. */
  predicate PairLe(p: Pair, q: Pair) {
    if p.0 == q.0 then StrLe(p.1, q.1) else StrLe(p.0, q.0)
  }

  lemma PairLeReflexive(p: Pair)
    ensures PairLe(p, p)
  {
    StrLeReflexive(p.1);
  }

  lemma PairLeTotal(p: Pair, q: Pair)
    ensures PairLe(p, q) || PairLe(q, p)
  {
    StrLeTotal(p.0, q.0);
    StrLeTotal(p.1, q.1);
  }

  lemma PairLeAntisymmetric(p: Pair, q: Pair)
    requires PairLe(p, q) && PairLe(q, p)
    ensures p == q
  {
    if p.0 == q.0 {
      StrLeAntisymmetric(p.1, q.1);
    } else {
      StrLeAntisymmetric(p.0, q.0);
    }
  }

  lemma PairLeTransitive(p: Pair, q: Pair, r: Pair)
    requires PairLe(p, q) && PairLe(q, r)
    ensures PairLe(p, r)
  {
    if p.0 == q.0 && q.0 == r.0 {
      StrLeTransitive(p.1, q.1, r.1);
    } else if p.0 != q.0 && q.0 != r.0 {
      if p.0 == r.0 {
        StrLeAntisymmetric(p.0, q.0);
        assert false;
      }
      StrLeTransitive(p.0, q.0, r.0);
    }
  }

  predicate Sorted(s: seq<Pair>) {
    forall i, j :: 0 <= i < j < |s| ==> PairLe(s[i], s[j])
  }

  /** Places `p` before the first element it does not exceed. */
  function Insert(p: Pair, s: seq<Pair>): seq<Pair> {
    if s == [] then [p]
    else if PairLe(p, s[0]) then [p] + s
    else [s[0]] + Insert(p, s[1..])
  }

  lemma {:induction false} InsertPermutes(p: Pair, s: seq<Pair>)
    ensures multiset(Insert(p, s)) == multiset(s) + multiset{p}
  {
    if s != [] && !PairLe(p, s[0]) {
      InsertPermutes(p, s[1..]);
      assert s == [s[0]] + s[1..];
    }
  }

  lemma {:induction false} InsertSorted(p: Pair, s: seq<Pair>)
    requires Sorted(s)
    ensures Sorted(Insert(p, s))
  {
    if s == [] {
    } else if PairLe(p, s[0]) {
      forall j | 0 <= j < |s|
        ensures PairLe(p, s[j])
      {
        if j > 0 { PairLeTransitive(p, s[0], s[j]); }
      }
    } else {
      var t := Insert(p, s[1..]);
      InsertSorted(p, s[1..]);
      InsertPermutes(p, s[1..]);
      PairLeTotal(p, s[0]);
      forall j | 0 <= j < |t|
        ensures PairLe(s[0], t[j])
      {
        assert t[j] in multiset(t);
        if t[j] != p {
          assert t[j] in multiset(s[1..]);
          var k :| 0 <= k < |s[1..]| && s[1..][k] == t[j];
          assert s[k + 1] == t[j];
        }
      }
    }
  }

  /** `sorted(q)` on a list of pairs. */
  function SortPairs(q: seq<Pair>): seq<Pair> {
    if q == [] then [] else Insert(q[0], SortPairs(q[1..]))
  }

  /** Sorting yields a sorted arrangement of exactly the given pairs. */
  lemma {:induction false} SortPairsSortsAndPermutes(q: seq<Pair>)
    ensures Sorted(SortPairs(q))
    ensures multiset(SortPairs(q)) == multiset(q)
  {
    if q != [] {
      SortPairsSortsAndPermutes(q[1..]);
      InsertSorted(q[0], SortPairs(q[1..]));
      InsertPermutes(q[0], SortPairs(q[1..]));
      assert q == [q[0]] + q[1..];
    }
  }

  /** The head of a sorted sequence is at most each of its elements. */
  lemma SortedHeadLeast(s: seq<Pair>, x: Pair)
    requires Sorted(s) && x in s
    ensures PairLe(s[0], x)
  {
    var k :| 0 <= k < |s| && s[k] == x;
    if k == 0 { PairLeReflexive(x); }
  }

  lemma SortedTail(s: seq<Pair>)
    requires Sorted(s) && s != []
    ensures Sorted(s[1..])
  {
  }

  lemma MultisetTail(a: seq<Pair>, b: seq<Pair>)
    requires a != [] && b != [] && a[0] == b[0]
    requires multiset(a) == multiset(b)
    ensures multiset(a[1..]) == multiset(b[1..])
  {
    assert a == [a[0]] + a[1..] && b == [b[0]] + b[1..];
    assert multiset(a[1..]) == multiset(a) - multiset{a[0]};
    assert multiset(b[1..]) == multiset(b) - multiset{b[0]};
  }

  /** Two sorted sequences holding the same pairs are the same sequence. */
  lemma {:induction false} SortedUnique(a: seq<Pair>, b: seq<Pair>)
    requires Sorted(a) && Sorted(b)
    requires multiset(a) == multiset(b)
    ensures a == b
  {
    if a == [] {
      assert |multiset(b)| == 0;
    } else {
      assert a[0] in multiset(b) && b != [];
      assert b[0] in multiset(a);
      SortedHeadLeast(b, a[0]);
      SortedHeadLeast(a, b[0]);
      PairLeAntisymmetric(a[0], b[0]);
      MultisetTail(a, b);
      SortedTail(a);
      SortedTail(b);
      SortedUnique(a[1..], b[1..]);
      assert a == [a[0]] + a[1..] && b == [b[0]] + b[1..];
    }
  }

  /** Sorting forgets the order of the pairs and nothing else. */
  lemma SortPairsCanonical(q1: seq<Pair>, q2: seq<Pair>)
    ensures SortPairs(q1) == SortPairs(q2) <==> multiset(q1) == multiset(q2)
  {
    SortPairsSortsAndPermutes(q1);
    SortPairsSortsAndPermutes(q2);
    if multiset(q1) == multiset(q2) {
      SortedUnique(SortPairs(q1), SortPairs(q2));
    }
  }

  /** Sorting an already sorted list changes nothing. */
  lemma SortPairsOfSorted(q: seq<Pair>)
    requires Sorted(q)
    ensures SortPairs(q) == q
  {
    SortPairsSortsAndPermutes(q);
    SortedUnique(SortPairs(q), q);
  }
}
