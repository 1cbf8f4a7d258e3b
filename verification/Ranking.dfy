/**
 * Deterministic ranking: sorting by a total order and numbering from 1, for the routes of Stage 6 and the
 * candidate causes of Stage 4.
 */
module Ranking {

  /** A total preorder on every value, under which distinct elements of s are never tied. */
  ghost predicate Ranks<T(!new)>(leq: (T, T) -> bool, s: seq<T>) {
    && (forall x, y :: leq(x, y) || leq(y, x))
    && (forall x, y, z :: leq(x, y) && leq(y, z) ==> leq(x, z))
    && Untied(leq, s)
  }

  ghost predicate Untied<T>(leq: (T, T) -> bool, s: seq<T>) {
    forall x, y :: x in s && y in s && leq(x, y) && leq(y, x) ==> x == y
  }

  ghost predicate Sorted<T>(leq: (T, T) -> bool, s: seq<T>) {
    forall i, j :: 0 <= i < j < |s| ==> leq(s[i], s[j])
  }

  function Insert<T>(leq: (T, T) -> bool, x: T, s: seq<T>): seq<T> {
    if s == [] || leq(x, s[0]) then [x] + s else [s[0]] + Insert(leq, x, s[1..])
  }

  /** sorted(s, key=...): the stable sort. */
  function Sort<T>(leq: (T, T) -> bool, s: seq<T>): seq<T> {
    if s == [] then [] else Insert(leq, s[0], Sort(leq, s[1..]))
  }

  lemma {:induction false} InsertSorted<T(!new)>(leq: (T, T) -> bool, x: T, s: seq<T>)
    requires forall x, y :: leq(x, y) || leq(y, x)
    requires forall x, y, z :: leq(x, y) && leq(y, z) ==> leq(x, z)
    requires Sorted(leq, s)
    ensures Sorted(leq, Insert(leq, x, s))
  {
    if s != [] && !leq(x, s[0]) {
      InsertSorted(leq, x, s[1..]);
      var tail := Insert(leq, x, s[1..]);
      forall i | 0 <= i < |tail|
        ensures leq(s[0], tail[i])
      {
        InsertKeeps(leq, x, s[1..]);
        assert tail[i] in multiset(tail);
        assert tail[i] == x || tail[i] in s[1..];
      }
    }
  }

  lemma {:induction false} InsertKeeps<T>(leq: (T, T) -> bool, x: T, s: seq<T>)
    ensures multiset(Insert(leq, x, s)) == multiset([x] + s)
  {
    if s != [] {
      assert s == [s[0]] + s[1..];
      if !leq(x, s[0]) {
        InsertKeeps(leq, x, s[1..]);
      }
    }
  }

  lemma {:induction false} SortSorts<T(!new)>(leq: (T, T) -> bool, s: seq<T>)
    requires forall x, y :: leq(x, y) || leq(y, x)
    requires forall x, y, z :: leq(x, y) && leq(y, z) ==> leq(x, z)
    ensures Sorted(leq, Sort(leq, s)) && multiset(Sort(leq, s)) == multiset(s)
  {
    if s != [] {
      SortSorts(leq, s[1..]);
      InsertSorted(leq, s[0], Sort(leq, s[1..]));
      InsertKeeps(leq, s[0], Sort(leq, s[1..]));
      assert s == [s[0]] + s[1..];
    }
  }

  lemma SameHead<T(!new)>(leq: (T, T) -> bool, a: seq<T>, b: seq<T>)
    requires Untied(leq, a) && Sorted(leq, a) && Sorted(leq, b) && multiset(a) == multiset(b)
    requires (forall x :: leq(x, x)) && a != [] && b != []
    ensures a[0] == b[0]
  {
    assert a[0] in multiset(b) && b[0] in multiset(a);
    var i :| 0 <= i < |a| && a[i] == b[0];
    var j :| 0 <= j < |b| && b[j] == a[0];
    assert leq(a[0], a[i]) && leq(b[0], b[j]);
  }

  lemma TailLoses<T>(s: seq<T>)
    requires s != []
    ensures multiset(s[1..]) == multiset(s) - multiset{s[0]}
  {
    assert s == [s[0]] + s[1..];
  }

  lemma {:induction false} SortedIsUnique<T(!new)>(leq: (T, T) -> bool, a: seq<T>, b: seq<T>)
    requires Untied(leq, a) && Sorted(leq, a) && Sorted(leq, b) && multiset(a) == multiset(b)
    requires forall x :: leq(x, x)
    ensures a == b
  {
    assert |a| == |multiset(a)| == |multiset(b)| == |b|;
    if a != [] {
      SameHead(leq, a, b);
      TailLoses(a);
      TailLoses(b);
      SortedIsUnique(leq, a[1..], b[1..]);
      assert a == [a[0]] + a[1..] && b == [b[0]] + b[1..];
    }
  }

  /** Whatever the input order, the ranked list is the one sorted permutation. */
  lemma SortIsCanonical<T(!new)>(leq: (T, T) -> bool, s: seq<T>, t: seq<T>)
    requires Ranks(leq, s)
    ensures t == Sort(leq, s) <==> Sorted(leq, t) && multiset(t) == multiset(s)
    ensures multiset(t) == multiset(s) ==> Sort(leq, t) == Sort(leq, s)
  {
    SortSorts(leq, s);
    SortSorts(leq, t);
    var sorted := Sort(leq, s);
    assert forall x :: x in sorted <==> x in multiset(s);
    assert forall x :: x in s <==> x in multiset(s);
    assert Untied(leq, sorted);
    assert forall x :: leq(x, x);
    if Sorted(leq, t) && multiset(t) == multiset(s) {
      SortedIsUnique(leq, sorted, t);
    }
    if multiset(t) == multiset(s) {
      SortedIsUnique(leq, sorted, Sort(leq, t));
    }
  }

  lemma SortedHeadIsLeast<T(!new)>(leq: (T, T) -> bool, s: seq<T>)
    requires Ranks(leq, s)
    ensures |Sort(leq, s)| == |s|
    ensures s != [] ==> Sort(leq, s)[0] in s && forall x <- s :: leq(Sort(leq, s)[0], x)
  {
    SortSorts(leq, s);
    var sorted := Sort(leq, s);
    assert |multiset(sorted)| == |multiset(s)|;
    forall x | x in s
      ensures leq(sorted[0], x)
    {
      assert x in multiset(sorted);
      assert leq(sorted[0], sorted[0]);
    }
    assert s != [] ==> sorted[0] in multiset(s);
  }

  datatype Ranked<T> = Ranked(item: T, rank: nat)

  /** Ranks 1, 2, 3, ... in order. */
  function Numbered<T>(s: seq<T>): (r: seq<Ranked<T>>)
    ensures |r| == |s| && forall i :: 0 <= i < |r| ==> r[i] == Ranked(s[i], i + 1)
  {
    seq(|s|, i requires 0 <= i < |s| => Ranked(s[i], i + 1))
  }

  // ---------------------------------------------------------------------------
  // Strings in the order of their code points
  // ---------------------------------------------------------------------------

  predicate StringLeq(a: string, b: string) {
    a == "" || (b != "" && (a[0] < b[0] || (a[0] == b[0] && StringLeq(a[1..], b[1..]))))
  }

  lemma StringTotal(a: string, b: string)
    ensures StringLeq(a, b) || StringLeq(b, a)
  {
  }

  lemma {:induction false} StringTransitive(a: string, b: string, c: string)
    requires StringLeq(a, b) && StringLeq(b, c)
    ensures StringLeq(a, c)
  {
    if a != "" && a[0] == b[0] == c[0] {
      StringTransitive(a[1..], b[1..], c[1..]);
    }
  }

  lemma {:induction false} StringAntisymmetric(a: string, b: string)
    requires StringLeq(a, b) && StringLeq(b, a)
    ensures a == b
  {
    if a != "" {
      StringAntisymmetric(a[1..], b[1..]);
      assert a == [a[0]] + a[1..] && b == [b[0]] + b[1..];
    }
  }

  /** The strings agree up to a position where the first one ends or has the smaller character. */
  predicate ComesFirst(a: string, b: string, k: nat) {
    && k <= |a| && k <= |b| && a[..k] == b[..k]
    && (k == |a| || (k < |b| && a[k] < b[k]))
  }

  lemma {:induction false} StringLeqMeaning(a: string, b: string)
    ensures StringLeq(a, b) <==> exists k: nat :: ComesFirst(a, b, k)
  {
    if a == "" {
      assert ComesFirst(a, b, 0);
    } else if b != "" && a[0] == b[0] {
      StringLeqMeaning(a[1..], b[1..]);
      assert a == [a[0]] + a[1..] && b == [b[0]] + b[1..];
      if k: nat :| ComesFirst(a[1..], b[1..], k) {
        assert a[..k + 1] == [a[0]] + a[1..][..k] && b[..k + 1] == [b[0]] + b[1..][..k];
        assert ComesFirst(a, b, k + 1);
      }
      if k: nat :| ComesFirst(a, b, k) {
        assert k > 0 && a[1..][..k - 1] == a[..k][1..] && b[1..][..k - 1] == b[..k][1..];
        assert ComesFirst(a[1..], b[1..], k - 1);
      }
    } else if b != "" && a[0] < b[0] {
      assert ComesFirst(a, b, 0);
    } else if k: nat :| ComesFirst(a, b, k) {
      assert k > 0 ==> a[..k][0] == b[..k][0];
    }
  }

  // ---------------------------------------------------------------------------
  // Stage 4 candidate causes
  // ---------------------------------------------------------------------------

  datatype Cause = Cause(dimension: string, value: string, contribution: real, failures: int)

  /** Contribution and failures descending, then dimension and value ascending. */
  predicate CauseLeq(a: Cause, b: Cause) {
    if a.contribution != b.contribution then a.contribution > b.contribution
    else if a.failures != b.failures then a.failures > b.failures
    else if a.dimension != b.dimension then StringLeq(a.dimension, b.dimension)
    else StringLeq(a.value, b.value)
  }

  ghost predicate DistinctCauses(s: seq<Cause>) {
    forall i, j :: 0 <= i < j < |s| ==> (s[i].dimension, s[i].value) != (s[j].dimension, s[j].value)
  }

  lemma CausesRank(s: seq<Cause>)
    requires DistinctCauses(s)
    ensures Ranks(CauseLeq, s)
  {
    forall a, b
      ensures CauseLeq(a, b) || CauseLeq(b, a)
      ensures a in s && b in s && CauseLeq(a, b) && CauseLeq(b, a) ==> a == b
    {
      StringTotal(a.dimension, b.dimension);
      StringTotal(a.value, b.value);
      if StringLeq(a.dimension, b.dimension) && StringLeq(b.dimension, a.dimension) {
        StringAntisymmetric(a.dimension, b.dimension);
      }
      if StringLeq(a.value, b.value) && StringLeq(b.value, a.value) {
        StringAntisymmetric(a.value, b.value);
      }
    }
    forall a, b, c | CauseLeq(a, b) && CauseLeq(b, c)
      ensures CauseLeq(a, c)
    {
      CauseTransitive(a, b, c);
    }
  }

  lemma CauseTransitive(a: Cause, b: Cause, c: Cause)
    requires CauseLeq(a, b) && CauseLeq(b, c)
    ensures CauseLeq(a, c)
  {
    if a.contribution == b.contribution == c.contribution && a.failures == b.failures == c.failures {
      if StringLeq(a.dimension, b.dimension) && StringLeq(b.dimension, c.dimension) {
        StringTransitive(a.dimension, b.dimension, c.dimension);
        if a.dimension == c.dimension {
          StringAntisymmetric(a.dimension, b.dimension);
        }
      }
      if StringLeq(a.value, b.value) && StringLeq(b.value, c.value) {
        StringTransitive(a.value, b.value, c.value);
      }
    }
  }

  /** rank_candidates: ranks are written in a loop over the sorted list. */
  method RankCandidates(unranked: seq<Cause>) returns (ranked: seq<Ranked<Cause>>)
    ensures ranked == Numbered(Sort(CauseLeq, unranked))
  {
    var sorted := Sort(CauseLeq, unranked);
    ranked := [];
    for i := 0 to |sorted|
      invariant ranked == Numbered(sorted[..i])
    {
      ranked := ranked + [Ranked(sorted[i], i + 1)];
    }
    assert sorted[..|sorted|] == sorted;
  }

  /** Whatever the order of the candidates, one list of ranks results and one candidate has rank 1. */
  lemma CauseRankingIsCanonical(s: seq<Cause>, t: seq<Cause>)
    requires DistinctCauses(s)
    ensures multiset(t) == multiset(s) ==> Numbered(Sort(CauseLeq, t)) == Numbered(Sort(CauseLeq, s))
    ensures s != [] ==> forall c <- s :: CauseLeq(Numbered(Sort(CauseLeq, s))[0].item, c)
  {
    CausesRank(s);
    SortIsCanonical(CauseLeq, s, t);
    SortedHeadIsLeast(CauseLeq, s);
  }

  /**
   * A better rank means a larger contribution, or as large a one and more failures, or both as large and the
   * earlier dimension, or that too and no later a value.
   */
  lemma RanksMeaning(s: seq<Cause>, i: nat, j: nat)
    requires DistinctCauses(s) && i < j < |Sort(CauseLeq, s)|
    ensures var a, b := Numbered(Sort(CauseLeq, s))[i], Numbered(Sort(CauseLeq, s))[j];
            && a.rank == i + 1 && b.rank == j + 1
            && (|| a.item.contribution > b.item.contribution
                || (a.item.contribution == b.item.contribution && a.item.failures > b.item.failures)
                || (a.item.contribution == b.item.contribution && a.item.failures == b.item.failures
                    && if a.item.dimension != b.item.dimension
                       then exists k: nat :: ComesFirst(a.item.dimension, b.item.dimension, k)
                       else exists k: nat :: ComesFirst(a.item.value, b.item.value, k)))
  {
    CausesRank(s);
    SortSorts(CauseLeq, s);
    var a, b := Sort(CauseLeq, s)[i], Sort(CauseLeq, s)[j];
    assert CauseLeq(a, b);
    StringLeqMeaning(a.dimension, b.dimension);
    StringLeqMeaning(a.value, b.value);
  }
}
