/** The ordering step of the recommender: programs sorted by their raw
    total, highest first, with programs of equal total left in the order
    they came in (the behaviour of a stable sort asked to reverse its
    order). */
module Ranking {
  import opened Tiers

  /** Every program of `ps` has a total. */
  predicate Keyed(ps: seq<string>, totals: map<string, int>)
  {
    forall p :: p in ps ==> p in totals
  }

  /** Highest total first. */
  predicate Descending(ps: seq<string>, totals: map<string, int>)
    requires Keyed(ps, totals)
  {
    forall i, j :: 0 <= i < j < |ps| ==> totals[ps[i]] >= totals[ps[j]]
  }

  /** The programs of `ps` whose total is `v`, in the order of `ps`. */
  function WithTotal(ps: seq<string>, totals: map<string, int>, v: int): seq<string>
    requires Keyed(ps, totals)
  {
    if ps == [] then []
    else (if totals[ps[0]] == v then [ps[0]] else []) + WithTotal(ps[1..], totals, v)
  }

  /** Places `p` in front of the first program whose total does not
      exceed its own, so that `p` precedes every program of equal total. */
  function InsertByTotal(p: string, ranked: seq<string>, totals: map<string, int>): (r: seq<string>)
    requires p in totals && Keyed(ranked, totals)
    ensures multiset(r) == multiset(ranked) + multiset{p}
    ensures Keyed(r, totals)
  {
    if ranked == [] || totals[ranked[0]] <= totals[p] then [p] + ranked
    else
      assert ranked == [ranked[0]] + ranked[1..];
      [ranked[0]] + InsertByTotal(p, ranked[1..], totals)
  }

  /** The sort `sorted(ps, key=totals, reverse=True)`: a permutation of
      `ps`, ordered by SortByTotalDescending and SortByTotalStable. */
  function SortByTotal(ps: seq<string>, totals: map<string, int>): (r: seq<string>)
    requires Keyed(ps, totals)
    ensures multiset(r) == multiset(ps)
    ensures Keyed(r, totals)
  {
    if ps == [] then []
    else
      assert ps == [ps[0]] + ps[1..];
      InsertByTotal(ps[0], SortByTotal(ps[1..], totals), totals)
  }

  /** Sorting keeps exactly the programs it was given, each as often as
      it was given. */
  lemma SortByTotalMembers(ps: seq<string>, totals: map<string, int>)
    requires Keyed(ps, totals)
    ensures |SortByTotal(ps, totals)| == |ps|
    ensures forall p :: p in SortByTotal(ps, totals) <==> p in ps
  {
    var r := SortByTotal(ps, totals);
    assert |multiset(r)| == |multiset(ps)|;
    forall p
      ensures p in r <==> p in ps
    {
      assert p in r <==> p in multiset(r);
      assert p in ps <==> p in multiset(ps);
    }
  }

  /** Sorting distinct programs yields distinct programs. */
  lemma {:induction false} SortByTotalDistinct(ps: seq<string>, totals: map<string, int>)
    requires Keyed(ps, totals) && Distinct(ps)
    ensures Distinct(SortByTotal(ps, totals))
    decreases |ps|
  {
    if ps != [] {
      var rest := SortByTotal(ps[1..], totals);
      assert Distinct(ps[1..]);
      SortByTotalDistinct(ps[1..], totals);
      assert ps[0] !in ps[1..];
      assert ps[0] !in multiset(rest);
      InsertKeepsDistinct(ps[0], rest, totals);
    }
  }

  lemma {:induction false} InsertKeepsDistinct(p: string, ranked: seq<string>, totals: map<string, int>)
    requires p in totals && Keyed(ranked, totals)
    requires Distinct(ranked) && p !in ranked
    ensures Distinct(InsertByTotal(p, ranked, totals))
    decreases |ranked|
  {
    if !(ranked == [] || totals[ranked[0]] <= totals[p]) {
      var rest := InsertByTotal(p, ranked[1..], totals);
      InsertKeepsDistinct(p, ranked[1..], totals);
      assert ranked[0] !in ranked[1..];
      assert ranked[0] !in multiset(rest);
    }
  }

  lemma {:induction false} InsertKeepsDescending(p: string, ranked: seq<string>, totals: map<string, int>)
    requires p in totals && Keyed(ranked, totals)
    requires Descending(ranked, totals)
    ensures Descending(InsertByTotal(p, ranked, totals), totals)
    decreases |ranked|
  {
    if !(ranked == [] || totals[ranked[0]] <= totals[p]) {
      var rest := InsertByTotal(p, ranked[1..], totals);
      InsertKeepsDescending(p, ranked[1..], totals);
      forall k | 0 <= k < |rest|
        ensures totals[ranked[0]] >= totals[rest[k]]
      {
        assert rest[k] in multiset(rest);
        if rest[k] != p {
          assert rest[k] in multiset(ranked[1..]);
          var m :| 0 <= m < |ranked[1..]| && ranked[1..][m] == rest[k];
          assert ranked[m + 1] == rest[k];
        }
      }
    }
  }

  /** The result is ordered by total, highest first. */
  lemma {:induction false} SortByTotalDescending(ps: seq<string>, totals: map<string, int>)
    requires Keyed(ps, totals)
    ensures Descending(SortByTotal(ps, totals), totals)
    decreases |ps|
  {
    if ps != [] {
      SortByTotalDescending(ps[1..], totals);
      InsertKeepsDescending(ps[0], SortByTotal(ps[1..], totals), totals);
    }
  }

  lemma {:induction false} InsertWithTotal(p: string, ranked: seq<string>, totals: map<string, int>, v: int)
    requires p in totals && Keyed(ranked, totals)
    ensures WithTotal(InsertByTotal(p, ranked, totals), totals, v)
            == (if totals[p] == v then [p] else []) + WithTotal(ranked, totals, v)
    decreases |ranked|
  {
    var r := InsertByTotal(p, ranked, totals);
    if ranked == [] || totals[ranked[0]] <= totals[p] {
      assert r[1..] == ranked;
    } else {
      InsertWithTotal(p, ranked[1..], totals, v);
      assert r[1..] == InsertByTotal(p, ranked[1..], totals);
    }
  }

  /** Stability: for every total, the programs with that total appear in
      the result in the same order as in the input. */
  lemma {:induction false} SortByTotalStable(ps: seq<string>, totals: map<string, int>, v: int)
    requires Keyed(ps, totals)
    ensures WithTotal(SortByTotal(ps, totals), totals, v) == WithTotal(ps, totals, v)
    decreases |ps|
  {
    if ps != [] {
      SortByTotalStable(ps[1..], totals, v);
      InsertWithTotal(ps[0], SortByTotal(ps[1..], totals), totals, v);
    }
  }
}
