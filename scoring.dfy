/** The recommendation engine: sums each program's Likert answers, keeps
    the programs of the student's tier, ranks them by total (highest
    first, ties in input order) and turns each total into a percentage
    fit. */
module Scoring {
  import opened Tiers
  import opened Ranking

  /** The answers the survey collected, as an insertion-ordered
      dictionary: `programs` lists the keys in the order they were first
      recorded, `answers` gives each program's recorded scores. The
      question texts that key the inner dictionary play no part in
      scoring and are left out. */
  datatype Responses = Responses(programs: seq<string>, answers: map<string, seq<int>>)

  /** The shape every dictionary has: each key once, and the key list and
      the map agree. */
  ghost predicate WellFormed(resp: Responses)
  {
    Distinct(resp.programs) && forall p :: p in resp.answers <==> p in resp.programs
  }

  /** Every recorded score is a Likert answer, 1 to 5. */
  predicate LikertAnswers(resp: Responses)
  {
    forall p :: p in resp.answers ==> forall s :: s in resp.answers[p] ==> 1 <= s <= 5
  }

  /** One entry of the result: a program and its percentage fit. */
  datatype Recommendation = Recommendation(program: string, fit: int)

  /** The built-in `sum` over a program's scores. */
  function Sum(scores: seq<int>): int
  {
    if scores == [] then 0 else scores[0] + Sum(scores[1..])
  }

  lemma {:induction false} SumAppend(a: seq<int>, b: seq<int>)
    ensures Sum(a + b) == Sum(a) + Sum(b)
    decreases |a|
  {
    if a == [] {
      assert a + b == b;
    } else {
      assert (a + b)[1..] == a[1..] + b;
      SumAppend(a[1..], b);
    }
  }

  /** A program's total does not depend on the order its answers were
      recorded in. */
  lemma {:induction false} SumOrderIndependent(a: seq<int>, b: seq<int>)
    requires multiset(a) == multiset(b)
    ensures Sum(a) == Sum(b)
    decreases |a|
  {
    if a == [] {
      assert |b| == |multiset(b)| == 0;
    } else {
      var x := a[0];
      assert x in multiset(b);
      var k :| 0 <= k < |b| && b[k] == x;
      var rest := b[..k] + b[k + 1..];
      assert b == b[..k] + [x] + b[k + 1..];
      assert a == [x] + a[1..];
      assert multiset(a[1..]) == multiset(a) - multiset{x};
      assert multiset(rest) == multiset(b) - multiset{x};
      SumOrderIndependent(a[1..], rest);
      SumAppend(b[..k] + [x], b[k + 1..]);
      SumAppend(b[..k], [x]);
      SumAppend(b[..k], b[k + 1..]);
      assert Sum([x]) == x + Sum([x][1..]);
    }
  }

  /** k Likert answers total between k and 5k. */
  lemma {:induction false} SumOfLikert(scores: seq<int>)
    requires forall s :: s in scores ==> 1 <= s <= 5
    ensures |scores| <= Sum(scores) <= 5 * |scores|
    decreases |scores|
  {
    if scores != [] {
      assert scores[0] in scores;
      assert forall s :: s in scores[1..] ==> s in scores;
      SumOfLikert(scores[1..]);
    }
  }

  /** k answers that are all `c` total c * k. */
  lemma {:induction false} SumOfConstant(scores: seq<int>, c: int)
    requires forall s :: s in scores ==> s == c
    ensures Sum(scores) == c * |scores|
    decreases |scores|
  {
    if scores != [] {
      assert scores[0] in scores;
      assert forall s :: s in scores[1..] ==> s in scores;
      SumOfConstant(scores[1..], c);
    }
  }

  /** Division by a positive number cancels from both sides of `<=`. */
  lemma MulLeCancel(d: int, a: int, b: int)
    requires d > 0 && d * a <= d * b
    ensures a <= b
  {
  }

  /** The built-in `round` applied to the exact quotient n / d: the
      nearest integer, and the even one of the two when n / d lies
      exactly half-way. */
  function RoundHalfEven(n: int, d: int): (r: int)
    requires d > 0
    ensures d * (2 * r - 1) <= 2 * n <= d * (2 * r + 1)
    ensures 2 * n == d * (2 * r - 1) || 2 * n == d * (2 * r + 1) ==> r % 2 == 0
  {
    var q := n / d;
    var m := n % d;
    assert n == d * q + m && 0 <= m < d;
    assert d * (2 * q - 1) == 2 * (d * q) - d;
    assert d * (2 * q + 1) == 2 * (d * q) + d;
    assert d * (2 * (q + 1) - 1) == 2 * (d * q) + d;
    assert d * (2 * (q + 1) + 1) == 2 * (d * q) + 3 * d;
    if 2 * m < d then q
    else if 2 * m > d then q + 1
    else if q % 2 == 0 then q
    else q + 1
  }

  /** The two properties of RoundHalfEven single out its result: any
      integer that is within one half of n / d, and even on a tie, is it. */
  lemma RoundHalfEvenUnique(n: int, d: int, r': int)
    requires d > 0
    requires d * (2 * r' - 1) <= 2 * n <= d * (2 * r' + 1)
    requires 2 * n == d * (2 * r' - 1) || 2 * n == d * (2 * r' + 1) ==> r' % 2 == 0
    ensures r' == RoundHalfEven(n, d)
  {
    var r := RoundHalfEven(n, d);
    MulLeCancel(d, 2 * r' - 1, 2 * r + 1);
    MulLeCancel(d, 2 * r - 1, 2 * r' + 1);
  }

  /** The percentage fit of a program with `count` answers totalling
      `total`: (total - count) / (count * 5 - count) * 100, rounded, and 0
      when the program has no answers (the divisor is then 0). */
  function PercentageFit(total: int, count: nat): (fit: int)
    ensures count == 0 ==> fit == 0
  {
    var highestPossible := count * 5 - count;
    var adjustedTotal := total - count;
    if highestPossible != 0 then RoundHalfEven(adjustedTotal * 100, highestPossible) else 0
  }

  /** Totals between the all-1 and the all-5 total give a fit between 0 and
      100. */
  lemma FitWithinBounds(total: int, count: nat)
    requires count <= total <= 5 * count
    ensures 0 <= PercentageFit(total, count) <= 100
  {
    if count > 0 {
      var d := count * 5 - count;
      var n := (total - count) * 100;
      var r := PercentageFit(total, count);
      assert r == RoundHalfEven(n, d);
      assert 0 <= 2 * n <= d * 200;
      MulLeCancel(d, 2 * r - 1, 200);
      MulLeCancel(d, 0, 2 * r + 1);
    }
  }

  /** The all-1 total (count, one per answer) gives 0. */
  lemma FitOfMinimum(count: nat)
    requires count > 0
    ensures PercentageFit(count, count) == 0
  {
    RoundHalfEvenUnique(0, count * 5 - count, 0);
  }

  /** The all-5 total (five per answer) gives 100. */
  lemma FitOfMaximum(count: nat)
    requires count > 0
    ensures PercentageFit(5 * count, count) == 100
  {
    RoundHalfEvenUnique((5 * count - count) * 100, count * 5 - count, 100);
  }

  /** Answers 5, 4, 3, 2, 1 total 15 out of a range of 5 to 25: half-way. */
  lemma FitOfDescendingAnswers()
    ensures PercentageFit(Sum([5, 4, 3, 2, 1]), 5) == 50
  {
    assert Sum([5, 4, 3, 2, 1]) == 15;
  }

  /** The fit of one program as the engine reports it. */
  function FitOf(resp: Responses, program: string): int
    requires program in resp.answers
  {
    PercentageFit(Sum(resp.answers[program]), |resp.answers[program]|)
  }

  /** Any non-empty run of equal Likert answers 1 or 5 gives the extreme
      fits. */
  lemma FitOfUniformAnswers(scores: seq<int>, c: int)
    requires |scores| > 0 && (c == 1 || c == 5)
    requires forall s :: s in scores ==> s == c
    ensures c == 1 ==> PercentageFit(Sum(scores), |scores|) == 0
    ensures c == 5 ==> PercentageFit(Sum(scores), |scores|) == 100
  {
    SumOfConstant(scores, c);
    if c == 1 {
      FitOfMinimum(|scores|);
    } else {
      FitOfMaximum(|scores|);
    }
  }

  /** The dictionary `match_scores`: each program's raw total. */
  function Totals(resp: Responses): map<string, int>
  {
    map p | p in resp.answers :: Sum(resp.answers[p])
  }

  /** The programs of the tier, in ranking order. */
  function Ranked(resp: Responses, tier: Tier): seq<string>
    requires WellFormed(resp)
  {
    SortByTotal(FilterTier(resp.programs, tier), Totals(resp))
  }

  function ProgramsOf(recs: seq<Recommendation>): (ps: seq<string>)
    ensures |ps| == |recs| && forall i :: 0 <= i < |recs| ==> ps[i] == recs[i].program
  {
    seq(|recs|, i requires 0 <= i < |recs| => recs[i].program)
  }

  /** What `get_recommendations` returns for a valid status. */
  function Recommend(resp: Responses, tier: Tier): seq<Recommendation>
    requires WellFormed(resp)
  {
    var ranked := Ranked(resp, tier);
    seq(|ranked|, i requires 0 <= i < |ranked| =>
      assert ranked[i] in multiset(ranked);
      Recommendation(ranked[i], FitOf(resp, ranked[i])))
  }

  lemma RecommendRanked(resp: Responses, tier: Tier)
    requires WellFormed(resp)
    ensures ProgramsOf(Recommend(resp, tier)) == Ranked(resp, tier)
  {
  }

  /** The result holds exactly the answered programs of the student's
      tier, each once: a reordering of the filtered programs. */
  lemma RecommendSelectsTier(resp: Responses, tier: Tier)
    requires WellFormed(resp)
    ensures multiset(ProgramsOf(Recommend(resp, tier))) == multiset(FilterTier(resp.programs, tier))
    ensures forall p :: p in ProgramsOf(Recommend(resp, tier)) <==> p in resp.programs && InTier(tier, p)
    ensures Distinct(ProgramsOf(Recommend(resp, tier)))
  {
    var filtered := FilterTier(resp.programs, tier);
    RecommendRanked(resp, tier);
    SortByTotalMembers(filtered, Totals(resp));
    FilterTierDistinct(resp.programs, tier);
    SortByTotalDistinct(filtered, Totals(resp));
  }

  /** The result is ordered by raw total, highest first. */
  lemma RecommendDescending(resp: Responses, tier: Tier)
    requires WellFormed(resp)
    ensures forall i :: 0 <= i < |Recommend(resp, tier)| ==> Recommend(resp, tier)[i].program in resp.answers
    ensures forall i, j :: 0 <= i < j < |Recommend(resp, tier)| ==>
      Sum(resp.answers[Recommend(resp, tier)[i].program]) >= Sum(resp.answers[Recommend(resp, tier)[j].program])
  {
    var filtered := FilterTier(resp.programs, tier);
    var ranked := Ranked(resp, tier);
    RecommendRanked(resp, tier);
    SortByTotalMembers(filtered, Totals(resp));
    SortByTotalDescending(filtered, Totals(resp));
    assert forall i :: 0 <= i < |ranked| ==> ranked[i] in ranked;
  }

  /** Programs with equal totals keep the order in which they were
      recorded. */
  lemma RecommendStable(resp: Responses, tier: Tier, v: int)
    requires WellFormed(resp)
    ensures Keyed(ProgramsOf(Recommend(resp, tier)), Totals(resp))
    ensures WithTotal(ProgramsOf(Recommend(resp, tier)), Totals(resp), v)
            == WithTotal(FilterTier(resp.programs, tier), Totals(resp), v)
  {
    RecommendRanked(resp, tier);
    SortByTotalStable(FilterTier(resp.programs, tier), Totals(resp), v);
  }

  /** A program recorded without answers is reported with fit 0, whatever
      else was recorded. */
  lemma RecommendUnansweredFit(resp: Responses, tier: Tier)
    requires WellFormed(resp)
    ensures forall i :: 0 <= i < |Recommend(resp, tier)| ==>
      Recommend(resp, tier)[i].program in resp.answers &&
      (resp.answers[Recommend(resp, tier)[i].program] == [] ==> Recommend(resp, tier)[i].fit == 0)
  {
    RecommendDescending(resp, tier);
  }

  /** With Likert answers every reported fit lies in [0, 100]. */
  lemma RecommendFitsInRange(resp: Responses, tier: Tier)
    requires WellFormed(resp) && LikertAnswers(resp)
    ensures forall i :: 0 <= i < |Recommend(resp, tier)| ==> 0 <= Recommend(resp, tier)[i].fit <= 100
  {
    var recs := Recommend(resp, tier);
    RecommendDescending(resp, tier);
    forall i | 0 <= i < |recs|
      ensures 0 <= recs[i].fit <= 100
    {
      var scores := resp.answers[recs[i].program];
      SumOfLikert(scores);
      FitWithinBounds(Sum(scores), |scores|);
    }
  }

  /** A map that gives every recorded program its sum is `match_scores`. */
  lemma TotalsAgree(resp: Responses, m: map<string, int>)
    requires WellFormed(resp)
    requires forall p :: p in m <==> p in resp.programs
    requires forall p :: p in m ==> m[p] == Sum(resp.answers[p])
    ensures m == Totals(resp)
  {
  }

  /** A list that pairs each ranked program with its fit is the result. */
  lemma RecommendAgrees(resp: Responses, tier: Tier, recs: seq<Recommendation>)
    requires WellFormed(resp)
    requires |recs| == |Ranked(resp, tier)|
    requires forall k :: 0 <= k < |recs| ==>
      Ranked(resp, tier)[k] in resp.answers &&
      recs[k] == Recommendation(Ranked(resp, tier)[k], FitOf(resp, Ranked(resp, tier)[k]))
    ensures recs == Recommend(resp, tier)
  {
  }

  /** The first loop of `get_recommendations`: `match_scores`, each
      recorded program's raw total. */
  method MatchScores(resp: Responses) returns (matchScores: map<string, int>)
    requires WellFormed(resp)
    ensures matchScores == Totals(resp)
  {
    matchScores := map[];
    var i := 0;
    while i < |resp.programs|
      invariant 0 <= i <= |resp.programs|
      invariant forall p :: p in matchScores <==> p in resp.programs[..i]
      invariant forall p :: p in matchScores ==> matchScores[p] == Sum(resp.answers[p])
    {
      var program := resp.programs[i];
      assert resp.programs[..i + 1] == resp.programs[..i] + [program];
      matchScores := matchScores[program := Sum(resp.answers[program])];
      i := i + 1;
    }
    assert resp.programs[..i] == resp.programs;
    TotalsAgree(resp, matchScores);
  }

  /** The last loop of `get_recommendations`: pairs each ranked program
      with its percentage fit, in ranking order. */
  method AttachFits(resp: Responses, ranked: seq<string>, matchScores: map<string, int>)
    returns (recommended: seq<Recommendation>)
    requires matchScores == Totals(resp)
    requires forall p :: p in ranked ==> p in resp.answers
    ensures |recommended| == |ranked|
    ensures forall k :: 0 <= k < |ranked| ==>
      recommended[k] == Recommendation(ranked[k], FitOf(resp, ranked[k]))
  {
    recommended := [];
    for j := 0 to |ranked|
      invariant |recommended| == j
      invariant forall k :: 0 <= k < j ==>
        recommended[k] == Recommendation(ranked[k], FitOf(resp, ranked[k]))
    {
      var program := ranked[j];
      var count := |resp.answers[program]|;
      var fit := PercentageFit(matchScores[program], count);
      recommended := recommended + [Recommendation(program, fit)];
    }
  }

  /** `get_recommendations(user_scores, student_status)`. */
  method GetRecommendations(resp: Responses, status: string) returns (r: Result<seq<Recommendation>>)
    requires WellFormed(resp)
    ensures r.Failure? <==> status != "Undergraduate" && status != "Graduate"
    ensures status == "Undergraduate" ==> r == Success(Recommend(resp, Undergraduate))
    ensures status == "Graduate" ==> r == Success(Recommend(resp, Graduate))
  {
    var matchScores := MatchScores(resp);

    var parsed := ParseStatus(status);
    if parsed.Failure? {
      return Failure(parsed.error);
    }
    var tier := parsed.value;
    var filteredPrograms := FilterTier(resp.programs, tier);
    var sortedPrograms := SortByTotal(filteredPrograms, matchScores);
    SortByTotalMembers(filteredPrograms, matchScores);

    var recommended := AttachFits(resp, sortedPrograms, matchScores);
    RecommendAgrees(resp, tier, recommended);
    return Success(recommended);
  }
}
