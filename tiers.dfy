/** Student status and the program-name test that splits the catalog into
    an undergraduate and a graduate tier. Both the question catalog and the
    scoring engine filter programs with this test. */
module Tiers {

  /** The two student statuses the survey offers. */
  datatype Tier = Undergraduate | Graduate

  /** The one error either operation raises: a status string that is
      neither "Undergraduate" nor "Graduate". */
  datatype StatusError = InvalidStatus

  datatype Result<T> = Success(value: T) | Failure(error: StatusError)

  /** No element occurs twice (as for the keys of a dictionary). */
  predicate Distinct<T(==)>(s: seq<T>)
  {
    forall i, j :: 0 <= i < j < |s| ==> s[i] != s[j]
  }

  /** The words that mark a graduate program's name. */
  const GraduateQualifier: string := "Master of Science"

  /** Maps the status string to a tier; any other string is an error. */
  function ParseStatus(status: string): Result<Tier>
  {
    if status == "Undergraduate" then Success(Undergraduate)
    else if status == "Graduate" then Success(Graduate)
    else Failure(InvalidStatus)
  }

  predicate IsPrefix(pre: string, s: string)
  {
    |pre| <= |s| && s[..|pre|] == pre
  }

  /** `sub` occurs in `s` starting at position `i`. */
  predicate OccursAt(s: string, sub: string, i: int)
  {
    0 <= i <= |s| - |sub| && s[i..i + |sub|] == sub
  }

  /** The string test `sub in s`: `sub` is a contiguous slice of `s`. */
  predicate Contains(s: string, sub: string)
    decreases |s|
  {
    IsPrefix(sub, s) || (|s| > 0 && Contains(s[1..], sub))
  }

  /** The recursive search agrees with the positional definition. */
  lemma {:induction false} ContainsIffOccurs(s: string, sub: string)
    ensures Contains(s, sub) <==> exists i :: OccursAt(s, sub, i)
    decreases |s|
  {
    if IsPrefix(sub, s) {
      assert OccursAt(s, sub, 0);
    } else if |s| > 0 {
      ContainsIffOccurs(s[1..], sub);
      if Contains(s[1..], sub) {
        var i :| OccursAt(s[1..], sub, i);
        assert s[1..][i..i + |sub|] == s[i + 1..i + 1 + |sub|];
        assert OccursAt(s, sub, i + 1);
      } else {
        if i :| OccursAt(s, sub, i) {
          assert i != 0;
          assert s[1..][i - 1..i - 1 + |sub|] == s[i..i + |sub|];
          assert OccursAt(s[1..], sub, i - 1);
          assert false;
        }
      }
    } else {
      if i :| OccursAt(s, sub, i) {
        assert false;
      }
    }
  }

  /** A name in which the first letter of `sub` never appears cannot
      contain `sub`. */
  lemma {:induction false} FirstLetterAbsent(s: string, sub: string)
    requires |sub| > 0 && sub[0] !in s
    ensures !Contains(s, sub)
    decreases |s|
  {
    if |sub| <= |s| {
      assert s[..|sub|][0] == s[0];
    }
    if |s| > 0 {
      FirstLetterAbsent(s[1..], sub);
    }
  }

  /** Membership of a program in a tier: graduate names carry the
      qualifier, undergraduate names do not. */
  predicate InTier(tier: Tier, program: string)
  {
    match tier
    case Undergraduate => !Contains(program, GraduateQualifier)
    case Graduate => Contains(program, GraduateQualifier)
  }

  /** Every program belongs to exactly one tier. */
  lemma TierIsExclusive(program: string)
    ensures InTier(Undergraduate, program) != InTier(Graduate, program)
  {
  }

  /** The list comprehension `[p for p in programs if <tier test>]`. */
  function FilterTier(programs: seq<string>, tier: Tier): (r: seq<string>)
    ensures forall p :: p in r <==> p in programs && InTier(tier, p)
    ensures |r| <= |programs|
  {
    if programs == [] then []
    else (if InTier(tier, programs[0]) then [programs[0]] else []) + FilterTier(programs[1..], tier)
  }

  lemma {:induction false} FilterTierAppend(a: seq<string>, b: seq<string>, tier: Tier)
    ensures FilterTier(a + b, tier) == FilterTier(a, tier) + FilterTier(b, tier)
    decreases |a|
  {
    if a == [] {
      assert a + b == b;
    } else {
      assert (a + b)[1..] == a[1..] + b;
      FilterTierAppend(a[1..], b, tier);
    }
  }

  /** A list whose programs all belong to the tier passes unchanged; one
      with none of them gives the empty list. */
  lemma {:induction false} FilterTierWhole(programs: seq<string>, tier: Tier)
    ensures (forall p :: p in programs ==> InTier(tier, p)) ==> FilterTier(programs, tier) == programs
    ensures (forall p :: p in programs ==> !InTier(tier, p)) ==> FilterTier(programs, tier) == []
    decreases |programs|
  {
    if programs != [] {
      assert programs[0] in programs;
      assert forall p :: p in programs[1..] ==> p in programs;
      FilterTierWhole(programs[1..], tier);
    }
  }

  lemma {:induction false} FilterTierDistinct(programs: seq<string>, tier: Tier)
    requires Distinct(programs)
    ensures Distinct(FilterTier(programs, tier))
    decreases |programs|
  {
    if programs != [] {
      assert Distinct(programs[1..]);
      FilterTierDistinct(programs[1..], tier);
      assert programs[0] !in programs[1..];
    }
  }

  /** Filtering keeps every occurrence of a program of the tier and no
      occurrence of any other program. */
  lemma {:induction false} FilterTierCount(programs: seq<string>, tier: Tier, p: string)
    ensures multiset(FilterTier(programs, tier))[p]
            == if InTier(tier, p) then multiset(programs)[p] else 0
    decreases |programs|
  {
    if programs != [] {
      FilterTierCount(programs[1..], tier, p);
      assert programs == [programs[0]] + programs[1..];
    }
  }

  /** The two tiers together account for every program exactly as often as
      it occurs. */
  lemma FilterTierPartition(programs: seq<string>)
    ensures multiset(FilterTier(programs, Undergraduate)) + multiset(FilterTier(programs, Graduate))
            == multiset(programs)
  {
    forall p
      ensures (multiset(FilterTier(programs, Undergraduate)) + multiset(FilterTier(programs, Graduate)))[p]
              == multiset(programs)[p]
    {
      FilterTierCount(programs, Undergraduate, p);
      FilterTierCount(programs, Graduate, p);
    }
  }

  /** Filtering a reordering of the programs yields a reordering of the
      filtered programs, so the size of a tier does not depend on the
      order the programs come in. */
  lemma FilterTierPermutation(a: seq<string>, b: seq<string>, tier: Tier)
    requires multiset(a) == multiset(b)
    ensures multiset(FilterTier(a, tier)) == multiset(FilterTier(b, tier))
    ensures |FilterTier(a, tier)| == |FilterTier(b, tier)|
  {
    forall p
      ensures multiset(FilterTier(a, tier))[p] == multiset(FilterTier(b, tier))[p]
    {
      FilterTierCount(a, tier, p);
      FilterTierCount(b, tier, p);
    }
    assert multiset(FilterTier(a, tier)) == multiset(FilterTier(b, tier));
    assert |multiset(FilterTier(a, tier))| == |multiset(FilterTier(b, tier))|;
  }

  /** A distinct sequence holds each value at most once. */
  lemma {:induction false} DistinctCount<T>(s: seq<T>, x: T)
    requires Distinct(s)
    ensures multiset(s)[x] <= 1
    decreases |s|
  {
    if s != [] {
      assert s == [s[0]] + s[1..];
      assert Distinct(s[1..]);
      DistinctCount(s[1..], x);
      assert s[0] !in s[1..];
    }
  }

  /** A reordering of a distinct sequence is distinct. */
  lemma DistinctPermutation<T>(a: seq<T>, b: seq<T>)
    requires multiset(a) == multiset(b) && Distinct(b)
    ensures Distinct(a)
  {
    forall i, j | 0 <= i < j < |a|
      ensures a[i] != a[j]
    {
      if a[i] == a[j] {
        assert a == a[..j] + a[j..];
        assert a[i] in multiset(a[..j]);
        assert a[j] in multiset(a[j..]);
        DistinctCount(b, a[i]);
        assert false;
      }
    }
  }
}
