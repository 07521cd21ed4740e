/** Concrete sequences built from the polynomial fixtures of the test suite,
    and what the queries give on them. */
module Scenarios {
  import opened Wrappers
  import opened Builtins
  import opened Utils
  import opened Sequence
  import LegacySequence

  /** `q_x(x) = x**4 + 9`. */
  function Quartic(x: int): real
  {
    (x * x * x * x + 9) as real
  }

  /** `l_x(x) = 11 * x - 18`. */
  function Linear(x: int): real
  {
    (11 * x - 18) as real
  }

  /** `q_x` used as an indexing function: position `p` has index `p**4 + 9`. */
  function QuarticIndex(p: int): int
  {
    p * p * p * p + 9
  }

  /** `l_x` used as an indexing function: position `p` has index `11 * p - 18`. */
  function LinearIndex(p: int): int
  {
    11 * p - 18
  }

  /** `(y + 18) / 11`, the inverse of `l_x`; Python's `/` gives a float. */
  function LinearInverse(y: real): Numeric
  {
    FloatValue((y + 18.0) / 11.0)
  }

  /** `i_x(x) = x` used as an inverse on float terms. */
  function Identity(y: real): Numeric
  {
    FloatValue(y)
  }

  /** With the default `initial_index == 0`, `sum_up_to_nth_term(1)` is
      documented to be the first term, 9, but the code's range `0 .. 2`
      adds `q_x(1)` and `q_x(2)` to it; with `initial_index == 2` the range
      `2 .. 1` is empty and the code returns 0 instead of 25. */
  lemma SumUpToNthTermUsesRawRange()
    ensures SumUpToNthTerm(New(Quartic, None, None, 0, None), 1) == Success(44.0)
    ensures SumFirstTerms(New(Quartic, None, None, 0, None), 1) == Success(9.0)
    ensures SumUpToNthTerm(New(Quartic, None, None, 2, None), 1) == Success(0.0)
    ensures SumFirstTerms(New(Quartic, None, None, 2, None), 1) == Success(25.0)
  {
    var s := New(Quartic, None, None, 0, None);
    SumMapRangeStep(Quartic, 0, 0);
    SumMapRangeStep(Quartic, 0, 1);
    SumMapRangeStep(Quartic, 0, 2);
    SumFirstTermsStep(s, 1);
    SumFirstTermsStep(New(Quartic, None, None, 2, None), 1);
  }

  /** With `l_x` as the indexing function of `q_x`, the documented sums of
      the first one and three terms are `q_x(-7) = 2410` and
      `2410 + q_x(4) + q_x(15) = 53309`, but the code sums `q_x` over the
      raw indices `0 .. 2` and `0 .. 4`, giving 44 and 399. */
  lemma SumUpToNthTermSkipsIndexing()
    ensures SumUpToNthTerm(New(Quartic, None, Some(LinearIndex), 0, None), 1) == Success(44.0)
    ensures SumFirstTerms(New(Quartic, None, Some(LinearIndex), 0, None), 1) == Success(2410.0)
    ensures SumUpToNthTerm(New(Quartic, None, Some(LinearIndex), 0, None), 3) == Success(399.0)
    ensures SumFirstTerms(New(Quartic, None, Some(LinearIndex), 0, None), 3) == Success(53309.0)
  {
    var s := New(Quartic, None, Some(LinearIndex), 0, None);
    SumUpToNthTermIgnoresIndexing(s, 1);
    SumUpToNthTermIgnoresIndexing(s, 3);
    SumMapRangeStep(Quartic, 0, 0);
    SumMapRangeStep(Quartic, 0, 1);
    SumMapRangeStep(Quartic, 0, 2);
    SumMapRangeStep(Quartic, 0, 3);
    SumMapRangeStep(Quartic, 0, 4);
    SumFirstTermsStep(s, 1);
    SumFirstTermsStep(s, 2);
  }

  /** The documented sums of the first terms: 9 and 399 from index 0, 25 and
      2319 from index 2. */
  lemma SumFirstTermsOfQuartic()
    ensures SumFirstTerms(New(Quartic, None, None, 0, None), 5) == Success(399.0)
    ensures SumFirstTerms(New(Quartic, None, None, 2, None), 5) == Success(2319.0)
  {
    var s := New(Quartic, None, None, 0, None);
    SumFirstTermsStep(s, 1);
    SumFirstTermsStep(s, 2);
    SumFirstTermsStep(s, 3);
    SumFirstTermsStep(s, 4);
    var t := New(Quartic, None, None, 2, None);
    SumFirstTermsStep(t, 1);
    SumFirstTermsStep(t, 2);
    SumFirstTermsStep(t, 3);
    SumFirstTermsStep(t, 4);
  }

  /** From `initial_index == 1` the code and the documentation agree:
      the second term is 25 and the sum of the first four is 390. */
  lemma QuarticFromIndexOne()
    ensures NthTerm(New(Quartic, None, None, 1, None), 2) == 25.0
    ensures SumUpToNthTerm(New(Quartic, None, None, 1, None), 4) == Success(390.0)
  {
    var s := New(Quartic, None, None, 1, None);
    SumUpToNthTermFromIndexOne(Quartic, None, 4);
    SumFirstTermsStep(s, 1);
    SumFirstTermsStep(s, 2);
    SumFirstTermsStep(s, 3);
  }

  /** Counting and listing between indices of `l_x`, and its initial term
      from `initial_index == 4`. */
  lemma LinearBetweenIndices()
    ensures CountTermsBetween(0, 92) == 93
    ensures CountTermsBetween(4, 4) == 1
    ensures TermsBetween(New(Linear, None, None, 0, None), 0, 10, true)
         == [-18.0, -7.0, 4.0, 15.0, 26.0, 37.0, 48.0, 59.0, 70.0, 81.0, 92.0]
    ensures TermsBetween(New(Linear, None, None, 4, None), 6, 4, true) == [26.0, 37.0, 48.0]
    ensures InitialTerm(New(Linear, None, None, 4, None)) == 26.0
  {
    var r := TermsBetween(New(Linear, None, None, 0, None), 0, 10, true);
    assert r == [r[0], r[1], r[2], r[3], r[4], r[5], r[6], r[7], r[8], r[9], r[10]];
    var q := TermsBetween(New(Linear, None, None, 4, None), 6, 4, true);
    assert q == [q[0], q[1], q[2]];
  }

  /** Counting between terms of `l_x` through its inverse: the terms -18 and
      92 sit at indices 0 and 10; the term -20 has no integral index. */
  lemma LinearBetweenTerms()
    ensures CountTermsBetweenTerms(New(Linear, Some(LinearInverse), None, 0, None), -18.0, -18.0)
         == Success(1)
    ensures CountTermsBetweenTerms(New(Linear, Some(LinearInverse), None, 0, None), -18.0, 92.0)
         == Success(11)
    ensures CountTermsBetweenTerms(New(Linear, Some(LinearInverse), None, 3, None), 15.0, 92.0)
         == Success(8)
    ensures CountTermsBetweenTerms(New(Linear, Some(LinearInverse), None, 0, None), 0.0, -20.0)
         == Failure(NonIntegralIndex(FloatValue(18.0 / 11.0)))
  {
    assert !IsFloatingInteger(FloatValue(18.0 / 11.0)) by {
      FractionIsNotFloatingInteger(1, 18.0 / 11.0);
    }
    assert IsFloatingInteger(FloatValue(10.0)) by {
      WholeFloatIsFloatingInteger(10);
    }
    assert IsFloatingInteger(FloatValue(3.0)) by {
      WholeFloatIsFloatingInteger(3);
    }
    assert IsFloatingInteger(FloatValue(0.0)) by {
      WholeFloatIsFloatingInteger(0);
    }
  }

  /** With `i_x` as the inverse of `q_x`: 25 is taken as an index of its own,
      and 25.54 lies between indices 25 and 26, whose terms 390634 and
      456985 make 25 the nearer one, whichever tie-break is asked for. */
  lemma QuarticNearestIndex(preferLeft: bool)
    ensures NearestTermIndex(New(Quartic, Some(Identity), None, 0, None), 25.0, preferLeft)
         == Success(FloatValue(25.0))
    ensures NearestTermIndex(New(Quartic, Some(Identity), None, 0, None), 25.54, preferLeft)
         == Success(IntValue(25))
  {
    assert IsFloatingInteger(FloatValue(25.0)) by {
      WholeFloatIsFloatingInteger(25);
    }
    assert !IsFloatingInteger(FloatValue(25.54)) && Floor(25.54) == 25 by {
      FractionIsNotFloatingInteger(25, 25.54);
    }
    assert Quartic(25) == 390634.0 && Quartic(26) == 456985.0;
  }

  /** The earlier class hands `(y + 18) / 11`'s float straight to `range()`,
      so `terms_between_terms` raises a `TypeError` even for a term and
      itself, where the current class lists that one term. */
  lemma LegacyLinearTermsBetweenTerms()
    ensures LegacySequence.TermsBetweenTerms(
              LegacySequence.NSequence(Linear, Some(LinearInverse), 0, None), -18.0, -18.0)
         == Failure(LegacySequence.RangeTypeError)
    ensures TermsBetweenTerms(New(Linear, Some(LinearInverse), None, 0, None), -18.0, -18.0)
         == Success([-18.0])
  {
    LegacySequence.TermsBetweenTermsRejectsFloats(
      LegacySequence.NSequence(Linear, Some(LinearInverse), 0, None), -18.0, -18.0);
    assert IsFloatingInteger(FloatValue(0.0)) by {
      WholeFloatIsFloatingInteger(0);
    }
    var r := TermsBetweenTerms(New(Linear, Some(LinearInverse), None, 0, None), -18.0, -18.0);
    assert r.Success? && r.value == [r.value[0]];
  }

  /** With `q_x` as the indexing function, the terms 92 and 110081 of `l_x`
      are the first and the tenth: 10 terms, as the documentation says, but
      the code counts the 10000 indices 10 .. 10009 between them.
      `positionOf` maps those two indices back to their positions. */
  lemma CountTermsBetweenTermsUsesRawIndices()
    ensures CountTermsBetweenTerms(New(Linear, Some(LinearInverse), Some(QuarticIndex), 0, None), 92.0, 110081.0)
         == Success(10000)
    ensures
      var positionOf := (i: int) => if i == 10009 then 10 else 1;
      CountPositionsBetweenTerms(New(Linear, Some(LinearInverse), Some(QuarticIndex), 0, None),
                                 92.0, 110081.0, positionOf)
        == Success(10)
  {
    var s := New(Linear, Some(LinearInverse), Some(QuarticIndex), 0, None);
    var positionOf := (i: int) => if i == 10009 then 10 else 1;
    assert NthTerm(s, 1) == 92.0 && NthTerm(s, 10) == 110081.0;
    InverseFindsTerms(s, 1, 10);
    CountPositionsBetweenTermsOfTerms(s, 1, 10, positionOf);
    IntegersInCardinality(1, 10);
  }
}
