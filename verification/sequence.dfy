/** The `NSequence` class of `nsequence/nsequence.py`: a numerical sequence
    given by a caller-supplied term function over an index domain, an
    optional inverse (term to index) and an optional indexing function
    (position to index).  A sequence is never changed after construction,
    so it is a datatype and every query is a function of it. */
module Sequence {
  import opened Wrappers
  import opened Builtins
  import opened Utils

  /** What a query can raise. */
  datatype Error =
      /** `sum_up_to_nth_term` was asked for a position below 1. */
    | PositionBelowOne(n: int)
      /** An inversion query on a sequence built without `inverse_func`. */
    | NotInvertible
      /** `inverse_func` gave an index with a non-zero fractional part. */
    | NonIntegralIndex(index: Numeric)
      /** `nearest_term_index` calls `inverse_func` without checking that it
          exists; calling `None` raises a `TypeError`. */
    | InverseNotCallable

  /** The state fixed by `__init__`.  `indexingFunc` is the resolved
      `_indexing_func`: the caller's function or the default linear one.
      `sumUpFunc` is the optional `sum_up_func` passed through `**kwargs`. */
  datatype NSequence = NSequence(
    func: int -> real,
    inverseFunc: Option<real -> Numeric>,
    indexingFunc: int -> int,
    initialIndex: int,
    sumUpFunc: Option<(int, int) -> real>)

  /** `NSequence(func=..., inverse_func=..., indexing_func=..., initial_index=...)`:
      without an indexing function, position `p` has index
      `initial_index + p - 1`; a caller's indexing function is kept as it is,
      and `initial_index` is stored unchanged in both cases. */
  function New(func: int -> real, inverseFunc: Option<real -> Numeric>,
               indexingFunc: Option<int -> int>, initialIndex: int,
               sumUpFunc: Option<(int, int) -> real>): (s: NSequence)
    ensures s.func == func && s.inverseFunc == inverseFunc && s.sumUpFunc == sumUpFunc
    ensures s.initialIndex == initialIndex
    ensures indexingFunc.None? ==> forall p :: s.indexingFunc(p) == initialIndex + p - 1
    ensures indexingFunc.Some? ==> forall p :: s.indexingFunc(p) == indexingFunc.value(p)
  {
    var indexing := match indexingFunc
      case Some(g) => g
      case None => (p: int) => initialIndex + p - 1;
    NSequence(func, inverseFunc, indexing, initialIndex, sumUpFunc)
  }

  /** `nth_term(n)`: the term at position `n`. */
  function NthTerm(s: NSequence, n: int): real
  {
    s.func(s.indexingFunc(n))
  }

  /** Without an indexing function the n-th term is the term at index
      `initial_index + n - 1`; with one, at the index it gives for `n`. */
  lemma NthTermOfNew(func: int -> real, inverseFunc: Option<real -> Numeric>,
                     indexingFunc: Option<int -> int>, initialIndex: int,
                     sumUpFunc: Option<(int, int) -> real>, n: int)
    ensures indexingFunc.None? ==>
      NthTerm(New(func, inverseFunc, indexingFunc, initialIndex, sumUpFunc), n)
        == func(initialIndex + n - 1)
    ensures indexingFunc.Some? ==>
      NthTerm(New(func, inverseFunc, indexingFunc, initialIndex, sumUpFunc), n)
        == func(indexingFunc.value(n))
  {
  }

  /** `initial_term`: the term at `initial_index`. */
  function InitialTerm(s: NSequence): real
  {
    s.func(s.initialIndex)
  }

  /** With the default indexing the initial term is the first term.  With a
      caller's indexing function it is still the term at the stored
      `initial_index`, whatever that function gives for position 1. */
  lemma InitialTermOfNew(func: int -> real, inverseFunc: Option<real -> Numeric>,
                         indexingFunc: Option<int -> int>, initialIndex: int,
                         sumUpFunc: Option<(int, int) -> real>)
    ensures indexingFunc.None? ==>
      InitialTerm(New(func, inverseFunc, indexingFunc, initialIndex, sumUpFunc))
        == NthTerm(New(func, inverseFunc, indexingFunc, initialIndex, sumUpFunc), 1)
    ensures InitialTerm(New(func, inverseFunc, indexingFunc, initialIndex, sumUpFunc))
        == func(initialIndex)
  {
  }

  /** `is_invertible`: an inverse function was given. */
  predicate IsInvertible(s: NSequence)
  {
    s.inverseFunc.Some?
  }

  // ---------------------------------------------------------------------
  // Sums

  /** `sum_up_to_nth_term(n)` as written: positions below 1 are refused; a
      `sum_up_func` hook is called with `n` and `initial_index`; otherwise
      `func` is summed over the raw indices `initial_index ..
      n - initial_index + 1` (inclusive), without going through the indexing
      function. */
  function SumUpToNthTerm(s: NSequence, n: int): (r: Result<real, Error>)
    ensures r.Failure? <==> n < 1
    ensures r.Failure? ==> r.error == PositionBelowOne(n)
    ensures n >= 1 && s.sumUpFunc.Some? ==> r == Success(s.sumUpFunc.value(n, s.initialIndex))
    ensures n >= 1 && s.sumUpFunc.None? && 2 * s.initialIndex >= n + 2 ==> r == Success(0.0)
  {
    if n < 1 then Failure(PositionBelowOne(n))
    else match s.sumUpFunc
      case Some(sumUp) => Success(sumUp(n, s.initialIndex))
      case None => Success(Sum(MapRange(s.func, s.initialIndex, n - s.initialIndex + 1 + 1)))
  }

  /** Going from `n` to `n + 1` adds the term at raw index
      `n - initial_index + 2` to the default sum. */
  lemma SumUpToNthTermStep(s: NSequence, n: int)
    requires n >= 1 && s.sumUpFunc.None? && 2 * s.initialIndex <= n + 2
    ensures SumUpToNthTerm(s, n + 1).Success? && SumUpToNthTerm(s, n).Success?
    ensures SumUpToNthTerm(s, n + 1).value
         == SumUpToNthTerm(s, n).value + s.func(n - s.initialIndex + 2)
  {
    var start, stop := s.initialIndex, n - s.initialIndex + 2;
    SumMapRangeStep(s.func, start, stop);
    var shorter, longer := Sum(MapRange(s.func, start, stop)), Sum(MapRange(s.func, start, stop + 1));
    assert longer == shorter + s.func(stop);
    assert SumUpToNthTerm(s, n) == Success(shorter);
    assert SumUpToNthTerm(s, n + 1) == Success(longer);
  }

  /** The sum of the first `n` terms, positions `1 .. n` taken through the
      indexing function: what `sum_up_to_nth_term` is documented to return. */
  function SumFirstTerms(s: NSequence, n: int): (r: Result<real, Error>)
    ensures r.Failure? <==> n < 1
    ensures r.Failure? ==> r.error == PositionBelowOne(n)
    ensures n >= 1 && s.sumUpFunc.Some? ==> r == Success(s.sumUpFunc.value(n, s.initialIndex))
  {
    if n < 1 then Failure(PositionBelowOne(n))
    else match s.sumUpFunc
      case Some(sumUp) => Success(sumUp(n, s.initialIndex))
      case None => Success(Sum(MapRange((p: int) => NthTerm(s, p), 1, n + 1)))
  }

  /** The sum of the first term is that term, and each further position adds
      its own term. */
  lemma SumFirstTermsStep(s: NSequence, n: int)
    requires n >= 1 && s.sumUpFunc.None?
    ensures SumFirstTerms(s, 1) == Success(NthTerm(s, 1))
    ensures SumFirstTerms(s, n + 1).Success? && SumFirstTerms(s, n).Success?
    ensures SumFirstTerms(s, n + 1).value == SumFirstTerms(s, n).value + NthTerm(s, n + 1)
  {
    SumMapRangeStep((p: int) => NthTerm(s, p), 1, 1);
    SumMapRangeStep((p: int) => NthTerm(s, p), 1, n + 1);
  }

  /** The code's default sum reads only `func` and `initial_index`: a
      caller's indexing function and the inverse function play no part, so
      every sequence sums like the one built from its `func` and
      `initial_index` alone. */
  lemma SumUpToNthTermIgnoresIndexing(s: NSequence, n: int)
    requires s.sumUpFunc.None?
    ensures SumUpToNthTerm(s, n) == SumUpToNthTerm(New(s.func, None, None, s.initialIndex, None), n)
  {
  }

  /** With `initial_index == 1` and the default indexing, the code's range is
      exactly positions `1 .. n`, so it agrees with the documented sum. */
  lemma SumUpToNthTermFromIndexOne(func: int -> real, inverseFunc: Option<real -> Numeric>, n: int)
    ensures SumUpToNthTerm(New(func, inverseFunc, None, 1, None), n)
         == SumFirstTerms(New(func, inverseFunc, None, 1, None), n)
  {
    var s := New(func, inverseFunc, None, 1, None);
    if n >= 1 {
      assert MapRange(s.func, 1, n + 1) == MapRange((p: int) => NthTerm(s, p), 1, n + 1);
    }
  }

  /** With the default `initial_index == 0`, the code's range `0 .. n + 1`
      holds `n + 2` indices, so the result is the sum of the first `n + 2`
      terms instead of the first `n`. */
  lemma SumUpToNthTermFromIndexZero(func: int -> real, inverseFunc: Option<real -> Numeric>, n: int)
    requires n >= 1
    ensures SumUpToNthTerm(New(func, inverseFunc, None, 0, None), n)
         == SumFirstTerms(New(func, inverseFunc, None, 0, None), n + 2)
  {
    var s := New(func, inverseFunc, None, 0, None);
    assert MapRange(s.func, 0, n + 2) == MapRange((p: int) => NthTerm(s, p), 1, n + 3);
  }

  /** With the default indexing and any `initial_index`, the code's range
      `initial_index .. n - initial_index + 1` holds the first
      `n + 2 - 2 * initial_index` terms, which is `n` only when
      `initial_index == 1`. */
  lemma SumUpToNthTermAsFirstTerms(func: int -> real, initialIndex: int, n: int)
    requires n >= 1 && n + 2 - 2 * initialIndex >= 1
    ensures SumUpToNthTerm(New(func, None, None, initialIndex, None), n)
         == SumFirstTerms(New(func, None, None, initialIndex, None), n + 2 - 2 * initialIndex)
  {
    var s := New(func, None, None, initialIndex, None);
    assert MapRange(s.func, initialIndex, n - initialIndex + 2)
        == MapRange((p: int) => NthTerm(s, p), 1, n + 3 - 2 * initialIndex);
  }

  // ---------------------------------------------------------------------
  // Integrality of indices given by the inverse function

  /** `_ensure_indices_are_integers(*indices)`: passes when every index has a
      zero fractional part, and otherwise raises for the first one that
      does not. */
  function CheckIndices(indices: seq<Numeric>): (o: Outcome<Error>)
    ensures o.Pass? <==> forall i :: 0 <= i < |indices| ==> IsFloatingInteger(indices[i])
  {
    if indices == [] then Pass
    else if !IsFloatingInteger(indices[0]) then Fail(NonIntegralIndex(indices[0]))
    else CheckIndices(indices[1..])
  }

  /** The error names the first non-integral index. */
  lemma {:induction false} CheckIndicesReportsFirst(indices: seq<Numeric>, k: int)
    requires 0 <= k < |indices| && !IsFloatingInteger(indices[k])
    requires forall j :: 0 <= j < k ==> IsFloatingInteger(indices[j])
    ensures CheckIndices(indices) == Fail(NonIntegralIndex(indices[k]))
  {
    if k > 0 {
      CheckIndicesReportsFirst(indices[1..], k - 1);
    }
  }

  /** The loop of `_ensure_indices_are_integers`: it walks the indices in
      order and stops at the first one with a fractional part. */
  method EnsureIndicesAreIntegers(indices: seq<Numeric>) returns (o: Outcome<Error>)
    ensures o == CheckIndices(indices)
  {
    var i := 0;
    while i < |indices|
      invariant 0 <= i <= |indices|
      invariant forall j :: 0 <= j < i ==> IsFloatingInteger(indices[j])
    {
      if !IsFloatingInteger(indices[i]) {
        CheckIndicesReportsFirst(indices, i);
        return Fail(NonIntegralIndex(indices[i]));
      }
      i := i + 1;
    }
    return Pass;
  }

  // ---------------------------------------------------------------------
  // Inversion queries

  /** `index_of_term(term, raise_exception_if_not_exact)`: needs an inverse
      function; in loose mode the inverse's value is returned as it is, in
      exact mode it must have no fractional part and is returned as an int. */
  function IndexOfTerm(s: NSequence, term: real, raiseIfNotExact: bool): (r: Result<Numeric, Error>)
    ensures s.inverseFunc.None? ==> r == Failure(NotInvertible)
    ensures s.inverseFunc.Some? && !raiseIfNotExact ==> r == Success(s.inverseFunc.value(term))
    ensures s.inverseFunc.Some? && raiseIfNotExact ==>
      (r.Success? <==> IsFloatingInteger(s.inverseFunc.value(term)))
    ensures s.inverseFunc.Some? && raiseIfNotExact && r.Success? ==>
      r.value.IntValue? && r.value.Value() == s.inverseFunc.value(term).Value()
    ensures s.inverseFunc.Some? && raiseIfNotExact && r.Failure? ==>
      r.error == NonIntegralIndex(s.inverseFunc.value(term))
  {
    match s.inverseFunc
    case None => Failure(NotInvertible)
    case Some(inverse) =>
      var index := inverse(term);
      if !raiseIfNotExact then Success(index)
      else match CheckIndices([index])
        case Fail(e) =>
          assert !IsFloatingInteger(index) by {
            assert [index][0] == index;
          }
          CheckIndicesReportsFirst([index], 0);
          Failure(e)
        case Pass =>
          assert IsFloatingInteger([index][0]);
          ToIntOfFloatingInteger(index);
          Success(IntValue(ToInt(index)))
  }

  /** The shared first half of `count_terms_between_terms` and
      `terms_between_terms`: both terms go through the inverse function, and
      both results must be integral (the first one is checked first). */
  function ResolveIndices(s: NSequence, term1: real, term2: real): (r: Result<(int, int), Error>)
    ensures s.inverseFunc.None? ==> r == Failure(NotInvertible)
    ensures s.inverseFunc.Some? ==>
      (r.Success? <==> IsFloatingInteger(s.inverseFunc.value(term1))
                       && IsFloatingInteger(s.inverseFunc.value(term2)))
    ensures s.inverseFunc.Some? && !IsFloatingInteger(s.inverseFunc.value(term1)) ==>
      r == Failure(NonIntegralIndex(s.inverseFunc.value(term1)))
    ensures s.inverseFunc.Some? && IsFloatingInteger(s.inverseFunc.value(term1))
            && !IsFloatingInteger(s.inverseFunc.value(term2)) ==>
      r == Failure(NonIntegralIndex(s.inverseFunc.value(term2)))
    ensures r.Success? ==>
      r.value.0 as real == s.inverseFunc.value(term1).Value()
      && r.value.1 as real == s.inverseFunc.value(term2).Value()
  {
    match s.inverseFunc
    case None => Failure(NotInvertible)
    case Some(inverse) =>
      var index1, index2 := inverse(term1), inverse(term2);
      match CheckIndices([index1, index2])
      case Fail(e) =>
        assert !IsFloatingInteger(index1) ==> e == NonIntegralIndex(index1) by {
          if !IsFloatingInteger(index1) { CheckIndicesReportsFirst([index1, index2], 0); }
        }
        assert IsFloatingInteger(index1) ==> e == NonIntegralIndex(index2) by {
          if IsFloatingInteger(index1) { CheckIndicesReportsFirst([index1, index2], 1); }
        }
        Failure(e)
      case Pass =>
        assert IsFloatingInteger([index1, index2][0]) && IsFloatingInteger([index1, index2][1]);
        ToIntOfFloatingInteger(index1);
        ToIntOfFloatingInteger(index2);
        Success((ToInt(index1), ToInt(index2)))
  }

  /** `count_terms_between(n1, n2)`: how many indices the closed range
      between `n1` and `n2` holds. */
  function CountTermsBetween(n1: int, n2: int): (r: int)
    ensures r >= 1
    ensures r == 1 <==> n1 == n2
  {
    IntAbs(n2 - n1) + 1
  }

  /** `count_terms_between_terms(term1, term2)`: the count between the two
      integral indices the inverse function gives. */
  function CountTermsBetweenTerms(s: NSequence, term1: real, term2: real): (r: Result<int, Error>)
    ensures r.Failure? <==> ResolveIndices(s, term1, term2).Failure?
    ensures r.Failure? ==> r.error == ResolveIndices(s, term1, term2).error
    ensures r.Success? ==>
      r.value as real
        == Abs(s.inverseFunc.value(term2).Value() - s.inverseFunc.value(term1).Value()) + 1.0
  {
    match ResolveIndices(s, term1, term2)
    case Failure(e) => Failure(e)
    case Success((index1, index2)) => Success(CountTermsBetween(index1, index2))
  }

  /** `terms_between(index1, index2, include_args_terms)`: `func` over the
      closed range between the two indices, in ascending order whatever the
      order of the arguments; without the arguments' own terms the range
      loses both of its ends. */
  function TermsBetween(s: NSequence, index1: int, index2: int, includeArgsTerms: bool): (r: seq<real>)
    ensures includeArgsTerms ==>
      |r| == Max(index1, index2) - Min(index1, index2) + 1
      && forall k :: 0 <= k < |r| ==> r[k] == s.func(Min(index1, index2) + k)
    ensures !includeArgsTerms ==>
      |r| == (if index1 == index2 then 0 else Max(index1, index2) - Min(index1, index2) - 1)
      && forall k :: 0 <= k < |r| ==> r[k] == s.func(Min(index1, index2) + 1 + k)
  {
    var rangeInf := Min(index1, index2);
    var rangeSup := Max(index1, index2);
    var (first, last) := if includeArgsTerms then (rangeInf, rangeSup) else (rangeInf + 1, rangeSup - 1);
    MapRange(s.func, first, last + 1)
  }

  lemma TermsBetweenSymmetric(s: NSequence, index1: int, index2: int, includeArgsTerms: bool)
    ensures TermsBetween(s, index1, index2, includeArgsTerms)
         == TermsBetween(s, index2, index1, includeArgsTerms)
  {
  }

  /** Leaving out the arguments' terms drops exactly the first and the last
      term of the inclusive list. */
  lemma TermsBetweenWithoutEnds(s: NSequence, index1: int, index2: int)
    ensures index1 == index2 ==> TermsBetween(s, index1, index2, false) == []
    ensures index1 != index2 ==>
      var all := TermsBetween(s, index1, index2, true);
      TermsBetween(s, index1, index2, false) == all[1..|all| - 1]
  {
    if index1 != index2 {
      var all := TermsBetween(s, index1, index2, true);
      assert TermsBetween(s, index1, index2, false) == all[1..|all| - 1];
    }
  }

  /** The count is the length of the inclusive list and the number of
      integers between the two indices. */
  lemma CountTermsBetweenIsLength(s: NSequence, n1: int, n2: int)
    ensures CountTermsBetween(n1, n2) == |TermsBetween(s, n1, n2, true)|
    ensures CountTermsBetween(n1, n2) == CountIntegersBetween(n1, n2)
    ensures CountTermsBetween(n1, n2) == CountTermsBetween(n2, n1)
  {
  }

  /** `terms_between_terms(term1, term2)`: the inclusive list between the
      two integral indices the inverse function gives. */
  function TermsBetweenTerms(s: NSequence, term1: real, term2: real): (r: Result<seq<real>, Error>)
    ensures r.Failure? <==> ResolveIndices(s, term1, term2).Failure?
    ensures r.Failure? ==> r.error == ResolveIndices(s, term1, term2).error
    ensures r.Success? ==>
      var (index1, index2) := ResolveIndices(s, term1, term2).value;
      r.value == TermsBetween(s, index1, index2, true)
  {
    match ResolveIndices(s, term1, term2)
    case Failure(e) => Failure(e)
    case Success((index1, index2)) => Success(TermsBetween(s, index1, index2, true))
  }

  /** The two term-based queries fail together, and the count is the length
      of the list. */
  lemma TermsBetweenTermsMatchesCount(s: NSequence, term1: real, term2: real)
    ensures CountTermsBetweenTerms(s, term1, term2).Success?
        <==> TermsBetweenTerms(s, term1, term2).Success?
    ensures CountTermsBetweenTerms(s, term1, term2).Success? ==>
      CountTermsBetweenTerms(s, term1, term2).value == |TermsBetweenTerms(s, term1, term2).value|
  {
  }

  /** The inversion queries need an inverse function; with one, the loose
      index lookup always succeeds. */
  lemma InversionQueriesNeedInverse(s: NSequence, term1: real, term2: real, raiseIfNotExact: bool)
    ensures !IsInvertible(s) ==>
      && IndexOfTerm(s, term1, raiseIfNotExact) == Failure(NotInvertible)
      && CountTermsBetweenTerms(s, term1, term2) == Failure(NotInvertible)
      && TermsBetweenTerms(s, term1, term2) == Failure(NotInvertible)
    ensures IsInvertible(s) ==> IndexOfTerm(s, term1, false).Success?
  {
  }

  /** When the inverse function undoes `func` on every index, every term
      of the sequence is found back at its index, and the counts and lists
      between two terms are those between their indices. */
  lemma InverseFindsTerms(s: NSequence, p1: int, p2: int)
    requires s.inverseFunc.Some?
    requires forall i :: s.inverseFunc.value(s.func(i)).Value() == i as real
    ensures IndexOfTerm(s, NthTerm(s, p1), true) == Success(IntValue(s.indexingFunc(p1)))
    ensures CountTermsBetweenTerms(s, NthTerm(s, p1), NthTerm(s, p2))
         == Success(CountTermsBetween(s.indexingFunc(p1), s.indexingFunc(p2)))
    ensures TermsBetweenTerms(s, NthTerm(s, p1), NthTerm(s, p2))
         == Success(TermsBetween(s, s.indexingFunc(p1), s.indexingFunc(p2), true))
  {
    var i1, i2 := s.indexingFunc(p1), s.indexingFunc(p2);
    var inverse := s.inverseFunc.value;
    assert inverse(s.func(i1)).Value() == i1 as real;
    assert inverse(s.func(i2)).Value() == i2 as real;
    assert IsFloatingInteger(inverse(s.func(i1)));
    assert IsFloatingInteger(inverse(s.func(i2)));
  }

  /** The count `count_terms_between_terms` is documented to give: the
      number of terms from the first term to the second, that is the number
      of positions between them.  The class keeps no inverse of its indexing
      function, so the map from an index back to its position is a
      parameter. */
  function CountPositionsBetweenTerms(s: NSequence, term1: real, term2: real,
                                      positionOf: int -> int): (r: Result<int, Error>)
    ensures r.Failure? <==> ResolveIndices(s, term1, term2).Failure?
    ensures r.Failure? ==> r.error == ResolveIndices(s, term1, term2).error
  {
    match ResolveIndices(s, term1, term2)
    case Failure(e) => Failure(e)
    case Success((index1, index2)) => Success(CountTermsBetween(positionOf(index1), positionOf(index2)))
  }

  /** Between the terms at positions `p1` and `p2` the documented count is
      the number of integers from the smaller position to the larger. */
  lemma CountPositionsBetweenTermsOfTerms(s: NSequence, p1: int, p2: int, positionOf: int -> int)
    requires s.inverseFunc.Some?
    requires forall i :: s.inverseFunc.value(s.func(i)).Value() == i as real
    requires positionOf(s.indexingFunc(p1)) == p1 && positionOf(s.indexingFunc(p2)) == p2
    ensures CountPositionsBetweenTerms(s, NthTerm(s, p1), NthTerm(s, p2), positionOf).Success?
    ensures CountPositionsBetweenTerms(s, NthTerm(s, p1), NthTerm(s, p2), positionOf).value
         == |IntegersIn(Min(p1, p2), Max(p1, p2))|
  {
    InverseFindsTerms(s, p1, p2);
    var resolved := ResolveIndices(s, NthTerm(s, p1), NthTerm(s, p2));
    assert resolved == Success((s.indexingFunc(p1), s.indexingFunc(p2)));
    IntegersInCardinality(Min(p1, p2), Max(p1, p2));
  }

  /** With the default indexing an index and its position are
      `initial_index - 1` apart, so the count the code gives between two
      terms is the documented one. */
  lemma CountTermsBetweenTermsDefaultIndexing(func: int -> real, inverseFunc: Option<real -> Numeric>,
                                              initialIndex: int, term1: real, term2: real)
    ensures
      var s := New(func, inverseFunc, None, initialIndex, None);
      CountTermsBetweenTerms(s, term1, term2)
        == CountPositionsBetweenTerms(s, term1, term2, (i: int) => i - initialIndex + 1)
  {
  }

  // ---------------------------------------------------------------------
  // Nearest term

  /** The nearest-neighbour rule for a term `t` whose inverse value `x` has a
      fractional part: `k` is one of the two integers around `x`, its term is
      no farther from `t` than the other one's, and when both are equally far
      it is the left one exactly when `preferLeft` holds. */
  predicate IsNearestIndex(func: int -> real, t: real, x: real, k: int, preferLeft: bool)
  {
    var left := Floor(x);
    var right := left + 1;
    var leftDistance := Abs(t - func(left));
    var rightDistance := Abs(t - func(right));
    && (k == left || k == right)
    && Abs(t - func(k)) <= leftDistance
    && Abs(t - func(k)) <= rightDistance
    && (leftDistance == rightDistance ==> (k == left <==> preferLeft))
  }

  /** The rule picks one index only. */
  lemma NearestIndexIsUnique(func: int -> real, t: real, x: real, k1: int, k2: int, preferLeft: bool)
    requires IsNearestIndex(func, t, x, k1, preferLeft)
    requires IsNearestIndex(func, t, x, k2, preferLeft)
    ensures k1 == k2
  {
  }

  /** `nearest_term_index(term_neighbor, prefer_left_term)`: an integral
      inverse value is returned unchanged; otherwise the floor or the ceiling
      of the inverse value, by the nearest-neighbour rule. */
  function NearestTermIndex(s: NSequence, termNeighbor: real, preferLeft: bool): (r: Result<Numeric, Error>)
    ensures s.inverseFunc.None? ==> r == Failure(InverseNotCallable)
    ensures s.inverseFunc.Some? && IsFloatingInteger(s.inverseFunc.value(termNeighbor)) ==>
      r == Success(s.inverseFunc.value(termNeighbor))
    ensures s.inverseFunc.Some? && !IsFloatingInteger(s.inverseFunc.value(termNeighbor)) ==>
      r.Success? && r.value.IntValue?
      && IsNearestIndex(s.func, termNeighbor, s.inverseFunc.value(termNeighbor).Value(), r.value.i, preferLeft)
  {
    match s.inverseFunc
    case None => Failure(InverseNotCallable)
    case Some(inverse) =>
      var index := inverse(termNeighbor);
      if IsFloatingInteger(index) then Success(index)
      else
        var left := Floor(index.Value());
        var right := Ceil(index.Value());
        CeilIsFloorPlusOne(index.Value());
        var leftDistance := Abs(termNeighbor - s.func(left));
        var rightDistance := Abs(termNeighbor - s.func(right));
        if !preferLeft && leftDistance == rightDistance then Success(IntValue(right))
        else Success(IntValue(if leftDistance > rightDistance then right else left))
  }

  /** The two tie-break preferences give the same index except on an exact
      tie, where preferring the left gives the floor and not preferring it
      gives the ceiling. */
  lemma NearestTermIndexPreferences(s: NSequence, termNeighbor: real)
    requires s.inverseFunc.Some?
    ensures
      var x := s.inverseFunc.value(termNeighbor).Value();
      var left := Floor(x);
      var tie := !IsFloatingInteger(s.inverseFunc.value(termNeighbor))
                 && Abs(termNeighbor - s.func(left)) == Abs(termNeighbor - s.func(left + 1));
      && (!tie ==> NearestTermIndex(s, termNeighbor, true) == NearestTermIndex(s, termNeighbor, false))
      && (tie ==> NearestTermIndex(s, termNeighbor, true) == Success(IntValue(left))
                  && NearestTermIndex(s, termNeighbor, false) == Success(IntValue(left + 1)))
  {
    var index := s.inverseFunc.value(termNeighbor);
    if !IsFloatingInteger(index) {
      var kl := NearestTermIndex(s, termNeighbor, true).value.i;
      var kr := NearestTermIndex(s, termNeighbor, false).value.i;
      var left := Floor(index.Value());
      if Abs(termNeighbor - s.func(left)) != Abs(termNeighbor - s.func(left + 1)) {
        NearestIndexIsUnique(s.func, termNeighbor, index.Value(), kl, kr, true);
      }
    }
  }

  /** `nearest_term(term_neighbor, prefer_left_term)`: the term at the nearest
      index. */
  function NearestTerm(s: NSequence, termNeighbor: real, preferLeft: bool): (r: Result<real, Error>)
    ensures s.inverseFunc.None? ==> r == Failure(InverseNotCallable)
    ensures s.inverseFunc.Some? ==> r.Success?
    ensures s.inverseFunc.Some? && IsFloatingInteger(s.inverseFunc.value(termNeighbor)) ==>
      exists i: int :: i as real == s.inverseFunc.value(termNeighbor).Value() && r.value == s.func(i)
    ensures s.inverseFunc.Some? && !IsFloatingInteger(s.inverseFunc.value(termNeighbor)) ==>
      var left := Floor(s.inverseFunc.value(termNeighbor).Value());
      && (r.value == s.func(left) || r.value == s.func(left + 1))
      && Abs(termNeighbor - r.value) <= Abs(termNeighbor - s.func(left))
      && Abs(termNeighbor - r.value) <= Abs(termNeighbor - s.func(left + 1))
    ensures s.inverseFunc.Some? && !IsFloatingInteger(s.inverseFunc.value(termNeighbor)) ==>
      forall k :: IsNearestIndex(s.func, termNeighbor, s.inverseFunc.value(termNeighbor).Value(), k, preferLeft)
             ==> r.value == s.func(k)
    ensures s.inverseFunc.Some? && !IsFloatingInteger(s.inverseFunc.value(termNeighbor)) ==>
      r.value == s.func(NearestTermIndex(s, termNeighbor, preferLeft).value.i)
  {
    match NearestTermIndex(s, termNeighbor, preferLeft)
    case Failure(e) => Failure(e)
    case Success(index) =>
      ToIntOfFloatingInteger(index);
      Success(s.func(ToInt(index)))
  }

  /** A term of the sequence whose index the inverse function finds is its
      own nearest term, whichever tie-break is asked for. */
  lemma NearestTermOfSequenceTerm(s: NSequence, i: int, preferLeft: bool)
    requires s.inverseFunc.Some?
    requires s.inverseFunc.value(s.func(i)).Value() == i as real
    ensures NearestTermIndex(s, s.func(i), preferLeft) == Success(s.inverseFunc.value(s.func(i)))
    ensures NearestTerm(s, s.func(i), preferLeft) == Success(s.func(i))
  {
    assert IsFloatingInteger(s.inverseFunc.value(s.func(i)));
    ToIntOfFloatingInteger(s.inverseFunc.value(s.func(i)));
  }
}
