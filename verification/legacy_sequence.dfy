/** The earlier `NSequence` class of `__init__.py/nsequence.py`.  It has no
    indexing function (a position is passed to `func` as it is), checks no
    position before summing, and hands the inverse function's raw results
    to the counting and listing queries. */
module LegacySequence {
  import opened Wrappers
  import opened Builtins
  import opened Utils
  import Sequence

  /** What a query can raise.  `NSequenceException` takes its message as a
      keyword-only argument, and every raise passes it positionally, so each
      of `NotInversible` and `NonIntegralPosition` surfaces in Python as a
      `TypeError` from the exception's constructor rather than as an
      `NSequenceException`; the variants record which check failed. */
  datatype Error =
      /** An inversion query on a sequence built without `inverse_func`. */
    | NotInversible
      /** `position_of_term` got a position with a non-zero fractional part. */
    | NonIntegralPosition(position: Numeric)
      /** `nearest_term_position` calls a missing `inverse_func` (`TypeError`). */
    | InverseNotCallable
      /** `range()` was given a float bound (`TypeError`). */
    | RangeTypeError

  /** The state fixed by `__init__`; `sumUpFunc` is the optional
      `sum_up_func` passed through `**kwargs`. */
  datatype NSequence = NSequence(
    func: int -> real,
    inverseFunc: Option<real -> Numeric>,
    initialPosition: int,
    sumUpFunc: Option<(int, int) -> real>)

  /** `nth_term(n)`: `func` at `n` itself. */
  function NthTerm(s: NSequence, n: int): real
  {
    s.func(n)
  }

  /** `initial_term`: the term at `initial_position`. */
  function InitialTerm(s: NSequence): real
  {
    s.func(s.initialPosition)
  }

  /** The legacy n-th term is the initial term at the initial position, and
      it is the n-th term of the current class built with the same function
      and `initial_index == 1`: positions are not shifted. */
  lemma NthTermHasNoShift(s: NSequence, n: int)
    ensures InitialTerm(s) == NthTerm(s, s.initialPosition)
    ensures NthTerm(s, n)
         == Sequence.NthTerm(Sequence.New(s.func, None, None, 1, None), n)
  {
  }

  /** `is_inversible`: an inverse function was given. */
  predicate IsInversible(s: NSequence)
  {
    s.inverseFunc.Some?
  }

  /** The inversion queries need an inverse function; with one, counting
      between terms and the loose position lookup always succeed. */
  lemma InversionQueriesNeedInverse(s: NSequence, term1: real, term2: real, raiseIfNotExact: bool)
    ensures !IsInversible(s) ==>
      && PositionOfTerm(s, term1, raiseIfNotExact) == Failure(NotInversible)
      && CountTermsBetweenTerms(s, term1, term2) == Failure(NotInversible)
      && TermsBetweenTerms(s, term1, term2) == Failure(NotInversible)
    ensures IsInversible(s) ==>
      PositionOfTerm(s, term1, false).Success? && CountTermsBetweenTerms(s, term1, term2).Success?
  {
  }

  /** `sum_up_to_nth_term(n)`: the `sum_up_func` hook with `n` and
      `initial_position` when given; otherwise `func` summed over the
      positions `initial_position .. n - initial_position` (inclusive), with
      no check on `n`. */
  function SumUpToNthTerm(s: NSequence, n: int): (r: real)
    ensures s.sumUpFunc.Some? ==> r == s.sumUpFunc.value(n, s.initialPosition)
    ensures s.sumUpFunc.None? && 2 * s.initialPosition > n ==> r == 0.0
  {
    match s.sumUpFunc
    case Some(sumUp) => sumUp(n, s.initialPosition)
    case None => Sum(MapRange(s.func, s.initialPosition, n - s.initialPosition + 1))
  }

  /** Going from `n` to `n + 1` adds the term at position
      `n - initial_position + 1`. */
  lemma SumUpToNthTermStep(s: NSequence, n: int)
    requires s.sumUpFunc.None? && 2 * s.initialPosition <= n + 1
    ensures SumUpToNthTerm(s, n + 1) == SumUpToNthTerm(s, n) + s.func(n - s.initialPosition + 1)
  {
    var start, stop := s.initialPosition, n - s.initialPosition + 1;
    assert SumUpToNthTerm(s, n) == Sum(MapRange(s.func, start, stop));
    assert SumUpToNthTerm(s, n + 1) == Sum(MapRange(s.func, start, stop + 1));
    SumMapRangeStep(s.func, start, stop);
  }

  /** The two classes' default sums cover ranges one index apart: the legacy
      sum for `n + 1` is the current one for `n`. */
  lemma SumRangesDifferByOne(func: int -> real, start: int, n: int)
    requires n >= 1
    ensures Sequence.SumUpToNthTerm(Sequence.New(func, None, None, start, None), n)
         == Success(SumUpToNthTerm(NSequence(func, None, start, None), n + 1))
  {
  }

  /** `position_of_term(term, raise_exception_if_not_exact)`: needs an
      inverse function; in loose mode its value is returned as it is, in
      exact mode it must satisfy `position % 1 == 0` and is returned as an
      int. */
  function PositionOfTerm(s: NSequence, term: real, raiseIfNotExact: bool): (r: Result<Numeric, Error>)
    ensures s.inverseFunc.None? ==> r == Failure(NotInversible)
    ensures s.inverseFunc.Some? && !raiseIfNotExact ==> r == Success(s.inverseFunc.value(term))
    ensures s.inverseFunc.Some? && raiseIfNotExact ==>
      (r.Success? <==> IsFloatingInteger(s.inverseFunc.value(term)))
    ensures s.inverseFunc.Some? && raiseIfNotExact && r.Success? ==>
      r.value.IntValue? && r.value.Value() == s.inverseFunc.value(term).Value()
    ensures s.inverseFunc.Some? && raiseIfNotExact && r.Failure? ==>
      r.error == NonIntegralPosition(s.inverseFunc.value(term))
  {
    match s.inverseFunc
    case None => Failure(NotInversible)
    case Some(inverse) =>
      var position := inverse(term);
      if !raiseIfNotExact then Success(position)
      else if Mod1(position.Value()) != 0.0 then Failure(NonIntegralPosition(position))
      else
        ToIntOfFloatingInteger(position);
        Success(IntValue(ToInt(position)))
  }

  /** `position_of_term` of the legacy class and `index_of_term` of the
      current one give the same values and fail in the same cases. */
  lemma PositionOfTermMatchesIndexOfTerm(s: NSequence, indexingFunc: Option<int -> int>,
                                         initialIndex: int, term: real, raiseIfNotExact: bool)
    ensures
      var current := Sequence.New(s.func, s.inverseFunc, indexingFunc, initialIndex, None);
      var r := PositionOfTerm(s, term, raiseIfNotExact);
      var q := Sequence.IndexOfTerm(current, term, raiseIfNotExact);
      && (r.Success? <==> q.Success?)
      && (r.Success? ==> r.value == q.value)
  {
  }

  /** `count_terms_between(n1, n2)`: `abs(n2 - n1) + 1`, an int when both
      arguments are ints and a float otherwise. */
  function CountTermsBetween(n1: Numeric, n2: Numeric): (r: Numeric)
    ensures r.Value() == Abs(n2.Value() - n1.Value()) + 1.0
    ensures r.IntValue? <==> n1.IntValue? && n2.IntValue?
  {
    match (n1, n2)
    case (IntValue(a), IntValue(b)) => IntValue(IntAbs(b - a) + 1)
    case _ => FloatValue(Abs(n2.Value() - n1.Value()) + 1.0)
  }

  /** On ints the legacy count is the count of the current class. */
  lemma CountTermsBetweenOnInts(n1: int, n2: int)
    ensures CountTermsBetween(IntValue(n1), IntValue(n2))
         == IntValue(Sequence.CountTermsBetween(n1, n2))
    ensures CountTermsBetween(IntValue(n1), IntValue(n2))
         == CountTermsBetween(IntValue(n2), IntValue(n1))
  {
  }

  /** `count_terms_between_terms(term1, term2)`: the count between the raw
      inverse values, integral or not. */
  function CountTermsBetweenTerms(s: NSequence, term1: real, term2: real): (r: Result<Numeric, Error>)
    ensures s.inverseFunc.None? ==> r == Failure(NotInversible)
    ensures s.inverseFunc.Some? ==>
      && r.Success?
      && r.value.Value()
         == Abs(s.inverseFunc.value(term2).Value() - s.inverseFunc.value(term1).Value()) + 1.0
    ensures s.inverseFunc.Some? ==>
      r == Success(CountTermsBetween(s.inverseFunc.value(term1), s.inverseFunc.value(term2)))
  {
    match s.inverseFunc
    case None => Failure(NotInversible)
    case Some(inverse) =>
      var position1, position2 := inverse(term1), inverse(term2);
      Success(CountTermsBetween(position1, position2))
  }

  /** Where the current class refuses a non-integral inverse value, the
      legacy class still returns a (fractional) count. */
  lemma CountTermsBetweenTermsSkipsIntegrality(s: NSequence, term1: real, term2: real)
    requires s.inverseFunc.Some?
    requires !IsFloatingInteger(s.inverseFunc.value(term1))
    ensures CountTermsBetweenTerms(s, term1, term2).Success?
    ensures Sequence.CountTermsBetweenTerms(
              Sequence.New(s.func, s.inverseFunc, None, s.initialPosition, None), term1, term2)
         == Failure(Sequence.NonIntegralIndex(s.inverseFunc.value(term1)))
  {
  }

  /** Python's `min(a, b)`: `a` unless `b` is strictly smaller, so on equal
      values (`min(3.0, 3)`) the first argument, int or float, is kept. */
  function PyMin(a: Numeric, b: Numeric): (r: Numeric)
    ensures r == a || r == b
    ensures r.Value() <= a.Value() && r.Value() <= b.Value()
    ensures a.Value() == b.Value() ==> r == a
  {
    if b.Value() < a.Value() then b else a
  }

  /** Python's `max(a, b)`: `a` unless `b` is strictly greater, so on equal
      values the first argument is kept. */
  function PyMax(a: Numeric, b: Numeric): (r: Numeric)
    ensures r == a || r == b
    ensures r.Value() >= a.Value() && r.Value() >= b.Value()
    ensures a.Value() == b.Value() ==> r == a
  {
    if b.Value() > a.Value() then b else a
  }

  /** `terms_between(n1, n2, include_args_terms)`: `func` over the positions
      from the smaller to the larger argument, without both of them when the
      arguments' terms are left out.  `range()` raises a `TypeError` when a
      bound it receives is a float. */
  function TermsBetween(s: NSequence, n1: Numeric, n2: Numeric, includeArgsTerms: bool): (r: Result<seq<real>, Error>)
    ensures r.Success? <==> PyMin(n1, n2).IntValue? && PyMax(n1, n2).IntValue?
    ensures r.Failure? ==> r.error == RangeTypeError
    ensures r.Success? && includeArgsTerms ==>
      var (lo, hi) := (PyMin(n1, n2).i, PyMax(n1, n2).i);
      |r.value| == hi - lo + 1
      && forall k :: 0 <= k < |r.value| ==> r.value[k] == s.func(lo + k)
    ensures r.Success? && !includeArgsTerms ==>
      var (lo, hi) := (PyMin(n1, n2).i, PyMax(n1, n2).i);
      |r.value| == (if lo == hi then 0 else hi - lo - 1)
      && forall k :: 0 <= k < |r.value| ==> r.value[k] == s.func(lo + 1 + k)
  {
    var rangeInf, rangeSup := PyMin(n1, n2), PyMax(n1, n2);
    match (rangeInf, rangeSup)
    case (IntValue(inf), IntValue(sup)) =>
      var (first, last) := if includeArgsTerms then (inf, sup) else (inf + 1, sup - 1);
      Success(MapRange(s.func, first, last + 1))
    case _ => Failure(RangeTypeError)
  }

  /** On int arguments the list does not depend on their order, and it is
      the list the current class gives for the same function. */
  lemma TermsBetweenOnInts(s: NSequence, n1: int, n2: int, includeArgsTerms: bool)
    ensures TermsBetween(s, IntValue(n1), IntValue(n2), includeArgsTerms)
         == TermsBetween(s, IntValue(n2), IntValue(n1), includeArgsTerms)
    ensures TermsBetween(s, IntValue(n1), IntValue(n2), includeArgsTerms)
         == Success(Sequence.TermsBetween(Sequence.New(s.func, None, None, 1, None), n1, n2, includeArgsTerms))
  {
  }

  /** `terms_between_terms(term1, term2)`: the inclusive list between the raw
      inverse values, with no integrality check of its own. */
  function TermsBetweenTerms(s: NSequence, term1: real, term2: real): (r: Result<seq<real>, Error>)
    ensures s.inverseFunc.None? ==> r == Failure(NotInversible)
    ensures s.inverseFunc.Some? && s.inverseFunc.value(term1).IntValue?
            && s.inverseFunc.value(term2).IntValue? ==>
      var (p1, p2) := (s.inverseFunc.value(term1).i, s.inverseFunc.value(term2).i);
      r.Success? && |r.value| == IntAbs(p2 - p1) + 1
      && forall k :: 0 <= k < |r.value| ==> r.value[k] == s.func(Min(p1, p2) + k)
    ensures s.inverseFunc.Some? ==>
      r == TermsBetween(s, s.inverseFunc.value(term1), s.inverseFunc.value(term2), true)
  {
    match s.inverseFunc
    case None => Failure(NotInversible)
    case Some(inverse) =>
      var position1, position2 := inverse(term1), inverse(term2);
      TermsBetween(s, position1, position2, true)
  }

  /** `range()` gets a float bound unless both inverse values are ints, or
      the first is an int and the second an equal float: on equal values
      `min` and `max` both keep the first argument.  So an inverse that always
      returns a float, such as `(y + 18) / 11`, makes `terms_between_terms`
      raise on every pair of terms, even a term with itself. */
  lemma TermsBetweenTermsRejectsFloats(s: NSequence, term1: real, term2: real)
    requires s.inverseFunc.Some?
    ensures TermsBetweenTerms(s, term1, term2).Success?
        <==> && s.inverseFunc.value(term1).IntValue?
             && (s.inverseFunc.value(term2).IntValue?
                 || s.inverseFunc.value(term2).Value() == s.inverseFunc.value(term1).Value())
    ensures s.inverseFunc.value(term1).FloatValue? ==>
      TermsBetweenTerms(s, term1, term1) == Failure(RangeTypeError)
  {
    var p1, p2 := s.inverseFunc.value(term1), s.inverseFunc.value(term2);
    if p1.FloatValue? || p2.FloatValue? {
      if p1.Value() == p2.Value() {
        assert PyMin(p1, p2) == p1 && PyMax(p1, p2) == p1;
      } else if p1.Value() < p2.Value() {
        assert PyMin(p1, p2) == p1 && PyMax(p1, p2) == p2;
      } else {
        assert PyMin(p1, p2) == p2 && PyMax(p1, p2) == p1;
      }
    }
  }

  /** `nearest_term_position(term_neighbor, prefere_left_term)`: a position
      with `% 1 == 0` is returned unchanged; otherwise the floor or the
      ceiling, by the same nearest-neighbour rule as the current class. */
  function NearestTermPosition(s: NSequence, termNeighbor: real, prefereLeftTerm: bool): (r: Result<Numeric, Error>)
    ensures s.inverseFunc.None? ==> r == Failure(InverseNotCallable)
    ensures s.inverseFunc.Some? && IsFloatingInteger(s.inverseFunc.value(termNeighbor)) ==>
      r == Success(s.inverseFunc.value(termNeighbor))
    ensures s.inverseFunc.Some? && !IsFloatingInteger(s.inverseFunc.value(termNeighbor)) ==>
      r.Success? && r.value.IntValue?
      && Sequence.IsNearestIndex(s.func, termNeighbor, s.inverseFunc.value(termNeighbor).Value(),
                                 r.value.i, prefereLeftTerm)
  {
    match s.inverseFunc
    case None => Failure(InverseNotCallable)
    case Some(inverse) =>
      var position := inverse(termNeighbor);
      if Mod1(position.Value()) == 0.0 then Success(position)
      else
        var left := Floor(position.Value());
        var right := Ceil(position.Value());
        CeilIsFloorPlusOne(position.Value());
        var leftDistance := Abs(termNeighbor - s.func(left));
        var rightDistance := Abs(termNeighbor - s.func(right));
        if !prefereLeftTerm && leftDistance == rightDistance then Success(IntValue(right))
        else Success(IntValue(if leftDistance > rightDistance then right else left))
  }

  /** The legacy and the current nearest-index queries agree on every
      sequence with the same term and inverse functions. */
  lemma NearestTermPositionMatchesCurrent(s: NSequence, indexingFunc: Option<int -> int>,
                                          initialIndex: int, termNeighbor: real, preferLeft: bool)
    ensures
      var current := Sequence.New(s.func, s.inverseFunc, indexingFunc, initialIndex, None);
      var r := NearestTermPosition(s, termNeighbor, preferLeft);
      var q := Sequence.NearestTermIndex(current, termNeighbor, preferLeft);
      && (r.Success? <==> q.Success?)
      && (r.Success? ==> r.value == q.value)
  {
    var current := Sequence.New(s.func, s.inverseFunc, indexingFunc, initialIndex, None);
    var r := NearestTermPosition(s, termNeighbor, preferLeft);
    var q := Sequence.NearestTermIndex(current, termNeighbor, preferLeft);
    if s.inverseFunc.Some? && !IsFloatingInteger(s.inverseFunc.value(termNeighbor)) {
      Sequence.NearestIndexIsUnique(s.func, termNeighbor, s.inverseFunc.value(termNeighbor).Value(),
                                    r.value.i, q.value.i, preferLeft);
    }
  }

  /** `nearest_term(term_neighbor, prefere_left_term)`: the term at the
      nearest position. */
  function NearestTerm(s: NSequence, termNeighbor: real, prefereLeftTerm: bool): (r: Result<real, Error>)
    ensures s.inverseFunc.None? ==> r == Failure(InverseNotCallable)
    ensures s.inverseFunc.Some? ==> r.Success?
    ensures s.inverseFunc.Some? && IsFloatingInteger(s.inverseFunc.value(termNeighbor)) ==>
      exists i: int :: i as real == s.inverseFunc.value(termNeighbor).Value() && r.value == s.func(i)
    ensures s.inverseFunc.Some? && !IsFloatingInteger(s.inverseFunc.value(termNeighbor)) ==>
      var left := Floor(s.inverseFunc.value(termNeighbor).Value());
      && (r.value == s.func(left) || r.value == s.func(left + 1))
      && Abs(termNeighbor - r.value) <= Abs(termNeighbor - s.func(left))
      && Abs(termNeighbor - r.value) <= Abs(termNeighbor - s.func(left + 1))
    ensures s.inverseFunc.Some? && !IsFloatingInteger(s.inverseFunc.value(termNeighbor)) ==>
      forall k :: Sequence.IsNearestIndex(s.func, termNeighbor, s.inverseFunc.value(termNeighbor).Value(),
                                          k, prefereLeftTerm)
             ==> r.value == s.func(k)
    ensures s.inverseFunc.Some? && !IsFloatingInteger(s.inverseFunc.value(termNeighbor)) ==>
      r.value == s.func(NearestTermPosition(s, termNeighbor, prefereLeftTerm).value.i)
  {
    match NearestTermPosition(s, termNeighbor, prefereLeftTerm)
    case Failure(e) => Failure(e)
    case Success(position) =>
      ToIntOfFloatingInteger(position);
      Success(s.func(ToInt(position)))
  }
}
