# nsequence in Dafny

A model of the `NSequence` classes of the `nsequence` Python package. They
describe a numerical sequence implicitly:

- `func` maps an index to a term.
- `inverse_func` is optional. It maps a term back to its index, which may
  come out non-integral.
- `indexing_func` is optional. It maps a 1-based position to an index.

Every query is a computation over these caller-supplied functions:

- the n-th term and sums of terms;
- the index of a term, with an integrality gate and a loose mode;
- counts and lists of terms between two indices or two terms;
- the nearest sequence index to an arbitrary term, with a left or right
  tie-break.

Files and modules:

- `builtins.dfy` (`Builtins`) holds the Python built-ins the classes use:
  - `int | float` numbers;
  - `floor`, `ceil` and `abs`;
  - `x % 1` and `int()`;
  - `[f(i) for i in range(a, b)]` and `sum`.

  Floats are exact reals.
- `wrappers.dfy` (`Wrappers`) holds `Option` for `None` and `Result` and
  `Outcome` for raised exceptions.
- `utils.dfy` (`Utils`) models `nsequence/utils.py`.
- `sequence.dfy` (`Sequence`) models the current class in
  `nsequence/nsequence.py`.
- `legacy_sequence.dfy` (`LegacySequence`) models the earlier class in
  `__init__.py/nsequence.py`, with lemmas comparing it to the current one.
- `scenarios.dfy` (`Scenarios`) applies the queries to the polynomial
  fixtures of the test suite.

A sequence is never changed after `__init__`. Each class is therefore a
datatype, and each query is a function of it. The caller's functions are
function values:

- `func: int -> real`;
- `inverse_func: real -> Numeric`, where `Numeric` is an int or a float, as
  the source's `float | int` signature allows;
- `indexing_func: int -> int`.

The optional `sum_up_func` keyword hook is kept as an uninterpreted
`(int, int) -> real`, and its result is returned verbatim.

The expected behaviour differs from the code in four places.

- `tests/test_nsequence.py:1044-1053` expects a custom indexing function to
  replace `initial_index` with `indexing_func(1)`: 10 for `quartic_x`.
  But `__init__` stores the `initial_index` it was given
  (`nsequence/nsequence.py:85`). The model follows the code.
  `Sequence.InitialTermOfNew` states that `initial_term` is
  `func(initial_index)` whatever the indexing function.
- With the default indexing, `sum_up_to_nth_term` sums over the wrong range
  unless `initial_index` is 1. The range also skips a caller's indexing
  function. `tests/test_nsequence.py:296-318` index `q_x` by `l_x` and
  expect 2410 and 53309 for `n = 1` and `n = 3`, but the code sums `q_x` at
  the raw indices and gives 44 and 399. The model keeps the code as written and adds the documented sum
  beside it; "## Findings" gives the details.
- With a caller's indexing function, `count_terms_between_terms` counts the
  indices between the two terms, not the terms.
  `tests/test_nsequence.py:508-518` indexes `l_x` by `quartic_x` and
  expects 10 terms between 92 and 110081. The code counts the 10000 indices
  10 .. 10009. The model keeps the code as written and adds the documented
  count beside it; "## Findings" gives the details.
- `nth_term` checks no position. `tests/test_nsequence.py:204-224` expect
  `nth_term(-1)` to raise when indexing by `cubic_x`, but
  `nsequence/nsequence.py:95-101` returns `func(cubic_x(-1)) = -3`.
  `Sequence.NthTerm` follows the code. By contrast, `sum_up_to_nth_term`
  does refuse positions below 1 (line 115).

## Model

| member | source | states |
|---|---|---|
| `Sequence.New` | nsequence/nsequence.py:79-89 | The fields are stored as given. Without an indexing function, position `p` has index `initial_index + p - 1`. A caller's indexing function is used unchanged. |
| `Sequence.NthTermOfNew` | nsequence/nsequence.py:89-101 | `nth_term(n)` is `func(initial_index + n - 1)` by default and `func(indexing_func(n))` with an indexing function. |
| `Sequence.NthTerm` | nsequence/nsequence.py:95-101 | `nth_term(n)` is `func` at `indexing_func(n)`. Its values for the default and a caller's indexing are stated by `Sequence.NthTermOfNew`. |
| `Sequence.InitialTerm` | nsequence/nsequence.py:323-326 | `initial_term` is `func` at the stored `initial_index`. `Sequence.InitialTermOfNew` states its value and relation to `nth_term(1)`. |
| `Sequence.IsInvertible` | nsequence/nsequence.py:328-331 | `is_invertible` holds iff an inverse was given. `Sequence.InversionQueriesNeedInverse` states which queries then fail or succeed. |
| `Sequence.InitialTermOfNew` | nsequence/nsequence.py:323-326 | `initial_term` is `func(initial_index)`. With the default indexing it equals `nth_term(1)`. |
| `Sequence.SumUpToNthTerm` | nsequence/nsequence.py:115-136 | Fails exactly when `n < 1`. Otherwise returns the `sum_up_func` hook's value verbatim. Without the hook it sums `func` over raw indices; that range is empty, so the sum is 0, when `2*initial_index >= n + 2`. |
| `Sequence.SumUpToNthTermStep` | nsequence/nsequence.py:128-136 | Going from `n` to `n + 1` adds `func(n - initial_index + 2)`: the code's range ends at `n - initial_index + 1`. |
| `Sequence.SumUpToNthTermFromIndexOne` | nsequence/nsequence.py:128-136 | With `initial_index == 1` and default indexing, the code's sum equals the sum of the first `n` terms. |
| `Sequence.SumUpToNthTermIgnoresIndexing` | nsequence/nsequence.py:128-136 | Without the hook, the code's sum is the same as for the sequence built from `func` and `initial_index` alone. The indexing function and the inverse play no part. |
| `Sequence.SumUpToNthTermAsFirstTerms` | nsequence/nsequence.py:103-136 | For a sequence built with neither an inverse nor an indexing function, and any `initial_index`, the code's sum for `n` is the documented sum of the first `n + 2 - 2*initial_index` terms. That count equals `n` only for `initial_index == 1`. With `Sequence.SumUpToNthTermIgnoresIndexing` it gives the code's sum for every sequence. |
| `Sequence.SumUpToNthTermFromIndexZero` | nsequence/nsequence.py:128-136 | With `initial_index == 0` and `n >= 1`, the code's sum equals the sum of the first `n + 2` terms. |
| `Sequence.SumFirstTerms` | nsequence/nsequence.py:103-113 | The documented sum over positions `1..n` through the indexing function. It has the same `n < 1` failure and the same hook behaviour. |
| `Sequence.SumFirstTermsStep` | nsequence/nsequence.py:103-113 | The documented sum for position 1 is `nth_term(1)`, and each further position adds `nth_term(n + 1)`. |
| `Sequence.CheckIndices` | nsequence/nsequence.py:333-341 | Passes exactly when every index satisfies `is_floating_integer`. |
| `Sequence.CheckIndicesReportsFirst` | nsequence/nsequence.py:335-341 | When it fails, the error names the first non-integral index. |
| `Sequence.EnsureIndicesAreIntegers` | nsequence/nsequence.py:333-341 | The loop walks the indices in order and stops at the first non-integral one. Its outcome is `CheckIndices`. |
| `Sequence.IndexOfTerm` | nsequence/nsequence.py:142-169 | Fails with `NotInvertible` when there is no inverse. In loose mode it returns the inverse's value unchanged. In exact mode it succeeds iff that value is integral, and then returns it as an int of the same value. Otherwise it fails naming that value. |
| `Sequence.InverseFindsTerms` | nsequence/nsequence.py:142-242 | Suppose the inverse undoes `func` on every index. Then `index_of_term(nth_term(p))` is `indexing_func(p)`, and the count and list between two terms are those between their indices. |
| `Sequence.InversionQueriesNeedInverse` | nsequence/nsequence.py:328-331 | Without an inverse, `index_of_term`, `count_terms_between_terms` and `terms_between_terms` fail with `NotInvertible`. With one, the loose `index_of_term` always succeeds. |
| `Sequence.ResolveIndices` | nsequence/nsequence.py:186-198 | Fails without an inverse. Succeeds iff both inverse values are integral, and then returns them as ints. Otherwise it fails naming the first non-integral one, checking term1 before term2. |
| `Sequence.CountTermsBetween` | nsequence/nsequence.py:203-215 | `abs(n2 - n1) + 1` is at least 1, and equals 1 iff `n1 == n2`. |
| `Sequence.CountTermsBetweenIsLength` | nsequence/nsequence.py:204-215 | The count equals the length of the inclusive `terms_between` list and `count_integers_between`. It is symmetric. |
| `Sequence.CountTermsBetweenTerms` | nsequence/nsequence.py:171-201 | Fails exactly when resolving the two terms' indices fails, with the same error. Otherwise returns `abs(inv(term2) - inv(term1)) + 1`, the number of indices between them. |
| `Sequence.CountPositionsBetweenTerms` | nsequence/nsequence.py:171-184 | The documented count of terms between two terms. It fails exactly when resolving the two indices fails, with the same error. Otherwise it counts the positions, given a map from index back to position. |
| `Sequence.CountPositionsBetweenTermsOfTerms` | nsequence/nsequence.py:171-184 | Between the terms at positions `p1` and `p2` the documented count succeeds and is the number of integers from `min(p1, p2)` to `max(p1, p2)`. This holds when the inverse is exact and the position map inverts the indexing at `p1` and `p2`. |
| `Sequence.CountTermsBetweenTermsDefaultIndexing` | nsequence/nsequence.py:89-201 | With the default indexing, the code's count between two terms equals the documented count, for every `initial_index`. |
| `Sequence.TermsBetween` | nsequence/nsequence.py:244-263 | With endpoints, the result is `func` at `min..max` in ascending order, of length `max - min + 1`. Without them, it is `func` at `min+1..max-1`, which is empty when the two indices are equal. |
| `Sequence.TermsBetweenSymmetric` | nsequence/nsequence.py:256-257 | Swapping the two index arguments does not change the list. |
| `Sequence.TermsBetweenWithoutEnds` | nsequence/nsequence.py:259-263 | Dropping the endpoints removes exactly the first and last element of the inclusive list. |
| `Sequence.TermsBetweenTerms` | nsequence/nsequence.py:217-242 | Fails exactly when resolving the two terms' indices fails. Otherwise returns the inclusive list between the two integral indices. |
| `Sequence.TermsBetweenTermsMatchesCount` | nsequence/nsequence.py:171-242 | Counting and listing between terms fail together, and the count is the list's length. |
| `Sequence.NearestIndexIsUnique` | nsequence/nsequence.py:294-304 | The nearest-neighbour rule admits exactly one index, because of the closer-side condition and the tie-break. |
| `Sequence.NearestTermIndex` | nsequence/nsequence.py:265-304 | Without an inverse it fails, because calling `None` raises. An integral inverse value is returned unchanged. Otherwise it returns the floor or the ceiling, whichever term is no farther from the neighbour; on a tie it returns the floor iff `prefer_left_term`. |
| `Sequence.NearestTermIndexPreferences` | nsequence/nsequence.py:294-304 | The two tie-break settings agree except on an exact tie. There, preferring the left gives the floor, and not preferring it gives the ceiling. |
| `Sequence.NearestTerm` | nsequence/nsequence.py:306-314 | Returns `func` at the index `nearest_term_index` gives, so the tie-break decides it. That is `func` at the one index the nearest-neighbour rule admits. The term is one of the two neighbours' terms and is no farther from the neighbour than either. For an integral inverse value it is `func` at that value. |
| `Sequence.NearestTermOfSequenceTerm` | nsequence/nsequence.py:279-283 | A term whose index the inverse recovers is its own nearest term, under both tie-breaks. |
| `Utils.IsFloatingInteger` | nsequence/utils.py:1-5 | `n % 1 == 0` holds iff `floor(n) == n`. An int always passes. |
| `Utils.WholeFloatIsFloatingInteger` | nsequence/utils.py:1-5 | Integers, and floats with a zero fractional part, pass. |
| `Utils.FractionIsNotFloatingInteger` | nsequence/utils.py:1-5 | A value strictly between two consecutive integers fails. |
| `Utils.ToIntOfFloatingInteger` | nsequence/nsequence.py:167-169 | `int()` keeps the value of a number that passed the integrality check. |
| `Utils.CountIntegersBetween` | nsequence/utils.py:8-9 | The result is at least 1, and equals 1 iff the two arguments are equal. |
| `Utils.CountIntegersBetweenIsCardinality` | nsequence/utils.py:8-9 | The count equals the number of integers in `[min, max]`. |
| `Utils.CountIntegersBetweenSymmetric` | nsequence/utils.py:8-9 | The count does not depend on the order of the arguments. |
| `LegacySequence.NthTerm` | __init__.py/nsequence.py:30-32 | `nth_term(n)` is `func(n)`, with no shift. `LegacySequence.NthTermHasNoShift` relates it to the current class. |
| `LegacySequence.InitialTerm` | __init__.py/nsequence.py:154-157 | `initial_term` is `func(initial_position)`. `LegacySequence.NthTermHasNoShift` states that it is `nth_term(initial_position)`. |
| `LegacySequence.IsInversible` | __init__.py/nsequence.py:159-162 | `is_inversible` holds iff an inverse was given. `LegacySequence.InversionQueriesNeedInverse` states which queries then fail or succeed. |
| `LegacySequence.NthTermHasNoShift` | __init__.py/nsequence.py:30-32 | `nth_term(n)` is `func(n)`, the current class's n-th term with `initial_index == 1`. `initial_term` is `nth_term(initial_position)`. |
| `LegacySequence.InversionQueriesNeedInverse` | __init__.py/nsequence.py:159-162 | Without an inverse, the three inversion queries fail. With one, the loose `position_of_term` and `count_terms_between_terms` always succeed. |
| `LegacySequence.SumUpToNthTerm` | __init__.py/nsequence.py:34-55 | Never fails. Returns the hook's value verbatim. Without the hook it sums `func` over `initial_position..n-initial_position`, which is 0 when `2*initial_position > n`. |
| `LegacySequence.SumUpToNthTermStep` | __init__.py/nsequence.py:46-53 | Going from `n` to `n + 1` adds `func(n - initial_position + 1)`. |
| `LegacySequence.SumRangesDifferByOne` | __init__.py/nsequence.py:46-53 | The legacy default sum for `n + 1` is the current class's sum for `n`. |
| `LegacySequence.PositionOfTerm` | __init__.py/nsequence.py:59-77 | Fails without an inverse. In loose mode it returns the raw value. In exact mode it fails iff `position % 1 != 0`, and otherwise returns it as an int of the same value. |
| `LegacySequence.PositionOfTermMatchesIndexOfTerm` | __init__.py/nsequence.py:59-77 | It succeeds and fails in the same cases as the current `index_of_term`, and gives the same values. |
| `LegacySequence.CountTermsBetween` | __init__.py/nsequence.py:91-93 | The value is `abs(n2 - n1) + 1`. It is an int iff both arguments are ints. |
| `LegacySequence.CountTermsBetweenOnInts` | __init__.py/nsequence.py:91-93 | On ints it equals the current `count_terms_between` and is symmetric. |
| `LegacySequence.CountTermsBetweenTerms` | __init__.py/nsequence.py:79-89 | Fails only without an inverse. Otherwise returns `count_terms_between` on the two raw inverse values, with no integrality check. The result is `abs(inv(t2) - inv(t1)) + 1`, and it is an int iff both values are ints. |
| `LegacySequence.CountTermsBetweenTermsSkipsIntegrality` | __init__.py/nsequence.py:79-89 | For a non-integral inverse value the legacy count succeeds, while the current class fails naming that value. |
| `LegacySequence.PyMin` | __init__.py/nsequence.py:109 | `min` returns one of its arguments, no greater than either. On equal values it returns the first argument, keeping its int or float type. |
| `LegacySequence.PyMax` | __init__.py/nsequence.py:110 | `max` returns one of its arguments, no smaller than either. On equal values it returns the first argument, keeping its int or float type. |
| `LegacySequence.TermsBetween` | __init__.py/nsequence.py:108-116 | Succeeds iff both `range()` bounds are ints; otherwise it raises a `TypeError`. On success, with `lo` and `hi` the bounds Python's `min` and `max` give, it returns `func` over `[lo, hi]`, or over `[lo+1, hi-1]` without the endpoints. This covers an int and an equal float, where both bounds are the int. |
| `LegacySequence.TermsBetweenOnInts` | __init__.py/nsequence.py:108-116 | On ints the list is order-independent and equals the current class's list. |
| `LegacySequence.TermsBetweenTerms` | __init__.py/nsequence.py:95-104 | Fails without an inverse. Otherwise it is `terms_between` with endpoints on the two raw inverse values. Int inverse values give the inclusive list of length `abs(p2 - p1) + 1`. |
| `LegacySequence.TermsBetweenTermsRejectsFloats` | __init__.py/nsequence.py:95-116 | Succeeds iff the first inverse value is an int and the second is an int or an equal float. A float inverse value makes the query raise a `TypeError` even for a term and itself. |
| `LegacySequence.NearestTermPosition` | __init__.py/nsequence.py:118-144 | Fails without an inverse. A value with `% 1 == 0` is returned unchanged. Otherwise it applies the same nearest-neighbour rule, using `prefere_left_term`. |
| `LegacySequence.NearestTermPositionMatchesCurrent` | __init__.py/nsequence.py:118-144 | Gives the same results as the current `nearest_term_index` for the same `func` and inverse. |
| `LegacySequence.NearestTerm` | __init__.py/nsequence.py:146-150 | Returns `func` at the position `nearest_term_position` gives, so the tie-break decides it. That is `func` at the one index the nearest-neighbour rule admits. The term is no farther from the neighbour than either neighbouring term. |
| `Scenarios.SumUpToNthTermUsesRawRange` | tests/test_nsequence.py:262-294 | For `q_x`, `sum_up_to_nth_term(1)` gives 44 from index 0, which is the first three terms. From index 2 it gives 0, because the range is empty. The documented values are 9 and 25. |
| `Scenarios.SumUpToNthTermSkipsIndexing` | tests/test_nsequence.py:296-318 | For `q_x` indexed by `l_x` from index 0, the code's sums for `n = 1` and `n = 3` are 44 and 399. The documented sums, which the tests expect, are 2410 and 53309. |
| `Scenarios.CountTermsBetweenTermsUsesRawIndices` | tests/test_nsequence.py:506-518 | With `l_x` indexed by `quartic_x`, the code counts 10000 between the terms 92 and 110081. The documented count is 10. |
| `Scenarios.SumFirstTermsOfQuartic` | tests/test_nsequence.py:262-294 | The documented sums of the first five terms are 399 from index 0 and 2319 from index 2. |
| `Scenarios.QuarticFromIndexOne` | nsequence/nsequence.py:95-136 | From index 1, `nth_term(2) == 25` and `sum_up_to_nth_term(4) == 390`. |
| `Scenarios.LinearBetweenIndices` | tests/test_nsequence.py:555-653 | For `l_x`, counts of 93 and 1, and the lists `[-18, ..., 92]` and `[26, 37, 48]`. The initial term from index 4 is 26. |
| `Scenarios.LinearBetweenTerms` | tests/test_nsequence.py:486-530 | Through `(y + 18) / 11`, the counts between terms are 1, 11 and 8. The pair of terms 0 and -20 fails, naming 18/11, the non-integral index of the term 0. |
| `Scenarios.LegacyLinearTermsBetweenTerms` | __init__.py/nsequence.py:95-116 | Through `(y + 18) / 11`, the earlier class raises a `TypeError` for `terms_between_terms(-18, -18)`, where the current class returns `[-18]`. |
| `Scenarios.QuarticNearestIndex` | tests/test_nsequence.py:1026-1036 | With the identity as inverse, 25 is returned unchanged, and 25.54 gives index 25 under both tie-breaks. |

## Findings

| source | as written | input that shows it | evidently intended | confidence | as-written member | corrected member |
|---|---|---|---|---|---|---|
| nsequence/nsequence.py:128-136 | sums `func` over raw indices `initial_index .. n - initial_index + 1` | `func = q_x`, `n = 1`: 44 with `initial_index = 0`, and 0 with `initial_index = 2`; with `indexing_func = l_x`, 44 for `n = 1` and 399 for `n = 3` | the sum of `nth_term(1) .. nth_term(n)`: 9 and 25, and 2410 and 53309 with `l_x` indexing, as the docstring at lines 103-113 and tests/test_nsequence.py:262-318 say | high (with the default indexing the range holds `n + 2 - 2*initial_index` terms, which is `n` only when `initial_index == 1`); not executed | `Sequence.SumUpToNthTerm`, shown by `Scenarios.SumUpToNthTermUsesRawRange`, `Scenarios.SumUpToNthTermSkipsIndexing`, `Sequence.SumUpToNthTermAsFirstTerms` and `Sequence.SumUpToNthTermIgnoresIndexing` | `Sequence.SumFirstTerms`, proved by `Sequence.SumFirstTermsStep` and `Scenarios.SumFirstTermsOfQuartic` |
| nsequence/nsequence.py:186-201 | counts the indices between the two terms' inverse values: `abs(index2 - index1) + 1` | `func = l_x`, `inverse_func = (y + 18) / 11`, `indexing_func = quartic_x`, terms 92 and 110081: 10000 | the number of terms between the two terms: 10, as the docstring at lines 172-184 and tests/test_nsequence.py:506-518 say | high (with the default indexing indices and positions differ by a constant, so only a caller's indexing function shows it); not executed | `Sequence.CountTermsBetweenTerms`, shown by `Scenarios.CountTermsBetweenTermsUsesRawIndices` | `Sequence.CountPositionsBetweenTerms`, proved by `Sequence.CountPositionsBetweenTermsOfTerms` and `Sequence.CountTermsBetweenTermsDefaultIndexing` |

## Left out

- Python float arithmetic is not modelled. Terms are exact reals, and inverse values are ints or exact-real floats, so `%`, `abs`, `floor`, `ceil` and the tie comparison `==` have no rounding.
- A term's own Python type is not modelled: every term is a `real`. An inverse whose result type follows its argument's cannot be expressed. An example is `identity_x`, which returns an int for an int term and a float for a float term. The model's inverse must return one type for each real value, whatever type the term had. This matters for the earlier class's `range()`, which accepts the int and rejects the float.
- The `callable()` checks in the constructor (`nsequence/nsequence.py:70-74`) and in `is_inversible` are not modelled. The functions are Dafny function values, and a missing one is `None` of an `Option`.
- Exception classes and message texts are not modelled. Each failure is a variant of the module's `Error` datatype.
- In the earlier class, `NSequenceException.__init__` takes `msg` as a keyword-only argument (`__init__.py/nsequence.py:8`). Every raise passes the message positionally (lines 62, 72, 82, 97). Each of those raises therefore surfaces as a `TypeError` from the exception's constructor, not as an `NSequenceException`. The model's `NotInversible` and `NonIntegralPosition` record which check failed, not the exception's type.
- The unused `initial_position` argument of the current constructor (`nsequence/nsequence.py:63`) is not modelled, nor is the unused class attribute `default_indexing_func` (line 54).
- The `initial_index` property (`nsequence/nsequence.py:318-321`) is the `initialIndex` field itself.
- `Sequence.NearestTerm` and `LegacySequence.NearestTerm` do not model a float index. When the inverse value is integral the source calls `func` with that float (for example `3.0`), but the model calls `func` with the equal int.
- The current class's `count_terms_between` and `terms_between` take ints only, as annotated, and their only in-file callers pass `int(...)`. A direct call with floats is not modelled.
- Non-numeric terms are not modelled. A `TypeError` from subtracting or summing such terms cannot arise, because terms are reals.
- The caller's functions are total Dafny functions, so an exception one of them raises is not modelled. An example is `harmonic_x` at index 0, whose `ZeroDivisionError` propagates out of `sum_up_to_nth_term` (`tests/test_nsequence.py:245-261`).
- Sequence.NthTerm: positions are ints. A float position such as 0.1 reaches `indexing_func` as it is. The model does not capture the caller's function being called with a float, nor what it then returns or raises. Neither does it capture a non-number such as `"0"`.
- Sequence.SumUpToNthTerm: `n` is an int. For a float `n` such as 29.31 or 2.1, the code compares it with 1 and then either gives it to the `sum_up_func` hook or passes `n - initial_index + 2` to `range()`, which raises a `TypeError`. The model does not capture those paths.
- The test suite also exercises features that neither class implements: position limits, an indexing inverse, naive scans, `nearest_entry`, item access, slicing and iteration. They have no code here to model.
- `nsequence/t/test_geometric_sequence.py` (a scratch script) and `nsequence/__init__.py` (re-exports only) are not part of this model.
