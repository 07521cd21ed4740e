/** The integer helpers of `nsequence/utils.py`. */
module Utils {
  import opened Builtins

  /** `is_floating_integer(n)`: `n % 1 == 0`.  A Python `int` always passes;
      a float passes when its fractional part is zero. */
  predicate IsFloatingInteger(n: Numeric)
    ensures IsFloatingInteger(n) <==> n.Value() == Floor(n.Value()) as real
  {
    match n
    case IntValue(_) => true
    case FloatValue(x) => Mod1(x) == 0.0
  }

  /** A float such as `3.0` passes the check as well as the int `3`. */
  lemma WholeFloatIsFloatingInteger(k: int)
    ensures IsFloatingInteger(FloatValue(k as real))
    ensures IsFloatingInteger(IntValue(k))
  {
  }

  /** A value strictly between two consecutive integers fails the check. */
  lemma FractionIsNotFloatingInteger(k: int, x: real)
    requires k as real < x < k as real + 1.0
    ensures !IsFloatingInteger(FloatValue(x))
  {
    var f := Floor(x);
    assert k <= f by {
      assert k as real < f as real + 1.0;
    }
    assert f <= k by {
      assert f as real < k as real + 1.0;
    }
  }

  /** Converting a number that passed the check with `int()` keeps its value. */
  lemma ToIntOfFloatingInteger(n: Numeric)
    ensures IsFloatingInteger(n) ==> ToInt(n) as real == n.Value()
  {
  }

  /** `count_integers_between(position1, position2)`: `|position2 - position1| + 1`. */
  function CountIntegersBetween(position1: int, position2: int): (r: int)
    ensures r >= 1
    ensures r == 1 <==> position1 == position2
  {
    IntAbs(position2 - position1) + 1
  }

  /** The integers of the closed interval `[lo, hi]`. */
  function IntegersIn(lo: int, hi: int): (r: set<int>)
    ensures forall i :: i in r <==> lo <= i <= hi
    decreases hi - lo
  {
    if hi < lo then {} else IntegersIn(lo, hi - 1) + {hi}
  }

  lemma {:induction false} IntegersInCardinality(lo: int, hi: int)
    ensures |IntegersIn(lo, hi)| == if lo <= hi then hi - lo + 1 else 0
    decreases hi - lo
  {
    if hi < lo {
      assert IntegersIn(lo, hi) == {};
    } else {
      IntegersInCardinality(lo, hi - 1);
      assert hi !in IntegersIn(lo, hi - 1);
    }
  }

  /** The count is the number of integers in the closed interval the two
      arguments span, whichever order they come in. */
  lemma CountIntegersBetweenIsCardinality(position1: int, position2: int)
    ensures CountIntegersBetween(position1, position2)
         == |IntegersIn(Min(position1, position2), Max(position1, position2))|
  {
    IntegersInCardinality(Min(position1, position2), Max(position1, position2));
  }

  lemma CountIntegersBetweenSymmetric(position1: int, position2: int)
    ensures CountIntegersBetween(position1, position2) == CountIntegersBetween(position2, position1)
  {
  }
}
