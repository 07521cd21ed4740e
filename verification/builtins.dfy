/** The few Python built-ins the sequence classes rely on: numbers that are
    either `int` or `float`, `math.floor`, `math.ceil`, `abs`, `x % 1`,
    `int(x)`, and the list comprehension `[f(i) for i in range(a, b)]`
    followed by `sum`.  Floats are modelled as exact reals. */
module Builtins {

  /** A Python number as a caller-supplied function may return it. */
  datatype Numeric = IntValue(i: int) | FloatValue(x: real)
  {
    /** The mathematical value of the number. */
    function Value(): real {
      match this
      case IntValue(i) => i as real
      case FloatValue(x) => x
    }
  }

  /** `math.floor`: the greatest integer not above `x`. */
  function Floor(x: real): (r: int)
    ensures r as real <= x < r as real + 1.0
  {
    x.Floor
  }

  /** `math.ceil`: the least integer not below `x`. */
  function Ceil(x: real): (r: int)
    ensures r as real - 1.0 < x <= r as real
  {
    -Floor(-x)
  }

  /** Between the floor and the ceiling of a non-integral value there is
      exactly one step. */
  lemma CeilIsFloorPlusOne(x: real)
    requires Floor(x) as real != x
    ensures Ceil(x) == Floor(x) + 1
    ensures Floor(x) as real < x < Ceil(x) as real
  {
  }

  /** `abs` on a float. */
  function Abs(x: real): (r: real)
    ensures r >= 0.0 && (r == x || r == -x)
  {
    if x < 0.0 then -x else x
  }

  /** `abs` on an int. */
  function IntAbs(x: int): (r: nat)
    ensures r == x || r == -x
  {
    if x < 0 then -x else x
  }

  function Min(a: int, b: int): int { if a <= b then a else b }

  function Max(a: int, b: int): int { if a <= b then b else a }

  /** `x % 1` on a Python float: the fractional part, taken towards minus
      infinity (Python's `%` takes the sign of the divisor). */
  function Mod1(x: real): (r: real)
    ensures 0.0 <= r < 1.0
    ensures r == 0.0 <==> x == Floor(x) as real
  {
    x - Floor(x) as real
  }

  /** `int(n)`: truncation towards zero. */
  function ToInt(n: Numeric): (r: int)
    ensures n.Value() >= 0.0 ==> 0 <= r && r as real <= n.Value() < r as real + 1.0
    ensures n.Value() < 0.0 ==> r <= 0 && r as real - 1.0 < n.Value() <= r as real
  {
    match n
    case IntValue(i) => i
    case FloatValue(x) => if x >= 0.0 then Floor(x) else Ceil(x)
  }

  /** `[f(i) for i in range(start, stop)]`; empty when `stop <= start`. */
  function MapRange(f: int -> real, start: int, stop: int): (r: seq<real>)
    ensures |r| == if start < stop then stop - start else 0
    ensures forall k :: 0 <= k < |r| ==> r[k] == f(start + k)
    decreases stop - start
  {
    if stop <= start then [] else MapRange(f, start, stop - 1) + [f(stop - 1)]
  }

  /** `sum(xs)`: 0 for the empty list, otherwise left to right. */
  function Sum(xs: seq<real>): real
  {
    if xs == [] then 0.0 else Sum(xs[..|xs| - 1]) + xs[|xs| - 1]
  }

  /** Extending the range by one index adds that index's value to the sum. */
  lemma SumMapRangeStep(f: int -> real, start: int, stop: int)
    requires start <= stop
    ensures Sum(MapRange(f, start, stop + 1)) == Sum(MapRange(f, start, stop)) + f(stop)
  {
    var xs := MapRange(f, start, stop + 1);
    assert xs[..|xs| - 1] == MapRange(f, start, stop);
  }
}
