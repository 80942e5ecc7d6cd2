/** Small value types shared by every module of the model. */
module Common {

  /** A value that may be absent: JavaScript's `null`/`undefined`/`NaN` results and Python's `None`. */
  datatype Option<T> = None | Some(value: T) {
    /** The value, or `default` when absent (the `x || default` idiom on a value that is set). */
    function GetOr(default: T): T {
      match this
      case Some(v) => v
      case None => default
    }
  }

  /** The outcome of an operation that can abort, as a thrown `Error` does in the source. */
  datatype Result<T, E> = Ok(value: T) | Err(error: E)

  /** JavaScript's `a > 0 ? n / a : 0` and Python's `a > 0 and n / a or 0`: a quotient that is 0
      whenever the denominator is not positive. */
  function GuardedDiv(n: real, d: real): (q: real)
    ensures d <= 0.0 ==> q == 0.0
    ensures d > 0.0 ==> q * d == n
  {
    if d > 0.0 then n / d else 0.0
  }

  /** `d > 0 ? (n / d) * 100 : 0`: a percentage that is 0 whenever the denominator is not positive. */
  function GuardedPercent(n: real, d: real): (p: real)
    ensures d <= 0.0 ==> p == 0.0
    ensures d > 0.0 ==> p * d == n * 100.0
  {
    if d > 0.0 then (n / d) * 100.0 else 0.0
  }

  /** A percentage of a part of a whole lies between 0 and 100. */
  lemma PercentBounds(n: real, d: real)
    requires 0.0 <= n <= d
    ensures 0.0 <= GuardedPercent(n, d) <= 100.0
  {
    if d > 0.0 {
      assert GuardedPercent(n, d) * d == n * 100.0;
    }
  }

  /** A larger part is a larger percentage of the same whole. */
  lemma PercentMonotone(a: real, b: real, d: real)
    requires a <= b
    ensures GuardedPercent(a, d) <= GuardedPercent(b, d)
  {
    if d > 0.0 {
      assert (GuardedPercent(b, d) - GuardedPercent(a, d)) * d == (b - a) * 100.0;
    }
  }

  /** The mean of `count` terms, each between 0 and `c`, lies between 0 and `c`. */
  lemma MeanBounds(n: real, count: nat, c: real)
    requires c >= 0.0 && 0.0 <= n <= c * count as real
    ensures 0.0 <= GuardedDiv(n, count as real) <= c
  {
    var d := count as real;
    if d > 0.0 {
      assert GuardedDiv(n, d) * d == n;
      assert (c - GuardedDiv(n, d)) * d == c * d - n;
    }
  }

  /** A count out of a larger count is a percentage. */
  lemma PercentOfCount(part: nat, whole: nat)
    requires part <= whole
    ensures 0.0 <= GuardedPercent(part as real, whole as real) <= 100.0
  {
    PercentBounds(part as real, whole as real);
  }

  /** Nothing divided by anything is 0. */
  lemma NothingDivided(n: real, d: real)
    requires n == 0.0
    ensures GuardedDiv(n, d) == 0.0
  {
  }

  /** A positive amount shared out over a positive count gives a positive share. */
  lemma QuotientPositive(n: real, count: nat)
    requires n > 0.0 && count > 0
    ensures GuardedDiv(n, count as real) > 0.0
  {
  }
}
