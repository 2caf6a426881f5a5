/**
 * src/reader/budget.ts: a projection reports its own serialised size, so the size depends on the
 * digits it is reported with; and the search for the greatest accepted value.
 */
module Budget {
  import opened Base
  import opened Decimal

  const MAX_ATTEMPTS: nat := 16

  datatype BudgetError = NotPositive | TooSmall(byteBudget: nat, requiredBytes: nat) | DidNotConverge

  /**
   * Bytes of the projection when it reports `reported`: `rest` counts everything else, that is the
   * keys, the declared budget and the value.
   */
  function Serialized(rest: nat, reported: nat): (bytes: nat)
    ensures bytes > rest
  {
    rest + Width(reported)
  }

  /** A report that is exact: the projection is as long as it says. */
  predicate Exact(rest: nat, reported: nat)
  {
    Serialized(rest, reported) == reported
  }

  /** The least exact report. */
  ghost predicate Measures(rest: nat, n: nat)
  {
    Exact(rest, n) && forall m: nat :: Exact(rest, m) ==> n <= m
  }

  /** The report the iteration reaches from zero: at most one digit more than the first guess had. */
  function Measured(rest: nat): (n: nat)
  {
    Serialized(rest, Serialized(rest, rest + 1))
  }

  /**
   * The iteration from zero: the first guess has one digit; its numeral is at most one digit
   * narrower than the final one, and the one after that is exact.
   */
  lemma Converges(rest: nat)
    ensures Exact(rest, Measured(rest))
    ensures rest + 1 <= Serialized(rest, rest + 1) <= Measured(rest)
  {
    hide Width;
    var first := rest + 1;
    var d := Width(first);
    var second := rest + d;
    var third := rest + Width(second);
    WidthMonotone(first, second);
    WidthMonotone(second, third);
    WidthIff(first, d);
    assert Pow10(d + 1) == 10 * Pow10(d);
    WidthIff(second, d + 1);
    WidthIff(third, d + 1);
  }

  /** Every exact report is at least as large as each step of the iteration. */
  lemma MeasuredIsLeast(rest: nat)
    ensures Measures(rest, Measured(rest))
  {
    Converges(rest);
    forall m: nat | Exact(rest, m) ensures Measured(rest) <= m {
      WidthMonotone(rest + 1, m);
      WidthMonotone(Serialized(rest, rest + 1), m);
    }
  }

  /** A longer projection never reports less, so a budget that holds it holds every shorter one. */
  lemma MeasuredMonotone(a: nat, b: nat)
    requires a <= b
    ensures Measured(a) <= Measured(b)
  {
    WidthMonotone(a + 1, b + 1);
    WidthMonotone(Serialized(a, a + 1), Serialized(b, b + 1));
  }

  /** Reports need not be unique: at a power of ten the next number is exact as well. */
  lemma TwoExactReports()
    ensures Exact(8, 9) && Exact(8, 10) && Measured(8) == 9
  {
    assert Width(10) == 2 by { assert Numeral(10) == Numeral(1) + [ZERO]; }
  }

  /**
   * Sizes the projection until its report is exact, and holds it to the budget. The attempts suffice
   * for every size, so `DidNotConverge` is never returned.
   */
  method WrapReaderProjection(rest: nat, byteBudget: int) returns (result: Result<nat, BudgetError>)
    ensures byteBudget <= 0 ==> result == Err(NotPositive)
    ensures byteBudget > 0 && Measured(rest) <= byteBudget ==> result == Ok(Measured(rest))
    ensures byteBudget > 0 && Measured(rest) > byteBudget ==> result == Err(TooSmall(byteBudget, Measured(rest)))
  {
    if byteBudget <= 0 {
      return Err(NotPositive);
    }
    Converges(rest);
    assert Serialized(rest, 0) == rest + 1;
    var reported := 0;
    for attempt := 0 to MAX_ATTEMPTS
      invariant attempt == 0 ==> reported == 0
      invariant attempt == 1 ==> reported == rest + 1
      invariant attempt == 2 ==> reported == Serialized(rest, rest + 1)
      invariant attempt == 3 ==> reported == Measured(rest)
      invariant attempt <= 3
    {
      var actual := Serialized(rest, reported);
      if actual == reported {
        if actual > byteBudget {
          return Err(TooSmall(byteBudget, actual));
        }
        return Ok(reported);
      }
      reported := actual;
    }
    return Err(DidNotConverge);
  }

  /* ------------------------------ the greatest accepted value ------------------------------ */

  /** What is accepted stays accepted for every smaller value. */
  ghost predicate Monotonic(accepts: int -> bool, maximum: int)
  {
    forall a, b | 0 <= a <= b <= maximum && accepts(b) :: accepts(a)
  }

  method MaximizeReaderBudget(maximum: nat, accepts: int -> bool) returns (best: int)
    ensures -1 <= best <= maximum
    ensures best >= 0 ==> accepts(best)
    ensures best == -1 ==> !accepts(0)
    ensures Monotonic(accepts, maximum) ==> forall c | best < c <= maximum :: !accepts(c)
  {
    var low, high := 0, maximum as int;
    best := if accepts(0) then 0 else -1;
    while low <= high
      invariant 0 <= low <= high + 1 <= maximum + 1
      invariant -1 <= best <= maximum && (best >= 0 ==> accepts(best)) && (best == -1 ==> !accepts(0))
      invariant best < low || (best == 0 && low == 0)
      invariant low > 0 ==> accepts(low - 1) && best == low - 1
      invariant high < maximum ==> !accepts(high + 1)
    {
      var middle := low + (high - low) / 2;
      if accepts(middle) {
        best := middle;
        low := middle + 1;
      } else {
        high := middle - 1;
      }
    }
  }
}
