/** The retry handler of src/amvp.c, whose wait budget bounds every polling loop. */
module Retry {
  const MODIFIER_MAX := 10

  /** AMVP_RETRY_TIME_MIN, AMVP_RETRY_TIME_MAX and AMVP_MAX_WAIT_TIME, in seconds. */
  datatype Limits = Limits(min: int, max: int, maxWait: int)

  const SOURCE_LIMITS := Limits(5, 300, 7200)

  predicate ValidLimits(l: Limits) {
    0 <= l.min < l.max <= l.maxWait && l.maxWait + l.max < 0x8000_0000 && l.max * MODIFIER_MAX < 0x8000_0000
  }

  predicate Int32(x: int) {
    -0x8000_0000 <= x < 0x8000_0000
  }

  /** A 32-bit unsigned sum. */
  function Wrap(x: int): nat {
    x % 0x1_0000_0000
  }

  /** The wait budget that is left. */
  function Left(l: Limits, waited: nat): int {
    l.maxWait - waited
  }

  /** What one granted wait does to the budget: the handler's promise to its callers. */
  ghost predicate Granted(l: Limits, waited: nat, period: int, slept: int, waited': nat) {
    && waited < l.maxWait
    && l.min < period <= l.max
    && waited' == waited + period
    && 0 < slept <= period
  }

  /** The wait used for a requested period when the modifier is 1. */
  function Period(l: Limits, waited: nat, retry: int): int {
    if l.min < retry <= l.max && retry <= Left(l, waited) then retry
    else if (retry > Left(l, waited) || waited + retry < 0) && l.min < Left(l, waited) <= l.max then Left(l, waited)
    else l.max
  }

  /** amvp_retry_handler */
  method RetryHandler(l: Limits, retry: int, waited: nat, modifier: int)
    returns (granted: bool, period: int, slept: int, waited': nat)
    requires ValidLimits(l) && Int32(retry) && waited < l.maxWait + l.max
    ensures granted <==> waited < l.maxWait
    ensures granted ==> Granted(l, waited, period, slept, waited')
    ensures granted ==>
      var m := if 1 <= modifier <= 10 then modifier else 1;
      slept == Period(l, waited, retry) && period == if slept * m > l.max then l.max else slept * m
    ensures !granted ==> waited' == waited && slept == 0 && period == retry
  {
    granted, period, slept, waited' := false, retry, 0, waited;
    if waited >= l.maxWait {
      return;
    }
    if Wrap(waited + period) > l.maxWait {
      period := l.maxWait - waited;
    }
    if period <= l.min || period > l.max {
      period := l.max;
    }
    slept := period;
    var m := if modifier < 1 || modifier > MODIFIER_MAX then 1 else modifier;
    ScaledPeriod(l, period, m);
    period := period * m;
    if period > l.max {
      period := l.max;
    }
    granted, waited' := true, waited + period;
  }

  /**
   * A requested period that fits is used as it is; one that is too long for the budget is cut to
   * what is left; and where neither gives a period above the minimum, the longest one is used.
   */
  lemma PeriodHonoured(l: Limits, waited: nat, retry: int)
    requires ValidLimits(l) && Int32(retry) && waited < l.maxWait
    ensures l.min < retry <= l.max && waited + retry <= l.maxWait ==> Period(l, waited, retry) == retry
    ensures retry > l.maxWait - waited && l.min < l.maxWait - waited <= l.max ==>
      waited + Period(l, waited, retry) == l.maxWait
    ensures 0 <= retry <= l.min ==> Period(l, waited, retry) == l.max
    ensures l.min < Period(l, waited, retry) <= l.max
  {
  }

  lemma ScaledPeriod(l: Limits, period: int, m: int)
    requires ValidLimits(l) && l.min < period <= l.max && 1 <= m <= MODIFIER_MAX
    ensures period <= period * m <= l.max * MODIFIER_MAX
  {
  }

  /**
   * The source documents that the waits never sum to more than the maximum. That holds of a
   * wait exactly when a full maximal period still fits, or when more than the minimum is left
   * and the server asked for more than the minimum (or for a time so negative that it wraps).
   */
  lemma WithinMaximum(l: Limits, waited: nat, retry: int)
    requires ValidLimits(l) && Int32(retry) && waited < l.maxWait
    ensures waited + Period(l, waited, retry) <= l.maxWait <==>
      Left(l, waited) >= l.max || (Left(l, waited) > l.min && (retry > l.min || waited + retry < 0))
  {
  }

  /** With the limits of the source, a server asking for 3 seconds at 7199 drives the total to 7499. */
  lemma MaximumExceeded()
    ensures ValidLimits(SOURCE_LIMITS)
    ensures 7199 + Period(SOURCE_LIMITS, 7199, 3) == 7499
  {
  }

  // ---- whole polling loops -------------------------------------------------

  /** Rounding up. */
  function CeilDiv(a: nat, b: nat): nat
    requires b > 0
  {
    (a + b - 1) / b
  }

  /** What every polling loop keeps: each of `grants` waits took more than the minimum. */
  ghost predicate Budget(l: Limits, grants: nat, waited: nat, slept: int) {
    && grants * (l.min + 1) <= waited < l.maxWait + l.max
    && (grants > 0 ==> (grants - 1) * (l.min + 1) < l.maxWait)
    && waited <= grants * l.max
    && 0 <= slept <= waited
  }

  lemma BudgetKept(l: Limits, grants: nat, waited: nat, total: int, period: int, slept: int, waited': nat)
    requires ValidLimits(l) && Budget(l, grants, waited, total) && Granted(l, waited, period, slept, waited')
    ensures Budget(l, grants + 1, waited', total + slept)
  {
    assert (grants + 1) * (l.min + 1) == grants * (l.min + 1) + (l.min + 1);
    assert (grants + 1) * l.max == grants * l.max + l.max;
  }

  /** However the server answers, a loop is granted at most ceil(maximum / (minimum + 1)) waits. */
  lemma GrantsBounded(l: Limits, grants: nat, waited: nat, slept: int)
    requires ValidLimits(l) && Budget(l, grants, waited, slept)
    ensures grants <= CeilDiv(l.maxWait, l.min + 1)
  {
    var u := l.min + 1;
    assert grants * u <= l.maxWait + u - 1;
    QuotientBound(l.maxWait + u - 1, grants, u);
  }

  lemma QuotientBound(a: nat, g: nat, u: nat)
    requires u > 0 && g * u <= a
    ensures g <= a / u
  {
    assert a == u * (a / u) + a % u;
    assert (a / u + 1) * u > a;
  }
}
