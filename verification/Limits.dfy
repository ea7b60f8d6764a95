/** Budgets: the `Limit` record and its derived defaults. */
module Limits {
  import opened Times

  /** At most `rate` events per rolling window `per` (nanoseconds), with an
      instantaneous peak of `burst`. */
  datatype Limit = Limit(rate: int, per: int, burst: int)

  function Clamp(x: int): nat {
    if x < 0 then 0 else x
  }

  function Normalize(l: Limit): Limit {
    var rate := Clamp(l.rate);
    var per := if rate > 0 && Clamp(l.per) == 0 then SECOND else Clamp(l.per);
    var burst := if Clamp(l.burst) < rate then rate else Clamp(l.burst);
    Limit(rate, per, burst)
  }

  predicate Unlimited(l: Limit) {
    Normalize(l).rate == 0
  }

  /** Negative rates are documented to be rejected; they are clamped, and so limit
      nothing. */
  lemma NegativeRateIsUnlimited(rate: int, per: int, burst: int)
    ensures Unlimited(Limit(rate, per, burst)) <==> rate <= 0
    ensures rate < 0 ==> Normalize(Limit(rate, per, burst)) == Normalize(Limit(0, per, burst))
  {
  }

  /** What a limit with a positive rate comes down to: its window, a second if none is
      given, and the most it admits in one window, which is its burst but no less than
      its rate. */
  lemma LimitMeans(l: Limit)
    requires l.rate > 0
    ensures Normalize(l) == Limit(l.rate, if l.per > 0 then l.per else SECOND, if l.burst > l.rate then l.burst else l.rate)
    ensures Ceiling(Normalize(l)) == if l.burst > l.rate then l.burst else l.rate
    ensures Normalize(Normalize(l)) == Normalize(l)
  {
  }

  /** The ceiling both limiters derive from an already normalized limit. */
  function Ceiling(l: Limit): int {
    if l.burst < l.rate then l.rate else l.burst
  }
}
