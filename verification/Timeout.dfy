/** How long a probe may take: the configured bound, shortened to fit the scrape. */
module Timeout {
  /** The scrape timeout header, as `strconv.ParseFloat` reads it. */
  datatype Header =
    | Missing
    | Unusable            // a parse or range error, or not a number
    | PositiveInfinity
    | NegativeInfinity
    | Seconds(s: real)

  const NANOS := 1_000_000_000.0

  /** Limits and result in nanoseconds. */
  function EffectiveTimeout(h: Header, max: int, offset: int): int {
    match h
    case Seconds(s) =>
      if s <= 0.0 || s >= (max + offset) as real / NANOS then max
      else
        var scrape := (s * NANOS).Floor - offset;
        if scrape > 0 then scrape else max
    case _ => max
  }

  /** A whole number of nanoseconds that keeps within both limits. */
  predicate Fits(t: int, s: real, max: int, offset: int) {
    0 < t <= max && (t + offset) as real <= s * 1_000_000_000.0
  }

  /** The result is positive and within the bound; it is the largest that fits the scrape, if any fits. */
  lemma TimeoutIsLargestThatFits(h: Header, max: int, offset: int)
    requires max > 0 && offset >= 0
    ensures 0 < EffectiveTimeout(h, max, offset) <= max
    ensures h.Seconds? && (exists t :: Fits(t, h.s, max, offset)) ==>
              && Fits(EffectiveTimeout(h, max, offset), h.s, max, offset)
              && forall t :: Fits(t, h.s, max, offset) ==> t <= EffectiveTimeout(h, max, offset)
    ensures (!h.Seconds? || !exists t :: Fits(t, h.s, max, offset)) ==> EffectiveTimeout(h, max, offset) == max
    ensures h.Seconds? ==> ((exists t :: Fits(t, h.s, max, offset)) <==> h.s * NANOS >= (offset + 1) as real)
  {
    if h.Seconds? {
      var r := EffectiveTimeout(h, max, offset);
      var scrape := h.s * NANOS;
      assert h.s >= (max + offset) as real / NANOS <==> scrape >= (max + offset) as real;
      assert h.s <= 0.0 <==> scrape <= 0.0;
      if scrape >= (offset + 1) as real {
        assert Fits(1, h.s, max, offset);
        assert Fits(r, h.s, max, offset);
      }
      forall t | Fits(t, h.s, max, offset)
        ensures t <= r && scrape >= (offset + 1) as real
      {
      }
    }
  }
}
