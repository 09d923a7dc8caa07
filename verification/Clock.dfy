/** Time as whole nanoseconds, and the precision that an instant keeps when the API server stores it. */
module Clock {

  const MICROSECOND := 1_000
  const SECOND := 1_000_000_000
  const MINUTE := 60_000_000_000

  /** A duration in a specification: absent, unreadable text, or a parsed duration, which may be negative. */
  datatype Setting = Unset | Malformed | Parsed(d: int)

  /** `metav1.Time` is stored as RFC 3339 text without a fraction: the fraction of the second is cut off. */
  function ToSecond(t: int): (s: int)
    ensures s <= t < s + SECOND
    ensures s % SECOND == 0
  {
    t - t % SECOND
  }

  /** `metav1.MicroTime` keeps microseconds. */
  function ToMicrosecond(t: int): (s: int)
    ensures s <= t < s + MICROSECOND
    ensures s % MICROSECOND == 0
  {
    t - t % MICROSECOND
  }

  lemma ToSecondMonotone(t: int, u: int)
    requires t <= u
    ensures ToSecond(t) <= ToSecond(u)
  {
    var q, r := t / SECOND, u / SECOND;
    assert ToSecond(t) == q * SECOND && ToSecond(u) == r * SECOND;
    assert q <= r;
  }

  lemma ToMicrosecondMonotone(t: int, u: int)
    requires t <= u
    ensures ToMicrosecond(t) <= ToMicrosecond(u)
  {
    var q, r := t / MICROSECOND, u / MICROSECOND;
    assert ToMicrosecond(t) == q * MICROSECOND && ToMicrosecond(u) == r * MICROSECOND;
    assert q <= r;
  }

  /** Storing an instant that is at least `d` after a stored one keeps a gap of `d` cut to whole seconds. */
  lemma StoredGap(stored: int, d: int, t: int)
    requires stored % SECOND == 0
    requires t >= stored + d
    ensures ToSecond(t) >= stored + ToSecond(d)
  {
    var q := stored / SECOND;
    assert stored == q * SECOND;
    assert ToSecond(stored + d) == stored + ToSecond(d) by {
      assert (stored + d) % SECOND == d % SECOND;
    }
    ToSecondMonotone(stored + d, t);
  }
}
