/** The centisecond-of-day clock value a character carries for its last action. */
module Time {

  /** Centiseconds in one day: a set timestamp lies in [0, MaxTs). */
  const MaxTs: int := 8640000

  /** The range of the C++ `int` the constructor takes. */
  type Int32 = x: int | -0x8000_0000 <= x < 0x8000_0000

  /** Every value the private field can hold: C++'s `%` keeps the sign of the dividend,
      so a negative argument leaves a value in (-MaxTs, 0]. */
  type Raw = x: int | -8640000 < x < 8640000

  /** C++ integer division: the quotient is truncated toward zero. */
  function Quot(a: int, d: int): int
    requires d > 0
  {
    if a >= 0 then a / d else -((-a) / d)
  }

  datatype Timestamp = Timestamp(ts: Raw)
  {
    /** The sentinel the default constructor leaves. */
    predicate IsUnset() { ts == -1 }

    /** A time of day proper, as built from a non-negative count. */
    predicate InDay() { 0 <= ts }

    /** The hour of a time of day. */
    function Hour(): (h: int)
      ensures InDay() ==> 0 <= h < 24
    {
      Quot(ts, 360000)
    }

    /** The minute within the hour. */
    function Minute(): (m: int)
      ensures InDay() ==> 0 <= m < 60
    {
      Quot(ts, 6000) - Hour() * 60
    }

    /** The second within the minute. */
    function Second(): (s: int)
      ensures InDay() ==> 0 <= s < 60
    {
      Quot(ts, 100) - Hour() * 3600 - Minute() * 60
    }

    /** The millisecond within the second, to centisecond precision. */
    function Millisecond(): (ms: int)
      ensures InDay() ==> 0 <= ms < 1000 && ms % 10 == 0
    {
      ts * 10 - Hour() * 3600000 - Minute() * 60000 - Second() * 1000
    }

    /** `operator-`: centiseconds elapsed from `b` to this value, wrapping over midnight;
        an unset operand yields the other operand's raw value. */
    function Minus(b: Timestamp): (d: int)
      ensures IsUnset() ==> d == b.ts
      ensures !IsUnset() && b.IsUnset() ==> d == ts
      ensures InDay() && b.InDay() ==> 0 <= d < MaxTs && d == (ts - b.ts) % MaxTs
    {
      if ts == -1 then b.ts
      else if b.ts == -1 then ts
      else if b.ts > ts then ts - b.ts + MaxTs
      else ts - b.ts
    }
  }

  /** The default constructor. */
  function Default(): (t: Timestamp)
    ensures t.IsUnset() && !t.InDay()
  {
    Timestamp(-1)
  }

  /** The constructor from an `int`: the count is reduced modulo one day with C++'s `%`,
      whose remainder takes the sign of the dividend. */
  function FromInt(n: Int32): (t: Timestamp)
    ensures n >= 0 ==> t.InDay() && t.ts < MaxTs && t.ts == n % MaxTs
    ensures n < 0 ==> -MaxTs < t.ts <= 0
    ensures (n - t.ts) % MaxTs == 0
  {
    var a: int := n;
    Timestamp(if a >= 0 then a % MaxTs else -((-a) % MaxTs))
  }

  /** The four getters split a time of day into hours, minutes, seconds and milliseconds
      (to centisecond precision), each within its range, and they recombine to the value. */
  lemma ClockFields(t: Timestamp)
    requires t.InDay()
    ensures 0 <= t.Hour() < 24 && 0 <= t.Minute() < 60 && 0 <= t.Second() < 60
    ensures 0 <= t.Millisecond() < 1000 && t.Millisecond() % 10 == 0
    ensures t.Hour() * 360000 + t.Minute() * 6000 + t.Second() * 100 + t.Millisecond() / 10 == t.ts
  {
    var h, m, s := t.ts / 360000, t.ts / 6000, t.ts / 100;
    assert t.ts == 360000 * h + t.ts % 360000;
    assert t.ts == 6000 * m + t.ts % 6000;
    assert t.ts == 100 * s + t.ts % 100;
    assert m - h * 60 == (t.ts % 360000) / 6000;
    assert s - m * 60 == (t.ts % 6000) / 100;
    assert t.Millisecond() == 10 * (t.ts % 100);
  }

  /** Subtraction undoes adding a duration on the clock: adding `a - b` to `b` and
      reducing modulo one day gives back `a`. */
  lemma MinusInverts(a: Timestamp, b: Timestamp)
    requires a.InDay() && b.InDay()
    ensures FromInt(b.ts + a.Minus(b)) == a
  {
    var d := a.Minus(b);
    if b.ts > a.ts {
      assert b.ts + d == a.ts + MaxTs;
    } else {
      assert b.ts + d == a.ts;
    }
  }

  /** The wrap across midnight: 100 centiseconds after midnight is 110 after 23:59:59.90. */
  lemma MinusAcrossMidnight()
    ensures FromInt(100).Minus(FromInt(8639990)) == 110
    ensures FromInt(8639990).Minus(FromInt(100)) == 8639890
  {
  }

  /** A value minus itself is zero; the sentinel minus itself is the sentinel. */
  lemma MinusSelf(a: Timestamp)
    ensures a.Minus(a) == if a.IsUnset() then -1 else 0
  {
  }

  /** A negative count lands in (-MaxTs, 0]; -1, and every count one day below it,
      yields a value indistinguishable from the unset sentinel. */
  lemma NegativeCountMayReadAsUnset(k: nat)
    requires k <= 248
    ensures FromInt(-1 - k * MaxTs).IsUnset()
  {
    var n := -1 - k * MaxTs;
    assert -n == 1 + k * MaxTs;
    assert (-n) / MaxTs == k;
  }
}
