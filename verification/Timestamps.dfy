/** Converting between dates, as seconds since 2001, and timestamps, as seconds and nanoseconds since 1970. */
module Timestamps {

  const NANOS: int := 1_000_000_000
  const EPOCH_SHIFT: int := 978_307_200
  const MAX_SECONDS: int := 0x7FFF_FFFF_FFFF_FFFF
  const MIN_SECONDS: int := -0x8000_0000_0000_0000

  /** No date, a date that is not a number, or seconds since the reference date. */
  datatype Date = NoDate | NotANumber | Interval(t: real)

  datatype Timestamp = NullTimestamp | Timestamp(seconds: int, nanoseconds: int)

  function Truncate(x: real): int {
    if x >= 0.0 then x.Floor else -(-x).Floor
  }

  predicate TooLate(t: real) {
    t >= (MAX_SECONDS - EPOCH_SHIFT) as real
  }

  predicate TooEarly(t: real) {
    t - EPOCH_SHIFT as real < MIN_SECONDS as real
  }

  function ForInterval(t: real): Timestamp {
    if TooLate(t) then Timestamp(MAX_SECONDS, NANOS - 1)
    else if TooEarly(t) then Timestamp(MIN_SECONDS, -NANOS + 1)
    else
      var seconds := Truncate(t);
      var nanoseconds := Truncate((t - seconds as real) * 1_000_000_000.0);
      if nanoseconds < 0 && seconds + EPOCH_SHIFT > 0
      then Timestamp(seconds + EPOCH_SHIFT - 1, nanoseconds + NANOS)
      else Timestamp(seconds + EPOCH_SHIFT, nanoseconds)
  }

  function ForDate(date: Date): Timestamp {
    match date
    case NoDate => NullTimestamp
    case NotANumber => Timestamp(0, 0)
    case Interval(t) => ForInterval(t)
  }

  predicate InRange(seconds: int) {
    MIN_SECONDS <= seconds <= MAX_SECONDS
  }

  predicate Unclamped(t: real) {
    !TooLate(t) && !TooEarly(t)
  }

  /**
   * Between the clamps no step leaves the range of its machine integer: neither the truncated date,
   * nor the shift to the other epoch, nor the nanoseconds, nor taking a second back for them.
   */
  lemma {:induction false} UnclampedInRange(t: real)
    requires Unclamped(t)
    ensures var seconds := Truncate(t); var nanoseconds := Truncate((t - seconds as real) * 1_000_000_000.0);
      && InRange(seconds) && InRange(seconds + EPOCH_SHIFT)
      && -NANOS < nanoseconds < NANOS < 0x8000_0000
      && (nanoseconds < 0 && seconds + EPOCH_SHIFT > 0 ==>
            InRange(seconds + EPOCH_SHIFT - 1) && 0 < nanoseconds + NANOS < NANOS)
  {
  }

  /** The conversion step by step. */
  method TimestampForDate(date: Date) returns (ts: Timestamp)
    ensures ts == ForDate(date)
  {
    if date.NoDate? {
      return NullTimestamp;
    }
    if date.NotANumber? {
      return Timestamp(0, 0);
    }
    var timeInterval := date.t;
    if timeInterval >= (MAX_SECONDS - EPOCH_SHIFT) as real {
      return Timestamp(MAX_SECONDS, NANOS - 1);
    }
    if timeInterval - EPOCH_SHIFT as real < MIN_SECONDS as real {
      return Timestamp(MIN_SECONDS, -NANOS + 1);
    }
    var seconds := Truncate(timeInterval);
    var nanoseconds := Truncate((timeInterval - seconds as real) * 1_000_000_000.0);
    seconds := seconds + EPOCH_SHIFT;
    if nanoseconds < 0 && seconds > 0 {
      nanoseconds := nanoseconds + NANOS;
      seconds := seconds - 1;
    }
    return Timestamp(seconds, nanoseconds);
  }

  function ToDate(ts: Timestamp): Date {
    match ts
    case NullTimestamp => NoDate
    case Timestamp(seconds, nanoseconds) =>
      Interval(seconds as real - EPOCH_SHIFT as real + nanoseconds as real / 1_000_000_000.0)
  }

  /** No date and no timestamp correspond, and what is not a number becomes the start of 1970. */
  lemma {:induction false} SpecialDates(date: Date, ts: Timestamp)
    ensures ForDate(date).NullTimestamp? <==> date.NoDate?
    ensures ToDate(ts).NoDate? <==> ts.NullTimestamp?
    ensures ToDate(ForDate(NotANumber)) == Interval(-978_307_200.0)
    ensures ToDate(ts) != NotANumber
  {
  }

  // ----- Normal form -----

  /** What the timestamp type asserts of its parts: less than a second of nanoseconds, and compatible signs. */
  predicate Normal(ts: Timestamp) {
    ts.Timestamp? ==>
      && InRange(ts.seconds)
      && -NANOS < ts.nanoseconds < NANOS
      && ((ts.seconds >= 0 && ts.nanoseconds >= 0) || (ts.seconds <= 0 && ts.nanoseconds <= 0))
  }

  lemma {:induction false} ForDateNormal(date: Date)
    ensures Normal(ForDate(date))
  {
  }

  predicate LessOrEqual(a: Timestamp, b: Timestamp)
    requires a.Timestamp? && b.Timestamp?
  {
    a.seconds < b.seconds || (a.seconds == b.seconds && a.nanoseconds <= b.nanoseconds)
  }

  function TotalNanos(ts: Timestamp): int
    requires ts.Timestamp?
  {
    ts.seconds * NANOS + ts.nanoseconds
  }

  /** In normal form the order of timestamps is the order of time. */
  lemma {:induction false} NormalOrder(a: Timestamp, b: Timestamp)
    requires a.Timestamp? && b.Timestamp? && Normal(a) && Normal(b)
    ensures LessOrEqual(a, b) <==> TotalNanos(a) <= TotalNanos(b)
    ensures a == b <==> TotalNanos(a) == TotalNanos(b)
  {
  }

  // ----- What the conversion computes -----

  lemma {:induction false} TruncateShift(x: real, k: int)
    requires (x >= 0.0 && k >= 0) || (x <= 0.0 && k <= 0)
    ensures Truncate(k as real + x) == k + Truncate(x)
  {
    if x >= 0.0 && k >= 0 {
      assert (k as real + x).Floor == k + x.Floor;
    } else {
      assert (-(k as real + x)).Floor == -k + (-x).Floor;
      assert x == 0.0 ==> Truncate(x) == 0;
    }
  }

  /** Between the clamps the result is the date in whole nanoseconds, rounded toward the reference date. */
  lemma {:induction false} UnclampedNanos(t: real)
    requires Unclamped(t)
    ensures TotalNanos(ForInterval(t)) == EPOCH_SHIFT * NANOS + Truncate(t * 1_000_000_000.0)
  {
    var seconds := Truncate(t);
    var rest := (t - seconds as real) * 1_000_000_000.0;
    assert t * 1_000_000_000.0 == (seconds * NANOS) as real + rest;
    TruncateShift(rest, seconds * NANOS);
  }

  lemma {:induction false} TruncateMonotone(x: real, y: real)
    requires x <= y
    ensures Truncate(x) <= Truncate(y)
  {
  }

  /** The whole conversion is monotone, across both clamps. */
  lemma {:induction false} ForIntervalMonotone(t: real, u: real)
    requires t <= u
    ensures LessOrEqual(ForInterval(t), ForInterval(u))
  {
    ForDateNormal(Interval(t));
    ForDateNormal(Interval(u));
    NormalOrder(ForInterval(t), ForInterval(u));
    if !TooLate(u) && !TooEarly(t) {
      UnclampedNanos(t);
      UnclampedNanos(u);
      TruncateMonotone(t * 1_000_000_000.0, u * 1_000_000_000.0);
    }
  }

  // ----- Round trips -----

  /**
   * A normal timestamp survives going to a date and back exactly when its date lies between the
   * clamps, or it is itself one of the two values that the clamps produce. The lower clamp also
   * catches timestamps that could be represented: it is two epoch shifts above the least one.
   */
  lemma {:induction false} TimestampRoundTrip(ts: Timestamp)
    requires Normal(ts) && ts.Timestamp?
    ensures var t := ToDate(ts).t;
      ForDate(ToDate(ts)) == ts <==>
        || Unclamped(t)
        || ts == Timestamp(MAX_SECONDS, NANOS - 1)
        || ts == Timestamp(MIN_SECONDS, -NANOS + 1)
    ensures TooLate(ToDate(ts).t) <==> ts.seconds == MAX_SECONDS
    ensures TooEarly(ToDate(ts).t) <==> TotalNanos(ts) < (MIN_SECONDS + 2 * EPOCH_SHIFT) * NANOS
  {
    var t := ToDate(ts).t;
    if Unclamped(t) {
      var nanos := (ts.seconds - EPOCH_SHIFT) * NANOS + ts.nanoseconds;
      assert t * 1_000_000_000.0 == nanos as real;
      assert Truncate(nanos as real) == nanos;
      UnclampedNanos(t);
      ForDateNormal(Interval(t));
      NormalOrder(ForInterval(t), ts);
    }
  }

  /** All whole seconds in the lowest two epoch shifts can be represented, but come back as the least value. */
  lemma {:induction false} LowerClampLoses(seconds: int)
    requires MIN_SECONDS <= seconds < MIN_SECONDS + 2 * EPOCH_SHIFT
    ensures Normal(Timestamp(seconds, 0))
    ensures ForDate(ToDate(Timestamp(seconds, 0))) == Timestamp(MIN_SECONDS, -NANOS + 1) != Timestamp(seconds, 0)
  {
    TimestampRoundTrip(Timestamp(seconds, 0));
  }

  /** An unclamped date comes back less than a nanosecond nearer to the reference date, never beyond it. */
  lemma {:induction false} DateRoundTrip(t: real)
    requires Unclamped(t)
    ensures var back := ToDate(ForDate(Interval(t)));
      && back.Interval?
      && -0.000000001 < back.t - t < 0.000000001
      && (t >= 0.0 ==> 0.0 <= back.t <= t)
      && (t <= 0.0 ==> t <= back.t <= 0.0)
  {
    var ts := ForInterval(t);
    UnclampedNanos(t);
    var back := ToDate(ts).t;
    assert back * 1_000_000_000.0 == (TotalNanos(ts) - EPOCH_SHIFT * NANOS) as real;
    assert back * 1_000_000_000.0 == Truncate(t * 1_000_000_000.0) as real;
  }
}
