/** `src/time.rs`: points in time as a signed 128-bit count of nanoseconds
    since the Unix epoch, and spans between them. A span (`tempus::Span`)
    is taken to hold a nanosecond count exactly, so that `Span::to_ns`
    and `Span::from_ns` are inverse. */
module Time {
  import opened Errors

  const I128_MIN: int := -0x8000_0000_0000_0000_0000_0000_0000_0000
  const I128_MAX: int := 0x7fff_ffff_ffff_ffff_ffff_ffff_ffff_ffff
  type I128 = n: int | I128_MIN <= n <= I128_MAX

  predicate InI128(n: int)
  {
    I128_MIN <= n <= I128_MAX
  }

  /** A time span in nanoseconds. */
  datatype Span = Span(ns: I128)

  function SpanFromNs(n: I128): Span
  {
    Span(n)
  }

  function SpanToNs(s: Span): I128
  {
    s.ns
  }

  /** Time since the Unix epoch, in nanoseconds. */
  datatype EpochTime = EpochTime(ns: I128)

  /** `from_ns_since_epoch`. */
  function FromNsSinceEpoch(n: I128): EpochTime
  {
    EpochTime(n)
  }

  /** `to_ns_since_epoch`. */
  function ToNsSinceEpoch(t: EpochTime): I128
  {
    t.ns
  }

  /** The two conversions are inverse. */
  lemma NsRoundTrip(n: I128, t: EpochTime)
    ensures ToNsSinceEpoch(FromNsSinceEpoch(n)) == n
    ensures FromNsSinceEpoch(ToNsSinceEpoch(t)) == t
  {
  }

  /** `t + s`. An `i128` overflow panics when overflow checks are on and
      wraps around when they are off; neither is modelled, so the sum is
      required to fit. */
  function Add(t: EpochTime, s: Span): (r: EpochTime)
    requires InI128(t.ns + SpanToNs(s))
    ensures ToNsSinceEpoch(r) == ToNsSinceEpoch(t) + SpanToNs(s)
  {
    EpochTime(t.ns + SpanToNs(s))
  }

  /** `t - s`. */
  function Sub(t: EpochTime, s: Span): (r: EpochTime)
    requires InI128(t.ns - SpanToNs(s))
    ensures ToNsSinceEpoch(r) == ToNsSinceEpoch(t) - SpanToNs(s)
  {
    EpochTime(t.ns - SpanToNs(s))
  }

  /** `t1 - t2`: the span between two times. */
  function Diff(t1: EpochTime, t2: EpochTime): (r: Span)
    requires InI128(t1.ns - t2.ns)
    ensures r == SpanFromNs(ToNsSinceEpoch(t1) - ToNsSinceEpoch(t2))
  {
    SpanFromNs(t1.ns - t2.ns)
  }

  /** The derived ordering: that of the nanosecond counts. */
  predicate Less(t1: EpochTime, t2: EpochTime)
  {
    t1.ns < t2.ns
  }

  /** `Less` is a strict total order, and equality is equality of counts. */
  lemma LessIsStrictTotalOrder(a: EpochTime, b: EpochTime, c: EpochTime)
    ensures !Less(a, a)
    ensures Less(a, b) && Less(b, c) ==> Less(a, c)
    ensures Less(a, b) || a == b || Less(b, a)
    ensures a == b <==> ToNsSinceEpoch(a) == ToNsSinceEpoch(b)
  {
  }

  /** Adding a span moves later exactly when the span is positive. */
  lemma AddMonotone(t: EpochTime, s: Span)
    requires InI128(t.ns + s.ns)
    ensures Less(t, Add(t, s)) <==> Less(EpochTime(0), EpochTime(SpanToNs(s)))
    ensures Add(t, s) == t <==> SpanToNs(s) == 0
  {
  }

  /** Adding and subtracting the same span are inverse, and adding the
      difference of two times to the second gives the first. */
  lemma AddSubInverse(t: EpochTime, s: Span, t2: EpochTime)
    requires InI128(t.ns + s.ns) && InI128(t.ns - s.ns)
    requires InI128(t.ns - t2.ns)
    ensures Sub(Add(t, s), s) == t
    ensures Add(Sub(t, s), s) == t
    ensures InI128(t2.ns + Diff(t, t2).ns) && Add(t2, Diff(t, t2)) == t
    ensures Diff(Add(t, s), t) == s
  {
  }

  /** An `EpochTime` variable, for the compound assignments. */
  class Clock {
    var time: EpochTime

    constructor(t: EpochTime)
      ensures time == t
    {
      time := t;
    }

    /** `*self += s`: the same as `*self = *self + s`. */
    method AddAssign(s: Span)
      requires InI128(time.ns + SpanToNs(s))
      modifies this
      ensures time == Add(old(time), s)
    {
      time := EpochTime(time.ns + SpanToNs(s));
    }

    /** `*self -= s`: the same as `*self = *self - s`. */
    method SubAssign(s: Span)
      requires InI128(time.ns - SpanToNs(s))
      modifies this
      ensures time == Sub(old(time), s)
    {
      time := EpochTime(time.ns - SpanToNs(s));
    }
  }

  /** `+=` followed by `-=` with the same span restores the time. */
  method AddThenSub(c: Clock, s: Span)
    requires InI128(c.time.ns + s.ns)
    modifies c
    ensures c.time == old(c.time)
  {
    c.AddAssign(s);
    c.SubAssign(s);
  }

  /** `CLOCK_MONOTONIC` (Linux value). */
  const CLOCK_MONOTONIC: nat := 1
  const NS_PER_SEC: nat := 1_000_000_000
  const I64_MAX: int := 0x7fff_ffff_ffff_ffff

  /** The arguments of a relative `clock_nanosleep` call. */
  datatype SleepCall = SleepCall(clock: nat, flags: nat, request: Span)

  /** How a sleep ends: in full, or interrupted with time remaining. */
  datatype SleepResult = Slept | Interrupted(remaining: Span)

  /** `sleep_for`. It asserts the span is positive and panics when its whole
      seconds overflow a 64-bit `time_t`, hence the preconditions. The
      kernel replies with a return value and the remaining time. */
  function SleepFor(t: Span, kernel: SleepCall -> (SysRet, Span)): (r: SleepResult)
    requires 0 < SpanToNs(t)
    requires SpanToNs(t) / NS_PER_SEC <= I64_MAX
    ensures var (ret, rem) := kernel(SleepCall(CLOCK_MONOTONIC, 0, t));
      (r == Slept <==> ret >= 0) && (r.Interrupted? ==> r.remaining == rem)
  {
    var (ret, rem) := kernel(SleepCall(CLOCK_MONOTONIC, 0, t));
    if FromSysret(ret).Ok? then Slept else Interrupted(rem)
  }
}
