/** SignalThrottle of lib/src/throttle.dart: one forward per interval, measured from the last forward. */
module Throttle {
  import opened Bits
  import opened Options
  import opened Powers
  import opened Sequences

  /** The interval and the time of the last forward. */
  datatype Limiter = Limiter(interval: nat, last: Option<int>)

  /** shouldForward() at time now. Without an interval the clock is not even read. */
  function Offer(l: Limiter, now: int): (Limiter, bool) {
    if l.interval == 0 then (l, true)
    else if l.last.None? || now - l.last.value >= l.interval then (l.(last := Some(now)), true)
    else (l, false)
  }

  /** The answers to arrivals at the given times. */
  function Decisions(l: Limiter, times: seq<int>): (ds: seq<bool>)
    ensures |ds| == |times|
    decreases times
  {
    if times == [] then []
    else var (l', ok) := Offer(l, times[0]); [ok] + Decisions(l', times[1..])
  }

  /** The times of the forwarded arrivals. */
  function Forwarded(l: Limiter, times: seq<int>): seq<int>
    decreases times
  {
    if times == [] then []
    else
      var (l', ok) := Offer(l, times[0]);
      (if ok then [times[0]] else []) + Forwarded(l', times[1..])
  }

  /** The throttle after those arrivals. */
  function AfterOffers(l: Limiter, times: seq<int>): Limiter
    decreases times
  {
    if times == [] then l else AfterOffers(Offer(l, times[0]).0, times[1..])
  }

  lemma {:induction false} DecisionsSnoc(l: Limiter, times: seq<int>, now: int)
    ensures Decisions(l, times + [now]) == Decisions(l, times) + [Offer(AfterOffers(l, times), now).1]
    ensures AfterOffers(l, times + [now]) == Offer(AfterOffers(l, times), now).0
    decreases times
  {
    if times == [] {
      assert (times + [now])[1..] == [];
    } else {
      DecisionsSnoc(Offer(l, times[0]).0, times[1..], now);
      assert (times + [now])[1..] == times[1..] + [now];
    }
  }

  lemma {:induction false} ForwardedSnoc(l: Limiter, times: seq<int>, now: int)
    ensures Forwarded(l, times + [now]) ==
            Forwarded(l, times) + if Offer(AfterOffers(l, times), now).1 then [now] else []
    decreases times
  {
    if times == [] {
      assert (times + [now])[1..] == [];
    } else {
      ForwardedSnoc(Offer(l, times[0]).0, times[1..], now);
      assert (times + [now])[1..] == times[1..] + [now];
    }
  }

  /** The forwarded arrivals are those whose answer is yes. */
  lemma {:induction false} ForwardedIsSelect(l: Limiter, times: seq<int>)
    ensures Forwarded(l, times) == Select(times, Decisions(l, times))
  {
    if times != [] {
      var front, now := times[..|times| - 1], times[|times| - 1];
      assert times == front + [now];
      ForwardedIsSelect(l, front);
      ForwardedSnoc(l, front, now);
      DecisionsSnoc(l, front, now);
      SelectSnoc(front, Decisions(l, front), now, Offer(AfterOffers(l, front), now).1);
    }
  }

  // ---- the interval ----

  /** From here on a quotient of doubles is infinite. */
  function Overflow(): real {
    (Pow2(1024) - Pow2(970)) as real
  }

  /** Rates so small that the period is infinite, for which round() throws. */
  predicate PeriodOverflows(maxHz: real) {
    maxHz > 0.0 && 1000000.0 / maxHz >= Overflow()
  }

  /** Dart's round() on a non-negative double. */
  function Round(x: real): (n: nat)
    requires x >= 0.0
    ensures x - 0.5 < n as real <= x + 0.5
  {
    (x + 0.5).Floor
  }

  /** Dart's round() goes no further than the largest int. */
  function IntervalUs(maxHz: real): (us: nat)
    ensures us <= DART_MAX
  {
    if maxHz > 0.0 then
      PeriodPositive(maxHz);
      var us := Round(1000000.0 / maxHz);
      if us > DART_MAX then DART_MAX else us
    else 0
  }

  lemma {:induction false} PeriodPositive(hz: real)
    requires hz > 0.0
    ensures 1000000.0 / hz > 0.0 && 1000000.0 / hz * hz == 1000000.0
  {}

  /** The interval is the period in microseconds, rounded to the nearest with halves up, and the largest int
      exactly for periods that would round to it or beyond. */
  lemma {:induction false} IntervalIsPeriod(maxHz: real)
    ensures maxHz <= 0.0 ==> IntervalUs(maxHz) == 0
    ensures maxHz > 0.0 && 1000000.0 / maxHz < 9223372036854775807.5 ==>
      -0.5 <= 1000000.0 / maxHz - IntervalUs(maxHz) as real < 0.5
    ensures IntervalUs(maxHz) == 9223372036854775807 <==>
      maxHz > 0.0 && 1000000.0 / maxHz >= 9223372036854775806.5
  {}

  /** For the rates that this class was written for. */
  lemma {:induction false} UsualRates()
    ensures IntervalUs(30.0) == 33333 && IntervalUs(60.0) == 16667 && IntervalUs(10.0) == 100000
  {}

  /** The period is infinite from halfway between the largest double, (2^53 - 1) 2^971, and 2^1024. */
  lemma {:induction false} OverflowIsHalfway()
    ensures Overflow() == (2 * (0x20_0000_0000_0000 - 1) + 1) as real * Pow2(970) as real
  {
    hide Pow2;
    Pow2Add(54, 970);
    Pow2Of54();
  }

  lemma {:induction false} Pow2Of54()
    ensures Pow2(54) == 0x40_0000_0000_0000
  {
    Pow2Small();
    Pow2Add(6, 16);
    Pow2Add(22, 32);
  }

  /** In Hz: k forwards of a throttle set to maxHz span at least (k - 1) periods, less half a microsecond each. */
  lemma {:induction false} ForwardsKeepRate(maxHz: real, times: seq<int>, i: nat, j: nat)
    requires 0.0 < maxHz <= 2000000.0 && 1000000.0 / maxHz < 9223372036854775807.5
    requires i <= j < |Forwarded(Limiter(IntervalUs(maxHz), None), times)|
    ensures var f := Forwarded(Limiter(IntervalUs(maxHz), None), times);
      (j - i) as real * (1000000.0 / maxHz - 0.5) <= (f[j] - f[i]) as real
  {
    hide IntervalUs, Forwarded;
    var us := IntervalUs(maxHz);
    IntervalIsPeriod(maxHz);
    UnlimitedRates(maxHz);
    ForwardsAreSpaced(Limiter(us, None), times, i, j);
    NonNegative((j - i) as real, us as real - (1000000.0 / maxHz - 0.5));
    assert ((j - i) * us) as real == (j - i) as real * us as real;
  }

  /** There is no limit exactly for rates that are not positive or exceed two per microsecond. */
  lemma {:induction false} UnlimitedRates(maxHz: real)
    ensures IntervalUs(maxHz) == 0 <==> maxHz <= 0.0 || maxHz > 2000000.0
  {
    if maxHz > 0.0 {
      PeriodPositive(maxHz);
      var period := 1000000.0 / maxHz;
      if maxHz > 2000000.0 {
        HalfPeriod(period, maxHz);
      } else {
        LongPeriod(period, maxHz);
      }
    }
  }

  lemma {:induction false} HalfPeriod(period: real, hz: real)
    requires period > 0.0 && hz > 2000000.0 && period * hz == 1000000.0
    ensures period < 0.5
  {
    assert (0.5 - period) * hz == 0.5 * hz - 1000000.0;
    PositiveFactor(0.5 - period, hz);
  }

  lemma {:induction false} LongPeriod(period: real, hz: real)
    requires period > 0.0 && 0.0 < hz <= 2000000.0 && period * hz == 1000000.0
    ensures period >= 0.5
  {
    if period < 0.5 {
      NonNegative(0.5 - period, hz);
      PositiveFactor(period, hz);
    }
  }

  // ---- the class ----

  class SignalThrottle {
    const intervalUs: nat
    var lastForwardUs: Option<int>

    ghost function Model(): Limiter
      reads this
    {
      Limiter(intervalUs, lastForwardUs)
    }

    constructor (interval: nat)
      ensures Model() == Limiter(interval, None)
    {
      intervalUs := interval;
      lastForwardUs := None;
    }

    /** Dart's constructor; None where it throws. */
    static method Create(maxHz: real) returns (t: Option<SignalThrottle>)
      ensures t.None? <==> PeriodOverflows(maxHz)
      ensures t.Some? ==> fresh(t.value) && t.value.Model() == Limiter(IntervalUs(maxHz), None)
      ensures t.Some? && maxHz <= 0.0 ==> t.value.intervalUs == 0
      ensures t.Some? && maxHz > 0.0 && 1000000.0 / maxHz < 9223372036854775807.5 ==>
        -0.5 <= 1000000.0 / maxHz - t.value.intervalUs as real < 0.5
    {
      IntervalIsPeriod(maxHz);
      if PeriodOverflows(maxHz) {
        return None;
      }
      var throttle := new SignalThrottle(IntervalUs(maxHz));
      t := Some(throttle);
    }

    method ShouldForward(now: int) returns (forward: bool)
      modifies this
      ensures (Model(), forward) == Offer(old(Model()), now)
    {
      if intervalUs == 0 {
        return true;
      }
      var last := lastForwardUs;
      if last.None? || now - last.value >= intervalUs {
        lastForwardUs := Some(now);
        return true;
      }
      return false;
    }
  }

  // ---- spacing, for any clock ----

  ghost predicate Spaced(s: seq<int>, gap: int) {
    forall i :: 0 <= i < |s| - 1 ==> s[i + 1] - s[i] >= gap
  }

  lemma {:induction false} NextForward(l: Limiter, times: seq<int>)
    requires l.interval > 0
    ensures var f := Forwarded(l, times);
      Spaced(f, l.interval) && (f != [] && l.last.Some? ==> f[0] - l.last.value >= l.interval)
    decreases times
  {
    if times != [] {
      var (l', ok) := Offer(l, times[0]);
      NextForward(l', times[1..]);
      if ok {
        var rest := Forwarded(l', times[1..]);
        assert Forwarded(l, times) == [times[0]] + rest;
        assert forall i :: 0 < i < |rest| ==> ([times[0]] + rest)[i] == rest[i - 1];
      } else {
        assert Forwarded(l, times) == Forwarded(l', times[1..]);
      }
    }
  }

  lemma {:induction false} SpacedSpan(s: seq<int>, gap: nat, i: nat, j: nat)
    requires Spaced(s, gap) && i <= j < |s|
    ensures (j - i) * gap <= s[j] - s[i]
  {
    if i < j {
      SpacedSpan(s, gap, i, j - 1);
      assert (j - i) * gap == (j - 1 - i) * gap + gap;
    }
  }

  /** Whatever the clock does, even stepping back, forwards are an interval apart; so j - i + 1 forwards,
      from the i-th to the j-th, span at least (j - i) intervals. */
  lemma {:induction false} ForwardsAreSpaced(l: Limiter, times: seq<int>, i: nat, j: nat)
    requires l.interval > 0 && i <= j < |Forwarded(l, times)|
    ensures Spaced(Forwarded(l, times), l.interval)
    ensures (j - i) * l.interval <= Forwarded(l, times)[j] - Forwarded(l, times)[i]
  {
    NextForward(l, times);
    SpacedSpan(Forwarded(l, times), l.interval, i, j);
  }

  /** Every dropped arrival comes less than one interval after the forward it was measured against. */
  lemma {:induction false} DroppedAreNear(l: Limiter, times: seq<int>, j: nat)
    requires j < |times| && !Decisions(l, times)[j]
    ensures (l.last.Some? && times[j] - l.last.value < l.interval) ||
      exists i :: 0 <= i < j && Decisions(l, times)[i] && times[j] - times[i] < l.interval
    decreases times
  {
    var (l', ok) := Offer(l, times[0]);
    var ds := Decisions(l', times[1..]);
    if j > 0 {
      DroppedAreNear(l', times[1..], j - 1);
      if ok && l'.last == Some(times[0]) && times[j] - times[0] < l.interval {
        assert Decisions(l, times)[0];
      } else if i :| 0 <= i < j - 1 && ds[i] && times[j] - times[1..][i] < l.interval {
        assert Decisions(l, times)[i + 1] && times[1..][i] == times[i + 1];
      }
    }
  }

  // ---- optimality, for a clock that does not step back ----

  ghost predicate NonDecreasing(s: seq<int>) {
    forall i, j :: 0 <= i < j < |s| ==> s[i] <= s[j]
  }

  /** No selection of arrivals an interval apart, and an interval after the last forward, is larger than
      what the throttle forwards: it is a maximum. */
  lemma {:induction false} GreedyIsMaximum(l: Limiter, times: seq<int>, s: seq<int>)
    requires NonDecreasing(times) && Subsequence(s, times) && Spaced(s, l.interval)
    requires s != [] && l.last.Some? && l.interval > 0 ==> s[0] - l.last.value >= l.interval
    ensures |s| <= |Forwarded(l, times)|
    decreases times
  {
    if s != [] {
      SubsequenceTail(s, times);
      var (l', ok) := Offer(l, times[0]);
      if ok {
        GreedyIsMaximum(l', times[1..], s[1..]);
      } else {
        GreedyIsMaximum(l', times[1..], s);
      }
    }
  }

  /** And what it forwards is such a selection. */
  lemma {:induction false} ForwardedIsSelection(l: Limiter, times: seq<int>)
    ensures Subsequence(Forwarded(l, times), times)
    ensures l.interval > 0 ==> Spaced(Forwarded(l, times), l.interval)
    decreases times
  {
    if l.interval > 0 { NextForward(l, times); }
    if times != [] {
      var (l', ok) := Offer(l, times[0]);
      ForwardedIsSelection(l', times[1..]);
      if ok {
        assert Forwarded(l, times)[1..] == Forwarded(l', times[1..]);
      } else {
        assert Forwarded(l, times) == Forwarded(l', times[1..]);
      }
    }
  }

  // ---- evenly spaced arrivals ----

  /** a / b rounded up */
  function CeilDiv(a: nat, b: nat): nat
    requires b > 0
  {
    if a == 0 then 0 else if a <= b then 1 else 1 + CeilDiv(a - b, b)
  }

  lemma {:induction false} CeilDivBounds(a: nat, b: nat)
    requires a > 0 && b > 0
    ensures CeilDiv(a, b) > 0 && (CeilDiv(a, b) - 1) * b < a <= CeilDiv(a, b) * b
  {
    if a > b {
      CeilDivBounds(a - b, b);
      assert CeilDiv(a, b) * b == CeilDiv(a - b, b) * b + b;
      assert (CeilDiv(a, b) - 1) * b == (CeilDiv(a - b, b) - 1) * b + b;
    }
  }

  function Even(start: int, period: int, n: nat): (ts: seq<int>)
    ensures |ts| == n
    decreases n
  {
    if n == 0 then [] else [start] + Even(start + period, period, n - 1)
  }

  /** j periods after a forward at t, with m periods making up an interval. */
  lemma {:induction false} EvenCount(l: Limiter, t: int, period: int, m: nat, j: nat, n: nat)
    requires period > 0 && l.interval > 0 && l.last == Some(t)
    requires 1 <= j <= m && (m - 1) * period < l.interval <= m * period
    ensures |Forwarded(l, Even(t + j * period, period, n))| == if n <= m - j then 0 else CeilDiv(n - (m - j), m)
    decreases n
  {
    if n > 0 {
      var now := t + j * period;
      var times := Even(now, period, n);
      assert times[0] == now && times[1..] == Even(now + period, period, n - 1);
      if j < m {
        TooEarly(l, t, period, m, j);
        EvenCount(l, t, period, m, j + 1, n - 1);
      } else {
        var l' := l.(last := Some(now));
        assert Offer(l, now) == (l', true);
        assert 1 * period == period;
        EvenCount(l', now, period, m, 1, n - 1);
      }
    }
  }

  lemma {:induction false} TooEarly(l: Limiter, t: int, period: int, m: nat, j: nat)
    requires period > 0 && l.last == Some(t) && j < m && (m - 1) * period < l.interval
    ensures Offer(l, t + j * period) == (l, false)
    ensures (j + 1) * period == j * period + period
  {
    MulMonotone(period, j, m - 1);
  }

  /** n arrivals evenly spaced by period give exactly ceil(n / ceil(interval / period)) forwards. */
  lemma {:induction false} EvenArrivals(interval: nat, start: int, period: int, n: nat)
    requires interval > 0 && period > 0
    ensures CeilDiv(interval, period) > 0
    ensures |Forwarded(Limiter(interval, None), Even(start, period, n))| == CeilDiv(n, CeilDiv(interval, period))
  {
    var m := CeilDiv(interval, period);
    CeilDivBounds(interval, period);
    if n > 0 {
      var times := Even(start, period, n);
      assert times[1..] == Even(start + 1 * period, period, n - 1);
      EvenCount(Limiter(interval, Some(start)), start, period, m, 1, n - 1);
    }
  }
}
