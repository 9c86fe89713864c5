/** The cockpit's two per-signal classes: SmoothedValue, which steps the state of Smoothing, and
    SignalHistory, the bounded history behind its sparklines. */
module Cockpit {
  import opened SignalFilters
  import opened Smoothing

  class SmoothedValue {
    const smoothing: real
    const wrapAngle: bool
    var value: real
    var target: real
    var ticking: bool
    var disposed: bool
    var pending: nat

    ghost function Model(): Smoother
      reads this
    {
      Smoother(smoothing, wrapAngle, value, target, ticking, disposed, pending)
    }

    constructor (initial: real, smoothing: real, wrapAngle: bool)
      ensures Model() == New(initial, smoothing, wrapAngle)
      ensures value == target == initial && !ticking && !disposed && pending == 0
    {
      this.smoothing, this.wrapAngle := smoothing, wrapAngle;
      value, target, ticking, disposed, pending := initial, initial, false, false, 0;
    }

    method SetTarget(v: real)
      modifies this
      ensures Model() == Do(old(Model()), Op.SetTarget(v))
    {
      if disposed {
        return;
      }
      target := v;
      EnsureTicking();
    }

    method EnsureTicking()
      modifies this`ticking, this`pending
      ensures Model() == if ticking == old(ticking) then old(Model())
                         else old(Model()).(ticking := true, pending := old(pending) + 1)
      ensures ticking == (old(ticking) || !disposed)
    {
      if ticking || disposed {
        return;
      }
      ticking := true;
      ScheduleFrame();
    }

    method ScheduleFrame()
      modifies this`pending
      ensures pending == old(pending) + 1
    {
      pending := pending + 1;
    }

    method Snap(v: real)
      modifies this
      ensures Model() == Do(old(Model()), Op.Snap(v))
    {
      target := v;
      value := v;
    }

    /** A frame callback that the scheduler has taken off its queue. */
    method Tick()
      requires pending > 0
      modifies this
      ensures Model() == Do(old(Model()), Op.Tick)
    {
      pending := pending - 1;
      if disposed {
        ticking := false;
        return;
      }
      var current := value;
      var delta := target - current;
      if wrapAngle {
        delta := NormaliseGap(delta);
      }
      if Abs(delta) < EPSILON {
        value := if wrapAngle then Mod(Mod(target) + TWO_PI) else target;
        ticking := false;
        return;
      }
      var next := Approach(current, delta, smoothing);
      if wrapAngle {
        next := Mod(Mod(next) + TWO_PI);
      }
      value := next;
      ScheduleFrame();
    }

    /** The two normalising loops; they end because each turn taken off leaves fewer. */
    method NormaliseGap(gap: real) returns (delta: real)
      ensures delta == WrapGap(gap)
    {
      delta := gap;
      while delta > PI
        invariant WrapGap(delta) == WrapGap(gap)
        invariant gap >= -PI ==> delta >= -PI
        decreases Turns(delta)
      {
        delta := delta - TWO_PI;
      }
      while delta < -PI
        invariant WrapGap(delta) == WrapGap(gap) && delta <= PI
        decreases Turns(delta)
      {
        delta := delta + TWO_PI;
      }
    }

    method Dispose()
      modifies this
      ensures Model() == Do(old(Model()), Op.Dispose)
    {
      disposed := true;
    }
  }

  class SignalHistory {
    const capacity: nat
    const buf: array<real>
    const intervalMs: int
    var head: nat
    var count: nat
    var lastCaptureMs: int
    ghost var captured: seq<real>

    /** The last capacity captured samples are in the buffer, oldest first from head - count going round. */
    ghost predicate Valid()
      reads this, buf
    {
      && capacity == buf.Length
      && Holds(buf[..], head, count == capacity, captured)
      && (count < capacity ==> count == head)
      && count <= capacity
    }

    constructor (capacity: nat, intervalMs: int)
      requires capacity > 0
      ensures Valid() && captured == [] && lastCaptureMs == 0 && fresh(buf)
      ensures this.capacity == capacity && this.intervalMs == intervalMs
    {
      this.capacity, this.intervalMs := capacity, intervalMs;
      buf := new real[capacity](_ => 0.0);
      head, count, lastCaptureMs, captured := 0, 0, 0, [];
    }

    /** Captures the value unless one was captured less than an interval ago. */
    method Add(value: real, nowMs: int) returns (taken: bool)
      requires Valid()
      modifies this, buf
      ensures Valid()
      ensures taken <==> nowMs - old(lastCaptureMs) >= intervalMs
      ensures captured == old(captured) + if taken then [value] else []
      ensures lastCaptureMs == if taken then nowMs else old(lastCaptureMs)
    {
      if nowMs - lastCaptureMs < intervalMs {
        assert captured + [] == captured;
        return false;
      }
      lastCaptureMs := nowMs;
      Store(value);
      return true;
    }

    /** The circular insertion. */
    method Store(value: real)
      requires Valid()
      modifies this`head, this`count, this`captured, buf
      ensures Valid() && captured == old(captured) + [value]
    {
      hide Holds;
      HoldsIndex();
      StoreKeeps(buf[..], head, count == capacity, captured, value);
      StepMod(head, capacity);
      ghost var before, n := buf[..], head;
      buf[head] := value;
      assert buf[..] == before[n := value];
      captured := captured + [value];
      head := (head + 1) % capacity;
      if count < capacity {
        count := count + 1;
      }
    }

    lemma {:induction false} HoldsIndex()
      requires Valid()
      ensures head < capacity == buf.Length
    {}

    /** The samples in chronological order. */
    method Samples() returns (samples: seq<real>)
      requires Valid()
      ensures samples == LastN(captured, capacity)
    {
      samples := [];
      if count == 0 {
        return;
      }
      var start := (head - count + capacity) % capacity;
      StartIs(head, count, capacity);
      HoldsLast(buf[..], head, count == capacity, captured);
      ghost var window := LastN(captured, capacity);
      for i := 0 to count
        invariant samples == window[..i]
      {
        RoundTo(start, i, capacity);
        assert window[i] == buf[if start + i < capacity then start + i else start + i - capacity];
        samples := samples + [buf[(start + i) % capacity]];
      }
      assert window[..count] == window;
    }

    /** The least and greatest sample, widened by 1 each way when they are equal; (0, 1) when empty. */
    method Range() returns (lo: real, hi: real)
      requires Valid()
      ensures lo < hi
      ensures forall x :: x in LastN(captured, capacity) ==> lo <= x <= hi
      ensures captured == [] ==> lo == 0.0 && hi == 1.0
      ensures captured != [] ==>
        if AllEqual(LastN(captured, capacity))
        then LastN(captured, capacity) != [] &&
             lo == LastN(captured, capacity)[0] - 1.0 && hi == LastN(captured, capacity)[0] + 1.0
        else lo in LastN(captured, capacity) && hi in LastN(captured, capacity)
    {
      if count == 0 {
        return 0.0, 1.0;
      }
      var samples := Samples();
      // the first sample stands for the infinities the loop starts from
      lo, hi := samples[0], samples[0];
      for i := 0 to |samples|
        invariant lo in samples && hi in samples && lo <= hi
        invariant forall j :: 0 <= j < i ==> lo <= samples[j] <= hi
      {
        if samples[i] < lo {
          lo := samples[i];
        }
        if samples[i] > hi {
          hi := samples[i];
        }
      }
      if lo == hi {
        assert lo in LastN(captured, capacity);
        lo, hi := lo - 1.0, hi + 1.0;
      }
    }

    method Clear()
      requires Valid()
      modifies this
      ensures Valid() && captured == [] && lastCaptureMs == 0
    {
      head, count, lastCaptureMs, captured := 0, 0, 0, [];
    }
  }

  ghost predicate AllEqual(s: seq<real>) {
    forall x, y :: x in s && y in s ==> x == y
  }

  lemma {:induction false} StartIs(head: nat, count: nat, capacity: nat)
    requires head < capacity && 0 < count <= capacity && (count < capacity ==> head == count)
    ensures (head - count + capacity) % capacity == if count < capacity then 0 else head
  {}

  lemma {:induction false} RoundTo(start: nat, i: nat, capacity: nat)
    requires start < capacity && i < capacity
    ensures (start + i) % capacity == if start + i < capacity then start + i else start + i - capacity
  {}
}
