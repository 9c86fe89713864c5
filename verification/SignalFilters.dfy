/** The stateful filters of src/signal_filter.cpp and, for the registry, their states as values. */
module SignalFilters {
  import opened Medians
  import opened Iir

  /** The last w elements, or all of them. */
  function LastN(s: seq<real>, w: nat): (r: seq<real>)
    ensures |r| == if |s| < w then |s| else w
  {
    if |s| <= w then s else s[|s| - w..]
  }

  lemma {:induction false} LastNStep(s: seq<real>, x: real, w: nat)
    requires w > 0
    ensures LastN(LastN(s, w) + [x], w) == LastN(s + [x], w)
  {}

  class EmaFilter {
    const alpha: real
    var y: real
    var initialized: bool
    ghost var inputs: seq<real>

    ghost function Model(): Iir
      reads this
    {
      Iir(alpha, y, initialized)
    }

    /** The fields are those of the recurrence fed with the inputs since the last reset. */
    ghost predicate Valid()
      reads this
    {
      0.0 < alpha <= 1.0 && Model() == FeedAll(Iir(alpha, 0.0, false), inputs)
    }

    constructor (alpha: real)
      ensures Valid() && inputs == [] && this.alpha == EmaAlpha(alpha)
    {
      var a := alpha;
      if !(a > 0.0 && a <= 1.0) {
        a := if a > 1.0 then 1.0 else 0.001;
      }
      this.alpha, y, initialized, inputs := a, 0.0, false, [];
    }

    method Apply(input: real) returns (out: real)
      requires Valid()
      modifies this
      ensures Valid() && inputs == old(inputs) + [input] && Model() == Feed(old(Model()), input)
      ensures out == y == Dot(Weights(alpha, |inputs|), inputs)
    {
      assert (inputs + [input])[..|inputs|] == inputs;
      inputs := inputs + [input];
      if !initialized {
        y := input;
        initialized := true;
      } else {
        y := alpha * input + (1.0 - alpha) * y;
      }
      ClosedForm(Iir(alpha, 0.0, false), inputs);
      out := y;
    }

    method Reset()
      requires Valid()
      modifies this
      ensures Valid() && inputs == []
    {
      initialized := false;
      y := 0.0;
      inputs := [];
    }
  }

  class Lowpass1Filter {
    const alpha: real
    var y: real
    var initialized: bool
    ghost var inputs: seq<real>

    ghost function Model(): Iir
      reads this
    {
      Iir(alpha, y, initialized)
    }

    ghost predicate Valid()
      reads this
    {
      0.0 < alpha < 1.0 && Model() == FeedAll(Iir(alpha, 0.0, false), inputs)
    }

    constructor (cutoffHz: real, sampleHz: real)
      ensures Valid() && inputs == [] && alpha == LowpassAlpha(cutoffHz, sampleHz)
      ensures var cutoff := if cutoffHz > 0.0 then cutoffHz else 0.001;
        var rate := if sampleHz > 0.0 then sampleHz else 1.0;
        alpha * (6.28318530718 * cutoff + rate) == 6.28318530718 * cutoff
    {
      var cutoff, rate := cutoffHz, sampleHz;
      if !(cutoff > 0.0) {
        cutoff := 0.001;
      }
      if !(rate > 0.0) {
        rate := 1.0;
      }
      LowpassAlphaInRange(cutoffHz, sampleHz);
      LowpassAlphaIs(cutoffHz, sampleHz);
      ProductPositive(TWO_PI, cutoff);
      QuotientPositive(TWO_PI * cutoff);
      QuotientPositive(rate);
      var rc := 1.0 / (TWO_PI * cutoff);
      var dt := 1.0 / rate;
      this.alpha, y, initialized, inputs := dt / (rc + dt), 0.0, false, [];
    }

    method Apply(input: real) returns (out: real)
      requires Valid()
      modifies this
      ensures Valid() && inputs == old(inputs) + [input] && Model() == Feed(old(Model()), input)
      ensures out == y == Dot(Weights(alpha, |inputs|), inputs)
    {
      assert (inputs + [input])[..|inputs|] == inputs;
      inputs := inputs + [input];
      if !initialized {
        y := input;
        initialized := true;
      } else {
        y := alpha * input + (1.0 - alpha) * y;
      }
      ClosedForm(Iir(alpha, 0.0, false), inputs);
      out := y;
    }

    method Reset()
      requires Valid()
      modifies this
      ensures Valid() && inputs == []
    {
      initialized := false;
      y := 0.0;
      inputs := [];
    }
  }

  /** Sorts the first n elements in place. */
  method SortFront(a: array<real>, n: nat)
    requires n <= a.Length
    modifies a
    ensures a[..n] == Sort(old(a[..n])) && a[n..] == old(a[n..])
  {
    ghost var was := a[..n];
    assert Sort(was[..0]) == [];
    for i := 0 to n
      invariant a[..i] == Sort(was[..i])
      invariant a[i..] == old(a[i..])
    {
      assert a[i] == was[i] && was[..i + 1][..i] == was[..i];
      ghost var s := Sort(was[..i]);
      SortSorted(was[..i]);
      assert a[i + 1..] == old(a[i..])[1..] == old(a[i + 1..]);
      InsertLast(a, i);
      assert a[..i + 1] == Insert(s, was[i]) == Sort(was[..i + 1]);
    }
    assert was[..n] == was;
  }

  /** Moves a[i] down into the sorted elements before it. */
  method InsertLast(a: array<real>, i: nat)
    requires i < a.Length && Sorted(a[..i])
    modifies a
    ensures a[..i + 1] == Insert(old(a[..i]), old(a[i])) && a[i + 1..] == old(a[i + 1..])
  {
    hide Insert, Sorted;
    ghost var s := a[..i];
    var x := a[i];
    var j := i;
    while j > 0 && a[j - 1] > x
      invariant j <= i
      invariant forall k :: 0 <= k < j ==> a[k] == s[k]
      invariant forall k :: j <= k < i ==> a[k + 1] == s[k]
      invariant forall k :: j <= k < i ==> s[k] > x
      invariant forall k :: i < k < a.Length ==> a[k] == old(a[k])
    {
      a[j] := a[j - 1];
      j := j - 1;
    }
    assert j > 0 ==> s[j - 1] <= x;
    a[j] := x;
    InsertAt(s, x, j);
    ghost var r := s[..j] + [x] + s[j..];
    forall k | 0 <= k <= i ensures a[k] == r[k] {
      if k > j { assert a[k] == s[k - 1]; }
    }
    assert a[..i + 1] == r;
  }

  // ---- circular windows ----

  /** A circular buffer of |a| slots with the next write at n holds the last |a| of s: all of them in order
      until it is full, from then on oldest first from n going round. */
  ghost predicate Holds(a: seq<real>, n: nat, full: bool, s: seq<real>) {
    && n < |a|
    && (full <==> |s| >= |a|)
    && if full then a[n..] + a[..n] == s[|s| - |a|..] else n == |s| && a[..n] == s
  }

  lemma {:induction false} StepMod(i: nat, w: nat)
    requires i < w
    ensures (i + 1) % w == if i + 1 == w then 0 else i + 1
  {}

  /** Overwriting the next slot drops the oldest element and appends the new one. */
  lemma {:induction false} StoreKeeps(a: seq<real>, n: nat, full: bool, s: seq<real>, x: real)
    requires Holds(a, n, full, s)
    ensures Holds(a[n := x], if n + 1 == |a| then 0 else n + 1, full || n + 1 == |a|, s + [x])
  {
    var b, w := a[n := x], |a|;
    assert b[..n + 1] == a[..n] + [x];
    if full {
      var t := s[|s| - w..];
      assert a[n..] + a[..n] == t;
      assert t[1..] == a[n + 1..] + a[..n];
      assert (s + [x])[|s| + 1 - w..] == t[1..] + [x];
      if n + 1 < w {
        assert b[n + 1..] + b[..n + 1] == t[1..] + [x];
      } else {
        assert b[0..] + b[..0] == t[1..] + [x];
      }
    } else if n + 1 == w {
      assert b[0..] + b[..0] == b == s + [x] == (s + [x])[|s| + 1 - w..];
    }
  }

  lemma {:induction false} HoldsLast(a: seq<real>, n: nat, full: bool, s: seq<real>)
    requires Holds(a, n, full, s)
    ensures LastN(s, |a|) == if full then a[n..] + a[..n] else a[..n]
  {}

  /** The median of the filled slots, in slot order, is that of the last |a| inputs. */
  lemma {:induction false} HoldsMedian(a: seq<real>, n: nat, full: bool, s: seq<real>)
    requires Holds(a, n, full, s) && s != []
    ensures (if full then |a| else n) > 0
    ensures Median(a[..if full then |a| else n]) == Median(LastN(s, |a|))
  {
    hide Median;
    HoldsLast(a, n, full, s);
    if full {
      MedianOfRotation(a[..n], a[n..]);
      assert a[..|a|] == a[..n] + a[n..];
    }
  }

  lemma {:induction false} MedianOfSorted(s: seq<real>, r: seq<real>)
    requires s != [] && r == Sort(s)
    ensures Median(s) == r[|s| / 2]
  {}

  class MedianFilter {
    const windowSize: nat
    const window: array<real>
    const scratch: array<real>
    var nextIdx: nat
    var full: bool
    ghost var inputs: seq<real>

    /** The window holds the last windowSize inputs since the last reset. */
    ghost predicate Valid()
      reads this, window
    {
      && windowSize == window.Length == scratch.Length && window != scratch
      && Holds(window[..], nextIdx, full, inputs)
    }

    /** As the constructor leaves it. */
    ghost predicate IsNew()
      reads this, window, scratch
    {
      && Valid() && inputs == [] && nextIdx == 0 && !full
      && window[..] == seq(windowSize, _ => 0.0) && scratch[..] == seq(windowSize, _ => 0.0)
    }

    constructor (windowSize: nat)
      ensures IsNew() && fresh(window) && fresh(scratch)
      ensures this.windowSize == if windowSize == 0 then 1 else windowSize
    {
      var w := if windowSize == 0 then 1 else windowSize;
      this.windowSize := w;
      window := new real[w](_ => 0.0);
      scratch := new real[w](_ => 0.0);
      nextIdx, full, inputs := 0, false, [];
    }

    /** The circular insertion. */
    method Store(input: real)
      requires Valid()
      modifies this, window
      ensures Valid() && inputs == old(inputs) + [input]
    {
      hide Holds;
      HoldsIndex();
      ghost var before, n := window[..], nextIdx;
      StoreKeeps(before, n, full, inputs, input);
      window[nextIdx] := input;
      assert window[..] == before[n := input];
      inputs := inputs + [input];
      StepMod(n, windowSize);
      nextIdx := (nextIdx + 1) % windowSize;
      if nextIdx == 0 {
        full := true;
      }
    }

    lemma {:induction false} HoldsIndex()
      requires Valid()
      ensures nextIdx < windowSize == window.Length
    {}

    /** Returns the element of rank valid / 2 of the last windowSize inputs. */
    method Apply(input: real) returns (out: real)
      requires Valid()
      modifies this, window, scratch
      ensures Valid() && inputs == old(inputs) + [input]
      ensures out == Median(LastN(inputs, windowSize))
    {
      hide Sort, Median, Holds;
      Store(input);
      HoldsIndex();
      ghost var w := window[..];
      HoldsMedian(w, nextIdx, full, inputs);
      // valid is never 0 here, so the early return for an empty window is dead code
      var valid := if full then windowSize else nextIdx;
      forall i | 0 <= i < valid {
        scratch[i] := window[i];
      }
      assert scratch[..valid] == w[..valid];
      SortFront(scratch, valid);
      assert window[..] == w && |w| == windowSize;
      MedianOfSorted(w[..valid], scratch[..valid]);
      out := scratch[valid / 2];
      assert out == scratch[..valid][valid / 2];
    }

    method Reset()
      requires Valid()
      modifies this, window, scratch
      ensures IsNew()
    {
      forall i | 0 <= i < windowSize {
        window[i] := 0.0;
      }
      forall i | 0 <= i < windowSize {
        scratch[i] := 0.0;
      }
      nextIdx := 0;
      full := false;
      inputs := [];
    }
  }

  /** Over two runs of one filter where each input of the second is at least the first's, no output of
      the second is lower; outliers that stay a minority of the window cannot leave [lo, hi]. */
  lemma {:induction false} MedianRun(xs: seq<real>, ys: seq<real>, w: nat, lo: real, hi: real)
    requires |xs| == |ys| > 0 && w > 0
    requires forall i :: 0 <= i < |xs| ==> xs[i] <= ys[i]
    ensures Median(LastN(xs, w)) <= Median(LastN(ys, w))
    ensures CountOutside(LastN(xs, w), lo, hi) <= (|LastN(xs, w)| - 1) / 2 ==>
              lo <= Median(LastN(xs, w)) <= hi
  {
    MedianIsMonotone(LastN(xs, w), LastN(ys, w));
    if CountOutside(LastN(xs, w), lo, hi) <= (|LastN(xs, w)| - 1) / 2 {
      MedianIsRobust(LastN(xs, w), lo, hi);
    }
  }

  // ---- filter states as values ----

  /** A filter in the registry. A median filter is known by its window contents, oldest first. */
  datatype Filter =
    | Passthrough
    | Ema(iir: Iir)
    | Lowpass1(iir: Iir)
    | MedianOf(window: nat, samples: seq<real>)

  function ApplyFilter(f: Filter, x: real): (Filter, real)
    requires f.MedianOf? ==> f.window > 0
  {
    match f
    case Passthrough => (f, x)
    case Ema(iir) => (Ema(Feed(iir, x)), Feed(iir, x).y)
    case Lowpass1(iir) => (Lowpass1(Feed(iir, x)), Feed(iir, x).y)
    case MedianOf(w, samples) =>
      var s := LastN(samples + [x], w);
      (MedianOf(w, s), Median(s))
  }

  /** create_filter: an unknown type byte falls back to passthrough, a median window out of range to 1. */
  function CreateFilter(kind: nat, param: real, sampleHz: real): (f: Filter)
    ensures f.MedianOf? ==> 1 <= f.window <= 1024
  {
    if kind == 1 then Ema(Iir(EmaAlpha(param), 0.0, false))
    else if kind == 2 then MedianOf(if 1.0 <= param <= 1024.0 then param.Floor else 1, [])
    else if kind == 3 then Lowpass1(Iir(LowpassAlpha(param, sampleHz), 0.0, false))
    else Passthrough
  }
}
