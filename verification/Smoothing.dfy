/** SmoothedValue of the drone cockpit: each frame the displayed value closes a fixed fraction of the gap to
    its target, for angles along the shorter way round; over the reals. */
module Smoothing {
  import opened Powers

  const PI: real := 3.141592653589793
  const TWO_PI: real := 6.283185307179586
  const EPSILON: real := 0.0005

  function Abs(x: real): (a: real)
    ensures a >= 0.0 && (a == x || a == -x)
  {
    if x < 0.0 then -x else x
  }

  // ---- angles ----

  function Turns(x: real): nat {
    if -PI <= x <= PI then 0 else Abs(x).Floor + 1
  }

  /** The gap after the two normalising loops. */
  function WrapGap(gap: real): (r: real)
    ensures -PI <= r <= PI
    decreases Turns(gap)
  {
    if gap > PI then WrapGap(gap - TWO_PI)
    else if gap < -PI then WrapGap(gap + TWO_PI)
    else gap
  }

  /** Dart's % on doubles, by a full turn: in [0, 2 pi). */
  function Mod(x: real): (r: real)
    ensures 0.0 <= r < TWO_PI
  {
    ModBounds(x);
    x - TWO_PI * (x / TWO_PI).Floor as real
  }

  lemma {:induction false} ModBounds(x: real)
    ensures 0.0 <= x - TWO_PI * (x / TWO_PI).Floor as real < TWO_PI
  {
    var q := x / TWO_PI;
    assert q * TWO_PI == x;
  }

  /** x and y differ by n full turns. */
  ghost predicate Apart(x: real, y: real, n: int) {
    x == y + TWO_PI * n as real
  }

  lemma {:induction false} WrapApart(gap: real) returns (n: int)
    ensures Apart(gap, WrapGap(gap), n)
    decreases Turns(gap)
  {
    if gap > PI {
      n := WrapApart(gap - TWO_PI);
      n := n + 1;
    } else if gap < -PI {
      n := WrapApart(gap + TWO_PI);
      n := n - 1;
    } else {
      n := 0;
    }
  }

  lemma {:induction false} FewTurns(x: real, r: real, n: int)
    requires Apart(x, r, n) && -PI < r < PI
    ensures n >= 1 ==> x > PI
    ensures n <= -1 ==> x < -PI
  {
    if n >= 1 {
      assert TWO_PI * n as real >= TWO_PI;
    } else if n <= -1 {
      assert TWO_PI * n as real <= -TWO_PI;
    }
  }

  /** Of all gaps a number of turns away, the loops find the one strictly inside (-pi, pi), if any. */
  lemma {:induction false} WrapFinds(gap: real, r: real, n: int)
    requires Apart(gap, r, n) && -PI < r < PI
    ensures WrapGap(gap) == r
    decreases if n < 0 then -n else n
  {
    FewTurns(gap, r, n);
    if n >= 1 {
      WrapFinds(gap - TWO_PI, r, n - 1);
    } else if n <= -1 {
      WrapFinds(gap + TWO_PI, r, n + 1);
    }
  }

  lemma {:induction false} ModTwice(x: real)
    ensures Mod(Mod(x) + TWO_PI) == Mod(x)
    ensures Apart(x, Mod(x), (x / TWO_PI).Floor)
  {
    var m := Mod(x);
    var q := (m + TWO_PI) / TWO_PI;
    assert q == m / TWO_PI + 1.0;
    assert 0.0 <= m / TWO_PI < 1.0 by { UnitQuotient(m); }
    assert q.Floor == 1;
  }

  lemma {:induction false} UnitQuotient(m: real)
    requires 0.0 <= m < TWO_PI
    ensures 0.0 <= m / TWO_PI < 1.0
  {}

  // ---- the state ----

  /** The fields of a SmoothedValue; pending counts the frame callbacks scheduled and not yet run. */
  datatype Smoother = Smoother(smoothing: real, wrapAngle: bool, value: real, target: real,
                               ticking: bool, disposed: bool, pending: nat)

  /** The gap the next frame would see. */
  function Gap(s: Smoother): real {
    if s.wrapAngle then WrapGap(s.target - s.value) else s.target - s.value
  }

  /** value plus its share of the gap */
  function Approach(value: real, gap: real, smoothing: real): real {
    value + gap * smoothing
  }

  function Normal(s: Smoother, v: real): real {
    if s.wrapAngle then Mod(Mod(v) + TWO_PI) else v
  }

  datatype Op = SetTarget(v: real) | Snap(v: real) | Tick | Dispose

  /** One setter call, frame callback or dispose; a frame only comes when one is pending. */
  function Do(s: Smoother, op: Op): Smoother {
    match op
    case SetTarget(v) =>
      if s.disposed then s
      else if s.ticking then s.(target := v)
      else s.(target := v, ticking := true, pending := s.pending + 1)
    case Snap(v) => s.(target := v, value := v)
    case Dispose => s.(disposed := true)
    case Tick =>
      if s.pending == 0 then s
      else if s.disposed then s.(ticking := false, pending := s.pending - 1)
      else if Abs(Gap(s)) < EPSILON
      then s.(value := Normal(s, s.target), ticking := false, pending := s.pending - 1)
      else s.(value := Normal(s, Approach(s.value, Gap(s), s.smoothing)))
  }

  function RunOps(s: Smoother, ops: seq<Op>): Smoother {
    if ops == [] then s else Do(RunOps(s, ops[..|ops| - 1]), ops[|ops| - 1])
  }

  function New(initial: real, smoothing: real, wrapAngle: bool): Smoother {
    Smoother(smoothing, wrapAngle, initial, initial, false, false, 0)
  }

  // ---- one frame ----

  lemma {:induction false} Shrunk(s: real, g: real)
    requires 0.0 < s <= 1.0 && -PI <= g <= PI && g != 0.0
    ensures -PI < (1.0 - s) * g < PI
  {
    if g > 0.0 {
      NonNegative(1.0 - s, g);
      assert s * g > 0.0;
    } else {
      NonNegative(1.0 - s, -g);
      assert s * -g > 0.0;
    }
  }

  /** A frame either ends the animation exactly at the target or shrinks the gap by exactly 1 - smoothing,
      also across the +-pi seam. */
  lemma {:induction false} FrameShrinksGap(s: Smoother)
    requires 0.0 < s.smoothing <= 1.0 && s.pending > 0 && !s.disposed
    ensures var s' := Do(s, Tick);
      if Abs(Gap(s)) < EPSILON then Gap(s') == 0.0 && !s'.ticking && s'.pending == s.pending - 1
      else Gap(s') == (1.0 - s.smoothing) * Gap(s) && s'.ticking == s.ticking && s'.pending == s.pending
  {
    hide Mod, WrapGap, Approach;
    if !s.wrapAngle {
      LineStep(s.target, s.value, s.smoothing);
    } else if Abs(Gap(s)) < EPSILON {
      AngleSnap(s.target);
    } else {
      AngleStep(s.target, s.value, s.smoothing, Gap(s));
    }
  }

  /** What a frame shows: the target, when the gap is below 0.0005, and else the value and its share of the
      gap; an angle as the equivalent one in [0, 2 pi), n whole turns away. */
  lemma {:induction false} FrameShows(s: Smoother) returns (n: int)
    requires s.pending > 0 && !s.disposed
    ensures var s' := Do(s, Tick);
      var shown := if Abs(Gap(s)) < 0.0005 then s.target else s.value + Gap(s) * s.smoothing;
      && s'.target == s.target
      && (!s.wrapAngle ==> s'.value == shown)
      && (s.wrapAngle ==> 0.0 <= s'.value < 6.283185307179586 && shown == s'.value + 6.283185307179586 * n as real)
  {
    hide Mod, WrapGap;
    var shown := if Abs(Gap(s)) < EPSILON then s.target else Approach(s.value, Gap(s), s.smoothing);
    ModTwice(shown);
    n := (shown / TWO_PI).Floor;
  }

  /** The gap is the difference of target and value, for an angle the shorter way round. */
  lemma {:induction false} GapIsShortest(s: Smoother) returns (n: int)
    ensures !s.wrapAngle ==> Gap(s) == s.target - s.value
    ensures s.wrapAngle ==>
      && -3.141592653589793 <= Gap(s) <= 3.141592653589793
      && s.target - s.value == Gap(s) + 6.283185307179586 * n as real
  {
    hide WrapGap;
    n := WrapApart(s.target - s.value);
  }

  /** The setters: a target starts the animation and leaves the value; snapping sets both; after dispose no
      target is taken and no frame changes the value. */
  lemma {:induction false} SettersAct(s: Smoother, v: real)
    ensures var r := Do(s, SetTarget(v));
      if s.disposed then r == s
      else r.target == v && r.ticking && r.value == s.value && (s.ticking ==> r.pending == s.pending)
           && (!s.ticking ==> r.pending == s.pending + 1)
    ensures Do(s, Snap(v)) == s.(target := v, value := v)
    ensures Do(s, Dispose).disposed && (s.disposed ==> Do(s, Tick).value == s.value && Do(s, Tick).disposed)
  {}

  lemma {:induction false} LineStep(target: real, value: real, s: real)
    ensures target - Approach(value, target - value, s) == (1.0 - s) * (target - value)
  {}

  lemma {:induction false} AngleSnap(target: real)
    ensures WrapGap(target - Mod(Mod(target) + TWO_PI)) == 0.0
  {
    hide Mod, WrapGap;
    ModTwice(target);
    WrapFinds(target - Mod(target), 0.0, (target / TWO_PI).Floor);
  }

  lemma {:induction false} AngleStep(target: real, value: real, s: real, g: real)
    requires 0.0 < s <= 1.0 && g == WrapGap(target - value) && Abs(g) >= EPSILON
    ensures WrapGap(target - Mod(Mod(Approach(value, g, s)) + TWO_PI)) == (1.0 - s) * g
  {
    hide Mod, WrapGap;
    var next := Approach(value, g, s);
    var n := WrapApart(target - value);
    ModTwice(next);
    Shrunk(s, g);
    Regroup(target, value, s, g, n, (next / TWO_PI).Floor, Mod(next));
    WrapFinds(target - Mod(next), (1.0 - s) * g, n + (next / TWO_PI).Floor);
  }

  lemma {:induction false} Regroup(target: real, value: real, s: real, g: real, n: int, m: int, value': real)
    requires Apart(target - value, g, n) && Apart(Approach(value, g, s), value', m)
    ensures Apart(target - value', (1.0 - s) * g, n + m)
  {
    assert TWO_PI * (n + m) as real == TWO_PI * n as real + TWO_PI * m as real;
  }

  // ---- all runs ----

  /** At most one frame is pending, exactly while ticking; and an animation that is not ticking has caught
      up with its target. */
  ghost predicate Inv(s: Smoother) {
    && s.pending == (if s.ticking then 1 else 0)
    && (!s.ticking && !s.disposed ==> Gap(s) == 0.0)
  }

  lemma {:induction false} DoKeepsInv(s: Smoother, op: Op)
    requires 0.0 < s.smoothing <= 1.0 && Inv(s)
    ensures Inv(Do(s, op))
    ensures Do(s, op).smoothing == s.smoothing && Do(s, op).wrapAngle == s.wrapAngle
  {
    if op.Tick? && s.pending > 0 && !s.disposed {
      FrameShrinksGap(s);
    }
  }

  lemma {:induction false} AtMostOneFrame(initial: real, smoothing: real, wrapAngle: bool, ops: seq<Op>)
    requires 0.0 < smoothing <= 1.0
    ensures Inv(RunOps(New(initial, smoothing, wrapAngle), ops))
    ensures RunOps(New(initial, smoothing, wrapAngle), ops).smoothing == smoothing
  {
    var s := New(initial, smoothing, wrapAngle);
    if ops != [] {
      AtMostOneFrame(initial, smoothing, wrapAngle, ops[..|ops| - 1]);
      DoKeepsInv(RunOps(s, ops[..|ops| - 1]), ops[|ops| - 1]);
    }
  }

  /** n frames without anything else happening. */
  function Frames(s: Smoother, n: nat): Smoother {
    if n == 0 then s else Do(Frames(s, n - 1), Tick)
  }

  /** Until it stops, the gap after n frames is exactly (1 - smoothing)^n times the first. */
  lemma {:induction false} GapDecays(s: Smoother, n: nat)
    requires 0.0 < s.smoothing <= 1.0 && Inv(s) && s.ticking && !s.disposed
    ensures var r := Frames(s, n);
      && r.smoothing == s.smoothing && r.target == s.target && !r.disposed && Inv(r)
      && (r.ticking ==> Gap(r) == Power(1.0 - s.smoothing, n) * Gap(s))
  {
    hide Gap, Normal, Power, Approach, Abs;
    if n == 0 {
      PowerZero(1.0 - s.smoothing, Gap(s));
    } else {
      GapDecays(s, n - 1);
      var r := Frames(s, n - 1);
      DoKeepsInv(r, Tick);
      if r.ticking {
        FrameShrinksGap(r);
        PowerStep(1.0 - s.smoothing, n, Gap(s), Gap(r));
      }
    }
  }

  lemma {:induction false} PowerZero(b: real, g: real)
    ensures Power(b, 0) * g == g
  {
    assert Power(b, 0) == 1.0;
  }

  lemma {:induction false} PowerStep(b: real, n: nat, g: real, h: real)
    requires n > 0 && h == Power(b, n - 1) * g
    ensures b * h == Power(b, n) * g
  {
    assert b * (Power(b, n - 1) * g) == b * Power(b, n - 1) * g;
  }

  /** Exactly how many frames an animation takes: after n + 1 of them it still runs if and only if
      (1 - smoothing)^n times the first gap is not yet below epsilon. It stops on the target, with no frame
      left pending. */
  lemma {:induction false} StopsExactly(s: Smoother, n: nat)
    requires 0.0 < s.smoothing <= 1.0 && Inv(s) && s.ticking && !s.disposed
    ensures var r := Frames(s, n + 1);
      && (r.ticking <==> Power(1.0 - s.smoothing, n) * Abs(Gap(s)) >= 0.0005)
      && (!r.ticking ==> r.pending == 0 && Gap(r) == 0.0 && r.target == s.target)
  {
    hide Gap, Normal, Power, Abs, Approach, Do;
    GapDecays(s, n);
    GapDecays(s, n + 1);
    PowerInUnit(1.0 - s.smoothing, n);
    var r := Frames(s, n);
    if r.ticking {
      AbsScales(Power(1.0 - s.smoothing, n), Gap(s));
      FrameDecides(r);
    } else {
      StopsExactly(s, n - 1);
      StoppedStays(r);
      StaysSmall(1.0 - s.smoothing, n, Abs(Gap(s)));
    }
  }

  lemma {:induction false} FrameDecides(s: Smoother)
    requires 0.0 < s.smoothing <= 1.0 && Inv(s) && s.ticking && !s.disposed
    ensures var r := Do(s, Tick);
      if Abs(Gap(s)) >= EPSILON then r.ticking else !r.ticking && r.pending == 0 && Gap(r) == 0.0
  {
    hide Gap, Normal, Abs, Approach;
    FrameShrinksGap(s);
  }

  lemma {:induction false} StoppedStays(s: Smoother)
    requires Inv(s) && !s.ticking
    ensures Do(s, Tick) == s
  {}

  lemma {:induction false} AbsScales(p: real, g: real)
    requires p >= 0.0
    ensures Abs(p * g) == p * Abs(g)
  {
    if g < 0.0 {
      NonNegative(p, -g);
    } else {
      NonNegative(p, g);
    }
  }

  lemma {:induction false} StaysSmall(b: real, n: nat, g: real)
    requires n > 0 && 0.0 <= b <= 1.0 && g >= 0.0 && Power(b, n - 1) * g < EPSILON
    ensures Power(b, n) * g < EPSILON
  {
    var h := Power(b, n - 1) * g;
    PowerInUnit(b, n - 1);
    NonNegative(Power(b, n - 1), g);
    PowerStep(b, n, g, h);
    NonNegative(1.0 - b, h);
  }

  /** So it stops within one frame more than |gap| / (epsilon * smoothing). */
  lemma {:induction false} StopsInTime(s: Smoother, n: nat)
    requires 0.0 < s.smoothing <= 1.0 && Inv(s) && s.ticking && !s.disposed
    requires n as real * (EPSILON * s.smoothing) >= Abs(Gap(s))
    ensures var r := Frames(s, n + 1); !r.ticking && r.pending == 0 && Gap(r) == 0.0 && r.target == s.target
  {
    hide Gap, Normal, Power, Approach, Frames;
    StopsExactly(s, n);
    DecayedGap(s.smoothing, n, Gap(s));
    PowerInUnit(1.0 - s.smoothing, n);
    AbsScales(Power(1.0 - s.smoothing, n), Gap(s));
  }

  /** Setting a target and letting that many frames run shows the target: exactly, or for an angle up to full
      turns. */
  lemma {:induction false} TargetIsReached(s: Smoother, v: real, n: nat)
    requires 0.0 < s.smoothing <= 1.0 && Inv(s) && !s.disposed
    requires Power(1.0 - s.smoothing, n) * Abs(Gap(Do(s, SetTarget(v)))) < EPSILON
    ensures var r := Frames(Do(s, SetTarget(v)), n + 1);
      && !r.ticking && r.pending == 0 && r.target == v
      && if s.wrapAngle then WrapGap(v - r.value) == 0.0 && 0.0 <= r.value < 6.283185307179586 else r.value == v
  {
    hide WrapGap, Normal, Abs, Power;
    DoKeepsInv(s, SetTarget(v));
    StopsExactly(Do(s, SetTarget(v)), n);
    FramesKeep(Do(s, SetTarget(v)), n + 1);
    FramesInTurn(Do(s, SetTarget(v)), n + 1);
  }

  lemma {:induction false} FramesInTurn(s: Smoother, n: nat)
    requires 0.0 < s.smoothing <= 1.0 && Inv(s) && s.ticking && !s.disposed && n > 0
    ensures s.wrapAngle ==> 0.0 <= Frames(s, n).value < 6.283185307179586
  {
    hide Gap, Normal, Abs, Approach, Do, Power;
    var r := Frames(s, n - 1);
    GapDecays(s, n - 1);
    FramesKeep(s, n - 1);
    if r.ticking {
      var _ := FrameShows(r);
    } else {
      StoppedStays(r);
      FramesInTurn(s, n - 1);
    }
  }

  lemma {:induction false} FramesKeep(s: Smoother, n: nat)
    ensures Frames(s, n).wrapAngle == s.wrapAngle
  {
    if n > 0 {
      FramesKeep(s, n - 1);
    }
  }

  lemma {:induction false} DecayedGap(s: real, n: nat, g: real)
    requires 0.0 < s <= 1.0 && n as real * (EPSILON * s) >= Abs(g)
    ensures -EPSILON < Power(1.0 - s, n) * g < EPSILON
  {
    PowerDecays(s, n);
    PowerInUnit(1.0 - s, n);
    NonNegative(n as real, s);
    assert n as real * (EPSILON * s) == EPSILON * (n as real * s);
    SmallGap(Power(1.0 - s, n), n as real * s, g);
  }

  lemma {:induction false} SmallGap(p: real, m: real, g: real)
    requires 0.0 <= p && p * (1.0 + m) <= 1.0 && m >= 0.0
    requires EPSILON * m >= Abs(g)
    ensures -EPSILON < p * g < EPSILON
  {
    NonNegative(p, EPSILON * m - g);
    NonNegative(p, EPSILON * m + g);
    assert p * (EPSILON * m) == EPSILON * (p * m);
    assert p * (1.0 + m) == p + p * m;
    if p > 0.0 {
      assert EPSILON * (p * m) < EPSILON;
    }
  }
}
