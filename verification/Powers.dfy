/** Powers of reals, for the geometric decays of the filters and of the frame interpolator. */
module Powers {

  function Power(b: real, n: nat): real {
    if n == 0 then 1.0 else b * Power(b, n - 1)
  }

  lemma {:induction false} NonNegative(a: real, b: real)
    requires a >= 0.0 && b >= 0.0
    ensures a * b >= 0.0
  {}

  lemma {:induction false} PositiveFactor(a: real, b: real)
    requires b > 0.0 && a * b > 0.0
    ensures a > 0.0
  {}

  lemma {:induction false} PowerInUnit(b: real, n: nat)
    requires 0.0 <= b <= 1.0
    ensures 0.0 <= Power(b, n) <= 1.0
  {
    if n > 0 {
      PowerInUnit(b, n - 1);
      NonNegative(b, Power(b, n - 1));
      NonNegative(1.0 - b, Power(b, n - 1));
    }
  }

  /** (1 - s)^n decays at least as fast as 1 / (1 + n s). */
  lemma {:induction false} PowerDecays(s: real, n: nat)
    requires 0.0 <= s <= 1.0
    ensures Power(1.0 - s, n) * (1.0 + n as real * s) <= 1.0
  {
    if n > 0 {
      var p, m := Power(1.0 - s, n - 1), (n - 1) as real;
      PowerDecays(s, n - 1);
      PowerInUnit(1.0 - s, n - 1);
      DecayStep(p, s, m);
      assert n as real == m + 1.0;
    }
  }

  lemma {:induction false} DecayStep(p: real, s: real, m: real)
    requires 0.0 <= p && m >= 0.0 && p * (1.0 + m * s) <= 1.0
    ensures (1.0 - s) * p * (1.0 + (m + 1.0) * s) <= 1.0
  {
    var q := s * s * (m + 1.0);
    NonNegative(s * s, m + 1.0);
    NonNegative(p, q);
    assert (1.0 - s) * (1.0 + (m + 1.0) * s) == (1.0 + m * s) - q;
    assert (1.0 - s) * p * (1.0 + (m + 1.0) * s) == p * ((1.0 - s) * (1.0 + (m + 1.0) * s));
    assert p * ((1.0 + m * s) - q) == p * (1.0 + m * s) - p * q;
  }
}
