/** Bitwise arithmetic on natural numbers, as the C++ sources use it: masks, shifts and or-ing of
    disjoint fields. Machine words are subset types; wrap-around is written out where it happens. */
module Bits {

  type u8 = x: int | 0 <= x < 0x100
  type u16 = x: int | 0 <= x < 0x1_0000
  type u32 = x: int | 0 <= x < 0x1_0000_0000
  type u64 = x: int | 0 <= x < 0x1_0000_0000_0000_0000

  /** The range of a Dart int. */
  const DART_MIN: int := -0x8000_0000_0000_0000
  const DART_MAX: int := 0x7FFF_FFFF_FFFF_FFFF

  function Pow2(k: nat): (p: nat)
    ensures p > 0
  {
    if k == 0 then 1 else 2 * Pow2(k - 1)
  }

  /** Bitwise and. */
  function And(x: nat, y: nat): (r: nat)
    ensures r <= x && r <= y
  {
    if x == 0 || y == 0 then 0
    else (if x % 2 == 1 && y % 2 == 1 then 1 else 0) + 2 * And(x / 2, y / 2)
  }

  /** Bitwise or. */
  function Or(x: nat, y: nat): (r: nat)
    ensures x <= r <= x + y
  {
    if x == 0 then y
    else if y == 0 then x
    else (if x % 2 == 1 || y % 2 == 1 then 1 else 0) + 2 * Or(x / 2, y / 2)
  }

  /** x << k on an unbounded word. */
  function Shl(x: nat, k: nat): nat {
    if k == 0 then x else 2 * Shl(x, k - 1)
  }

  /** x >> k. */
  function Shr(x: nat, k: nat): nat {
    if k == 0 then x else Shr(x / 2, k - 1)
  }

  lemma {:induction false} ShlIsMul(x: nat, k: nat)
    ensures Shl(x, k) == x * Pow2(k)
  {
    if k > 0 {
      ShlIsMul(x, k - 1);
      assert x * Pow2(k) == 2 * (x * Pow2(k - 1));
    }
  }

  lemma {:induction false} ShrIsDiv(x: nat, k: nat)
    ensures Shr(x, k) == x / Pow2(k)
  {
    if k > 0 {
      ShrIsDiv(x / 2, k - 1);
      DivDiv(x, 2, Pow2(k - 1));
    }
  }

  lemma {:induction false} MulPositive(a: nat, b: nat)
    requires a > 0 && b > 0
    ensures a * b > 0
  {}

  lemma {:induction false} MulMonotone(a: nat, x: int, y: int)
    requires x <= y
    ensures a * x <= a * y
  {
    assert a * y == a * x + a * (y - x);
    if a > 0 && y > x { MulPositive(a, y - x); }
  }

  lemma {:induction false} DivDiv(v: nat, a: nat, b: nat)
    requires a > 0 && b > 0
    ensures a * b > 0 && v / a / b == v / (a * b)
  {
    MulPositive(a, b);
    var q, r := v / a / b, v % a + a * ((v / a) % b);
    assert v == a * (v / a) + v % a;
    assert v / a == b * q + (v / a) % b;
    assert v == q * (a * b) + r by {
      assert a * (b * q + (v / a) % b) == q * (a * b) + a * ((v / a) % b);
    }
    assert r < a * b by {
      MulMonotone(a, (v / a) % b, b - 1);
      assert a * (b - 1) == a * b - a;
    }
    DivModUnique(v, a * b, q, r);
  }

  lemma {:induction false} Pow2Add(a: nat, b: nat)
    ensures Pow2(a + b) == Pow2(a) * Pow2(b)
  {
    if a > 0 {
      Pow2Add(a - 1, b);
    }
  }

  lemma {:induction false} Pow2Small()
    ensures Pow2(8) == 0x100 && Pow2(16) == 0x1_0000 && Pow2(32) == 0x1_0000_0000
  {
    assert Pow2(4) == 16;
    Pow2Add(4, 4);
    Pow2Add(8, 8);
    Pow2Add(16, 16);
  }

  lemma {:induction false} Pow2Monotone(a: nat, b: nat)
    requires a <= b
    ensures Pow2(a) <= Pow2(b)
  {
    if a < b {
      Pow2Monotone(a, b - 1);
    }
  }

  lemma {:induction false} SplitMod(x: nat, m: nat)
    requires m > 0
    ensures x % (2 * m) == x % 2 + 2 * ((x / 2) % m)
  {
    var h := x / 2;
    assert h == h / m * m + h % m;
    assert x == x % 2 + 2 * h;
    assert x == (h / m) * (2 * m) + (x % 2 + 2 * (h % m));
    DivModUnique(x, 2 * m, h / m, x % 2 + 2 * (h % m));
  }

  lemma {:induction false} MulAtLeast(k: int, d: int)
    requires k >= 1 && d > 0
    ensures k * d >= d
  {
    assert k * d == d + (k - 1) * d;
  }

  lemma {:induction false} DivModUnique(x: int, d: int, q: int, r: int)
    requires d > 0 && 0 <= r < d && x == q * d + r
    ensures x / d == q && x % d == r
  {
    var q', r' := x / d, x % d;
    assert x == d * q' + r';
    assert (q - q') * d == r' - r by {
      assert (q - q') * d == q * d - q' * d;
    }
    if q > q' {
      MulAtLeast(q - q', d);
    } else if q < q' {
      MulAtLeast(q' - q, d);
    }
  }

  lemma {:induction false} AndDouble(x: nat, y: nat)
    ensures And(2 * x, 2 * y) == 2 * And(x, y)
    ensures And(2 * x + 1, 2 * y) == 2 * And(x, y)
    ensures And(2 * x, 2 * y + 1) == 2 * And(x, y)
    ensures And(2 * x + 1, 2 * y + 1) == 1 + 2 * And(x, y)
  {
    assert And(2 * x, 2 * y) == 2 * And(x, y);
  }

  lemma {:induction false} AndMaskStep(x: nat, m: nat)
    requires m > 0 && And(x / 2, m - 1) == x / 2 % m
    ensures And(x, 2 * m - 1) == x % (2 * m)
  {
    hide And;
    var h, b := x / 2, x % 2;
    SplitMod(x, m);
    AndDouble(h, m - 1);
    assert 2 * (m - 1) + 1 == 2 * m - 1;
    assert x == 2 * h + b;
  }

  /** Masking with 2^k - 1 is reduction modulo 2^k. */
  lemma {:induction false} AndMask(x: nat, k: nat)
    ensures And(x, Pow2(k) - 1) == x % Pow2(k)
  {
    if k == 0 {
      assert And(x, 0) == 0;
    } else {
      AndMask(x / 2, k - 1);
      AndMaskStep(x, Pow2(k - 1));
    }
  }

  /** Or-ing a field shifted past another adds them. */
  lemma {:induction false} OrDisjoint(hi: nat, lo: nat, k: nat)
    requires lo < Pow2(k)
    ensures Or(Shl(hi, k), lo) == hi * Pow2(k) + lo
  {
    ShlIsMul(hi, k);
    if k > 0 && hi > 0 && lo > 0 {
      OrDisjoint(hi, lo / 2, k - 1);
      ShlIsMul(hi, k - 1);
      assert Shl(hi, k) == 2 * Shl(hi, k - 1);
      MulPositive(hi, Pow2(k));
    }
  }

  ghost predicate IsPow2(n: nat) {
    exists k: nat :: n == Pow2(k)
  }

  /** The static assertion on the ring's size, N at least 1 and (N & (N - 1)) == 0, accepts exactly
      the powers of two. */
  lemma {:induction false} PowerOfTwoTest(n: nat)
    requires n > 0
    ensures And(n, n - 1) == 0 <==> IsPow2(n)
  {
    if n == 1 {
      assert n == Pow2(0);
    } else if n % 2 == 1 {
      OddIsNotPow2(n);
    } else {
      var h := n / 2;
      assert n == 2 * h;
      EvenPow2(h);
      PowerOfTwoTest(h);
    }
  }

  lemma {:induction false} OddIsNotPow2(n: nat)
    requires n > 1 && n % 2 == 1
    ensures And(n, n - 1) != 0
    ensures !IsPow2(n)
  {
    var h := n / 2;
    AndDouble(h, h);
    AndSelf(h);
    assert n == 2 * h + 1 && n - 1 == 2 * h;
    forall k: nat
      ensures n != Pow2(k)
    {
      assert Pow2(k) == if k == 0 then 1 else 2 * Pow2(k - 1);
    }
  }

  lemma {:induction false} EvenPow2(h: nat)
    requires h > 0
    ensures And(2 * h, 2 * h - 1) == 2 * And(h, h - 1)
    ensures IsPow2(2 * h) <==> IsPow2(h)
  {
    AndDouble(h, h - 1);
    if k: nat :| 2 * h == Pow2(k) {
      assert h == Pow2(k - 1);
    }
    if k: nat :| h == Pow2(k) {
      assert 2 * h == Pow2(k + 1);
    }
  }

  lemma {:induction false} AndSelf(n: nat)
    ensures And(n, n) == n
  {
    if n > 0 {
      AndSelf(n / 2);
      AndDouble(n / 2, n / 2);
      assert n == 2 * (n / 2) || n == 2 * (n / 2) + 1;
    }
  }
}
