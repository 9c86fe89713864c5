/** Little-endian integers, as pushed byte by byte in C++ and read back by Dart's ByteData. */
module Bytes {
  import opened Bits

  type Buffer = seq<u8>

  function Pow256(n: nat): (p: nat)
    ensures p > 0
  {
    if n == 0 then 1 else 256 * Pow256(n - 1)
  }

  /** The n low bytes of v, lowest first. */
  function LE(v: nat, n: nat): (b: Buffer)
    ensures |b| == n
  {
    if n == 0 then [] else [v % 256] + LE(v / 256, n - 1)
  }

  function FromLE(b: Buffer): (v: nat)
    ensures v < Pow256(|b|)
  {
    if b == [] then 0 else b[0] + 256 * FromLE(b[1..])
  }

  lemma {:induction false} FromLEOfLE(v: nat, n: nat)
    ensures FromLE(LE(v, n)) == v % Pow256(n)
  {
    if n > 0 {
      FromLEOfLE(v / 256, n - 1);
      assert LE(v, n)[1..] == LE(v / 256, n - 1);
      SplitMod256(v, Pow256(n - 1));
    }
  }

  lemma {:induction false} SplitMod256(v: nat, m: nat)
    requires m > 0
    ensures v % (256 * m) == v % 256 + 256 * ((v / 256) % m)
  {
    var h := v / 256;
    assert h == m * (h / m) + h % m;
    assert v == 256 * h + v % 256;
    assert v == (h / m) * (256 * m) + (v % 256 + 256 * (h % m)) by {
      assert 256 * (m * (h / m)) == (h / m) * (256 * m);
    }
    DivModUnique(v, 256 * m, h / m, v % 256 + 256 * (h % m));
  }

  lemma {:induction false} LEOfFromLE(b: Buffer)
    ensures LE(FromLE(b), |b|) == b
  {
    if b != [] {
      var v := FromLE(b[1..]);
      LEOfFromLE(b[1..]);
      DivModUnique(FromLE(b), 256, v, b[0]);
      assert LE(FromLE(b), |b|) == [b[0]] + LE(v, |b| - 1) == b;
    }
  }

  /** Byte i of the encoding is (v >> 8i) & 0xFF, the expression the C++ encoders push. */
  lemma {:induction false} LEIndex(v: nat, n: nat, i: nat)
    requires i < n
    ensures LE(v, n)[i] == And(Shr(v, 8 * i), 0xFF)
  {
    Pow2Small();
    if i == 0 {
      AndMask(v, 8);
    } else {
      LEIndex(v / 256, n - 1, i - 1);
      ShrIsDiv(v, 8);
      ShrShr(v, 8, 8 * (i - 1));
    }
  }

  lemma {:induction false} ShrShr(v: nat, a: nat, b: nat)
    ensures Shr(v, a + b) == Shr(Shr(v, a), b)
  {
    if a > 0 {
      ShrShr(v / 2, a - 1, b);
    }
  }

  lemma {:induction false} Pow256Values()
    ensures Pow256(1) == 0x100 && Pow256(2) == 0x1_0000 && Pow256(4) == 0x1_0000_0000
    ensures Pow256(8) == 0x1_0000_0000_0000_0000
  {
    assert Pow256(2) == 256 * Pow256(1);
    assert Pow256(3) == 256 * Pow256(2);
    assert Pow256(4) == 256 * Pow256(3);
    assert Pow256(5) == 256 * Pow256(4);
    assert Pow256(6) == 256 * Pow256(5);
    assert Pow256(7) == 256 * Pow256(6);
    assert Pow256(8) == 256 * Pow256(7);
  }

  /** Reading n bytes at offset o, where the caller has checked the bounds. */
  function ReadLE(b: Buffer, o: nat, n: nat): (v: nat)
    requires o + n <= |b|
    ensures v < Pow256(n)
  {
    FromLE(b[o..o + n])
  }
}
