/** Order statistics of a list of samples: the upper median the median filter returns, an independent
    characterisation of it by counting, and what outliers and raised inputs can do to it. */
module Medians {

  /** How many samples are below v. */
  function CountBelow(s: seq<real>, v: real): (c: nat)
    ensures c <= |s|
  {
    if s == [] then 0 else CountBelow(s[..|s| - 1], v) + if s[|s| - 1] < v then 1 else 0
  }

  /** How many samples are at most v. */
  function CountAtMost(s: seq<real>, v: real): (c: nat)
    ensures c <= |s|
  {
    if s == [] then 0 else CountAtMost(s[..|s| - 1], v) + if s[|s| - 1] <= v then 1 else 0
  }

  /** How many samples lie outside [lo, hi]. */
  function CountOutside(s: seq<real>, lo: real, hi: real): (c: nat)
    ensures c <= |s|
  {
    if s == [] then 0
    else CountOutside(s[..|s| - 1], lo, hi) + if lo <= s[|s| - 1] <= hi then 0 else 1
  }

  /** v is the element of rank k: at most k samples are below it and more than k are not above it. */
  ghost predicate IsRank(s: seq<real>, k: nat, v: real) {
    CountBelow(s, v) <= k < CountAtMost(s, v)
  }

  /** x inserted behind the elements it is not below. */
  function Insert(s: seq<real>, x: real): (r: seq<real>)
    ensures |r| == |s| + 1
  {
    if s == [] then [x]
    else if s[|s| - 1] > x then Insert(s[..|s| - 1], x) + [s[|s| - 1]]
    else s + [x]
  }

  function Sort(s: seq<real>): (r: seq<real>)
    ensures |r| == |s|
  {
    if s == [] then [] else Insert(Sort(s[..|s| - 1]), s[|s| - 1])
  }

  /** What MedianFilter::apply returns for the samples in its window. */
  function Median(s: seq<real>): real
    requires s != []
  {
    Sort(s)[|s| / 2]
  }

  ghost predicate Sorted(s: seq<real>) {
    forall i, j :: 0 <= i < j < |s| ==> s[i] <= s[j]
  }

  // ---- sorting ----

  lemma {:induction false} CountSnoc(s: seq<real>, x: real, v: real)
    ensures CountBelow(s + [x], v) == CountBelow(s, v) + if x < v then 1 else 0
    ensures CountAtMost(s + [x], v) == CountAtMost(s, v) + if x <= v then 1 else 0
  {
    assert (s + [x])[..|s|] == s;
  }

  lemma {:induction false} InsertCounts(s: seq<real>, x: real, v: real)
    ensures CountBelow(Insert(s, x), v) == CountBelow(s, v) + if x < v then 1 else 0
    ensures CountAtMost(Insert(s, x), v) == CountAtMost(s, v) + if x <= v then 1 else 0
  {
    if s == [] {
      CountSnoc([], x, v);
      assert [] + [x] == [x];
    } else {
      var front, y := s[..|s| - 1], s[|s| - 1];
      assert s == front + [y];
      if y > x {
        InsertCounts(front, x, v);
        CountSnoc(Insert(front, x), y, v);
      } else {
        CountSnoc(s, x, v);
      }
    }
  }

  lemma {:induction false} SortCounts(s: seq<real>, v: real)
    ensures CountBelow(Sort(s), v) == CountBelow(s, v)
    ensures CountAtMost(Sort(s), v) == CountAtMost(s, v)
  {
    if s != [] {
      SortCounts(s[..|s| - 1], v);
      InsertCounts(Sort(s[..|s| - 1]), s[|s| - 1], v);
    }
  }

  lemma {:induction false} InsertSorted(s: seq<real>, x: real)
    requires Sorted(s)
    ensures Sorted(Insert(s, x))
    ensures Insert(s, x)[|s|] == if s == [] || s[|s| - 1] <= x then x else s[|s| - 1]
  {
    if s != [] && s[|s| - 1] > x {
      InsertSorted(s[..|s| - 1], x);
      var r := Insert(s[..|s| - 1], x);
      assert forall i :: 0 <= i < |r| ==> r[i] <= r[|r| - 1];
    }
  }

  lemma {:induction false} SortSorted(s: seq<real>)
    ensures Sorted(Sort(s))
  {
    if s != [] {
      SortSorted(s[..|s| - 1]);
      InsertSorted(Sort(s[..|s| - 1]), s[|s| - 1]);
    }
  }

  /** Where x lands in a sorted list. */
  lemma {:induction false} InsertAt(s: seq<real>, x: real, j: nat)
    requires j <= |s|
    requires forall k :: j <= k < |s| ==> s[k] > x
    requires j > 0 ==> s[j - 1] <= x
    ensures Insert(s, x) == s[..j] + [x] + s[j..]
  {
    if j < |s| {
      var front := s[..|s| - 1];
      InsertAt(front, x, j);
      assert front[..j] == s[..j] && front[j..] + [s[|s| - 1]] == s[j..];
    }
  }

  // ---- the median is the element of rank |s| / 2 ----

  lemma {:induction false} SortedRank(s: seq<real>, k: nat)
    requires Sorted(s) && k < |s|
    ensures IsRank(s, k, s[k])
  {
    var v, front := s[k], s[..|s| - 1];
    if k < |s| - 1 {
      SortedRank(front, k);
    } else {
      AllAtMost(front, v);
    }
  }

  lemma {:induction false} AllAtMost(s: seq<real>, v: real)
    requires forall i :: 0 <= i < |s| ==> s[i] <= v
    ensures CountAtMost(s, v) == |s|
  {
    if s != [] {
      AllAtMost(s[..|s| - 1], v);
    }
  }

  /** The filter's output is the sample of rank |s| / 2. */
  lemma {:induction false} MedianIsRank(s: seq<real>)
    requires s != []
    ensures IsRank(s, |s| / 2, Median(s))
  {
    SortSorted(s);
    SortedRank(Sort(s), |s| / 2);
    SortCounts(s, Median(s));
  }

  lemma {:induction false} CountOrder(s: seq<real>, u: real, v: real)
    requires u < v
    ensures CountAtMost(s, u) <= CountBelow(s, v)
  {
    if s != [] {
      CountOrder(s[..|s| - 1], u, v);
    }
  }

  /** Rank determines the value, so the median does not depend on the order of the samples. */
  lemma {:induction false} RankIsUnique(s: seq<real>, k: nat, u: real, v: real)
    requires IsRank(s, k, u) && IsRank(s, k, v)
    ensures u == v
  {
    if u < v {
      CountOrder(s, u, v);
    } else if v < u {
      CountOrder(s, v, u);
    }
  }

  lemma {:induction false} CountConcat(a: seq<real>, b: seq<real>, v: real)
    ensures CountBelow(a + b, v) == CountBelow(a, v) + CountBelow(b, v)
    ensures CountAtMost(a + b, v) == CountAtMost(a, v) + CountAtMost(b, v)
  {
    if b == [] {
      assert a + b == a;
    } else {
      var front := b[..|b| - 1];
      CountConcat(a, front, v);
      assert a + b == (a + front) + [b[|b| - 1]];
      CountSnoc(a + front, b[|b| - 1], v);
      assert b == front + [b[|b| - 1]];
    }
  }

  /** A circular window read from any starting slot has the same median. */
  lemma {:induction false} MedianOfRotation(a: seq<real>, b: seq<real>)
    requires a + b != []
    ensures b + a != [] && Median(a + b) == Median(b + a)
  {
    var v := Median(a + b);
    MedianIsRank(a + b);
    MedianIsRank(b + a);
    CountConcat(a, b, v);
    CountConcat(b, a, v);
    RankIsUnique(b + a, |b + a| / 2, v, Median(b + a));
  }

  // ---- robustness and monotonicity ----

  lemma {:induction false} OutsideBelow(s: seq<real>, lo: real, hi: real, v: real)
    ensures v < lo ==> CountOutside(s, lo, hi) >= CountAtMost(s, v)
    ensures v > hi ==> CountOutside(s, lo, hi) >= |s| - CountBelow(s, v)
  {
    if s != [] {
      OutsideBelow(s[..|s| - 1], lo, hi, v);
    }
  }

  /** With at most (|s| - 1) / 2 samples outside [lo, hi] the median lies in it. */
  lemma {:induction false} MedianIsRobust(s: seq<real>, lo: real, hi: real)
    requires s != [] && CountOutside(s, lo, hi) <= (|s| - 1) / 2
    ensures lo <= Median(s) <= hi
  {
    MedianIsRank(s);
    OutsideBelow(s, lo, hi, Median(s));
  }

  lemma {:induction false} CountMonotone(a: seq<real>, b: seq<real>, u: real, v: real)
    requires |a| == |b| && (forall i :: 0 <= i < |a| ==> a[i] <= b[i])
    requires v < u
    ensures CountAtMost(b, v) <= CountBelow(a, u)
  {
    if a != [] {
      CountMonotone(a[..|a| - 1], b[..|b| - 1], u, v);
    }
  }

  /** Raising samples never lowers the median. */
  lemma {:induction false} MedianIsMonotone(a: seq<real>, b: seq<real>)
    requires |a| == |b| > 0 && (forall i :: 0 <= i < |a| ==> a[i] <= b[i])
    ensures Median(a) <= Median(b)
  {
    MedianIsRank(a);
    MedianIsRank(b);
    if Median(a) > Median(b) {
      CountMonotone(a, b, Median(a), Median(b));
    }
  }
}
