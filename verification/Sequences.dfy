/** Ends of a sequence, and order-preserving selections from it. */
module Sequences {

  function Front<T>(s: seq<T>): seq<T>
    requires s != []
  {
    s[..|s| - 1]
  }

  function Last<T>(s: seq<T>): T
    requires s != []
  {
    s[|s| - 1]
  }

  /** s can be got from t by deleting elements. */
  ghost predicate Subsequence<T>(s: seq<T>, t: seq<T>) {
    s == [] ||
    (t != [] && ((s[0] == t[0] && Subsequence(s[1..], t[1..])) || Subsequence(s, t[1..])))
  }

  lemma {:induction false} SubsequenceTail<T>(s: seq<T>, t: seq<T>)
    requires s != [] && Subsequence(s, t)
    ensures t != [] && Subsequence(s[1..], t[1..]) && s[0] in t
  {
    if !(s[0] == t[0] && Subsequence(s[1..], t[1..])) {
      SubsequenceTail(s, t[1..]);
      assert Subsequence(s[1..], t[1..]);
    }
  }

  lemma {:induction false} SubsequenceSnoc<T>(s: seq<T>, t: seq<T>, x: T)
    requires Subsequence(s, t)
    ensures Subsequence(s, t + [x]) && Subsequence(s + [x], t + [x])
  {
    if t == [] {
      assert (s + [x])[1..] == (t + [x])[1..] == [];
    } else {
      assert (t + [x])[1..] == t[1..] + [x];
      if s != [] && s[0] == t[0] && Subsequence(s[1..], t[1..]) {
        SubsequenceSnoc(s[1..], t[1..], x);
        assert (s + [x])[1..] == s[1..] + [x];
      } else {
        SubsequenceSnoc(s, t[1..], x);
      }
    }
  }

  /** The elements at the positions where the flags are set. */
  function Select<T>(s: seq<T>, flags: seq<bool>): seq<T>
    requires |s| == |flags|
  {
    if s == [] then []
    else Select(s[..|s| - 1], flags[..|s| - 1]) + if flags[|s| - 1] then [s[|s| - 1]] else []
  }

  lemma {:induction false} SelectSnoc<T>(s: seq<T>, flags: seq<bool>, x: T, flag: bool)
    requires |s| == |flags|
    ensures Select(s + [x], flags + [flag]) == Select(s, flags) + if flag then [x] else []
  {
    assert (s + [x])[..|s|] == s && (flags + [flag])[..|s|] == flags;
  }

  lemma {:induction false} SelectLength<S, T>(s: seq<S>, t: seq<T>, flags: seq<bool>)
    requires |s| == |t| == |flags|
    ensures |Select(s, flags)| == |Select(t, flags)|
  {
    if s != [] {
      SelectLength(s[..|s| - 1], t[..|t| - 1], flags[..|s| - 1]);
    }
  }
}
