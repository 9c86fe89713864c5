/** Reading back what the Builder wrote: whole payloads, truncated ones, and arbitrary bytes. */
module SchemaRoundTrip {
  import opened Bits
  import opened Bytes
  import opened SchemaLayout
  import opened SchemaCodec

  /** What a getter answers when its field is not there. */
  function Default(t: Type): Value {
    if t.Bool? then Flag(false)
    else if t.IsFixed() then Num(0)
    else if t.IsVariable() then Blob([])
    else Absent
  }

  // ---- one field ----

  lemma {:induction false} RawRoundTrip(c: FloatFormat, t: Type, v: Value)
    requires t.IsFixed() && !t.Bool? && !t.Float32? && Accepts(t, v)
    ensures FromRaw(t, v.n % Range(t.Size())) == v.n <==> Representable(c, t, v)
  {
    Pow256Values();
  }

  /** A fixed field read from the bytes written for it gives the value back exactly when it is
      representable; the Builder never checks. */
  lemma {:induction false} FixedRoundTrip(c: FloatFormat, t: Type, v: Value, b: Buffer, o: nat)
    requires t.IsFixed() && Accepts(t, v)
    requires o + t.Size() <= |b| && b[o..o + t.Size()] == FixedBytes(c, t, v)
    ensures ReadFixed(c, t, b, o) == v <==> Representable(c, t, v)
  {
    if t.Bool? {
      assert b[o] == b[o..o + 1][0];
      assert And(1, 1) == 1 && And(0, 1) == 0;
    } else if t.Float32? {
      Pow256Values();
      FromLEOfLE(c.narrow(v.n), 4);
      DivModUnique(c.narrow(v.n), Pow256(4), 0, c.narrow(v.n));
    } else {
      var raw := v.n % Range(t.Size());
      FromLEOfLE(raw, t.Size());
      DivModUnique(raw, Pow256(t.Size()), 0, raw);
      RawRoundTrip(c, t, v);
    }
  }

  /** What a fixed field other than a Float32 or Bool reads as, representable or not: the one value of its type
      that differs from the argument by a multiple of 256^size. */
  lemma {:induction false} FixedWraps(c: FloatFormat, t: Type, v: Value, b: Buffer, o: nat)
    requires t.IsFixed() && !t.Bool? && !t.Float32? && Accepts(t, v)
    requires o + t.Size() <= |b| && b[o..o + t.Size()] == FixedBytes(c, t, v)
    ensures var r := ReadFixed(c, t, b, o);
      && r.Num? && (t.Float64? || (Accepts(t, r) && Representable(c, t, r)))
      && (r.n - v.n) % Pow256(t.Size()) == 0
  {
    var m := Pow256(t.Size());
    var raw := v.n % m;
    Pow256Values();
    FromLEOfLE(raw, t.Size());
    DivModUnique(raw, m, 0, raw);
    var r := FromRaw(t, raw);
    assert r == raw || r == raw - m;
    DifferByMultiple(v.n, m, r);
  }

  function Ones(n: nat): (b: Buffer)
    ensures |b| == n
  {
    if n == 0 then [] else [0xFF] + Ones(n - 1)
  }

  /** Bytes of all ones: -1 for the signed types and UInt64, and the largest value of the others. */
  lemma {:induction false} OnesRead(c: FloatFormat, t: Type)
    requires t.IsFixed() && !t.Bool? && !t.Float32? && !t.Float64?
    ensures ReadFixed(c, t, Ones(t.Size()), 0) ==
      match t
      case UInt8 => Num(255)
      case UInt16 => Num(65535)
      case UInt32 => Num(4294967295)
      case _ => Num(-1)
  {
    OnesAre(t.Size());
    Pow256Values();
    assert Ones(t.Size())[0..t.Size()] == Ones(t.Size());
  }

  lemma {:induction false} OnesAre(n: nat)
    ensures FromLE(Ones(n)) == Pow256(n) - 1
  {
    if n > 0 {
      OnesAre(n - 1);
      assert Ones(n)[1..] == Ones(n - 1);
    }
  }

  lemma {:induction false} DifferByMultiple(v: int, m: nat, r: int)
    requires m > 0 && (r == v % m || r == v % m - m)
    ensures (r - v) % m == 0
  {
    var q := v / m;
    assert v == q * m + v % m;
    DivModUnique(r - v, m, if r == v % m then -q else -q - 1, 0);
  }

  lemma {:induction false} HeaderHolds(c: FloatFormat, types: seq<Type>, values: seq<Value>, i: nat, k: nat)
    requires Typed(types, values) && i < k <= |types| && types[i].IsFixed()
    ensures OffsetOf(types, i) + types[i].Size() <= HeaderLen(types)
    ensures Header(c, types, values, k)[OffsetOf(types, i)..OffsetOf(types, i) + types[i].Size()] ==
            FixedBytes(c, types[i], values[i])
  {
    hide OffsetOf, HeaderLen, FixedBytes;
    LayoutIsPacked(types, i, 0);
    if i < k - 1 {
      HeaderHolds(c, types, values, i, k - 1);
      if types[k - 1].IsFixed() {
        LayoutIsPacked(types, k - 1, 0);
        SpliceBehind(Header(c, types, values, k - 1), OffsetOf(types, k - 1),
                     FixedBytes(c, types[k - 1], values[k - 1]), OffsetOf(types, i), types[i].Size());
      }
    } else {
      SpliceAt(Header(c, types, values, i), OffsetOf(types, i), FixedBytes(c, types[i], values[i]));
    }
  }

  lemma {:induction false} SpliceAt(b: Buffer, o: nat, c: Buffer)
    requires o + |c| <= |b|
    ensures Splice(b, o, c)[o..o + |c|] == c
  {}

  lemma {:induction false} SpliceBehind(b: Buffer, o: nat, c: Buffer, i: nat, n: nat)
    requires o + |c| <= |b| && i + n <= o
    ensures Splice(b, o, c)[i..i + n] == b[i..i + n]
  {}

  /** Every header byte outside the fixed fields is zero. */
  lemma {:induction false} PaddingIsZero(c: FloatFormat, types: seq<Type>, values: seq<Value>, k: nat, p: nat)
    requires Typed(types, values) && k <= |types| && p < HeaderLen(types)
    requires forall i :: 0 <= i < k && types[i].IsFixed() ==>
      !(OffsetOf(types, i) <= p < OffsetOf(types, i) + types[i].Size())
    ensures Header(c, types, values, k)[p] == 0
  {
    hide OffsetOf, HeaderLen, FixedBytes;
    if k > 0 {
      PaddingIsZero(c, types, values, k - 1, p);
      if types[k - 1].IsFixed() {
        LayoutIsPacked(types, k - 1, 0);
      }
    }
  }

  /** Where the record of variable field i starts in the payload. */
  function Start(types: seq<Type>, values: seq<Value>, i: nat): nat
    requires Typed(types, values) && i <= |types|
  {
    HeaderLen(types) + |Tail(types, values, i)|
  }

  lemma {:induction false} RecordAt(c: FloatFormat, types: seq<Type>, values: seq<Value>, i: nat)
    requires Typed(types, values) && i < |types| && types[i].IsVariable()
    ensures var s, b := Start(types, values, i), values[i].bytes;
      && s + 4 + |b| <= |Built(c, types, values)|
      && Built(c, types, values)[s..s + 4 + |b|] == Record(b)
  {
    hide Record, HeaderLen, Header, Tail;
    var n := |types|;
    TailGrows(types, values, i + 1, n);
    TailStep(types, values, i);
    SliceInside(Header(c, types, values, n), Tail(types, values, n), Tail(types, values, i), Record(values[i].bytes));
  }

  lemma {:induction false} TailStep(types: seq<Type>, values: seq<Value>, i: nat)
    requires Typed(types, values) && i < |types| && types[i].IsVariable()
    ensures Tail(types, values, i + 1) == Tail(types, values, i) + Record(values[i].bytes)
  {}

  lemma {:induction false} SliceInside(h: Buffer, t: Buffer, front: Buffer, r: Buffer)
    requires |front| + |r| <= |t| && t[..|front + r|] == front + r
    ensures (h + t)[|h| + |front|..|h| + |front| + |r|] == r
  {
    assert t[|front|..|front| + |r|] == t[..|front + r|][|front|..];
  }

  lemma {:induction false} RecordLength(b: Buffer, s: nat, bytes: Buffer)
    requires s + 4 + |bytes| <= |b| && b[s..s + 4 + |bytes|] == Record(bytes)
    ensures ReadU32(b, s) == |bytes| % 0x1_0000_0000
    ensures b[s + 4..s + 4 + |bytes|] == bytes
  {
    var r, len := b[s..s + 4 + |bytes|], |bytes| % 0x1_0000_0000;
    assert b[s..s + 4] == r[..4] == LE(len, 4);
    assert b[s + 4..s + 4 + |bytes|] == r[4..] == bytes;
    Pow256Values();
    FromLEOfLE(len, 4);
    DivModUnique(len, Pow256(4), 0, len);
  }

  // ---- truncated payloads ----

  /** No variable value before field i is too long for its length word. */
  ghost predicate ShortBefore(types: seq<Type>, values: seq<Value>, i: nat)
    requires Typed(types, values) && i <= |types|
  {
    forall j :: 0 <= j < i && types[j].IsVariable() ==> |values[j].bytes| < 0x1_0000_0000
  }

  lemma {:induction false} PrefixRead(b: Buffer, k: nat, s: nat)
    requires s + 4 <= k <= |b|
    ensures ReadU32(b[..k], s) == ReadU32(b, s)
  {
    assert b[..k][s..s + 4] == b[s..s + 4];
  }

  /** On the first k bytes of a payload the recursive offset of field i is its true start, or is already
      past the end. */
  lemma {:induction false} OffsetOnPrefix(c: FloatFormat, types: seq<Type>, values: seq<Value>, k: nat, i: nat)
    requires Typed(types, values) && i <= |types| && ShortBefore(types, values, i)
    requires k <= |Built(c, types, values)|
    ensures var o := VariableOffset(HeaderLen(types), Built(c, types, values)[..k], VariableBefore(types, i));
      if Start(types, values, i) <= k then o == Start(types, values, i) else o > k
  {
    hide Record, Built, HeaderLen, ReadU32;
    if i > 0 {
      OffsetOnPrefix(c, types, values, k, i - 1);
      if types[i - 1].IsVariable() {
        StepOnPrefix(c, types, values, k, i - 1,
          VariableOffset(HeaderLen(types), Built(c, types, values)[..k], VariableBefore(types, i - 1)));
      }
    }
  }

  lemma {:induction false} StepOnPrefix(c: FloatFormat, types: seq<Type>, values: seq<Value>, k: nat, i: nat, o: nat)
    requires Typed(types, values) && i < |types| && types[i].IsVariable()
    requires k <= |Built(c, types, values)| && |values[i].bytes| < 0x1_0000_0000
    requires if Start(types, values, i) <= k then o == Start(types, values, i) else o > k
    ensures var o' := o + 4 + ReadU32(Built(c, types, values)[..k], o);
      if Start(types, values, i + 1) <= k then o' == Start(types, values, i + 1) else o' > k
  {
    hide Built, Start, Record, LE, ReadLE;
    var b, s := Built(c, types, values), Start(types, values, i);
    NextStart(types, values, i);
    RecordAt(c, types, values, i);
    RecordLength(b, s, values[i].bytes);
    if s + 4 <= k {
      PrefixRead(b, k, s);
    }
  }

  lemma {:induction false} NextStart(types: seq<Type>, values: seq<Value>, i: nat)
    requires Typed(types, values) && i < |types| && types[i].IsVariable()
    ensures Start(types, values, i + 1) == Start(types, values, i) + 4 + |values[i].bytes|
  {}

  /** Where field i ends in the payload. */
  function FieldEnd(types: seq<Type>, values: seq<Value>, i: nat): nat
    requires Typed(types, values) && i < |types|
  {
    if types[i].IsFixed() then OffsetOf(types, i) + types[i].Size()
    else if types[i].IsVariable() then Start(types, values, i) + 4 + |values[i].bytes|
    else 0
  }

  lemma {:induction false} BlobOnPrefix(c: FloatFormat, types: seq<Type>, values: seq<Value>, k: nat, i: nat, o: nat)
    requires Typed(types, values) && i < |types| && types[i].IsVariable()
    requires k <= |Built(c, types, values)| && |values[i].bytes| < 0x1_0000_0000
    requires if Start(types, values, i) <= k then o == Start(types, values, i) else o > k
    ensures ReadBlob(Built(c, types, values)[..k], o) ==
            if FieldEnd(types, values, i) <= k then values[i].bytes else []
  {
    hide Built, HeaderLen, Start, Record, ReadU32, LE;
    NextStart(types, values, i);
    var b, s, bytes := Built(c, types, values), Start(types, values, i), values[i].bytes;
    RecordAt(c, types, values, i);
    RecordLength(b, s, bytes);
    if s + 4 <= k {
      PrefixRead(b, k, s);
      if s + 4 + |bytes| <= k {
        assert b[..k][s + 4..s + 4 + |bytes|] == b[s + 4..s + 4 + |bytes|];
      }
    }
  }

  lemma {:induction false} SliceOfPrefix(a: Buffer, b: Buffer, k: nat, o: nat, n: nat)
    requires o + n <= |a| && o + n <= k <= |a + b|
    ensures (a + b)[..k][o..o + n] == a[o..o + n]
  {}

  lemma {:induction false} FixedOnPrefix(c: FloatFormat, types: seq<Type>, values: seq<Value>, k: nat, i: nat)
    requires Typed(types, values) && i < |types| && types[i].IsFixed()
    requires k <= |Built(c, types, values)|
    ensures var v := ReadFixed(c, types[i], Built(c, types, values)[..k], OffsetOf(types, i));
      if FieldEnd(types, values, i) <= k then v == values[i] <==> Representable(c, types[i], values[i])
      else v == Default(types[i])
  {
    hide OffsetOf, HeaderLen, FixedBytes, Header, Tail, Align, End;
    var o, n := OffsetOf(types, i), types[i].Size();
    HeaderHolds(c, types, values, i, |types|);
    if o + n <= k {
      var b, h := Built(c, types, values), Header(c, types, values, |types|);
      SliceOfPrefix(h, Tail(types, values, |types|), k, o, n);
      assert b[..k][o..o + n] == h[o..o + n];
      FixedRoundTrip(c, types[i], values[i], b[..k], o);
    }
  }

  ghost predicate AllRepresentable(c: FloatFormat, types: seq<Type>, values: seq<Value>) {
    Typed(types, values) && forall i :: 0 <= i < |types| ==> Representable(c, types[i], values[i])
  }

  /** A payload cut to its first k bytes, for any k: a representable field that lies wholly within them reads
      as its value, any other as its default, whatever other fixed fields were given. */
  lemma {:induction false} TruncatedReads(c: FloatFormat, types: seq<Type>, values: seq<Value>, k: nat, i: nat)
    requires Typed(types, values) && i < |types| && k <= |Built(c, types, values)|
    requires ShortBefore(types, values, i) && Representable(c, types[i], values[i])
    ensures Get(c, types, Built(c, types, values)[..k], i) ==
            if FieldEnd(types, values, i) <= k then values[i] else Default(types[i])
  {
    if types[i].IsFixed() {
      FixedOnPrefix(c, types, values, k, i);
    } else if types[i].IsVariable() {
      OffsetOnPrefix(c, types, values, k, i);
      BlobOnPrefix(c, types, values, k, i,
        VariableOffset(HeaderLen(types), Built(c, types, values)[..k], VariableBefore(types, i)));
    }
  }

  // ---- whole payloads ----

  lemma {:induction false} FieldEndInside(c: FloatFormat, types: seq<Type>, values: seq<Value>, i: nat)
    requires Typed(types, values) && i < |types|
    ensures FieldEnd(types, values, i) <= |Built(c, types, values)|
  {
    if types[i].IsFixed() {
      LayoutIsPacked(types, i, 0);
    } else if types[i].IsVariable() {
      RecordAt(c, types, values, i);
    }
  }

  /** The first variable field before k too long for its length word, if any. */
  lemma {:induction false} FirstLong(types: seq<Type>, values: seq<Value>, k: nat) returns (i: nat)
    requires Typed(types, values) && k <= |types|
    ensures i <= k && ShortBefore(types, values, i)
    ensures i < k ==> types[i].IsVariable() && |values[i].bytes| >= 0x1_0000_0000
  {
    if k == 0 {
      i := 0;
    } else {
      i := FirstLong(types, values, k - 1);
      if i == k - 1 && !(types[i].IsVariable() && |values[i].bytes| >= 0x1_0000_0000) {
        i := k;
      }
    }
  }

  lemma {:induction false} LongIsLost(c: FloatFormat, types: seq<Type>, values: seq<Value>, i: nat)
    requires Typed(types, values) && i < |types| && ShortBefore(types, values, i)
    requires types[i].IsVariable() && |values[i].bytes| >= 0x1_0000_0000
    ensures Get(c, types, Built(c, types, values), i) != values[i]
  {
    hide Built, HeaderLen;
    var b := Built(c, types, values);
    RecordAt(c, types, values, i);
    OffsetOnPrefix(c, types, values, |b|, i);
    assert b[..|b|] == b;
    RecordLength(b, Start(types, values, i), values[i].bytes);
  }

  /** The Reader gives back every value the Builder was given exactly when all are representable: integers
      within their type's range and Text and Data shorter than 2^32 bytes, empty ones included. */
  lemma {:induction false} RoundTrip(c: FloatFormat, types: seq<Type>, values: seq<Value>)
    requires Typed(types, values)
    ensures (forall i :: 0 <= i < |types| ==> Get(c, types, Built(c, types, values), i) == values[i]) <==>
            AllRepresentable(c, types, values)
  {
    hide Built, Get;
    var b := Built(c, types, values);
    assert b[..|b|] == b;
    if AllRepresentable(c, types, values) {
      forall i | 0 <= i < |types| ensures Get(c, types, b, i) == values[i] {
        FieldEndInside(c, types, values, i);
        TruncatedReads(c, types, values, |b|, i);
      }
    } else {
      var long := FirstLong(types, values, |types|);
      if long < |types| {
        LongIsLost(c, types, values, long);
      } else {
        var i :| 0 <= i < |types| && !Representable(c, types[i], values[i]);
        FixedIsLost(c, types, values, i);
      }
    }
  }

  lemma {:induction false} FixedIsLost(c: FloatFormat, types: seq<Type>, values: seq<Value>, i: nat)
    requires Typed(types, values) && i < |types| && types[i].IsFixed()
    requires !Representable(c, types[i], values[i])
    ensures Get(c, types, Built(c, types, values), i) != values[i]
  {
    hide Built;
    var b := Built(c, types, values);
    assert b[..|b|] == b;
    FieldEndInside(c, types, values, i);
    FixedOnPrefix(c, types, values, |b|, i);
  }

  /** A whole payload, byte for byte, with the fields of the repository's infotainment schema. */
  lemma {:induction false} SamplePayload(c: FloatFormat)
    ensures var types := [Text, Text, Data, UInt32, UInt32, Bool];
      var values := [Blob([65]), Blob([]), Blob([7, 8]), Num(0x0102_0304), Num(5), Flag(true)];
      Typed(types, values) &&
      Built(c, types, values) ==
      [4, 3, 2, 1, 5, 0, 0, 0, 1, 0, 0, 0, 0, 0, 0, 0] + [1, 0, 0, 0, 65] + [0, 0, 0, 0] + [2, 0, 0, 0, 7, 8]
  {
    hide OffsetOf, HeaderLen, Header, Tail, LE;
    var types := [Text, Text, Data, UInt32, UInt32, Bool];
    var values := [Blob([65]), Blob([]), Blob([7, 8]), Num(0x0102_0304), Num(5), Flag(true)];
    assert Typed(types, values);
    SampleHeader(c, types, values);
    SampleTail(types, values);
  }

  lemma {:induction false} LEOfSmall(v: nat)
    requires v < 256
    ensures LE(v, 4) == [v, 0, 0, 0]
  {
    assert LE(0, 3) == [0, 0, 0] by { assert LE(0, 2) == [0, 0]; }
  }

  lemma {:induction false} LEOfSample()
    ensures LE(0x0102_0304, 4) == [4, 3, 2, 1]
  {
    assert LE(0x01, 1) == [1];
    assert LE(0x0102, 2) == [2] + LE(0x01, 1);
    assert LE(0x0102_03, 3) == [3] + LE(0x0102, 2);
    assert LE(0x0102_0304, 4) == [4] + LE(0x0102_03, 3);
  }

  lemma {:induction false} SampleHeader(c: FloatFormat, types: seq<Type>, values: seq<Value>)
    requires types == [Text, Text, Data, UInt32, UInt32, Bool]
    requires values == [Blob([65]), Blob([]), Blob([7, 8]), Num(0x0102_0304), Num(5), Flag(true)]
    ensures Typed(types, values)
    ensures Header(c, types, values, 6) == [4, 3, 2, 1, 5, 0, 0, 0, 1, 0, 0, 0, 0, 0, 0, 0]
  {
    hide OffsetOf, HeaderLen, Header, LE;
    assert Typed(types, values);
    RepositorySchemas();
    LEOfSample();
    LEOfSmall(5);
    Pow256Values();
    var h := Header(c, types, values, 6);
    HeaderHolds(c, types, values, 3, 6);
    HeaderHolds(c, types, values, 4, 6);
    HeaderHolds(c, types, values, 5, 6);
    assert h[0..4] == [4, 3, 2, 1] && h[4..8] == [5, 0, 0, 0] && h[8..9] == [1];
    forall p | 9 <= p < 16 ensures h[p] == 0 {
      PaddingIsZero(c, types, values, 6, p);
    }
    assert h == h[0..4] + h[4..8] + h[8..9] + h[9..16];
  }

  lemma {:induction false} SampleTail(types: seq<Type>, values: seq<Value>)
    requires types == [Text, Text, Data, UInt32, UInt32, Bool]
    requires values == [Blob([65]), Blob([]), Blob([7, 8]), Num(0x0102_0304), Num(5), Flag(true)]
    ensures Typed(types, values)
    ensures Tail(types, values, 6) == [1, 0, 0, 0, 65] + [0, 0, 0, 0] + [2, 0, 0, 0, 7, 8]
  {
    hide LE;
    assert Typed(types, values);
    LEOfSmall(0);
    LEOfSmall(1);
    LEOfSmall(2);
    assert Tail(types, values, 1) == [1, 0, 0, 0, 65];
    assert Tail(types, values, 2) == [1, 0, 0, 0, 65] + [0, 0, 0, 0];
    assert Tail(types, values, 3) == [1, 0, 0, 0, 65] + [0, 0, 0, 0] + [2, 0, 0, 0, 7, 8];
    assert Tail(types, values, 4) == Tail(types, values, 3);
    assert Tail(types, values, 5) == Tail(types, values, 4);
  }

  /** The double 0.1 is accepted for a Float32 field and read back as the float32 nearest to it. */
  lemma {:induction false} TenthIsRounded(c: FloatFormat)
    requires c.narrow(0x3FB9_9999_9999_999A) == 0x3DCC_CCCD && c.widen(0x3DCC_CCCD) == 0x3FB9_9999_A000_0000
    ensures var types, values := [Float32], [Num(0x3FB9_9999_9999_999A)];
      && Typed(types, values) && !Representable(c, Float32, values[0])
      && Get(c, types, Built(c, types, values), 0) == Num(0x3FB9_9999_A000_0000)
  {
    hide OffsetOf, HeaderLen, Header, Tail;
    var types, values := [Float32], [Num(0x3FB9_9999_9999_999A)];
    var b, o := Built(c, types, values), OffsetOf(types, 0);
    HeaderHolds(c, types, values, 0, 1);
    SliceOfPrefix(Header(c, types, values, 1), Tail(types, values, 1), |b|, o, 4);
    assert b[..|b|] == b;
    Pow256Values();
    FromLEOfLE(0x3DCC_CCCD, 4);
    DivModUnique(0x3DCC_CCCD, Pow256(4), 0, 0x3DCC_CCCD);
  }

  // ---- arbitrary bytes ----

  /** Nothing at all reads as zeros, false and empty. */
  lemma {:induction false} NothingReads(c: FloatFormat, types: seq<Type>, i: nat)
    requires i < |types|
    ensures types[i].Bool? ==> Get(c, types, [], i) == Flag(false)
    ensures types[i].IsFixed() && !types[i].Bool? ==> Get(c, types, [], i) == Num(0)
    ensures types[i].IsVariable() ==> Get(c, types, [], i) == Blob([])
  {}

  /** Any buffer with the same bytes in [lo, hi) gives the same value. */
  ghost predicate DependsOn(c: FloatFormat, types: seq<Type>, b: Buffer, i: nat, lo: nat, hi: nat)
    requires i < |types| && lo <= hi <= |b|
  {
    forall b': Buffer :: hi <= |b'| && b'[lo..hi] == b[lo..hi] ==> Get(c, types, b', i) == Get(c, types, b, i)
  }

  /** At o, behind the header, stands a record with these bytes, and no byte behind it matters to field i. */
  ghost predicate RecordInside(c: FloatFormat, types: seq<Type>, b: Buffer, i: nat, o: nat, bytes: Buffer)
    requires i < |types|
  {
    && HeaderLen(types) <= o && o + 4 + |bytes| <= |b|
    && ReadU32(b, o) == |bytes| && bytes == b[o + 4..o + 4 + |bytes|]
    && DependsOn(c, types, b, i, 0, o + 4 + |bytes|)
  }

  /** On any bytes at all a getter answers its default or what lies wholly inside them: for a fixed field it
      depends on the bytes at its offset alone, for Text and Data it is a slice behind the header whose length
      word stands before it, and no byte behind that slice matters. */
  lemma {:induction false} ReadsStayInside(c: FloatFormat, types: seq<Type>, b: Buffer, i: nat)
    requires i < |types|
    ensures var v := Get(c, types, b, i);
      || v == Default(types[i])
      || (types[i].IsFixed() && OffsetOf(types, i) + types[i].Size() <= |b| &&
          DependsOn(c, types, b, i, OffsetOf(types, i), OffsetOf(types, i) + types[i].Size()))
      || (types[i].IsVariable() && v.Blob? && v.bytes != [] && exists o :: RecordInside(c, types, b, i, o, v.bytes))
  {
    hide Get, OffsetOf, HeaderLen, DependsOn;
    if types[i].IsFixed() {
      FixedStaysInside(c, types, b, i);
    } else if types[i].IsVariable() {
      BlobStaysInside(c, types, b, i);
    } else {
      OtherIsAbsent(c, types, b, i);
    }
  }

  lemma {:induction false} OtherIsAbsent(c: FloatFormat, types: seq<Type>, b: Buffer, i: nat)
    requires i < |types| && !types[i].IsFixed() && !types[i].IsVariable()
    ensures Get(c, types, b, i) == Default(types[i])
  {}

  lemma {:induction false} FixedStaysInside(c: FloatFormat, types: seq<Type>, b: Buffer, i: nat)
    requires i < |types| && types[i].IsFixed()
    ensures var o, n := OffsetOf(types, i), types[i].Size();
      if o + n <= |b| then DependsOn(c, types, b, i, o, o + n) else Get(c, types, b, i) == Default(types[i])
  {
    hide OffsetOf, ReadFixed;
    var o, n := OffsetOf(types, i), types[i].Size();
    if o + n <= |b| {
      forall b': Buffer | o + n <= |b'| && b'[o..o + n] == b[o..o + n]
        ensures Get(c, types, b', i) == Get(c, types, b, i)
      {
        FixedIsLocal(c, types[i], b, b', o);
      }
    } else {
      FixedOutside(c, types[i], b, o);
    }
  }

  lemma {:induction false} BlobStaysInside(c: FloatFormat, types: seq<Type>, b: Buffer, i: nat)
    requires i < |types| && types[i].IsVariable()
    ensures var v := Get(c, types, b, i);
      v == Blob([]) || (v.Blob? && exists o :: RecordInside(c, types, b, i, o, v.bytes))
  {
    hide HeaderLen, ReadBlob, VariableOffset, VariableBefore;
    var h, j := HeaderLen(types), VariableBefore(types, i);
    var o := VariableOffset(h, b, j);
    OffsetBehindHeader(h, b, j);
    if ReadBlob(b, o) != [] {
      var e := BlobEnd(b, o);
      forall b': Buffer | e <= |b'| && b'[0..e] == b[0..e] ensures Get(c, types, b', i) == Get(c, types, b, i) {
        OffsetIsLocal(h, b, b', j, e);
        BlobIsLocal(b, b', o, e);
      }
      assert RecordInside(c, types, b, i, o, ReadBlob(b, o));
    }
  }

  lemma {:induction false} FixedOutside(c: FloatFormat, t: Type, b: Buffer, o: nat)
    requires t.IsFixed() && o + t.Size() > |b|
    ensures ReadFixed(c, t, b, o) == Default(t)
  {}

  lemma {:induction false} BlobEnd(b: Buffer, o: nat) returns (e: nat)
    requires ReadBlob(b, o) != []
    ensures e == o + 4 + |ReadBlob(b, o)| <= |b|
    ensures ReadU32(b, o) == |ReadBlob(b, o)| && ReadBlob(b, o) == b[o + 4..e]
  {
    e := o + 4 + ReadU32(b, o);
  }

  lemma {:induction false} BlobIsLocal(b: Buffer, b': Buffer, o: nat, e: nat)
    requires e <= |b| && e <= |b'| && b'[..e] == b[..e]
    requires ReadBlob(b, o) != [] && e == o + 4 + |ReadBlob(b, o)|
    ensures ReadBlob(b', o) == ReadBlob(b, o)
  {
    var _ := BlobEnd(b, o);
    SliceIsLocal(b, b', e, o, o + 4);
    SliceIsLocal(b, b', e, o + 4, e);
  }

  lemma {:induction false} FixedIsLocal(c: FloatFormat, t: Type, b: Buffer, b': Buffer, o: nat)
    requires t.IsFixed() && o + t.Size() <= |b| && o + t.Size() <= |b'|
    requires b'[o..o + t.Size()] == b[o..o + t.Size()]
    ensures ReadFixed(c, t, b', o) == ReadFixed(c, t, b, o)
  {
    if t.Bool? {
      assert b'[o] == b'[o..o + 1][0] == b[o];
    }
  }

  /** The offset of a variable field depends on nothing behind its own length word. */
  lemma {:induction false} OffsetIsLocal(headerLen: nat, b: Buffer, b': Buffer, j: nat, e: nat)
    requires e <= |b| && e <= |b'| && b'[..e] == b[..e] && VariableOffset(headerLen, b, j) + 4 <= e
    ensures VariableOffset(headerLen, b', j) == VariableOffset(headerLen, b, j)
  {
    if j > 0 {
      var o := VariableOffset(headerLen, b, j - 1);
      OffsetIsLocal(headerLen, b, b', j - 1, e);
      SliceIsLocal(b, b', e, o, o + 4);
    }
  }

  lemma {:induction false} SliceIsLocal(b: Buffer, b': Buffer, e: nat, lo: nat, hi: nat)
    requires e <= |b| && e <= |b'| && b'[..e] == b[..e] && lo <= hi <= e
    ensures b'[lo..hi] == b[lo..hi]
  {
    assert b'[..e][lo..hi] == b'[lo..hi] && b[..e][lo..hi] == b[lo..hi];
  }

  lemma {:induction false} OffsetBehindHeader(headerLen: nat, b: Buffer, j: nat)
    ensures VariableOffset(headerLen, b, j) >= headerLen + 4 * j
  {
    if j > 0 {
      OffsetBehindHeader(headerLen, b, j - 1);
    }
  }
}
