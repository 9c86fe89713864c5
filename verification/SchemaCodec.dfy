/** What the Builder and Reader printed by tool/capnp_dart_gen.py do, for an arbitrary list of field types:
    fixed fields in the header, Text and Data as [u32 length][bytes] records behind it. Strings are their
    UTF-8 bytes; floating-point values are the bit patterns of Dart doubles. */
module SchemaCodec {
  import opened Bits
  import opened Bytes
  import opened SchemaLayout

  datatype Value = Num(n: int) | Flag(b: bool) | Blob(bytes: Buffer) | Absent

  /** How setFloat32 and getFloat32 convert between doubles and float32, on bit patterns. */
  datatype FloatFormat = FloatFormat(narrow: u64 -> u32, widen: u32 -> u64)

  /** The argument the Builder takes for a field of this type: any Dart int for the integer types, any double for the
      floating-point ones. */
  predicate Accepts(t: Type, v: Value) {
    match t
    case Float32 => v.Num? && 0 <= v.n < 0x1_0000_0000_0000_0000
    case Float64 => v.Num? && 0 <= v.n < 0x1_0000_0000_0000_0000
    case Bool => v.Flag?
    case Text => v.Blob?
    case Data => v.Blob?
    case Other => v.Absent?
    case _ => v.Num? && DART_MIN <= v.n <= DART_MAX
  }

  predicate Signed(t: Type) {
    t.Int8? || t.Int16? || t.Int32? || t.Int64? || t.UInt64?
  }

  /** 256^size, written out. */
  function Range(size: nat): (r: nat)
    ensures r == Pow256(size) && (size > 0 ==> r % 2 == 0)
  {
    Pow256(size)
  }

  /** ByteData.getXxx: two's complement for the signed types. A Dart int has 64 bits, so getUint64 yields
      the signed reading too. */
  function FromRaw(t: Type, raw: nat): int
    requires t.IsFixed()
  {
    if Signed(t) && 2 * raw >= Range(t.Size()) then raw - Range(t.Size()) else raw
  }

  /** The arguments of this type that its bytes can hold: integers and lengths in range, and for Float32 the
      doubles that are float32 values. */
  predicate Representable(c: FloatFormat, t: Type, v: Value)
    requires Accepts(t, v)
  {
    match t
    case Float32 => c.widen(c.narrow(v.n)) == v.n
    case UInt8 => 0 <= v.n < 0x100
    case UInt16 => 0 <= v.n < 0x1_0000
    case UInt32 => 0 <= v.n < 0x1_0000_0000
    case Int8 => -0x80 <= v.n < 0x80
    case Int16 => -0x8000 <= v.n < 0x8000
    case Int32 => -0x8000_0000 <= v.n < 0x8000_0000
    case Text => |v.bytes| < 0x1_0000_0000
    case Data => |v.bytes| < 0x1_0000_0000
    case _ => true
  }

  // ---- the Builder ----

  /** b with c written at o */
  function Splice(b: Buffer, o: nat, c: Buffer): (r: Buffer)
    requires o + |c| <= |b|
    ensures |r| == |b|
  {
    b[..o] + c + b[o + |c|..]
  }

  /** ByteData.setXxx keeps the low bytes. */
  function FixedBytes(c: FloatFormat, t: Type, v: Value): (b: Buffer)
    requires t.IsFixed() && Accepts(t, v)
    ensures |b| == t.Size()
  {
    if t.Bool? then [if v.b then 1 else 0]
    else if t.Float32? then LE(c.narrow(v.n), 4)
    else LE(v.n % Range(t.Size()), t.Size())
  }

  ghost predicate Typed(types: seq<Type>, values: seq<Value>) {
    |types| == |values| && forall i :: 0 <= i < |types| ==> Accepts(types[i], values[i])
  }

  /** The header after writing the first k fields into zeros. */
  function Header(c: FloatFormat, types: seq<Type>, values: seq<Value>, k: nat): (h: Buffer)
    requires Typed(types, values) && k <= |types|
    ensures |h| == HeaderLen(types)
  {
    if k == 0 then seq(HeaderLen(types), _ => 0)
    else
      var h := Header(c, types, values, k - 1);
      if types[k - 1].IsFixed() then
        LayoutIsPacked(types, k - 1, 0);
        Splice(h, OffsetOf(types, k - 1), FixedBytes(c, types[k - 1], values[k - 1]))
      else h
  }

  /** The record of one variable field. */
  function Record(b: Buffer): (r: Buffer)
    ensures |r| == 4 + |b|
  {
    LE(|b| % 0x1_0000_0000, 4) + b
  }

  /** The variable section of the first k fields. */
  function Tail(types: seq<Type>, values: seq<Value>, k: nat): Buffer
    requires Typed(types, values) && k <= |types|
  {
    if k == 0 then []
    else Tail(types, values, k - 1) + if types[k - 1].IsVariable() then Record(values[k - 1].bytes) else []
  }

  /** The payload the Builder returns. */
  function Built(c: FloatFormat, types: seq<Type>, values: seq<Value>): Buffer
    requires Typed(types, values)
  {
    Header(c, types, values, |types|) + Tail(types, values, |types|)
  }

  method Put(buf: array<u8>, o: nat, c: Buffer)
    requires o + |c| <= buf.Length
    modifies buf
    ensures buf[..] == Splice(old(buf[..]), o, c)
  {
    forall i | 0 <= i < |c| {
      buf[o + i] := c[i];
    }
  }

  /** build(): total length first, then the fixed fields, then the variable section behind p. */
  method Build(c: FloatFormat, types: seq<Type>, values: seq<Value>) returns (buf: array<u8>)
    requires Typed(types, values)
    ensures buf[..] == Built(c, types, values) && fresh(buf)
  {
    var headerLen := HeaderLen(types);
    var total := headerLen;
    for k := 0 to |types|
      invariant total == headerLen + |Tail(types, values, k)|
    {
      if types[k].IsVariable() {
        total := total + 4 + |values[k].bytes|;
      }
    }
    buf := new u8[total](_ => 0);
    WriteFixed(c, buf, types, values);
    assert buf[..headerLen] == Header(c, types, values, |types|);
    WriteVariable(buf, types, values);
    assert buf[..] == buf[..total];
  }

  method WriteFixed(c: FloatFormat, buf: array<u8>, types: seq<Type>, values: seq<Value>)
    requires Typed(types, values) && buf.Length >= HeaderLen(types)
    requires buf[..HeaderLen(types)] == Header(c, types, values, 0)
    modifies buf
    ensures buf[..HeaderLen(types)] == Header(c, types, values, |types|)
  {
    for k := 0 to |types|
      invariant buf[..HeaderLen(types)] == Header(c, types, values, k)
    {
      if types[k].IsFixed() {
        LayoutIsPacked(types, k, 0);
        SpliceFront(buf[..HeaderLen(types)], buf[HeaderLen(types)..],
                    OffsetOf(types, k), FixedBytes(c, types[k], values[k]));
        assert buf[..] == buf[..HeaderLen(types)] + buf[HeaderLen(types)..];
        Put(buf, OffsetOf(types, k), FixedBytes(c, types[k], values[k]));
        assert buf[..HeaderLen(types)] == buf[..][..HeaderLen(types)];
      }
    }
  }

  method WriteVariable(buf: array<u8>, types: seq<Type>, values: seq<Value>)
    requires Typed(types, values)
    requires buf.Length == HeaderLen(types) + |Tail(types, values, |types|)|
    modifies buf
    ensures buf[..] == old(buf[..HeaderLen(types)]) + Tail(types, values, |types|)
  {
    hide Record;
    var p := HeaderLen(types);
    for k := 0 to |types|
      invariant p == HeaderLen(types) + |Tail(types, values, k)|
      invariant p <= buf.Length
      invariant buf[..p] == old(buf[..HeaderLen(types)]) + Tail(types, values, k)
    {
      TailGrows(types, values, k + 1, |types|);
      if types[k].IsVariable() {
        p := PutRecord(buf, p, values[k].bytes);
      }
    }
    assert buf[..] == buf[..p];
  }

  method PutRecord(buf: array<u8>, p: nat, bytes: Buffer) returns (p': nat)
    requires p + 4 + |bytes| <= buf.Length
    modifies buf
    ensures p' == p + 4 + |bytes| && buf[..p'] == old(buf[..p]) + Record(bytes)
  {
    Put(buf, p, LE(|bytes| % 0x1_0000_0000, 4));
    ghost var q := buf[..p + 4];
    assert q == old(buf[..p]) + LE(|bytes| % 0x1_0000_0000, 4);
    Put(buf, p + 4, bytes);
    p' := p + 4 + |bytes|;
    assert buf[..p'] == q + bytes;
  }

  lemma {:induction false} SpliceFront(a: Buffer, b: Buffer, o: nat, c: Buffer)
    requires o + |c| <= |a|
    ensures Splice(a + b, o, c) == Splice(a, o, c) + b
  {}

  lemma {:induction false} TailGrows(types: seq<Type>, values: seq<Value>, j: nat, k: nat)
    requires Typed(types, values) && j <= k <= |types|
    ensures |Tail(types, values, j)| <= |Tail(types, values, k)|
    ensures Tail(types, values, k)[..|Tail(types, values, j)|] == Tail(types, values, j)
  {
    if j < k {
      TailGrows(types, values, j, k - 1);
    }
  }

  // ---- the Reader ----

  /** _readUint32: 0 when it would run past the end. */
  function ReadU32(b: Buffer, o: nat): (v: nat)
    ensures v < 0x1_0000_0000
  {
    if |b| < o + 4 then 0 else Pow256Values(); ReadLE(b, o, 4)
  }

  /** The getter of a fixed field at its offset: 0 or false when it would run past the end. */
  function ReadFixed(c: FloatFormat, t: Type, b: Buffer, o: nat): Value
    requires t.IsFixed()
  {
    if t.Bool? then Flag(|b| > o && And(b[o], 0x01) != 0)
    else if |b| < o + t.Size() then Num(0)
    else if t.Float32? then Pow256Values(); Num(c.widen(ReadLE(b, o, 4)))
    else Num(FromRaw(t, ReadLE(b, o, t.Size())))
  }

  /** How many variable fields come before field i. */
  function VariableBefore(types: seq<Type>, i: nat): nat
    requires i <= |types|
  {
    if i == 0 then 0 else VariableBefore(types, i - 1) + if types[i - 1].IsVariable() then 1 else 0
  }

  /** The emitted offset function of variable field j: the one before it, called twice, plus what its
      length word says. */
  function VariableOffset(headerLen: nat, b: Buffer, j: nat): nat {
    if j == 0 then headerLen
    else VariableOffset(headerLen, b, j - 1) + 4 + ReadU32(b, VariableOffset(headerLen, b, j - 1))
  }

  /** _readText / _readData */
  function ReadBlob(b: Buffer, o: nat): Buffer {
    if |b| < o + 4 then []
    else
      var len := ReadU32(b, o);
      var start := o + 4;
      if len == 0 || |b| < start + len then [] else b[start..start + len]
  }

  /** The Reader's getter of field i. */
  function Get(c: FloatFormat, types: seq<Type>, b: Buffer, i: nat): Value
    requires i < |types|
  {
    if types[i].IsFixed() then ReadFixed(c, types[i], b, OffsetOf(types, i))
    else if types[i].IsVariable() then
      Blob(ReadBlob(b, VariableOffset(HeaderLen(types), b, VariableBefore(types, i))))
    else Absent
  }

  /** The recursive offset functions are one left-to-right walk over the length words. */
  method Walk(headerLen: nat, b: Buffer, n: nat) returns (offsets: seq<nat>)
    ensures |offsets| == n && forall j :: 0 <= j < n ==> offsets[j] == VariableOffset(headerLen, b, j)
  {
    offsets := [];
    var p := headerLen;
    for j := 0 to n
      invariant |offsets| == j && p == VariableOffset(headerLen, b, j)
      invariant forall i :: 0 <= i < j ==> offsets[i] == VariableOffset(headerLen, b, i)
    {
      offsets := offsets + [p];
      p := p + 4 + ReadU32(b, p);
    }
  }
}
