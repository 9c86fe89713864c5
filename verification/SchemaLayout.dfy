/** The field layout of tool/capnp_dart_gen.py: fields sorted by ordinal, fixed-size ones packed with natural
    alignment into a header padded to 8 bytes. */
module SchemaLayout {

  /** A field's declared type; Other is any name the generator does not know and therefore skips. */
  datatype Type =
    | Float32 | Float64
    | UInt8 | UInt16 | UInt32 | UInt64
    | Int8 | Int16 | Int32 | Int64
    | Bool | Text | Data | Other
  {
    predicate IsVariable() {
      Text? || Data?
    }

    predicate IsFixed() {
      !Text? && !Data? && !Other?
    }

    function Size(): (n: nat)
      ensures n in {0, 1, 2, 4, 8} && (n > 0 <==> IsFixed())
    {
      match this
      case Float32 => 4
      case Float64 => 8
      case UInt8 => 1
      case UInt16 => 2
      case UInt32 => 4
      case UInt64 => 8
      case Int8 => 1
      case Int16 => 2
      case Int32 => 4
      case Int64 => 8
      case Bool => 1
      case _ => 0
    }
  }

  /** The generator's table of sizes, in bytes. */
  lemma {:induction false} SizeTable(t: Type)
    ensures t.Size() == 1 <==> t in {UInt8, Int8, Bool}
    ensures t.Size() == 2 <==> t in {UInt16, Int16}
    ensures t.Size() == 4 <==> t in {Float32, UInt32, Int32}
    ensures t.Size() == 8 <==> t in {Float64, UInt64, Int64}
    ensures t.IsVariable() <==> t in {Text, Data}
    ensures !t.IsFixed() && !t.IsVariable() <==> t == Other
  {}

  // ---- what layout computes ----

  /** offset rounded up to a multiple of size */
  function Align(offset: nat, size: nat): (r: nat)
    requires size in {1, 2, 4, 8}
    ensures r % size == 0 && offset <= r < offset + size
  {
    if offset % size != 0 then
      RoundUp(offset, size);
      offset + (size - offset % size)
    else offset
  }

  lemma {:induction false} RoundUp(offset: nat, size: nat)
    requires size in {1, 2, 4, 8} && offset % size != 0
    ensures (offset + (size - offset % size)) % size == 0
  {}

  /** The running offset after laying out these fields. */
  function End(types: seq<Type>): nat {
    if types == [] then 0
    else
      var e, t := End(types[..|types| - 1]), types[|types| - 1];
      if t.IsFixed() then Align(e, t.Size()) + t.Size() else e
  }

  /** The offset of fixed field i. */
  function OffsetOf(types: seq<Type>, i: nat): nat
    requires i < |types| && types[i].IsFixed()
  {
    Align(End(types[..i]), types[i].Size())
  }

  function HeaderLen(types: seq<Type>): nat {
    Align(End(types), 8)
  }

  // ---- what is good about it ----

  lemma {:induction false} EndMonotone(types: seq<Type>, i: nat, j: nat)
    requires i <= j <= |types|
    ensures End(types[..i]) <= End(types[..j])
    ensures i < j && types[i].IsFixed() ==> OffsetOf(types, i) + types[i].Size() <= End(types[..j])
  {
    if i < j {
      assert types[..j][..j - 1] == types[..j - 1];
      EndMonotone(types, i, j - 1);
      if i == j - 1 { assert types[..j][..i] == types[..i]; }
    }
  }

  /** The running offset is the end of some field before it, or 0: nothing is wasted. */
  lemma {:induction false} EndIsReached(types: seq<Type>, k: nat) returns (i: nat)
    requires k <= |types| && End(types[..k]) > 0
    ensures i < k && types[i].IsFixed() && End(types[..k]) == OffsetOf(types, i) + types[i].Size()
  {
    assert types[..k][..k - 1] == types[..k - 1];
    if types[k - 1].IsFixed() {
      i := k - 1;
    } else {
      i := EndIsReached(types, k - 1);
    }
  }

  /** o is available to field i: naturally aligned and clear of every earlier fixed field's end. */
  ghost predicate Available(types: seq<Type>, i: nat, o: nat)
    requires i < |types| && types[i].IsFixed()
  {
    && o % types[i].Size() == 0
    && forall j :: 0 <= j < i && types[j].IsFixed() ==> OffsetOf(types, j) + types[j].Size() <= o
  }

  /** Each fixed field gets the least available offset; offsets increase, the fields they place do not
      overlap, and all lie in an 8-aligned header with less than 8 bytes of padding after the last. */
  lemma {:induction false} LayoutIsPacked(types: seq<Type>, i: nat, o: nat)
    requires i < |types| && types[i].IsFixed()
    ensures Available(types, i, OffsetOf(types, i))
    ensures Available(types, i, o) ==> OffsetOf(types, i) <= o
    ensures OffsetOf(types, i) + types[i].Size() <= HeaderLen(types)
    ensures HeaderLen(types) % 8 == 0
    ensures exists j ::
      0 <= j < |types| && types[j].IsFixed() && HeaderLen(types) < OffsetOf(types, j) + types[j].Size() + 8
  {
    forall j | 0 <= j < i && types[j].IsFixed()
      ensures OffsetOf(types, j) + types[j].Size() <= OffsetOf(types, i)
    {
      EndMonotone(types, j, i);
    }
    if Available(types, i, o) && End(types[..i]) > 0 {
      var j := EndIsReached(types, i);
    }
    assert types[..|types|] == types;
    EndMonotone(types, i, |types|);
    var last := EndIsReached(types, |types|);
    if Available(types, i, o) {
      LeastMultiple(End(types[..i]), types[i].Size(), o);
    }
  }

  lemma {:induction false} LeastMultiple(offset: nat, size: nat, o: nat)
    requires size in {1, 2, 4, 8} && offset <= o && o % size == 0
    ensures Align(offset, size) <= o
  {}

  /** Fields appended after the others move no fixed field before them. */
  lemma {:induction false} AppendedFieldsMoveNothing(types: seq<Type>, more: seq<Type>, i: nat)
    requires i < |types| && types[i].IsFixed()
    ensures OffsetOf(types + more, i) == OffsetOf(types, i)
  {
    assert (types + more)[..i] == types[..i];
  }

  // ---- sorting by ordinal ----

  datatype Decl = Decl(name: string, ordinal: nat, ty: Type)

  function InsertByOrdinal(ds: seq<Decl>, d: Decl): (r: seq<Decl>)
    ensures |r| == |ds| + 1
  {
    if ds != [] && ds[|ds| - 1].ordinal > d.ordinal
    then InsertByOrdinal(ds[..|ds| - 1], d) + [ds[|ds| - 1]]
    else ds + [d]
  }

  /** fields.sort(key=ordinal): stable. */
  function SortByOrdinal(ds: seq<Decl>): (r: seq<Decl>)
    ensures |r| == |ds|
  {
    if ds == [] then [] else InsertByOrdinal(SortByOrdinal(ds[..|ds| - 1]), ds[|ds| - 1])
  }

  function Types(ds: seq<Decl>): (ts: seq<Type>)
    ensures |ts| == |ds|
  {
    if ds == [] then [] else Types(ds[..|ds| - 1]) + [ds[|ds| - 1].ty]
  }

  ghost predicate DistinctOrdinals(ds: seq<Decl>) {
    forall i, j :: 0 <= i < j < |ds| ==> ds[i].ordinal != ds[j].ordinal
  }

  ghost predicate OrdinalsIncrease(ds: seq<Decl>) {
    forall i, j :: 0 <= i < j < |ds| ==> ds[i].ordinal <= ds[j].ordinal
  }

  lemma {:induction false} InsertPermutes(ds: seq<Decl>, d: Decl)
    ensures multiset(InsertByOrdinal(ds, d)) == multiset(ds) + multiset{d}
  {
    if ds != [] && ds[|ds| - 1].ordinal > d.ordinal {
      InsertPermutes(ds[..|ds| - 1], d);
      assert ds == ds[..|ds| - 1] + [ds[|ds| - 1]];
    }
  }

  lemma {:induction false} SortPermutes(ds: seq<Decl>)
    ensures multiset(SortByOrdinal(ds)) == multiset(ds)
  {
    if ds != [] {
      SortPermutes(ds[..|ds| - 1]);
      InsertPermutes(SortByOrdinal(ds[..|ds| - 1]), ds[|ds| - 1]);
      assert ds == ds[..|ds| - 1] + [ds[|ds| - 1]];
    }
  }

  lemma {:induction false} InsertKeepsOrder(ds: seq<Decl>, d: Decl)
    requires OrdinalsIncrease(ds)
    ensures OrdinalsIncrease(InsertByOrdinal(ds, d))
    ensures InsertByOrdinal(ds, d)[|ds|].ordinal ==
      if ds == [] || ds[|ds| - 1].ordinal <= d.ordinal then d.ordinal else ds[|ds| - 1].ordinal
  {
    if ds != [] && ds[|ds| - 1].ordinal > d.ordinal {
      InsertKeepsOrder(ds[..|ds| - 1], d);
      var r := InsertByOrdinal(ds[..|ds| - 1], d);
      assert forall i :: 0 <= i < |r| ==> r[i].ordinal <= r[|r| - 1].ordinal;
    }
  }

  /** Sorting gives the fields in order of their ordinals. */
  lemma {:induction false} SortOrders(ds: seq<Decl>)
    ensures OrdinalsIncrease(SortByOrdinal(ds))
  {
    if ds != [] {
      SortOrders(ds[..|ds| - 1]);
      InsertKeepsOrder(SortByOrdinal(ds[..|ds| - 1]), ds[|ds| - 1]);
    }
  }

  ghost predicate OrdinalIsKey(ds: seq<Decl>) {
    forall x, y :: x in ds && y in ds && x.ordinal == y.ordinal ==> x == y
  }

  lemma {:induction false} LastsAgree(a: seq<Decl>, b: seq<Decl>)
    requires OrdinalsIncrease(a) && OrdinalsIncrease(b) && OrdinalIsKey(a)
    requires a != [] && b != [] && multiset(a) == multiset(b)
    ensures a[|a| - 1] == b[|b| - 1]
  {
    var x, y := a[|a| - 1], b[|b| - 1];
    assert x in multiset(b) && y in multiset(a);
    assert x in b && y in a;
    assert x.ordinal <= y.ordinal && y.ordinal <= x.ordinal;
  }

  lemma {:induction false} FrontsPermute(a: seq<Decl>, b: seq<Decl>)
    requires a != [] && b != [] && multiset(a) == multiset(b) && a[|a| - 1] == b[|b| - 1]
    ensures multiset(a[..|a| - 1]) == multiset(b[..|b| - 1])
  {
    FrontBag(a);
    FrontBag(b);
  }

  lemma {:induction false} FrontBag(ds: seq<Decl>)
    requires ds != []
    ensures multiset(ds[..|ds| - 1]) == multiset(ds) - multiset{ds[|ds| - 1]}
  {
    assert ds == ds[..|ds| - 1] + [ds[|ds| - 1]];
  }

  lemma {:induction false} FrontKeeps(ds: seq<Decl>)
    requires ds != [] && OrdinalsIncrease(ds)
    ensures OrdinalsIncrease(ds[..|ds| - 1])
    ensures OrdinalIsKey(ds) ==> OrdinalIsKey(ds[..|ds| - 1])
  {
    assert forall x :: x in ds[..|ds| - 1] ==> x in ds;
  }

  /** Two ordered lists of the same fields, with ordinals that determine the field, are equal. */
  lemma {:induction false} OrderedIsUnique(a: seq<Decl>, b: seq<Decl>)
    requires OrdinalsIncrease(a) && OrdinalsIncrease(b) && OrdinalIsKey(a)
    requires multiset(a) == multiset(b)
    ensures a == b
  {
    SameLength(a, b);
    if a != [] {
      LastsAgree(a, b);
      FrontsPermute(a, b);
      FrontKeeps(a);
      FrontKeeps(b);
      hide OrdinalsIncrease, OrdinalIsKey;
      OrderedIsUnique(a[..|a| - 1], b[..|b| - 1]);
      EqualBySnoc(a, b);
    }
  }

  lemma {:induction false} SameLength(a: seq<Decl>, b: seq<Decl>)
    requires multiset(a) == multiset(b)
    ensures |a| == |b|
  {
    assert |a| == |multiset(a)| == |multiset(b)| == |b|;
  }

  lemma {:induction false} EqualBySnoc(a: seq<Decl>, b: seq<Decl>)
    requires a != [] && b != [] && a[..|a| - 1] == b[..|b| - 1] && a[|a| - 1] == b[|b| - 1]
    ensures a == b
  {
    assert a == a[..|a| - 1] + [a[|a| - 1]] && b == b[..|b| - 1] + [b[|b| - 1]];
  }

  /** With distinct ordinals the sorted list, hence the whole layout, does not depend on the order in which
      the fields are declared. */
  lemma {:induction false} DeclarationOrderIsIrrelevant(a: seq<Decl>, b: seq<Decl>)
    requires multiset(a) == multiset(b) && DistinctOrdinals(a)
    ensures SortByOrdinal(a) == SortByOrdinal(b)
  {
    SortOrders(a);
    SortOrders(b);
    SortPermutes(a);
    SortPermutes(b);
    forall x, y | x in SortByOrdinal(a) && y in SortByOrdinal(a) && x.ordinal == y.ordinal ensures x == y {
      assert x in multiset(a) && y in multiset(a);
    }
    OrderedIsUnique(SortByOrdinal(a), SortByOrdinal(b));
  }

  lemma {:induction false} NewestFieldGoesLast(ds: seq<Decl>, at: nat, d: Decl)
    requires at <= |ds| && DistinctOrdinals(ds)
    requires forall k :: 0 <= k < |ds| ==> ds[k].ordinal < d.ordinal
    ensures SortByOrdinal(ds[..at] + [d] + ds[at..]) == SortByOrdinal(ds) + [d]
  {
    hide SortByOrdinal;
    HighestGoesLast(ds, d);
    assert ds == ds[..at] + ds[at..];
    DeclarationOrderIsIrrelevant(ds + [d], ds[..at] + [d] + ds[at..]);
  }

  lemma {:induction false} TypesSnoc(ds: seq<Decl>, d: Decl)
    ensures Types(ds + [d]) == Types(ds) + [d.ty]
  {
    assert (ds + [d])[..|ds|] == ds;
  }

  /** A field declared anywhere with the highest ordinal is laid out last and moves no existing fixed
      field. */
  lemma {:induction false} NewestFieldMovesNothing(ds: seq<Decl>, at: nat, d: Decl, before: seq<Type>,
                                                   after: seq<Type>)
    requires at <= |ds| && DistinctOrdinals(ds)
    requires forall k :: 0 <= k < |ds| ==> ds[k].ordinal < d.ordinal
    requires before == Types(SortByOrdinal(ds)) && after == Types(SortByOrdinal(ds[..at] + [d] + ds[at..]))
    ensures after == before + [d.ty]
    ensures forall i :: 0 <= i < |before| && before[i].IsFixed() ==> OffsetOf(after, i) == OffsetOf(before, i)
  {
    hide SortByOrdinal, OffsetOf, Types, Type.IsFixed;
    NewestFieldGoesLast(ds, at, d);
    TypesSnoc(SortByOrdinal(ds), d);
    forall i | 0 <= i < |before| && before[i].IsFixed() ensures OffsetOf(after, i) == OffsetOf(before, i) {
      AppendedFieldsMoveNothing(before, [d.ty], i);
    }
  }

  lemma {:induction false} HighestGoesLast(ds: seq<Decl>, d: Decl)
    requires forall k :: 0 <= k < |ds| ==> ds[k].ordinal < d.ordinal
    ensures SortByOrdinal(ds + [d]) == SortByOrdinal(ds) + [d]
  {
    SortSnoc(ds, d);
    SortPermutes(ds);
    AppendHighest(SortByOrdinal(ds), ds, d);
  }

  lemma {:induction false} SortSnoc(ds: seq<Decl>, d: Decl)
    ensures SortByOrdinal(ds + [d]) == InsertByOrdinal(SortByOrdinal(ds), d)
  {
    assert (ds + [d])[..|ds|] == ds;
  }

  lemma {:induction false} AppendHighest(r: seq<Decl>, ds: seq<Decl>, d: Decl)
    requires multiset(r) == multiset(ds)
    requires forall k :: 0 <= k < |ds| ==> ds[k].ordinal < d.ordinal
    ensures InsertByOrdinal(r, d) == r + [d]
  {
    if r != [] {
      assert r[|r| - 1] in multiset(ds);
    }
  }

  /** Two schemas of the repository, in ordinal order. Infotainment's layout is the one its committed reader
      uses; VehicleSpeed's puts the timestamp at 8. */
  lemma {:induction false} RepositorySchemas()
    ensures var info := [Text, Text, Data, UInt32, UInt32, Bool];
      OffsetOf(info, 3) == 0 && OffsetOf(info, 4) == 4 && OffsetOf(info, 5) == 8 && HeaderLen(info) == 16
    ensures var speed := [Float32, UInt64, UInt16, UInt8, UInt8];
      && OffsetOf(speed, 0) == 0 && OffsetOf(speed, 1) == 8 && OffsetOf(speed, 2) == 16
      && OffsetOf(speed, 3) == 18 && OffsetOf(speed, 4) == 19 && HeaderLen(speed) == 24
  {
    hide End, Align, OffsetOf, HeaderLen;
    InfotainmentLayout();
    VehicleSpeedLayout();
  }

  lemma {:induction false} InfotainmentLayout()
    ensures var info := [Text, Text, Data, UInt32, UInt32, Bool];
      OffsetOf(info, 3) == 0 && OffsetOf(info, 4) == 4 && OffsetOf(info, 5) == 8 && HeaderLen(info) == 16
  {
    hide End, Align;
    var info := [Text, Text, Data, UInt32, UInt32, Bool];
    EndStep(info, 1);
    EndStep(info, 2);
    EndStep(info, 3);
    EndStep(info, 4);
    EndStep(info, 5);
    EndStep(info, 6);
    assert info[..6] == info;
  }

  lemma {:induction false} VehicleSpeedLayout()
    ensures var speed := [Float32, UInt64, UInt16, UInt8, UInt8];
      && OffsetOf(speed, 0) == 0 && OffsetOf(speed, 1) == 8 && OffsetOf(speed, 2) == 16
      && OffsetOf(speed, 3) == 18 && OffsetOf(speed, 4) == 19 && HeaderLen(speed) == 24
  {
    hide End, Align;
    var speed := [Float32, UInt64, UInt16, UInt8, UInt8];
    EndStep(speed, 1);
    EndStep(speed, 2);
    EndStep(speed, 3);
    EndStep(speed, 4);
    EndStep(speed, 5);
    assert speed[..5] == speed;
  }

  lemma {:induction false} EndStep(types: seq<Type>, k: nat)
    requires 0 < k <= |types|
    ensures End(types[..0]) == 0
    ensures var e, t := End(types[..k - 1]), types[k - 1];
      End(types[..k]) == if t.IsFixed() then Align(e, t.Size()) + t.Size() else e
  {
    assert types[..k][..k - 1] == types[..k - 1];
  }

  // ---- layout() itself ----

  class Field {
    const decl: Decl
    var offset: int

    constructor (decl: Decl)
      ensures this.decl == decl && offset == -1
    {
      this.decl := decl;
      offset := -1;
    }
  }

  function TypesOf(fields: seq<Field>): (ts: seq<Type>)
    ensures |ts| == |fields|
  {
    if fields == [] then [] else TypesOf(fields[..|fields| - 1]) + [fields[|fields| - 1].decl.ty]
  }

  lemma {:induction false} TypesAt(fields: seq<Field>)
    ensures forall i :: 0 <= i < |fields| ==> TypesOf(fields)[i] == fields[i].decl.ty
  {
    if fields != [] {
      TypesAt(fields[..|fields| - 1]);
    }
  }

  lemma {:induction false} AlignBranch(offset: nat, size: nat)
    requires size in {1, 2, 4, 8}
    ensures Align(offset, size) == if offset % size != 0 then offset + (size - offset % size) else offset
  {}

  lemma {:induction false} EndOfNothing()
    ensures End([]) == 0
  {}

  /** Assigns the offsets and returns the header length. */
  method Layout(fields: seq<Field>) returns (headerLen: nat)
    requires forall i, j :: 0 <= i < j < |fields| ==> fields[i] != fields[j]
    modifies fields
    ensures headerLen == HeaderLen(TypesOf(fields))
    ensures forall i :: 0 <= i < |fields| ==>
      fields[i].offset ==
        if TypesOf(fields)[i].IsFixed() then OffsetOf(TypesOf(fields), i) else old(fields[i].offset)
  {
    hide TypesOf, Align, End;
    EndOfNothing();
    var offset := 0;
    ghost var types := TypesOf(fields);
    TypesAt(fields);
    for k := 0 to |fields|
      invariant offset == End(types[..k])
      invariant forall i :: 0 <= i < k ==>
        fields[i].offset == if types[i].IsFixed() then OffsetOf(types, i) else old(fields[i].offset)
      invariant forall i :: k <= i < |fields| ==> fields[i].offset == old(fields[i].offset)
    {
      var f := fields[k];
      EndStep(types, k + 1);
      if f.decl.ty.IsFixed() && !f.decl.ty.Bool? {
        var size := f.decl.ty.Size();
        AlignBranch(offset, size);
        if offset % size != 0 {
          offset := offset + (size - offset % size);
        }
        f.offset := offset;
        offset := offset + size;
      } else if f.decl.ty.Bool? {
        f.offset := offset;
        offset := offset + 1;
      }
    }
    assert types[..|fields|] == types;
    AlignBranch(offset, 8);
    if offset % 8 != 0 {
      offset := offset + (8 - offset % 8);
    }
    headerLen := offset;
  }
}
