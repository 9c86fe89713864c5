/** The table behind FilterRegistry of src/signal_filter.cpp: per event a list of filters sorted by payload
    offset, applied to the float32 slices of a payload. The 4-byte sample format is a parameter. */
module FilterTable {
  import opened Bits
  import opened Bytes
  import opened Options
  import opened SignalFilters

  /** How a float32 is read from and written to 4 bytes. */
  datatype SampleFormat = SampleFormat(decode: Buffer -> real, encode: real -> Buffer)

  ghost predicate IsFormat(c: SampleFormat) {
    forall v :: |c.encode(v)| == 4
  }

  datatype EventId = EventId(svc: u16, inst: u16, evt: u16)

  datatype Entry = Entry(offset: u16, filter: Filter)

  type Entries = map<u64, seq<Entry>>

  // ---- keys ----

  /** make_key: (svc << 32) | (inst << 16) | evt */
  function MakeKey(id: EventId): (key: u64)
    ensures key == id.svc * 0x1_0000_0000 + id.inst * 0x1_0000 + id.evt
  {
    KeyFields(id);
    Or(Or(Shl(id.svc, 32), Shl(id.inst, 16)), id.evt)
  }

  lemma {:induction false} KeyFields(id: EventId)
    ensures Or(Or(Shl(id.svc, 32), Shl(id.inst, 16)), id.evt) ==
            id.svc * 0x1_0000_0000 + id.inst * 0x1_0000 + id.evt
  {
    Pow2Small();
    ShlIsMul(id.inst, 16);
    OrDisjoint(id.svc, id.inst * 0x1_0000, 32);
    var high := id.svc * 0x1_0000 + id.inst;
    ShlIsMul(high, 16);
    OrDisjoint(high, id.evt, 16);
  }

  lemma {:induction false} SameKey(a: EventId, b: EventId)
    ensures MakeKey(a) == MakeKey(b) <==> a == b
  {
    hide MakeKey;
  }

  // ---- the list of one event ----

  ghost predicate Increasing(list: seq<Entry>) {
    forall i, j :: 0 <= i < j < |list| ==> list[i].offset < list[j].offset
  }

  ghost predicate FiltersOk(list: seq<Entry>) {
    forall i :: 0 <= i < |list| ==> FilterOk(list[i].filter)
  }

  ghost predicate FilterOk(f: Filter) {
    f.MedianOf? ==> f.window > 0
  }

  /** In a payload of this length no two slices overlap. */
  ghost predicate Separated(list: seq<Entry>, len: nat) {
    forall i, j :: 0 <= i < j < |list| && Fits(list[j].offset, len) ==> list[i].offset + 4 <= list[j].offset
  }

  function Find(list: seq<Entry>, offset: u16): Option<Filter> {
    if list == [] then None
    else if list[0].offset == offset then Some(list[0].filter)
    else Find(list[1..], offset)
  }

  /** The list with f at offset: replaced where the offset is present, else inserted in order. */
  function Put(list: seq<Entry>, offset: u16, f: Filter): (r: seq<Entry>)
    ensures r != []
  {
    if list == [] || offset < list[0].offset then [Entry(offset, f)] + list
    else if list[0].offset == offset then [Entry(offset, f)] + list[1..]
    else [list[0]] + Put(list[1..], offset, f)
  }

  function Without(list: seq<Entry>, offset: u16): seq<Entry> {
    if list == [] then []
    else (if list[0].offset == offset then [] else [list[0]]) + Without(list[1..], offset)
  }

  lemma {:induction false} PutKeeps(list: seq<Entry>, offset: u16, f: Filter)
    requires Increasing(list) && FiltersOk(list) && FilterOk(f)
    ensures Increasing(Put(list, offset, f)) && FiltersOk(Put(list, offset, f))
    ensures forall i :: 0 <= i < |Put(list, offset, f)| ==>
      Put(list, offset, f)[i].offset >= if list == [] || offset < list[0].offset then offset else list[0].offset
  {
    if list != [] && list[0].offset < offset {
      PutKeeps(list[1..], offset, f);
    }
  }

  lemma {:induction false} FindPut(list: seq<Entry>, offset: u16, f: Filter, o: u16)
    requires Increasing(list)
    ensures Find(Put(list, offset, f), o) == if o == offset then Some(f) else Find(list, o)
  {
    if list == [] || offset < list[0].offset {
      assert Put(list, offset, f)[1..] == list;
    } else if list[0].offset == offset {
      assert Put(list, offset, f)[1..] == list[1..];
    } else {
      FindPut(list[1..], offset, f, o);
      assert Put(list, offset, f)[1..] == Put(list[1..], offset, f);
    }
  }

  lemma {:induction false} WithoutStep(list: seq<Entry>, offset: u16)
    requires list != []
    ensures Without(list, offset) ==
      if list[0].offset == offset then Without(list[1..], offset) else [list[0]] + Without(list[1..], offset)
  {}

  lemma {:induction false} WithoutKeeps(list: seq<Entry>, offset: u16)
    requires Increasing(list) && FiltersOk(list)
    ensures Increasing(Without(list, offset)) && FiltersOk(Without(list, offset))
    ensures forall i :: 0 <= i < |Without(list, offset)| ==> Without(list, offset)[i] in list
  {
    if list != [] {
      hide Without;
      WithoutKeeps(list[1..], offset);
      WithoutStep(list, offset);
      var rest := Without(list[1..], offset);
      forall i | 0 <= i < |rest| ensures rest[i] in list && list[0].offset < rest[i].offset {
        assert rest[i] in list[1..];
      }
    }
  }

  lemma {:induction false} FindWithout(list: seq<Entry>, offset: u16, o: u16)
    ensures Find(Without(list, offset), o) == if o == offset then None else Find(list, o)
  {
    if list != [] {
      FindWithout(list[1..], offset, o);
      if list[0].offset == offset {
        assert Without(list, offset) == Without(list[1..], offset);
      } else {
        assert Without(list, offset)[1..] == Without(list[1..], offset);
      }
    }
  }

  lemma {:induction false} FindAt(list: seq<Entry>, i: nat)
    requires Increasing(list) && i < |list|
    ensures Find(list, list[i].offset) == Some(list[i].filter)
  {
    if i > 0 {
      FindAt(list[1..], i - 1);
    }
  }

  lemma {:induction false} FindSome(list: seq<Entry>, o: u16) returns (i: nat)
    requires Find(list, o).Some?
    ensures i < |list| && list[i].offset == o && list[i].filter == Find(list, o).value
  {
    if list[0].offset == o {
      i := 0;
    } else {
      i := FindSome(list[1..], o);
      i := i + 1;
    }
  }

  lemma {:induction false} FindSameOffsets(list: seq<Entry>, list': seq<Entry>, o: u16)
    requires |list'| == |list| && forall i :: 0 <= i < |list| ==> list'[i].offset == list[i].offset
    ensures Find(list', o).Some? <==> Find(list, o).Some?
  {
    if list != [] {
      FindSameOffsets(list[1..], list'[1..], o);
    }
  }

  // ---- applying filters to a payload ----

  predicate Fits(offset: nat, len: nat) {
    offset + 4 <= len
  }

  function Slice(p: Buffer, offset: nat): Buffer
    requires Fits(offset, |p|)
  {
    p[offset..offset + 4]
  }

  function Patch(p: Buffer, offset: nat, b: Buffer): (r: Buffer)
    requires Fits(offset, |p|) && |b| == 4
    ensures |r| == |p|
  {
    p[..offset] + b + p[offset + 4..]
  }

  /** One filter on one payload; skipped when its slice does not fit. */
  ghost function ApplyEntry(c: SampleFormat, e: Entry, p: Buffer): (r: (Entry, Buffer))
    requires IsFormat(c) && FilterOk(e.filter)
    ensures r.0.offset == e.offset && FilterOk(r.0.filter) && |r.1| == |p|
  {
    if !Fits(e.offset, |p|) then (e, p)
    else
      var (f, y) := ApplyFilter(e.filter, c.decode(Slice(p, e.offset)));
      (Entry(e.offset, f), Patch(p, e.offset, c.encode(y)))
  }

  /** All filters in turn, each on the bytes its predecessors left. */
  ghost function ApplyList(c: SampleFormat, list: seq<Entry>, p: Buffer): (r: (seq<Entry>, Buffer))
    requires IsFormat(c) && FiltersOk(list)
    ensures |r.0| == |list| && |r.1| == |p|
  {
    if list == [] then ([], p)
    else
      var (e, p') := ApplyEntry(c, list[0], p);
      var (rest, p'') := ApplyList(c, list[1..], p');
      ([e] + rest, p'')
  }

  lemma {:induction false} EntryLeaves(c: SampleFormat, e: Entry, p: Buffer, o: nat)
    requires IsFormat(c) && FilterOk(e.filter)
    requires Fits(o, |p|) && e.offset + 4 <= o
    ensures Slice(ApplyEntry(c, e, p).1, o) == Slice(p, o)
  {
    if Fits(e.offset, |p|) {
      var y := ApplyFilter(e.filter, c.decode(Slice(p, e.offset))).1;
      PatchLeaves(p, e.offset, c.encode(y), o);
    }
  }

  lemma {:induction false} PatchLeaves(p: Buffer, offset: nat, b: Buffer, o: nat)
    requires Fits(o, |p|) && offset + 4 <= o && |b| == 4
    ensures Slice(Patch(p, offset, b), o) == Slice(p, o)
  {}

  /** Two filters less than 4 bytes apart: the second finds its slice as it was exactly when the first wrote
      back the bytes that the two share. */
  lemma {:induction false} OverlapStep(c: SampleFormat, e: Entry, p: Buffer, o: nat)
    requires IsFormat(c) && FilterOk(e.filter)
    requires e.offset < o < e.offset + 4 && Fits(o, |p|)
    ensures var out := c.encode(ApplyFilter(e.filter, c.decode(Slice(p, e.offset))).1);
      Slice(ApplyEntry(c, e, p).1, o) == Slice(p, o) <==>
      out[o - e.offset..] == Slice(p, e.offset)[o - e.offset..]
  {
    hide ApplyFilter;
    var x, d := Slice(p, e.offset), o - e.offset;
    var y := ApplyFilter(e.filter, c.decode(x)).1;
    var out := c.encode(y);
    var after := Slice(Patch(p, e.offset, out), o);
    assert after == out[d..] + p[e.offset + 4..o + 4];
    assert Slice(p, o) == x[d..] + p[e.offset + 4..o + 4];
    assert after[..4 - d] == out[d..] && Slice(p, o)[..4 - d] == x[d..];
  }

  /** Over separated slices each filter sees the original bytes of its own slice, whatever the other
      filters do, writes its output there, and every other byte is unchanged. */
  lemma {:induction false} ApplyDecomposes(c: SampleFormat, list: seq<Entry>, p: Buffer)
    requires IsFormat(c) && FiltersOk(list) && Separated(list, |p|)
    ensures var (list', p') := ApplyList(c, list, p);
      && (forall i :: 0 <= i < |list| ==> list'[i] == ApplyEntry(c, list[i], p).0)
      && (forall i :: 0 <= i < |list| && Fits(list[i].offset, |p|) ==>
            Slice(p', list[i].offset) ==
              c.encode(ApplyFilter(list[i].filter, c.decode(Slice(p, list[i].offset))).1))
      && (forall k :: 0 <= k < |p| && Outside(list, k, |p|) ==> p'[k] == p[k])
  {
    if list != [] {
      hide ApplyFilter, ApplyEntry, Slice;
      var q := ApplyEntry(c, list[0], p).1;
      var rest := list[1..];
      RestSees(c, list, p);
      EntryWrites(c, list[0], p);
      ApplyDecomposes(c, rest, q);
      var p' := ApplyList(c, rest, q).1;
      forall k | 0 <= k < |p| && Outside(list, k, |p|) ensures p'[k] == p[k] {
        OutsideRest(list, k, |p|);
      }
      if Fits(list[0].offset, |p|) {
        FirstStays(list, q, p');
      }
    }
  }

  lemma {:induction false} EntryWrites(c: SampleFormat, e: Entry, p: Buffer)
    requires IsFormat(c) && FilterOk(e.filter)
    ensures var q := ApplyEntry(c, e, p).1;
      && (Fits(e.offset, |p|) ==>
            Slice(q, e.offset) == c.encode(ApplyFilter(e.filter, c.decode(Slice(p, e.offset))).1))
      && forall k :: 0 <= k < |p| && !(Fits(e.offset, |p|) && e.offset <= k < e.offset + 4) ==> q[k] == p[k]
  {
    hide ApplyFilter;
  }

  /** The filters behind the first see their slices as they were. */
  lemma {:induction false} RestSees(c: SampleFormat, list: seq<Entry>, p: Buffer)
    requires IsFormat(c) && FiltersOk(list) && Separated(list, |p|) && list != []
    ensures var q, rest := ApplyEntry(c, list[0], p).1, list[1..];
      && FiltersOk(rest) && Separated(rest, |p|)
      && forall i :: 0 <= i < |rest| ==>
           && rest[i] == list[i + 1] && ApplyEntry(c, rest[i], q).0 == ApplyEntry(c, rest[i], p).0
           && (Fits(rest[i].offset, |p|) ==> Slice(q, rest[i].offset) == Slice(p, rest[i].offset))
  {
    hide ApplyFilter;
    var q, rest := ApplyEntry(c, list[0], p).1, list[1..];
    forall i | 0 <= i < |rest| && Fits(rest[i].offset, |p|)
      ensures Slice(q, rest[i].offset) == Slice(p, rest[i].offset)
    {
      assert rest[i] == list[i + 1];
      EntryLeaves(c, list[0], p, rest[i].offset);
    }
  }

  lemma {:induction false} OutsideRest(list: seq<Entry>, k: nat, len: nat)
    requires list != [] && Outside(list, k, len)
    ensures Outside(list[1..], k, len)
  {
    assert forall i :: 0 <= i < |list| - 1 ==> list[1..][i] == list[i + 1];
  }

  /** The first slice is not touched by the separated filters behind it. */
  lemma {:induction false} FirstStays(list: seq<Entry>, q: Buffer, p': Buffer)
    requires list != [] && Fits(list[0].offset, |q|) && |p'| == |q| && Separated(list, |q|)
    requires forall k :: 0 <= k < |q| && Outside(list[1..], k, |q|) ==> p'[k] == q[k]
    ensures Slice(p', list[0].offset) == Slice(q, list[0].offset)
  {
    forall k | list[0].offset <= k < list[0].offset + 4 ensures p'[k] == q[k] {
      assert Outside(list[1..], k, |q|);
    }
  }

  /** Byte k belongs to no filtered slice. */
  ghost predicate Outside(list: seq<Entry>, k: nat, len: nat) {
    forall i :: 0 <= i < |list| && Fits(list[i].offset, len) ==>
      !(list[i].offset <= k < list[i].offset + 4)
  }

  // ---- the registry's table ----

  /** Every stored list is non-empty, strictly increasing in offset, and under the key of some event. */
  ghost predicate TableOk(t: Entries) {
    forall k :: k in t ==>
      t[k] != [] && Increasing(t[k]) && FiltersOk(t[k]) && exists id :: MakeKey(id) == k
  }

  function ListOf(t: Entries, id: EventId): seq<Entry> {
    if MakeKey(id) in t then t[MakeKey(id)] else []
  }

  /** The table read as a plain map from (service, instance, event, offset) to filter. */
  function View(t: Entries, id: EventId, offset: u16): Option<Filter> {
    Find(ListOf(t, id), offset)
  }

  function SetFilter(t: Entries, id: EventId, offset: u16, f: Filter): Entries {
    t[MakeKey(id) := Put(ListOf(t, id), offset, f)]
  }

  function ClearFilter(t: Entries, id: EventId): Entries {
    t - {MakeKey(id)}
  }

  function ClearFilterAt(t: Entries, id: EventId, offset: u16): Entries {
    var list := Without(ListOf(t, id), offset);
    if list == [] then t - {MakeKey(id)} else t[MakeKey(id) := list]
  }

  ghost function ApplyTo(c: SampleFormat, t: Entries, id: EventId, p: Buffer): (r: (Entries, Buffer))
    requires IsFormat(c) && TableOk(t)
    ensures |r.1| == |p|
  {
    if MakeKey(id) !in t then (t, p)
    else
      var (list, p') := ApplyList(c, t[MakeKey(id)], p);
      (t[MakeKey(id) := list], p')
  }

  // ---- lemmas of the operations ----

  lemma {:induction false} PutReplaces(list: seq<Entry>, i: nat, f: Filter)
    requires Increasing(list) && i < |list|
    ensures Put(list, list[i].offset, f) == list[i := Entry(list[i].offset, f)]
  {
    if i > 0 {
      PutReplaces(list[1..], i - 1, f);
    }
  }

  lemma {:induction false} PutInserts(list: seq<Entry>, pos: nat, offset: u16, f: Filter)
    requires pos <= |list|
    requires forall i :: 0 <= i < pos ==> list[i].offset < offset
    requires forall i :: pos <= i < |list| ==> list[i].offset > offset
    ensures Put(list, offset, f) == list[..pos] + [Entry(offset, f)] + list[pos..]
  {
    if pos > 0 {
      var rest := list[1..];
      PutInserts(rest, pos - 1, offset, f);
      assert list[..pos] == [list[0]] + rest[..pos - 1] && list[pos..] == rest[pos - 1..];
      assert [list[0]] + (rest[..pos - 1] + [Entry(offset, f)] + rest[pos - 1..]) ==
             list[..pos] + [Entry(offset, f)] + list[pos..];
    } else {
      assert list[..0] == [] && list[0..] == list;
    }
  }

  lemma {:induction false} ListStep(c: SampleFormat, list: seq<Entry>, p: Buffer, r: seq<Entry>, p': Buffer)
    requires IsFormat(c) && FiltersOk(list) && list != [] && ApplyList(c, list, p) == (r, p')
    ensures ApplyEntry(c, list[0], p).0 == r[0]
    ensures ApplyList(c, list[1..], ApplyEntry(c, list[0], p).1) == (r[1..], p')
  {}

  lemma {:induction false} ApplyKeeps(c: SampleFormat, list: seq<Entry>, p: Buffer)
    requires IsFormat(c) && FiltersOk(list)
    ensures FiltersOk(ApplyList(c, list, p).0)
    ensures forall i :: 0 <= i < |list| ==> ApplyList(c, list, p).0[i].offset == list[i].offset
  {
    if list != [] {
      ApplyKeeps(c, list[1..], ApplyEntry(c, list[0], p).1);
    }
  }

  ghost function EventUnder(key: u64): (id: EventId)
    requires exists id :: MakeKey(id) == key
    ensures MakeKey(id) == key
  {
    var id :| MakeKey(id) == key;
    id
  }

  /** The events that have a filter at some offset. */
  ghost function EventsOf(t: Entries): (ids: set<EventId>)
    requires TableOk(t)
    ensures forall id :: id in ids <==> exists offset: u16 :: View(t, id, offset).Some?
  {
    var ids := set k | k in t :: EventUnder(k);
    assert forall id :: id in ids <==> exists offset: u16 :: View(t, id, offset).Some? by {
      forall id ensures id in ids <==> exists offset: u16 :: View(t, id, offset).Some? {
        hide MakeKey;
        if MakeKey(id) in t {
          SameKey(EventUnder(MakeKey(id)), id);
          assert View(t, id, t[MakeKey(id)][0].offset).Some?;
        }
      }
    }
    ids
  }

  /** count() is the number of events that have a filter. */
  lemma {:induction false} CountIsOfEvents(t: Entries)
    requires TableOk(t)
    ensures |EventsOf(t)| == |t|
  {
    hide MakeKey;
    var ids := EventsOf(t);
    forall k | k in t ensures exists id :: id in ids && MakeKey(id) == k {
      var id := EventUnder(k);
      assert View(t, id, t[k][0].offset).Some?;
    }
    forall id | id in ids ensures MakeKey(id) in t {
      var offset: u16 :| View(t, id, offset).Some?;
    }
    SameSize(ids, t.Keys);
  }

  lemma {:induction false} SameSize(ids: set<EventId>, keys: set<u64>)
    requires forall id :: id in ids ==> MakeKey(id) in keys
    requires forall k :: k in keys ==> exists id :: id in ids && MakeKey(id) == k
    ensures |ids| == |keys|
  {
    hide MakeKey;
    if ids != {} {
      var id :| id in ids;
      forall i | i in ids - {id} ensures MakeKey(i) != MakeKey(id) { SameKey(i, id); }
      forall k | k in keys - {MakeKey(id)} ensures exists i :: i in ids - {id} && MakeKey(i) == k {
        var i :| i in ids && MakeKey(i) == k;
      }
      SameSize(ids - {id}, keys - {MakeKey(id)});
    }
  }
}
