/** FilterRegistry of src/signal_filter.cpp: lists of owned filter objects under event keys, updated in place.
    Every method does to the values of the objects what FilterTable says. */
module FilterRegistry {
  import opened Bits
  import opened Bytes
  import opened Options
  import opened SignalFilters
  import opened FilterObjects
  import opened FilterTable

  /** One list element: an offset and the filter object it owns. */
  datatype FilterEntry = FilterEntry(offset: u16, filter: FilterRef)

  /** v is e with the filter's value in the object's place. */
  ghost predicate StandsFor(e: FilterEntry, v: Entry)
    reads Objects(e.filter)
  {
    RefOk(e.filter) && v == Entry(e.offset, ModelOf(e.filter))
  }

  class Registry {
    const format: SampleFormat
    var entries: map<u64, seq<FilterEntry>>
    /** The lists with the filters' values. */
    ghost var table: Entries
    /** The list and offset for which each filter object was allocated. */
    ghost var owner: map<object, (u64, u16)>

    /** Every filter object in the lists is owned by the place it is in, so no two places share one. */
    ghost predicate Owned()
      reads this
    {
      && this !in owner
      && forall k, i, o :: k in entries && 0 <= i < |entries[k]| && o in Objects(entries[k][i].filter) ==>
           o in owner && owner[o] == (k, entries[k][i].offset)
    }

    ghost predicate Valid()
      reads this, owner.Keys
    {
      && IsFormat(format) && Owned() && TableOk(table)
      && table.Keys == entries.Keys
      && (forall k :: k in entries ==> |table[k]| == |entries[k]|)
      && (forall k, i :: k in entries && 0 <= i < |entries[k]| ==> StandsFor(entries[k][i], table[k][i]))
    }

    constructor (format: SampleFormat)
      requires IsFormat(format)
      ensures Valid() && table == map[] && this.format == format && owner == map[]
    {
      this.format := format;
      entries, table, owner := map[], map[], map[];
    }

    method SetFilter(id: EventId, kind: nat, offset: u16, param: real, sampleHz: real)
      requires Valid()
      modifies this
      ensures Valid() && fresh(owner.Keys - old(owner.Keys))
      ensures table == FilterTable.SetFilter(old(table), id, offset, CreateFilter(kind, param, sampleHz))
    {
      hide MakeKey, Put, CreateFilter, FiltersOk, RefOk, ModelOf, Objects;
      var key := MakeKey(id);
      var list := if key in entries then entries[key] else [];
      ghost var values, v := ListOf(table, id), CreateFilter(kind, param, sampleHz);
      PutKeeps(values, offset, v);
      SameOffsets(list, values);
      var at := FindOffset(list, offset);
      var pos := 0;
      if at == |list| {
        pos := LowerBound(list, offset);
      }
      var f := NewFilter(kind, param, sampleHz);
      Own(key, offset, f);
      var list' := if at < |list| then list[at := FilterEntry(offset, f)]
                   else list[..pos] + [FilterEntry(offset, f)] + list[pos..];
      PutStands(list, values, at, pos, offset, f, list');
      OwnedList(key, list, list', offset, f);
      StoreList(key, list', Put(values, offset, v));
    }

    lemma {:induction false} OwnedList(key: u64, list: seq<FilterEntry>, list': seq<FilterEntry>, offset: u16,
                                       f: FilterRef)
      requires Owned() && list == if key in entries then entries[key] else []
      requires forall e :: e in list' ==> e in list || e == FilterEntry(offset, f)
      requires forall o :: o in Objects(f) ==> o in owner && owner[o] == (key, offset)
      ensures forall i, o :: 0 <= i < |list'| && o in Objects(list'[i].filter) ==>
        o in owner && owner[o] == (key, list'[i].offset)
    {
      hide Objects;
      forall i, o | 0 <= i < |list'| && o in Objects(list'[i].filter)
        ensures o in owner && owner[o] == (key, list'[i].offset)
      {
        var e := list'[i];
        assert e in list';
        if e != FilterEntry(offset, f) {
          var j :| 0 <= j < |list| && list[j] == e;
        }
      }
    }

    lemma {:induction false} SameOffsets(list: seq<FilterEntry>, values: seq<Entry>)
      requires |values| == |list| && forall i :: 0 <= i < |list| ==> StandsFor(list[i], values[i])
      ensures forall i :: 0 <= i < |list| ==> list[i].offset == values[i].offset
    {}

    lemma {:induction false} PutStands(list: seq<FilterEntry>, values: seq<Entry>, at: nat, pos: nat, offset: u16,
                                       f: FilterRef, list': seq<FilterEntry>)
      requires |values| == |list| && Increasing(values) && RefOk(f)
      requires forall i :: 0 <= i < |list| ==> StandsFor(list[i], values[i])
      requires at <= |list| && (at < |list| ==> list[at].offset == offset)
      requires forall i :: 0 <= i < at ==> list[i].offset != offset
      requires pos <= |list|
      requires at == |list| ==> forall i :: 0 <= i < pos ==> list[i].offset < offset
      requires at == |list| ==> forall i :: pos <= i < |list| ==> list[i].offset >= offset
      requires list' == if at < |list| then list[at := FilterEntry(offset, f)]
                        else list[..pos] + [FilterEntry(offset, f)] + list[pos..]
      ensures |list'| == |Put(values, offset, ModelOf(f))|
      ensures forall i :: 0 <= i < |list'| ==> StandsFor(list'[i], Put(values, offset, ModelOf(f))[i])
      ensures forall e :: e in list' ==> e in list || e == FilterEntry(offset, f)
    {
      hide Put, ModelOf, RefOk;
      SameOffsets(list, values);
      if at < |list| {
        PutReplaces(values, at, ModelOf(f));
      } else {
        PutInserts(values, pos, offset, ModelOf(f));
        var vs := values[..pos] + [Entry(offset, ModelOf(f))] + values[pos..];
        forall i | 0 <= i < |list'| ensures StandsFor(list'[i], vs[i]) {
          if i < pos {
            assert StandsFor(list[i], values[i]);
          } else if i > pos {
            assert StandsFor(list[i - 1], values[i - 1]);
          }
        }
      }
    }

    /** Records for which place a new filter object is meant. */
    ghost method Own(key: u64, offset: u16, f: FilterRef)
      requires Valid() && RefOk(f) && Objects(f) !! owner.Keys + {this}
      modifies this`owner
      ensures RefOk(f) && ModelOf(f) == old(ModelOf(f))
      ensures Valid() && owner.Keys == old(owner.Keys) + Objects(f)
      ensures forall o :: o in old(owner) ==> owner[o] == old(owner)[o]
      ensures forall o :: o in Objects(f) ==> owner[o] == (key, offset)
    {
      hide MakeKey, Increasing, FiltersOk, StandsFor, Objects;
      owner := map o | o in owner.Keys + Objects(f) :: if o in Objects(f) then (key, offset) else owner[o];
      forall k, i | k in entries && 0 <= i < |entries[k]| ensures StandsFor(entries[k][i], table[k][i]) {
        assert old(StandsFor(entries[k][i], table[k][i]));
      }
    }

    /** Puts a list of filters owned for it under a key. */
    method StoreList(key: u64, list: seq<FilterEntry>, ghost values: seq<Entry>)
      requires Valid()
      requires list != [] && |values| == |list| && Increasing(values) && exists id :: MakeKey(id) == key
      requires forall i :: 0 <= i < |list| ==> StandsFor(list[i], values[i])
      requires forall i, o :: 0 <= i < |list| && o in Objects(list[i].filter) ==>
        o in owner && owner[o] == (key, list[i].offset)
      modifies this`entries, this`table
      ensures Valid() && table == old(table)[key := values]
    {
      hide MakeKey, Increasing, FiltersOk, StandsFor, Objects;
      ValuesOk(list, values);
      entries := entries[key := list];
      table := table[key := values];
      forall k, i | k in entries && 0 <= i < |entries[k]| ensures StandsFor(entries[k][i], table[k][i]) {
        if k != key {
          assert old(StandsFor(entries[k][i], table[k][i]));
        } else {
          assert old(StandsFor(list[i], values[i]));
        }
      }
    }

    lemma {:induction false} ValuesOk(list: seq<FilterEntry>, values: seq<Entry>)
      requires |values| == |list| && forall i :: 0 <= i < |list| ==> StandsFor(list[i], values[i])
      ensures FiltersOk(values)
    {}

    /** The index of the entry at the offset, or the length of the list. */
    method FindOffset(list: seq<FilterEntry>, offset: u16) returns (at: nat)
      ensures at <= |list|
      ensures at < |list| ==> list[at].offset == offset
      ensures forall i :: 0 <= i < at ==> list[i].offset != offset
    {
      at := 0;
      while at < |list|
        invariant at <= |list|
        invariant forall i :: 0 <= i < at ==> list[i].offset != offset
      {
        if list[at].offset == offset {
          return;
        }
        at := at + 1;
      }
    }

    /** std::lower_bound: the first position whose offset is not below the given one. */
    method LowerBound(list: seq<FilterEntry>, offset: u16) returns (pos: nat)
      requires forall i, j :: 0 <= i < j < |list| ==> list[i].offset < list[j].offset
      ensures pos <= |list|
      ensures forall i :: 0 <= i < pos ==> list[i].offset < offset
      ensures forall i :: pos <= i < |list| ==> list[i].offset >= offset
    {
      var lo, hi := 0, |list|;
      while lo < hi
        invariant 0 <= lo <= hi <= |list|
        invariant forall i :: 0 <= i < lo ==> list[i].offset < offset
        invariant forall i :: hi <= i < |list| ==> list[i].offset >= offset
      {
        var mid := lo + (hi - lo) / 2;
        if list[mid].offset < offset {
          lo := mid + 1;
        } else {
          hi := mid;
        }
      }
      pos := lo;
    }

    method ClearFilter(id: EventId)
      requires Valid()
      modifies this
      ensures Valid() && owner == old(owner)
      ensures table == FilterTable.ClearFilter(old(table), id)
    {
      hide MakeKey, FiltersOk, StandsFor, Objects, Increasing;
      RemoveKey(MakeKey(id));
    }

    method RemoveKey(key: u64)
      requires Valid()
      modifies this
      ensures Valid() && owner == old(owner) && entries == old(entries) - {key} && table == old(table) - {key}
    {
      hide MakeKey, FiltersOk, StandsFor, Objects, Increasing;
      entries := entries - {key};
      table := table - {key};
      forall k, i | k in entries && 0 <= i < |entries[k]|
        ensures StandsFor(entries[k][i], table[k][i])
      {
        assert old(StandsFor(entries[k][i], table[k][i]));
        assert forall o :: o in Objects(entries[k][i].filter) ==> o in owner;
      }
    }

    method ClearFilterAt(id: EventId, offset: u16)
      requires Valid()
      modifies this
      ensures Valid() && owner == old(owner)
      ensures table == FilterTable.ClearFilterAt(old(table), id, offset)
    {
      hide MakeKey, Without, FiltersOk, StandsFor, Objects, Increasing;
      var key := MakeKey(id);
      if key !in entries {
        NothingToClear(offset);
        assert table - {key} == table;
        return;
      }
      ghost var values := table[key];
      WithoutKeeps(values, offset);
      var list := RemoveIf(entries[key], values, offset);
      if list == [] {
        RemoveKey(key);
      } else {
        PassthroughHasNoState();
        OwnedList(key, entries[key], list, offset, PassthroughRef);
        StoreList(key, list, Without(values, offset));
      }
    }

    lemma {:induction false} NothingToClear(offset: u16)
      ensures Without([], offset) == []
    {}

    lemma {:induction false} PassthroughHasNoState()
      ensures Objects(PassthroughRef) == {}
    {}

    /** std::remove_if over the list, then erase. */
    method RemoveIf(list: seq<FilterEntry>, ghost values: seq<Entry>, offset: u16) returns (kept: seq<FilterEntry>)
      requires |values| == |list|
      requires forall i :: 0 <= i < |list| ==> StandsFor(list[i], values[i])
      ensures |kept| == |Without(values, offset)|
      ensures forall i :: 0 <= i < |kept| ==> StandsFor(kept[i], Without(values, offset)[i])
      ensures forall e :: e in kept ==> e in list
    {
      hide RefOk, ModelOf, Objects, Without;
      kept := [];
      ghost var gone: seq<Entry> := [];
      var i := 0;
      while i < |list|
        invariant i <= |list| && |gone| == |kept|
        invariant forall j :: 0 <= j < |list| ==> StandsFor(list[j], values[j])
        invariant gone + Without(values[i..], offset) == Without(values, offset)
        invariant forall j :: 0 <= j < |kept| ==> StandsFor(kept[j], gone[j])
        invariant forall e :: e in kept ==> e in list
      {
        WithoutStep(values[i..], offset);
        assert values[i..][1..] == values[i + 1..];
        assert StandsFor(list[i], values[i]);
        ghost var before, rest := gone, Without(values[i + 1..], offset);
        if list[i].offset != offset {
          kept := kept + [list[i]];
          gone := gone + [values[i]];
          assert gone + rest == before + ([values[i]] + rest);
        }
        i := i + 1;
      }
      NothingToClear(offset);
      assert values[|list|..] == [] && gone == Without(values, offset);
    }

    method HasFilter(id: EventId) returns (has: bool)
      requires Valid()
      ensures has <==> exists offset: u16 :: View(table, id, offset).Some?
    {
      hide MakeKey, FiltersOk, StandsFor, Objects;
      var key := MakeKey(id);
      has := key in entries && entries[key] != [];
      if has {
        assert View(table, id, table[key][0].offset).Some?;
      }
    }

    /** Filters one slice, unless it reaches past len. */
    method ApplyOne(e: FilterEntry, ghost v: Entry, payload: array<u8>, len: u32)
        returns (fits: bool, ghost v': Entry)
      requires IsFormat(format) && StandsFor(e, v) && len <= payload.Length && payload !in Objects(e.filter)
      modifies payload, Objects(e.filter)
      ensures StandsFor(e, v') && v'.offset == v.offset && FilterOk(v'.filter) && fits == Fits(v.offset, len)
      ensures (v', payload[..len]) == ApplyEntry(format, v, old(payload[..len]))
      ensures payload[len..] == old(payload[len..])
    {
      fits, v' := Fits(e.offset, len), v;
      if fits {
        hide RefOk, Objects, ApplyFilter;
        ghost var p, o := payload[..len], e.offset;
        assert payload[o..o + 4] == Slice(p, o);
        var y := ApplyRef(e.filter, format.decode(payload[e.offset..e.offset + 4]));
        var bytes := format.encode(y);
        forall k | 0 <= k < 4 {
          payload[e.offset + k] := bytes[k];
        }
        assert payload[..len] == Patch(p, o, bytes);
        v' := Entry(v.offset, ModelOf(e.filter));
      }
    }

    lemma {:induction false} OwnObjects(key: u64, i: nat)
      requires Valid() && key in entries && i < |entries[key]|
      ensures forall k, j :: k in entries && 0 <= j < |entries[k]| && (k, j) != (key, i) ==>
        Objects(entries[k][j].filter) !! Objects(entries[key][i].filter)
    {
      hide Objects, RefOk, ModelOf, MakeKey, FiltersOk;
      forall k, j, o | k in entries && 0 <= j < |entries[k]| && (k, j) != (key, i) &&
                       o in Objects(entries[k][j].filter)
        ensures o !in Objects(entries[key][i].filter)
      {
        assert StandsFor(entries[k][j], table[k][j]) && StandsFor(entries[key][i], table[key][i]);
        assert owner[o] == (k, table[k][j].offset);
      }
    }

    lemma {:induction false} UpdateOk(key: u64, i: nat, v: Entry)
      requires TableOk(table) && key in table && i < |table[key]|
      requires v.offset == table[key][i].offset && FilterOk(v.filter)
      ensures TableOk(table[key := table[key][i := v]])
    {
      hide MakeKey, FilterOk;
    }

    /** One step of apply's loop. */
    method ApplyAt(key: u64, i: nat, payload: array<u8>, len: u32) returns (fits: bool)
      requires Valid() && key in entries && i < |entries[key]|
      requires len <= payload.Length && payload !in owner
      modifies payload, this`table, Objects(entries[key][i].filter)
      ensures Valid() && fits == Fits(old(table)[key][i].offset, len)
      ensures var (e, p) := ApplyEntry(format, old(table)[key][i], old(payload[..len]));
        table == old(table)[key := old(table)[key][i := e]] && payload[..len] == p
      ensures payload[len..] == old(payload[len..])
    {
      hide MakeKey, ApplyEntry, StandsFor, Objects, Fits, TableOk;
      ghost var v;
      OwnObjects(key, i);
      fits, v := ApplyOne(entries[key][i], table[key][i], payload, len);
      UpdateOk(key, i, v);
      table := table[key := table[key][i := v]];
      forall k, j | k in entries && 0 <= j < |entries[k]| ensures StandsFor(entries[k][j], table[k][j]) {
        if (k, j) != (key, i) {
          assert Objects(entries[k][j].filter) <= old(owner.Keys);
          assert Objects(entries[k][j].filter) !! Objects(entries[key][i].filter) + {payload, this};
          assert unchanged(Objects(entries[k][j].filter));
          assert old(StandsFor(entries[k][j], table[k][j]));
        }
      }
    }

    lemma {:induction false} UnderKey(key: u64)
      requires Valid()
      ensures IsFormat(format) && TableOk(table) && this !in owner && (key in entries <==> key in table)
      ensures key in table ==>
        |table[key]| == |entries[key]| > 0 && FiltersOk(table[key])
        && forall i :: 0 <= i < |entries[key]| ==> Objects(entries[key][i].filter) <= owner.Keys
    {
      hide Objects, FiltersOk, MakeKey;
    }

    /** Filters the first len bytes of the payload in place. */
    method Apply(id: EventId, payload: array<u8>, len: u32) returns (any: bool)
      requires Valid() && len <= payload.Length && payload !in owner
      modifies payload, this`table, owner.Keys
      ensures Valid()
      ensures (table, payload[..len]) == FilterTable.ApplyTo(format, old(table), id, old(payload[..len]))
      ensures payload[len..] == old(payload[len..])
      ensures any <==>
        exists i :: 0 <= i < |ListOf(old(table), id)| && ListOf(old(table), id)[i].offset + 4 <= len
    {
      hide MakeKey, ApplyEntry, ApplyList, Objects, FiltersOk, Part, Valid;
      any := false;
      var key := MakeKey(id);
      UnderKey(key);
      if key !in entries || entries[key] == [] {
        return;
      }
      UnderKey(key);
      ghost var list := table[key];
      assert list == ListOf(old(table), id);
      ghost var p0 := payload[..len];
      var i := 0;
      PartEntry(list, p0);
      while i < |entries[key]|
        invariant Valid() && i <= |list| == |entries[key]|
        invariant entries == old(entries) && owner == old(owner)
        invariant key in table && table == old(table)[key := table[key]]
        invariant Part(list, p0, i, table[key], payload[..len])
        invariant payload[len..] == old(payload[len..])
        invariant any <==> exists j :: 0 <= j < i && Fits(list[j].offset, len)
      {
        PartStep(list, p0, i, table[key], payload[..len]);
        UnderKey(key);
        var fits := ApplyAt(key, i, payload, len);
        any := any || fits;
        i := i + 1;
      }
      PartExit(list, p0, table[key], payload[..len]);
    }

    /** After i steps of apply's loop over list and p0, values and p are what it has made of them. */
    ghost predicate Part(list: seq<Entry>, p0: Buffer, i: nat, values: seq<Entry>, p: Buffer) {
      && IsFormat(format) && FiltersOk(list)
      && var (result, p') := ApplyList(format, list, p0);
         && i <= |list| && values == result[..i] + list[i..]
         && FiltersOk(list[i..]) && ApplyList(format, list[i..], p) == (result[i..], p')
    }

    lemma {:induction false} PartEntry(list: seq<Entry>, p0: Buffer)
      requires IsFormat(format) && FiltersOk(list)
      ensures Part(list, p0, 0, list, p0)
    {
      hide ApplyList;
      var result := ApplyList(format, list, p0).0;
      assert list[0..] == list && result[0..] == result && result[..0] + list == list;
    }

    lemma {:induction false} PartStep(list: seq<Entry>, p0: Buffer, i: nat, values: seq<Entry>, p: Buffer)
      requires Part(list, p0, i, values, p) && i < |list|
      ensures values[i] == list[i]
      ensures var (e, q) := ApplyEntry(format, values[i], p); Part(list, p0, i + 1, values[i := e], q)
    {
      hide ApplyList, ApplyEntry;
      var (result, p') := ApplyList(format, list, p0);
      assert list[i..][0] == list[i] && list[i..][1..] == list[i + 1..] && result[i..][1..] == result[i + 1..];
      ListStep(format, list[i..], p, result[i..], p');
      var (e, q) := ApplyEntry(format, values[i], p);
      assert e == result[i];
      assert values[i := e] == result[..i + 1] + list[i + 1..];
    }

    lemma {:induction false} PartExit(list: seq<Entry>, p0: Buffer, values: seq<Entry>, p: Buffer)
      requires Part(list, p0, |list|, values, p)
      ensures ApplyList(format, list, p0) == (values, p)
    {
      var result := ApplyList(format, list, p0).0;
      assert list[|list|..] == [] && result[..|list|] + [] == result;
    }

    method Count() returns (n: nat)
      requires Valid()
      ensures n == |EventsOf(table)|
    {
      hide MakeKey, FiltersOk, StandsFor, Objects;
      n := |entries|;
      assert |table.Keys| == |entries.Keys|;
      CountIsOfEvents(table);
    }
  }
}
