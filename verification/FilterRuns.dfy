/** Whole runs of the filter registry: after any sequence of calls, what is stored and what is written to
    payloads is what one standalone filter per (event, offset) would give. */
module FilterRuns {
  import opened Bits
  import opened Bytes
  import opened Options
  import opened Iir
  import Medians
  import opened SignalFilters
  import opened FilterTable

  datatype Call =
    | Set(id: EventId, kind: nat, offset: u16, param: real, sampleHz: real)
    | Clear(id: EventId)
    | ClearAt(id: EventId, offset: u16)
    | Apply(id: EventId, payload: Buffer)

  /** The table after one call, and for Apply the payload as it is left. */
  ghost function Do(c: SampleFormat, t: Entries, call: Call): (Entries, Buffer)
    requires IsFormat(c) && TableOk(t)
  {
    match call
    case Set(id, kind, offset, param, hz) => (SetFilter(t, id, offset, CreateFilter(kind, param, hz)), [])
    case Clear(id) => (ClearFilter(t, id), [])
    case ClearAt(id, offset) => (ClearFilterAt(t, id, offset), [])
    case Apply(id, p) => ApplyTo(c, t, id, p)
  }

  /** Every call keeps the lists non-empty, strictly increasing and under event keys. */
  lemma {:induction false} DoKeepsTable(c: SampleFormat, t: Entries, call: Call)
    requires IsFormat(c) && TableOk(t)
    ensures TableOk(Do(c, t, call).0)
  {
    hide MakeKey;
    var list := ListOf(t, call.id);
    match call
    case Set(id, kind, offset, param, hz) => PutKeeps(list, offset, CreateFilter(kind, param, hz));
    case Clear(_) =>
    case ClearAt(id, offset) => WithoutKeeps(list, offset);
    case Apply(id, p) =>
      ApplyKeeps(c, list, p);
  }

  /** The table after a run of calls on an empty registry. */
  ghost function After(c: SampleFormat, calls: seq<Call>): (t: Entries)
    requires IsFormat(c)
    ensures TableOk(t)
  {
    if calls == [] then map[]
    else
      var before, call := After(c, calls[..|calls| - 1]), calls[|calls| - 1];
      DoKeepsTable(c, before, call);
      Do(c, before, call).0
  }

  // ---- the plain map ----

  /** What one call does to the filter stored for (id, offset). */
  ghost function DoView(c: SampleFormat, f: Option<Filter>, call: Call, id: EventId, offset: u16): Option<Filter>
    requires f.Some? ==> FilterOk(f.value)
  {
    if call.id != id then f
    else match call
      case Set(_, kind, o, param, hz) => if o == offset then Some(CreateFilter(kind, param, hz)) else f
      case Clear(_) => None
      case ClearAt(_, o) => if o == offset then None else f
      case Apply(_, p) =>
        if f.Some? && Fits(offset, |p|)
        then Some(ApplyFilter(f.value, c.decode(Slice(p, offset))).0)
        else f
  }

  lemma {:induction false} FindFiltered(c: SampleFormat, list: seq<Entry>, list': seq<Entry>, p: Buffer, o: u16)
    requires IsFormat(c) && FiltersOk(list) && |list'| == |list|
    requires forall i :: 0 <= i < |list| ==> list'[i] == ApplyEntry(c, list[i], p).0
    ensures Find(list, o).Some? ==> FilterOk(Find(list, o).value)
    ensures Find(list', o) ==
      match Find(list, o)
      case None => None
      case Some(f) =>
        if Fits(o, |p|) then Some(ApplyFilter(f, c.decode(Slice(p, o))).0) else Some(f)
  {
    if list != [] && list[0].offset != o {
      FindFiltered(c, list[1..], list'[1..], p, o);
    }
  }

  /** The registry refines the plain map: each call changes the filter of each (id, offset) as DoView says,
      so a set is a fresh overwrite and nothing else reaches across events or offsets. */
  lemma {:induction false} DoRefinesMap(c: SampleFormat, t: Entries, call: Call, id: EventId, offset: u16)
    requires IsFormat(c) && TableOk(t)
    requires call.Apply? && call.id == id ==> Separated(ListOf(t, id), |call.payload|)
    ensures View(t, id, offset).Some? ==> FilterOk(View(t, id, offset).value)
    ensures View(Do(c, t, call).0, id, offset) == DoView(c, View(t, id, offset), call, id, offset)
  {
    hide MakeKey;
    SameKey(call.id, id);
    ViewOk(t, id, offset);
    var list := ListOf(t, call.id);
    match call
    case Set(_, kind, o, param, hz) => FindPut(list, o, CreateFilter(kind, param, hz), offset);
    case Clear(_) =>
    case ClearAt(_, o) => FindWithout(list, o, offset);
    case Apply(_, p) =>
      if call.id == id {
        ApplyDecomposes(c, list, p);
        FindFiltered(c, list, ApplyList(c, list, p).0, p, offset);
      }
  }

  lemma {:induction false} ViewOk(t: Entries, id: EventId, offset: u16)
    requires TableOk(t)
    ensures View(t, id, offset).Some? ==> FilterOk(View(t, id, offset).value)
  {
    hide MakeKey;
    if View(t, id, offset).Some? {
      var i := FindSome(ListOf(t, id), offset);
    }
  }

  // ---- one standalone filter per (event, offset) ----

  /** The calls' effect on (id, offset) alone: the filter made by the last set, and the samples read at
      that offset since then from payloads long enough to hold one. */
  ghost function Stream(c: SampleFormat, calls: seq<Call>, id: EventId, offset: u16): (s: Option<(Filter, seq<real>)>)
    ensures s.Some? ==> FilterOk(s.value.0)
  {
    if calls == [] then None
    else
      var before, call := Stream(c, calls[..|calls| - 1], id, offset), calls[|calls| - 1];
      if call.id != id then before
      else match call
        case Set(_, kind, o, param, hz) => if o == offset then Some((CreateFilter(kind, param, hz), [])) else before
        case Clear(_) => None
        case ClearAt(_, o) => if o == offset then None else before
        case Apply(_, p) =>
          if before.Some? && Fits(offset, |p|)
          then Some((before.value.0, before.value.1 + [c.decode(Slice(p, offset))]))
          else before
  }

  /** A filter fed with samples. */
  ghost function FeedFilter(f: Filter, xs: seq<real>): (r: Filter)
    requires FilterOk(f)
    ensures FilterOk(r)
  {
    if xs == [] then f else ApplyFilter(FeedFilter(f, xs[..|xs| - 1]), xs[|xs| - 1]).0
  }

  // ---- which offsets have filters ----

  /** The offsets of an event that have a filter after these calls. */
  function Live(calls: seq<Call>, id: EventId): set<u16> {
    if calls == [] then {}
    else
      var before, call := Live(calls[..|calls| - 1], id), calls[|calls| - 1];
      if call.id != id then before
      else match call
        case Set(_, _, o, _, _) => before + {o}
        case Clear(_) => {}
        case ClearAt(_, o) => before - {o}
        case Apply(_, _) => before
  }

  /** Slices at these offsets that lie in a payload of this length do not overlap. */
  ghost predicate Apart(offsets: set<u16>, len: nat) {
    forall a, b :: a in offsets && b in offsets && a < b && Fits(b, len) ==> a + 4 <= b
  }

  /** Whenever the event's filters are applied, their slices in that payload do not overlap. */
  ghost predicate SeparatedCalls(calls: seq<Call>, id: EventId) {
    calls == [] ||
    var before, call := calls[..|calls| - 1], calls[|calls| - 1];
    SeparatedCalls(before, id) && (call.Apply? && call.id == id ==> Apart(Live(before, id), |call.payload|))
  }

  lemma {:induction false} SeparatedBefore(calls: seq<Call>, id: EventId, p: Buffer)
    requires SeparatedCalls(calls + [Apply(id, p)], id)
    ensures SeparatedCalls(calls, id) && Apart(Live(calls, id), |p|)
  {
    assert (calls + [Apply(id, p)])[..|calls|] == calls;
  }

  lemma {:induction false} LiveIsStored(c: SampleFormat, calls: seq<Call>, id: EventId, o: u16)
    requires IsFormat(c)
    ensures o in Live(calls, id) <==> View(After(c, calls), id, o).Some?
  {
    hide MakeKey;
    if calls != [] {
      var before, call := After(c, calls[..|calls| - 1]), calls[|calls| - 1];
      LiveIsStored(c, calls[..|calls| - 1], id, o);
      SameKey(call.id, id);
      var list := ListOf(before, call.id);
      match call
      case Set(_, kind, offset, param, hz) => FindPut(list, offset, CreateFilter(kind, param, hz), o);
      case Clear(_) =>
      case ClearAt(_, offset) => FindWithout(list, offset, o);
      case Apply(_, p) =>
        ApplyKeeps(c, list, p);
        FindSameOffsets(list, ApplyList(c, list, p).0, o);
    }
  }

  lemma {:induction false} ApartIsSeparated(c: SampleFormat, calls: seq<Call>, id: EventId, len: nat)
    requires IsFormat(c) && Apart(Live(calls, id), len)
    ensures var list := ListOf(After(c, calls), id);
      Increasing(list) && FiltersOk(list) && Separated(list, len)
  {
    hide MakeKey, Live;
    var list := ListOf(After(c, calls), id);
    forall i | 0 <= i < |list| ensures list[i].offset in Live(calls, id) {
      FindAt(list, i);
      LiveIsStored(c, calls, id, list[i].offset);
    }
  }

  /** After these calls the filter stored for (id, offset) is the one made by the last set for it, fed
      exactly that offset's samples from long-enough payloads since then. */
  ghost predicate Decomposed(c: SampleFormat, calls: seq<Call>, id: EventId, offset: u16)
    requires IsFormat(c)
  {
    var s := Stream(c, calls, id, offset);
    View(After(c, calls), id, offset) == if s.None? then None else Some(FeedFilter(s.value.0, s.value.1))
  }

  lemma {:induction false} NothingStored(c: SampleFormat, id: EventId, offset: u16)
    requires IsFormat(c)
    ensures Decomposed(c, [], id, offset)
  {}

  /** That is so after any run in which the event's slices do not overlap where they are applied. */
  lemma {:induction false} RegistryDecomposes(c: SampleFormat, calls: seq<Call>, id: EventId, offset: u16)
    requires IsFormat(c) && SeparatedCalls(calls, id)
    ensures Decomposed(c, calls, id, offset)
  {
    hide MakeKey, ApplyFilter, Live, Do, View, ListOf, Apart, Separated, CreateFilter;
    if calls == [] {
      NothingStored(c, id, offset);
    } else {
      var before, call := calls[..|calls| - 1], calls[|calls| - 1];
      RegistryDecomposes(c, before, id, offset);
      if call.Apply? && call.id == id {
        ApartIsSeparated(c, before, id, |call.payload|);
      }
      DoRefinesMap(c, After(c, before), call, id, offset);
      var s := Stream(c, calls, id, offset);
      if s.Some? && s.value.1 != [] {
        var xs := s.value.1;
        assert FeedFilter(s.value.0, xs) == ApplyFilter(FeedFilter(s.value.0, xs[..|xs| - 1]), xs[|xs| - 1]).0;
      }
    }
  }

  /** What the standalone filter answers to its last sample. */
  ghost function LastOutput(f: Filter, xs: seq<real>): real
    requires FilterOk(f) && xs != []
  {
    ApplyFilter(FeedFilter(f, xs[..|xs| - 1]), xs[|xs| - 1]).1
  }

  /** A filter that these calls have left at offset o writes byte k of a payload of this length. */
  ghost predicate Covers(c: SampleFormat, calls: seq<Call>, id: EventId, len: nat, o: u16, k: nat) {
    o <= k < o + 4 && Fits(o, len) && Stream(c, calls, id, o).Some?
  }

  /** And the payload of each apply call is rewritten to those standalone filters' outputs: at every offset
      with a filter whose slice fits, the encoded last output; every other byte as it was. */
  lemma {:induction false} PayloadDecomposes(c: SampleFormat, calls: seq<Call>, id: EventId, p: Buffer)
    requires IsFormat(c) && SeparatedCalls(calls + [Apply(id, p)], id)
    ensures var p' := Do(c, After(c, calls), Apply(id, p)).1;
      && |p'| == |p|
      && (forall o: u16 :: Fits(o, |p|) && Stream(c, calls, id, o).Some? ==>
            var (f, xs) := Stream(c, calls, id, o).value;
            Slice(p', o) == c.encode(LastOutput(f, xs + [c.decode(Slice(p, o))])))
      && (forall k :: 0 <= k < |p| && p'[k] != p[k] ==> exists o: u16 :: Covers(c, calls, id, |p|, o, k))
  {
    hide MakeKey, ApplyFilter, After, Stream, Live, SeparatedCalls, Put, Without;
    var t := After(c, calls);
    var list := ListOf(t, id);
    SeparatedBefore(calls, id, p);
    ApartIsSeparated(c, calls, id, |p|);
    ApplyDecomposes(c, list, p);
    var p' := ApplyList(c, list, p).1;
    assert ApplyTo(c, t, id, p).1 == p';
    forall o: u16 | Fits(o, |p|) && Stream(c, calls, id, o).Some?
      ensures var (f, xs) := Stream(c, calls, id, o).value;
        Slice(p', o) == c.encode(LastOutput(f, xs + [c.decode(Slice(p, o))]))
    {
      var (f, xs) := Stream(c, calls, id, o).value;
      RegistryDecomposes(c, calls, id, o);
      var i := FindSome(list, o);
      var x := c.decode(Slice(p, o));
      assert (xs + [x])[..|xs|] == xs;
    }
    forall k | 0 <= k < |p| && p'[k] != p[k]
      ensures exists o: u16 :: Covers(c, calls, id, |p|, o, k)
    {
      var i :| 0 <= i < |list| && Fits(list[i].offset, |p|) && list[i].offset <= k < list[i].offset + 4;
      FindAt(list, i);
      RegistryDecomposes(c, calls, id, list[i].offset);
      assert Covers(c, calls, id, |p|, list[i].offset, k);
    }
  }

  /** The byte it writes there, when it works alone. */
  ghost function WrittenByte(c: SampleFormat, calls: seq<Call>, id: EventId, p: Buffer, o: u16, k: nat): u8
    requires IsFormat(c) && Covers(c, calls, id, |p|, o, k)
  {
    var (f, xs) := Stream(c, calls, id, o).value;
    var y := LastOutput(f, xs + [c.decode(Slice(p, o))]);
    c.encode(y)[k - o]
  }

  /** Byte k of a payload when each filter of the event works alone: a byte of the standalone filter's output,
      or as it was. */
  ghost function StandaloneByte(c: SampleFormat, calls: seq<Call>, id: EventId, p: Buffer, k: nat): u8
    requires IsFormat(c) && k < |p|
  {
    if o: u16 :| Covers(c, calls, id, |p|, o, k) then WrittenByte(c, calls, id, p, o, k) else p[k]
  }

  ghost function Standalone(c: SampleFormat, calls: seq<Call>, id: EventId, p: Buffer): (r: Buffer)
    requires IsFormat(c)
    ensures |r| == |p|
  {
    seq(|p|, k requires 0 <= k < |p| => StandaloneByte(c, calls, id, p, k))
  }

  /** What apply makes of a payload. */
  lemma {:induction false} ApplyIsStandalone(c: SampleFormat, calls: seq<Call>, id: EventId, p: Buffer)
    requires IsFormat(c) && SeparatedCalls(calls + [Apply(id, p)], id)
    ensures Do(c, After(c, calls), Apply(id, p)).1 == Standalone(c, calls, id, p)
  {
    hide After, Do, Stream, SeparatedCalls, LastOutput;
    PayloadDecomposes(c, calls, id, p);
    var p' := Do(c, After(c, calls), Apply(id, p)).1;
    forall k | 0 <= k < |p| ensures p'[k] == StandaloneByte(c, calls, id, p, k) {
      if exists o: u16 :: Covers(c, calls, id, |p|, o, k) {
        var o: u16 :| Covers(c, calls, id, |p|, o, k) &&
          StandaloneByte(c, calls, id, p, k) == WrittenByte(c, calls, id, p, o, k);
        assert p'[k] == Slice(p', o)[k - o];
      }
    }
  }

  // ---- the standalone filters ----

  /** A median filter in the registry is MedianFilter: it keeps the last w samples. */
  lemma {:induction false} MedianIsWindowed(w: nat, xs: seq<real>)
    requires w > 0
    ensures FeedFilter(MedianOf(w, []), xs) == MedianOf(w, LastN(xs, w))
    ensures xs != [] ==> LastOutput(MedianOf(w, []), xs) == Medians.Median(LastN(xs, w))
  {
    hide Medians.Median, LastN, ApplyFilter;
    if xs == [] {
      NoSamples(w);
    } else {
      var front, x := xs[..|xs| - 1], xs[|xs| - 1];
      MedianIsWindowed(w, front);
      MedianStep(w, front, x);
      assert front + [x] == xs;
    }
  }

  lemma {:induction false} NoSamples(w: nat)
    ensures LastN([], w) == []
  {}

  lemma {:induction false} MedianStep(w: nat, xs: seq<real>, x: real)
    requires w > 0
    ensures ApplyFilter(MedianOf(w, LastN(xs, w)), x) ==
            (MedianOf(w, LastN(xs + [x], w)), Medians.Median(LastN(xs + [x], w)))
  {
    hide Medians.Median;
    LastNStep(xs, x, w);
  }

  /** So is an exponential filter its recurrence. */
  lemma {:induction false} EmaIsRecurrence(iir: Iir, xs: seq<real>)
    ensures FeedFilter(Ema(iir), xs) == Ema(FeedAll(iir, xs))
    ensures FeedFilter(Lowpass1(iir), xs) == Lowpass1(FeedAll(iir, xs))
  {
    hide Feed;
    if xs != [] {
      EmaIsRecurrence(iir, xs[..|xs| - 1]);
    }
  }

  lemma {:induction false} PassthroughKeeps(xs: seq<real>)
    ensures FeedFilter(Passthrough, xs) == Passthrough
  {
    if xs != [] {
      PassthroughKeeps(xs[..|xs| - 1]);
    }
  }

  /** What a filter set with a type byte answers after samples xs: the closed form with the type's
      coefficient, the median of the last window, or the sample itself. */
  lemma {:induction false} FilterTypesCompute(kind: nat, param: real, hz: real, xs: seq<real>)
    requires xs != []
    ensures var out := LastOutput(CreateFilter(kind, param, hz), xs);
      if kind == 1 then out == Dot(Weights(EmaAlpha(param), |xs|), xs)
      else if kind == 2 then
        var w := if 1.0 <= param <= 1024.0 then param.Floor else 1;
        w > 0 && out == Medians.Median(LastN(xs, w))
      else if kind == 3 then out == Dot(Weights(LowpassAlpha(param, hz), |xs|), xs)
      else out == xs[|xs| - 1]
  {
    hide Medians.Median, Dot, Weights, EmaAlpha, LowpassAlpha, Feed;
    var front := xs[..|xs| - 1];
    var iir := Iir(if kind == 1 then EmaAlpha(param) else LowpassAlpha(param, hz), 0.0, false);
    if kind == 1 || kind == 3 {
      EmaIsRecurrence(iir, front);
      FeedSnoc(iir, xs);
      ClosedForm(iir, xs);
    } else if kind == 2 {
      MedianIsWindowed(if 1.0 <= param <= 1024.0 then param.Floor else 1, xs);
    } else {
      PassthroughKeeps(front);
    }
  }

  // ---- which offsets are safe ----

  /** Of float32: 0.0 is written as four zero bytes, and only they, and those of -0.0, are read as zero. */
  ghost predicate IsFloatFormat(c: SampleFormat) {
    && IsFormat(c) && c.encode(0.0) == ZERO && c.decode(ZERO) == 0.0
    && forall b: Buffer :: |b| == 4 && c.decode(b) == 0.0 ==> b[..3] == [0, 0, 0] && b[3] in {0, 0x80}
  }

  const ZERO: Buffer := [0, 0, 0, 0]

  /** These facts go together: here every other sample is written and read as 1.0. */
  lemma {:induction false} FloatFormatExists() returns (c: SampleFormat)
    ensures IsFloatFormat(c)
  {
    c := SampleFormat(b => if |b| == 4 && b[..3] == [0, 0, 0] && b[3] in {0, 0x80} then 0.0 else 1.0,
                      v => if v == 0.0 then ZERO else [0, 0, 0x80, 0x3F]);
  }

  /** Calls that set the event's filters at these offsets only. */
  ghost predicate SetsWithin(calls: seq<Call>, id: EventId, offsets: set<u16>) {
    forall i :: 0 <= i < |calls| && calls[i].Set? && calls[i].id == id ==> calls[i].offset in offsets
  }

  /** Every two offsets are at least 4 apart. */
  ghost predicate Spaced(offsets: set<u16>) {
    forall a, b :: a in offsets && b in offsets && a < b ==> a + 4 <= b
  }

  lemma {:induction false} SpacedIsSeparated(calls: seq<Call>, id: EventId, offsets: set<u16>)
    requires SetsWithin(calls, id, offsets) && Spaced(offsets)
    ensures Live(calls, id) <= offsets && SeparatedCalls(calls, id)
  {
    if calls != [] {
      SpacedIsSeparated(calls[..|calls| - 1], id, offsets);
    }
  }

  /** As the header file asks: with filters at multiples of 4 only, every filter of the event is the
      standalone one after every run. */
  lemma {:induction false} AlignedDecomposes(c: SampleFormat, calls: seq<Call>, id: EventId, offset: u16)
    requires IsFormat(c)
    requires forall i :: 0 <= i < |calls| && calls[i].Set? && calls[i].id == id ==> calls[i].offset % 4 == 0
    ensures Decomposed(c, calls, id, offset)
  {
    hide Decomposed;
    var offsets := set i | 0 <= i < |calls| && calls[i].Set? && calls[i].id == id :: calls[i].offset;
    SpacedIsSeparated(calls, id, offsets);
    RegistryDecomposes(c, calls, id, offset);
  }

  lemma {:induction false} AfterSnoc(c: SampleFormat, calls: seq<Call>, call: Call)
    requires IsFormat(c)
    ensures After(c, calls + [call]) == Do(c, After(c, calls), call).0
  {
    hide Do;
    assert (calls + [call])[..|calls + [call]| - 1] == calls;
  }

  lemma {:induction false} ListAfterSet(c: SampleFormat, calls: seq<Call>, id: EventId, kind: nat, o: u16,
                                        param: real)
    requires IsFormat(c)
    ensures ListOf(After(c, calls + [Set(id, kind, o, param, 0.0)]), id) ==
            Put(ListOf(After(c, calls), id), o, CreateFilter(kind, param, 0.0))
  {
    hide MakeKey, After, CreateFilter, Put;
    AfterSnoc(c, calls, Set(id, kind, o, param, 0.0));
  }

  lemma {:induction false} ListAfterApply(c: SampleFormat, calls: seq<Call>, id: EventId, p: Buffer)
    requires IsFormat(c)
    ensures var list := ListOf(After(c, calls), id);
      FiltersOk(list) && ListOf(After(c, calls + [Apply(id, p)]), id) == ApplyList(c, list, p).0
  {
    hide MakeKey, After;
    AfterSnoc(c, calls, Apply(id, p));
  }

  /** Zeros, but for a one at o. */
  function Blip(o: nat): (p: Buffer)
    ensures |p| == o + 4
  {
    seq(o + 4, k => if k == o then 1 else 0)
  }

  /** A median of two zeros and one more sample is zero, and wipes the blip inside its slice. */
  lemma {:induction false} MedianWipes(c: SampleFormat, o1: u16, o2: u16, f: Filter)
    requires IsFloatFormat(c) && o1 < o2 < o1 + 4 && FilterOk(f)
    ensures c.decode(Slice(Blip(o2), o2)) != 0.0
    ensures var list := [Entry(o1, MedianOf(3, [0.0, 0.0])), Entry(o2, f)];
      FiltersOk(list) && ApplyList(c, list, Blip(o2)).0[1] == Entry(o2, ApplyFilter(f, 0.0).0)
  {
    hide Medians.Median;
    var p, e := Blip(o2), Entry(o1, MedianOf(3, [0.0, 0.0]));
    var x := c.decode(Slice(p, o1));
    assert Slice(p, o2)[0] == 1;
    assert [0.0, 0.0] + [x] == [0.0, 0.0, x];
    ZeroMedian(x);
    var q := Patch(p, o1, ZERO);
    assert ApplyEntry(c, e, p).1 == q;
    assert Slice(q, o2) == ZERO;
    assert [e, Entry(o2, f)][1..] == [Entry(o2, f)];
  }

  lemma {:induction false} MedianTakesZero(c: SampleFormat, o: u16, xs: seq<real>, p: Buffer)
    requires IsFloatFormat(c) && Fits(o, |p|) && Slice(p, o) == ZERO && |xs| < 3
    ensures ApplyList(c, [Entry(o, MedianOf(3, xs))], p).0 == [Entry(o, MedianOf(3, xs + [0.0]))]
  {
    hide Medians.Median;
    assert [Entry(o, MedianOf(3, xs))][1..] == [];
  }

  lemma {:induction false} ZeroMedian(x: real)
    ensures Medians.Median([0.0, 0.0, x]) == 0.0
  {
    var s := [0.0, 0.0, x];
    assert s[..2] == [0.0, 0.0] && [0.0, 0.0][..1] == [0.0] && [0.0][..0] == [];
    assert Medians.CountOutside([0.0], 0.0, 0.0) == 0;
    assert Medians.CountOutside([0.0, 0.0], 0.0, 0.0) == 0;
    Medians.MedianIsRobust(s, 0.0, 0.0);
  }

  /** A median filter of window 3 that has met two zeros. */
  lemma {:induction false} MedianPrimed(c: SampleFormat, id: EventId, o: u16) returns (calls: seq<Call>)
    requires IsFloatFormat(c)
    ensures SetsWithin(calls, id, {o})
    ensures ListOf(After(c, calls), id) == [Entry(o, MedianOf(3, [0.0, 0.0]))]
  {
    hide After, ApplyList, MakeKey, Put, CreateFilter;
    var zeros: Buffer := seq(o + 4, _ => 0);
    assert Slice(zeros, o) == ZERO;
    var c1 := [Set(id, 2, o, 3.0, 0.0)];
    var c2 := c1 + [Apply(id, zeros)];
    calls := c2 + [Apply(id, zeros)];
    assert [] + c1 == c1 && ListOf(map[], id) == [] && After(c, []) == map[] by { NoCalls(c); }
    FirstMedian(o);
    ListAfterSet(c, [], id, 2, o, 3.0);
    assert ListOf(After(c, c1), id) == [Entry(o, MedianOf(3, []))];
    ListAfterApply(c, c1, id, zeros);
    ListAfterApply(c, c2, id, zeros);
    MedianTakesZero(c, o, [], zeros);
    MedianTakesZero(c, o, [0.0], zeros);
    assert [] + [0.0] == [0.0] && [0.0] + [0.0] == [0.0, 0.0];
  }

  lemma {:induction false} FirstMedian(o: u16)
    ensures Put([], o, CreateFilter(2, 3.0, 0.0)) == [Entry(o, MedianOf(3, []))]
  {}

  lemma {:induction false} NoCalls(c: SampleFormat)
    requires IsFormat(c)
    ensures After(c, []) == map[]
  {}

  /** A run of a float32 registry after which the filter at the second of two overlapping offsets is not
      the standalone one: a median of window 3 at o1, fed two zeros, answers zero to the next sample and so
      wipes bytes of a nonzero sample at o2. */
  lemma {:induction false} OverlapCouples(c: SampleFormat, id: EventId, o1: u16, o2: u16) returns (calls: seq<Call>)
    requires IsFloatFormat(c) && o1 < o2 < o1 + 4
    ensures SetsWithin(calls, id, {o1, o2}) && !Decomposed(c, calls, id, o2)
  {
    hide After, ApplyList, MakeKey, Put, Stream, Decomposed, CreateFilter, ApplyFilter, Blip;
    var before := MedianPrimed(c, id, o1);
    var both := before + [Set(id, 1, o2, 1.0, 0.0)];
    var f, p := CreateFilter(1, 1.0, 0.0), Blip(o2);
    calls := both + [Apply(id, p)];
    ListAfterSet(c, before, id, 1, o2, 1.0);
    ListAfterApply(c, both, id, p);
    var median := Entry(o1, MedianOf(3, [0.0, 0.0]));
    PutInserts([median], 1, o2, f);
    assert [median][..1] + [Entry(o2, f)] + [median][1..] == [median, Entry(o2, f)];
    MedianWipes(c, o1, o2, f);
    var list := ListOf(After(c, calls), id);
    assert list == ApplyList(c, [median, Entry(o2, f)], p).0;
    FindAt(list, 1);
    BlipIsFed(c, before, id, o2);
    NotAlone(c, calls, id, o2, c.decode(Slice(p, o2)));
  }

  lemma {:induction false} NotAlone(c: SampleFormat, calls: seq<Call>, id: EventId, o: u16, x: real)
    requires IsFormat(c) && x != 0.0 && Stream(c, calls, id, o) == Some((CreateFilter(1, 1.0, 0.0), [x]))
    requires View(After(c, calls), id, o) == Some(ApplyFilter(CreateFilter(1, 1.0, 0.0), 0.0).0)
    ensures !Decomposed(c, calls, id, o)
  {
    hide Stream, View, After;
    assert [x][..0] == [];
  }

  lemma {:induction false} BlipIsFed(c: SampleFormat, before: seq<Call>, id: EventId, o: u16)
    requires IsFormat(c)
    ensures Stream(c, before + [Set(id, 1, o, 1.0, 0.0)] + [Apply(id, Blip(o))], id, o) ==
            Some((CreateFilter(1, 1.0, 0.0), [c.decode(Slice(Blip(o), o))]))
  {
    hide CreateFilter;
    var both := before + [Set(id, 1, o, 1.0, 0.0)];
    assert both[..|before|] == before && (both + [Apply(id, Blip(o))])[..|both|] == both;
    assert Stream(c, both, id, o) == Some((CreateFilter(1, 1.0, 0.0), []));
    var x: real := c.decode(Slice(Blip(o), o));
    assert [] + [x] == [x];
  }

  /** Exactly which offsets are safe for an event: filters set at these offsets only are standalone after
      every run if and only if every two of the offsets are at least 4 apart. */
  lemma {:induction false} SafeOffsets(c: SampleFormat, id: EventId, offsets: set<u16>)
    requires IsFloatFormat(c)
    ensures (forall calls, o :: SetsWithin(calls, id, offsets) ==> Decomposed(c, calls, id, o)) <==> Spaced(offsets)
  {
    hide Decomposed, SetsWithin;
    if Spaced(offsets) {
      forall calls, o | SetsWithin(calls, id, offsets) ensures Decomposed(c, calls, id, o) {
        SpacedIsSeparated(calls, id, offsets);
        RegistryDecomposes(c, calls, id, o);
      }
    } else {
      var o1: u16, o2: u16 :| o1 in offsets && o2 in offsets && o1 < o2 < o1 + 4;
      var calls := OverlapCouples(c, id, o1, o2);
      WithinMore(calls, id, {o1, o2}, offsets);
    }
  }

  lemma {:induction false} WithinMore(calls: seq<Call>, id: EventId, few: set<u16>, more: set<u16>)
    requires SetsWithin(calls, id, few) && few <= more
    ensures SetsWithin(calls, id, more)
  {}
}
