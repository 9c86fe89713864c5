/** dispatch_message of src/vsomeip_bridge.cpp: the filter registry between vsomeip and the pipeline, and what
    a client's stream then carries. */
module Dispatch {
  import opened Bits
  import opened Bytes
  import opened Options
  import opened Sequences
  import opened SignalFilters
  import opened FilterTable
  import FilterRegistry
  import FilterRuns
  import opened Throttle
  import opened Worker
  import opened Delivery
  import opened Client

  function EventOf(m: Call): EventId {
    EventId(m.serviceId, m.instanceId, m.methodId)
  }

  /** The filters after one message, and the message as it is passed to the subscriber: dropped when
      oversize, filtered when its event has a filter and it has a payload. */
  ghost function DispatchOne(c: SampleFormat, t: Entries, m: Call): (r: (Entries, Option<Call>))
    requires IsFormat(c) && TableOk(t)
  {
    if |m.payload| > MAX_PAYLOAD_BYTES then (t, None)
    else if m.payload != [] && MakeKey(EventOf(m)) in t then
      var (t', p) := ApplyTo(c, t, EventOf(m), m.payload);
      (t', Some(m.(payload := p)))
    else (t, Some(m))
  }

  /** dispatch_message on a registry: the payload is copied, the copy filtered in place. */
  method DispatchMessage(registry: FilterRegistry.Registry, m: Call) returns (passed: Option<Call>)
    requires registry.Valid()
    modifies registry`table, registry.owner.Keys
    ensures registry.Valid()
    ensures (registry.table, passed) == DispatchOne(registry.format, old(registry.table), m)
  {
    hide MakeKey, ApplyTo, TableOk, View, ListOf, Fits, FilterRegistry.StandsFor;
    if |m.payload| > MAX_PAYLOAD_BYTES {
      return None;
    }
    passed := Some(m);
    if |m.payload| > 0 {
      var has := registry.HasFilter(EventOf(m));
      HasIsStored(registry.table, EventOf(m));
      if has {
        var buf := new u8[|m.payload|](i requires 0 <= i < |m.payload| => m.payload[i]);
        assert buf[..|m.payload|] == m.payload;
        var any := registry.Apply(EventOf(m), buf, |m.payload|);
        passed := Some(m.(payload := buf[..|m.payload|]));
      }
    }
  }

  lemma {:induction false} HasIsStored(t: Entries, id: EventId)
    requires TableOk(t)
    ensures (exists offset: u16 :: View(t, id, offset).Some?) <==> MakeKey(id) in t
  {
    hide MakeKey;
    if MakeKey(id) in t {
      assert View(t, id, t[MakeKey(id)][0].offset).Some?;
    }
  }

  // ---- runs ----

  /** A filter command, a message coming in from vsomeip, or anything else arriving at the worker. */
  datatype Op =
    | Filter(call: FilterRuns.Call)
    | Incoming(m: Call)
    | Aside(arrival: Arrival)

  /** The registry calls a run makes: its commands, and an apply for each message that is not oversize. */
  function RegistryCalls(ops: seq<Op>): seq<FilterRuns.Call> {
    if ops == [] then []
    else
      RegistryCalls(Front(ops)) +
        match Last(ops)
        case Filter(call) => if call.Apply? then [] else [call]
        case Incoming(m) =>
          if |m.payload| > MAX_PAYLOAD_BYTES then [] else [FilterRuns.Apply(EventOf(m), m.payload)]
        case Aside(_) => []
  }

  /** The filters after a run, and what has been passed on to subscribers without a schema id and the worker. */
  ghost function Dispatched(c: SampleFormat, ops: seq<Op>): (r: (Entries, seq<Input>))
    requires IsFormat(c)
    ensures TableOk(r.0) && r.0 == FilterRuns.After(c, RegistryCalls(ops))
  {
    if ops == [] then (map[], [])
    else
      var (t, passed) := Dispatched(c, Front(ops));
      DispatchRefines(c, ops);
      match Last(ops)
      case Filter(call) => if call.Apply? then (t, passed) else (FilterRuns.Do(c, t, call).0, passed)
      case Incoming(m) =>
        var (t', out) := DispatchOne(c, t, m);
        (t', passed + if out.Some? then [Callback(out.value, None)] else [])
      case Aside(a) => (t, passed + [Other(a)])
  }

  /** Whether or not the registry is asked, the message is left as apply would leave it. */
  lemma {:induction false} DispatchIsApply(c: SampleFormat, t: Entries, m: Call)
    requires IsFormat(c) && TableOk(t) && |m.payload| <= MAX_PAYLOAD_BYTES
    ensures var (t', p) := ApplyTo(c, t, EventOf(m), m.payload);
      |p| == |m.payload| && DispatchOne(c, t, m) == (t', Some(m.(payload := p)))
  {
    hide MakeKey;
    if m.payload == [] && MakeKey(EventOf(m)) in t {
      NothingFits(c, t[MakeKey(EventOf(m))]);
      assert t[MakeKey(EventOf(m)) := t[MakeKey(EventOf(m))]] == t;
    }
  }

  lemma {:induction false} NothingFits(c: SampleFormat, list: seq<Entry>)
    requires IsFormat(c) && FiltersOk(list)
    ensures ApplyList(c, list, []) == (list, [])
  {
    if list != [] {
      NothingFits(c, list[1..]);
      assert [list[0]] + list[1..] == list;
    }
  }

  lemma {:induction false} DispatchRefines(c: SampleFormat, ops: seq<Op>)
    requires IsFormat(c) && ops != []
    ensures var calls, t := RegistryCalls(ops), FilterRuns.After(c, RegistryCalls(Front(ops)));
      FilterRuns.After(c, calls) ==
        match Last(ops)
        case Filter(call) => if call.Apply? then t else FilterRuns.Do(c, t, call).0
        case Incoming(m) => DispatchOne(c, t, m).0
        case Aside(_) => t
  {
    hide FilterRuns.Do, MakeKey;
    var before := RegistryCalls(Front(ops));
    match Last(ops)
    case Filter(call) =>
      if call.Apply? {
        assert RegistryCalls(ops) == before;
      } else {
        FilterRuns.AfterSnoc(c, before, call);
      }
    case Incoming(m) =>
      if |m.payload| > MAX_PAYLOAD_BYTES {
        assert RegistryCalls(ops) == before;
      } else {
        FilterRuns.AfterSnoc(c, before, FilterRuns.Apply(EventOf(m), m.payload));
        DispatchIsApply(c, FilterRuns.After(c, before), m);
        ApplyIsDo(c, FilterRuns.After(c, before), EventOf(m), m.payload);
      }
    case Aside(_) =>
      assert RegistryCalls(ops) == before;
  }

  lemma {:induction false} ApplyIsDo(c: SampleFormat, t: Entries, id: EventId, p: Buffer)
    requires IsFormat(c) && TableOk(t)
    ensures FilterRuns.Do(c, t, FilterRuns.Apply(id, p)) == ApplyTo(c, t, id, p)
  {}

  /** The filters of a run act on each message alone: what is passed on for the next message differs from it
      only in the payload, and there only in the slices at offsets with a filter, each of which now holds
      the output of a filter fed with exactly the samples of that event and offset since it was set. */
  lemma {:induction false} MessagesAreFiltered(c: SampleFormat, ops: seq<Op>, m: Call)
    requires IsFormat(c) && FilterRuns.SeparatedCalls(RegistryCalls(ops + [Incoming(m)]), EventOf(m))
    ensures var passed, passed' := Dispatched(c, ops).1, Dispatched(c, ops + [Incoming(m)]).1;
      var calls, id := RegistryCalls(ops), EventOf(m);
      if |m.payload| > 1048576 then passed' == passed
      else
        && |passed'| == |passed| + 1 && passed'[..|passed|] == passed
        && passed'[|passed|].Callback?
        && var m' := passed'[|passed|].call;
           && |m'.payload| == |m.payload| && m' == m.(payload := m'.payload)
           && (forall o: u16 :: Fits(o, |m.payload|) && FilterRuns.Stream(c, calls, id, o).Some? ==>
                 var (f, xs) := FilterRuns.Stream(c, calls, id, o).value;
                 Slice(m'.payload, o) ==
                   c.encode(FilterRuns.LastOutput(f, xs + [c.decode(Slice(m.payload, o))])))
           && (forall k :: 0 <= k < |m.payload| && m'.payload[k] != m.payload[k] ==>
                 exists o: u16 :: FilterRuns.Covers(c, calls, id, |m.payload|, o, k))
  {
    hide FilterRuns.Do, FilterRuns.Stream, FilterRuns.LastOutput, MakeKey, FilterRuns.After, FilterRuns.SeparatedCalls;
    assert Front(ops + [Incoming(m)]) == ops;
    if |m.payload| <= MAX_PAYLOAD_BYTES {
      var t := Dispatched(c, ops).0;
      DispatchIsApply(c, t, m);
      ApplyIsDo(c, t, EventOf(m), m.payload);
      FilterRuns.PayloadDecomposes(c, RegistryCalls(ops), EventOf(m), m.payload);
    }
  }

  // ---- one event's stream over a whole run ----

  /** What matters of a run to one event: whether the worker has stopped, the event's throttle, and what its
      stream has received. */
  datatype EventRun = EventRun(stopped: bool, throttle: Option<Limiter>, out: seq<SomeIpMessage>)

  function KeyOfEvent(id: EventId): SomeIpKey {
    SomeIpKey(id.svc, id.inst, id.evt)
  }

  /** What one arrival at the worker does to the event: its own messages are offered to its own throttle. */
  function Heed(s: EventRun, action: Action, now: int, key: SomeIpKey): EventRun {
    if s.stopped then s
    else match action
      case Ignore => s
      case Fail => s.(stopped := true)
      case Stop => s.(stopped := true)
      case Configure(k, hz) => if k == key then s.(throttle := Some(Limiter(IntervalUs(hz), None))) else s
      case Forward(_) => s
      case Throttled(m) =>
        if KeyOf(m) != key then s
        else if s.throttle.None? then s.(out := s.out + [m])
        else
          var (l, ok) := Offer(s.throttle.value, now);
          s.(throttle := Some(l), out := if ok then s.out + [m] else s.out)
  }

  /** What a run does to the event: each of its messages is filtered by its standalone filters alone, and then
      meets its throttle. */
  ghost function RunOfEvent(c: SampleFormat, ops: seq<Op>, id: EventId): EventRun
    requires IsFormat(c)
  {
    if ops == [] then EventRun(false, None, [])
    else
      var s, calls := RunOfEvent(c, Front(ops), id), RegistryCalls(Front(ops));
      match Last(ops)
      case Filter(_) => s
      case Incoming(m) =>
        if |m.payload| > MAX_PAYLOAD_BYTES || EventOf(m) != id then s
        else
          var filtered := m.(payload := FilterRuns.Standalone(c, calls, id, m.payload));
          Heed(s, Throttled(Expected(filtered)), m.now, KeyOfEvent(id))
      case Aside(a) => Heed(s, Interpret(a.msg), a.now, KeyOfEvent(id))
  }

  /** The worker is, as far as the event is concerned, where the run of the event is. */
  ghost predicate Agrees(w: WorkerState, s: EventRun, key: SomeIpKey) {
    && (w.status == Running <==> !s.stopped)
    && KeyView(w, key) == KeyState(s.throttle, s.out)
  }

  lemma {:induction false} HeedAgrees(w: WorkerState, s: EventRun, a: Arrival, key: SomeIpKey)
    requires Agrees(w, s, key)
    ensures Agrees(Handle(w, a), Heed(s, Interpret(a.msg), a.now, key), key)
  {
    hide ForKey, IntervalUs, Offer, PeriodOverflows, InterpretDisc;
    if w.status == Running && !Stops(a.msg) {
      StepForKey(w, a, key);
    }
  }

  /** One more input at the worker. */
  lemma {:induction false} InputAgrees(passed: seq<Input>, s: EventRun, i: Input, action: Action, now: int,
                                       key: SomeIpKey)
    requires Agrees(Worker.Run(Arrivals(passed)), s, key)
    requires |PostedBy(i)| == 1 && Interpret(PostedBy(i)[0].msg) == action && PostedBy(i)[0].now == now
    ensures Agrees(Worker.Run(Arrivals(passed + [i])), Heed(s, action, now, key), key)
  {
    hide Agrees, Heed, Handle, PostedBy, Interpret;
    var trace, a := Arrivals(passed), PostedBy(i)[0];
    ArrivalsSnoc(passed, i);
    assert PostedBy(i) == [a] && (trace + [a])[..|trace + [a]| - 1] == trace;
    HeedAgrees(Worker.Run(trace), s, a, key);
  }

  lemma {:induction false} SeparatedFront(calls: seq<FilterRuns.Call>, call: FilterRuns.Call, id: EventId)
    requires FilterRuns.SeparatedCalls(calls + [call], id)
    ensures FilterRuns.SeparatedCalls(calls, id)
  {
    assert (calls + [call])[..|calls|] == calls;
  }

  lemma {:induction false} RunAgrees(c: SampleFormat, ops: seq<Op>, id: EventId)
    requires IsFormat(c) && FilterRuns.SeparatedCalls(RegistryCalls(ops), id)
    ensures Agrees(Worker.Run(Arrivals(Dispatched(c, ops).1)), RunOfEvent(c, ops, id), KeyOfEvent(id))
  {
    hide Agrees, RunOfEvent, Dispatched, FilterRuns.SeparatedCalls, Worker.Run, Arrivals, RegistryCalls;
    if ops == [] {
      NothingRun(c, id);
    } else {
      var before, op := Front(ops), Last(ops);
      assert ops == before + [op];
      FrontIsSeparated(before, op, id);
      RunAgrees(c, before, id);
      match op
      case Filter(call) => FilterAgrees(c, before, call, id);
      case Incoming(m) => IncomingAgrees(c, before, m, id);
      case Aside(a) => AsideAgrees(c, before, a, id);
    }
  }

  lemma {:induction false} FrontIsSeparated(ops: seq<Op>, op: Op, id: EventId)
    requires FilterRuns.SeparatedCalls(RegistryCalls(ops + [op]), id)
    ensures FilterRuns.SeparatedCalls(RegistryCalls(ops), id)
  {
    hide FilterRuns.SeparatedCalls;
    assert Front(ops + [op]) == ops;
    var calls, all := RegistryCalls(ops), RegistryCalls(ops + [op]);
    if |all| == |calls| {
      assert all == calls;
    } else {
      SeparatedFront(calls, Last(all), id);
    }
  }

  lemma {:induction false} NothingRun(c: SampleFormat, id: EventId)
    requires IsFormat(c)
    ensures Agrees(Worker.Run(Arrivals(Dispatched(c, []).1)), RunOfEvent(c, [], id), KeyOfEvent(id))
  {}

  lemma {:induction false} FilterAgrees(c: SampleFormat, ops: seq<Op>, call: FilterRuns.Call, id: EventId)
    requires IsFormat(c)
    ensures Dispatched(c, ops + [Filter(call)]).1 == Dispatched(c, ops).1
    ensures RunOfEvent(c, ops + [Filter(call)], id) == RunOfEvent(c, ops, id)
  {
    hide FilterRuns.Do;
    assert Front(ops + [Filter(call)]) == ops;
  }

  lemma {:induction false} AsideAgrees(c: SampleFormat, ops: seq<Op>, a: Arrival, id: EventId)
    requires IsFormat(c)
    requires Agrees(Worker.Run(Arrivals(Dispatched(c, ops).1)), RunOfEvent(c, ops, id), KeyOfEvent(id))
    ensures Agrees(Worker.Run(Arrivals(Dispatched(c, ops + [Aside(a)]).1)),
                   RunOfEvent(c, ops + [Aside(a)], id), KeyOfEvent(id))
  {
    hide Agrees, Heed, Interpret, Worker.Run, Arrivals;
    assert Front(ops + [Aside(a)]) == ops;
    InputAgrees(Dispatched(c, ops).1, RunOfEvent(c, ops, id), Other(a), Interpret(a.msg), a.now, KeyOfEvent(id));
  }

  /** What is passed on for a message. */
  lemma {:induction false} PassedOn(c: SampleFormat, ops: seq<Op>, m: Call)
    requires IsFormat(c)
    ensures var (t, passed) := Dispatched(c, ops);
      var p := ApplyTo(c, t, EventOf(m), m.payload).1;
      |p| == |m.payload| &&
      Dispatched(c, ops + [Incoming(m)]).1 ==
      passed + if |m.payload| > MAX_PAYLOAD_BYTES then [] else [Callback(m.(payload := p), None)]
  {
    hide ApplyTo, MakeKey;
    assert Front(ops + [Incoming(m)]) == ops;
    if |m.payload| <= MAX_PAYLOAD_BYTES {
      DispatchIsApply(c, Dispatched(c, ops).0, m);
    }
  }

  lemma {:induction false} PassedIsStandalone(c: SampleFormat, ops: seq<Op>, m: Call)
    requires IsFormat(c) && |m.payload| <= MAX_PAYLOAD_BYTES
    requires FilterRuns.SeparatedCalls(RegistryCalls(ops + [Incoming(m)]), EventOf(m))
    ensures ApplyTo(c, Dispatched(c, ops).0, EventOf(m), m.payload).1 ==
            FilterRuns.Standalone(c, RegistryCalls(ops), EventOf(m), m.payload)
  {
    hide ApplyTo, FilterRuns.Do, FilterRuns.Standalone, FilterRuns.SeparatedCalls, FilterRuns.After;
    assert Front(ops + [Incoming(m)]) == ops;
    ApplyIsDo(c, Dispatched(c, ops).0, EventOf(m), m.payload);
    FilterRuns.ApplyIsStandalone(c, RegistryCalls(ops), EventOf(m), m.payload);
  }

  lemma {:induction false} IncomingOfEvent(c: SampleFormat, ops: seq<Op>, m: Call, id: EventId, p: Buffer)
    requires IsFormat(c) && |p| == |m.payload| <= MAX_PAYLOAD_BYTES
    requires EventOf(m) == id ==> p == FilterRuns.Standalone(c, RegistryCalls(ops), id, m.payload)
    ensures RunOfEvent(c, ops + [Incoming(m)], id) ==
            Heed(RunOfEvent(c, ops, id), Throttled(Expected(m.(payload := p))), m.now, KeyOfEvent(id))
  {
    hide FilterRuns.Standalone;
    assert Front(ops + [Incoming(m)]) == ops;
  }

  lemma {:induction false} IncomingAgrees(c: SampleFormat, ops: seq<Op>, m: Call, id: EventId)
    requires IsFormat(c) && FilterRuns.SeparatedCalls(RegistryCalls(ops + [Incoming(m)]), id)
    requires Agrees(Worker.Run(Arrivals(Dispatched(c, ops).1)), RunOfEvent(c, ops, id), KeyOfEvent(id))
    ensures Agrees(Worker.Run(Arrivals(Dispatched(c, ops + [Incoming(m)]).1)),
                   RunOfEvent(c, ops + [Incoming(m)], id), KeyOfEvent(id))
  {
    hide Agrees, Interpret, FilterRuns.SeparatedCalls, Worker.Run, Arrivals, FilterRuns.Standalone, ApplyTo, Posted,
         Dispatched, RegistryCalls, RunOfEvent, Heed, Expected;
    var (t, passed) := Dispatched(c, ops);
    PassedOn(c, ops, m);
    if |m.payload| > MAX_PAYLOAD_BYTES {
      OversizeOfEvent(c, ops, m, id);
      assert passed + [] == passed;
    } else {
      var m' := m.(payload := ApplyTo(c, t, EventOf(m), m.payload).1);
      if EventOf(m) == id {
        PassedIsStandalone(c, ops, m);
      }
      CallDecodes(m', None);
      IsPosted(m', None);
      InputAgrees(passed, RunOfEvent(c, ops, id), Callback(m', None), Throttled(Expected(m')), m.now, KeyOfEvent(id));
      IncomingOfEvent(c, ops, m, id, m'.payload);
    }
  }

  lemma {:induction false} OversizeOfEvent(c: SampleFormat, ops: seq<Op>, m: Call, id: EventId)
    requires IsFormat(c) && |m.payload| > MAX_PAYLOAD_BYTES
    ensures RunOfEvent(c, ops + [Incoming(m)], id) == RunOfEvent(c, ops, id)
  {
    assert Front(ops + [Incoming(m)]) == ops;
  }

  /** The whole way from vsomeip to the client, over any run of filter commands, messages, throttle commands,
      events and shutdowns: the stream of an event receives exactly what its standalone filters and its own
      throttle make of its own messages, when its slices do not overlap where they are applied. */
  lemma {:induction false} WholeRun(c: SampleFormat, ops: seq<Op>, id: EventId, client: ClientState)
    requires IsFormat(c) && FilterRuns.SeparatedCalls(RegistryCalls(ops), id)
    ensures var key := KeyOfEvent(id);
      StreamOf(Dispatched(c, ops).1, client, key) ==
      Subscribe(client, key).streams[key] + RunOfEvent(c, ops, id).out
  {
    hide StreamOf, Dispatched, RunOfEvent, Arrivals, Worker.Run, FilterRuns.SeparatedCalls;
    StreamIsSent(Dispatched(c, ops).1, client, KeyOfEvent(id));
    RunAgrees(c, ops, id);
  }

  /** From vsomeip to the client: while the worker runs and the key is not throttled, an incoming message
      appends exactly itself, filtered, to the stream of its own key, and nothing to any other; an oversize one
      appends nothing, and nor does any once the worker has stopped. */
  lemma {:induction false} FilteredEndToEnd(c: SampleFormat, ops: seq<Op>, m: Call, client: ClientState,
                                            key: SomeIpKey)
    requires IsFormat(c) && NeverThrottled(Heard(Dispatched(c, ops).1), key)
    ensures var passed, passed' := Dispatched(c, ops).1, Dispatched(c, ops + [Incoming(m)]).1;
      var before, after := StreamOf(passed, client, key), StreamOf(passed', client, key);
      if |m.payload| > 1048576 || KeyOf(Expected(m)) != key || Heard(passed) != passed
      then after == before
      else
        var p := ApplyTo(c, Dispatched(c, ops).0, EventOf(m), m.payload).1;
        |p| == |m.payload| && after == before + [Expected(m.(payload := p))]
  {
    hide MakeKey, StreamOf, ApplyTo, NeverThrottled, Heard;
    var passed := Dispatched(c, ops).1;
    assert Front(ops + [Incoming(m)]) == ops;
    if |m.payload| <= MAX_PAYLOAD_BYTES {
      DispatchIsApply(c, Dispatched(c, ops).0, m);
      var p := ApplyTo(c, Dispatched(c, ops).0, EventOf(m), m.payload).1;
      OneMoreHeard(passed, m.(payload := p), client, key);
    } else {
      assert Dispatched(c, ops + [Incoming(m)]).1 == passed;
    }
  }

  lemma {:induction false} OneMoreHeard(passed: seq<Input>, m: Call, client: ClientState, key: SomeIpKey)
    requires |m.payload| <= MAX_PAYLOAD_BYTES && NeverThrottled(Heard(passed), key)
    ensures StreamOf(passed + [Callback(m, None)], client, key) ==
            StreamOf(passed, client, key) +
            if Heard(passed) == passed && KeyOf(Expected(m)) == key then [Expected(m)] else []
  {
    hide StreamOf, Expected, Heard, ExpectedFor, NeverThrottled, Subscribe;
    var more := passed + [Callback(m, None)];
    OneMoreExpected(passed, m, key);
    EndToEnd(passed, client, key);
    EndToEnd(more, client, key);
  }

  lemma {:induction false} OneMoreExpected(passed: seq<Input>, m: Call, key: SomeIpKey)
    requires |m.payload| <= MAX_PAYLOAD_BYTES && NeverThrottled(Heard(passed), key)
    ensures var more := passed + [Callback(m, None)];
      && NeverThrottled(Heard(more), key)
      && ExpectedFor(Heard(more), key) == ExpectedFor(Heard(passed), key) +
           if Heard(passed) == passed && KeyOf(Expected(m)) == key then [Expected(m)] else []
  {
    hide Expected, NeverThrottled, Heard, ExpectedFor, Interpret;
    HeardSnoc(passed, Callback(m, None), key);
    if Heard(passed) == passed {
      StillNotThrottled(passed, Callback(m, None), key);
    }
  }

  lemma {:induction false} StillNotThrottled(passed: seq<Input>, i: Input, key: SomeIpKey)
    requires NeverThrottled(passed, key) && i.Callback?
    ensures NeverThrottled(passed + [i], key)
  {
    hide Interpret, IntervalUs;
  }
}
