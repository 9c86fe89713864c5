/** VsomeipClient of lib/src/vsomeip_client.dart: one stream per key, fed by the main port; and the whole way
    from a native callback to a stream. */
module Client {
  import opened Bits
  import opened Bytes
  import opened Options
  import opened Sequences
  import opened Throttle
  import opened Wire
  import opened Worker
  import opened Delivery

  // ---- the native side: VsomeipSubscriber and post_message_to_dart ----

  const MAX_PAYLOAD_BYTES: u32 := 0x10_0000

  /** A payload with its uint32 length. */
  type Payload = b: Buffer | |b| < 0x1_0000_0000 witness []

  /** One on_message call, with the time at which the worker will see it. */
  datatype Call = Call(serviceId: u16, instanceId: u16, methodId: u16, messageType: u8, returnCode: u8,
                       client: u16, session: u16, payload: Payload, now: int)

  function HeaderOf(c: Call): Header {
    Header(c.serviceId, c.instanceId, c.methodId, c.messageType, c.returnCode,
           PackRequestId(c.client, c.session), |c.payload|)
  }

  /** What is posted to the worker: nothing for an oversize payload, null for an empty one. A subscriber with
      a schema id sends the 25-byte header. */
  function Posted(c: Call, schema: Option<u32>): Option<PortMessage> {
    if |c.payload| > MAX_PAYLOAD_BYTES then None
    else
      Some(Pair(HeaderBytes(HeaderOf(c)) + (if schema.None? then [] else LE(schema.value, 4)),
                if c.payload == [] then None else Some(c.payload)))
  }

  method PostMessage(header: Buffer, payload: Option<Buffer>, payloadLen: u32) returns (posted: Option<PortMessage>)
    requires payload.Some? ==> |payload.value| == payloadLen
    ensures posted == if payloadLen > 1048576 then None
                      else Some(Pair(header, if payload.Some? && payload.value != [] then payload else None))
  {
    if payloadLen > MAX_PAYLOAD_BYTES {
      return None;
    }
    if payload.Some? && payloadLen > 0 {
      return Some(Pair(header, payload));
    }
    return Some(Pair(header, None));
  }

  /** VsomeipSubscriber::on_message, or CapnpSubscriber::on_message when there is a schema id. */
  method OnMessage(c: Call, schema: Option<u32>) returns (posted: Option<PortMessage>)
    ensures posted == Posted(c, schema)
  {
    var h := Header(c.serviceId, c.instanceId, c.methodId, c.messageType, c.returnCode,
                    PackRequestId(c.client, c.session), |c.payload|);
    var bytes: Buffer;
    if schema.None? {
      bytes := EncodeHeader(h);
    } else {
      bytes := EncodeCapnpHeader(h, schema.value);
    }
    assert bytes == HeaderBytes(h) + if schema.None? then [] else LE(schema.value, 4);
    posted := PostMessage(bytes, if |c.payload| > 0 then Some(c.payload) else None, |c.payload|);
  }

  // ---- the client ----

  datatype ClientState = ClientState(streams: map<SomeIpKey, seq<SomeIpMessage>>,
                                     availability: seq<Availability>, states: seq<StateEvent>)

  /** subscribeEvent and onMessage register a stream unless the key has one. */
  function Subscribe(s: ClientState, key: SomeIpKey): ClientState {
    if key in s.streams then s else s.(streams := s.streams[key := []])
  }

  /** Subscribing again takes nothing from any stream. */
  lemma {:induction false} SubscribeKeeps(s: ClientState, key: SomeIpKey)
    ensures var r := Subscribe(s, key);
      && r.streams.Keys == s.streams.Keys + {key}
      && (forall k :: k in s.streams ==> r.streams[k] == s.streams[k])
      && (key !in s.streams ==> r.streams[key] == [])
      && r.availability == s.availability && r.states == s.states
  {}

  /** _onMainPortMessage */
  function Route(s: ClientState, m: MainMessage): ClientState {
    match m
    case Message(msg) =>
      if KeyOf(msg) in s.streams then s.(streams := s.streams[KeyOf(msg) := s.streams[KeyOf(msg)] + [msg]]) else s
    case AvailabilityChange(a) => s.(availability := s.availability + [a])
    case StateChange(e) => s.(states := s.states + [e])
    case Raw(_) => s
  }

  function RouteAll(s: ClientState, ms: seq<MainMessage>): ClientState {
    if ms == [] then s else Route(RouteAll(s, Front(ms)), Last(ms))
  }

  class VsomeipClient {
    var streams: map<SomeIpKey, seq<SomeIpMessage>>
    var availability: seq<Availability>
    var states: seq<StateEvent>

    ghost function Model(): ClientState
      reads this
    {
      ClientState(streams, availability, states)
    }

    constructor ()
      ensures Model() == ClientState(map[], [], [])
    {
      streams, availability, states := map[], [], [];
    }

    /** Returns what it sends to the worker, if anything. */
    method SubscribeEvent(serviceId: nat, instanceId: nat, eventId: nat, maxHz: real)
        returns (command: Option<PortMessage>)
      modifies this
      ensures Model() == Subscribe(old(Model()), SomeIpKey(serviceId, instanceId, eventId))
      ensures forall k :: k in old(streams) ==> k in streams && streams[k] == old(streams)[k]
      ensures command ==
        if maxHz > 0.0 then Some(SetThrottle(SomeIpKey(serviceId, instanceId, eventId), maxHz)) else None
    {
      var key := SomeIpKey(serviceId, instanceId, eventId);
      command := None;
      if maxHz > 0.0 {
        command := Some(SetThrottle(key, maxHz));
      }
      if key !in streams {
        streams := streams[key := []];
      }
    }

    method OnMainPortMessage(m: MainMessage)
      modifies this
      ensures Model() == Route(old(Model()), m)
    {
      match m
      case Message(msg) =>
        var key := KeyOf(msg);
        if key in streams {
          streams := streams[key := streams[key] + [msg]];
        }
      case AvailabilityChange(a) => availability := availability + [a];
      case StateChange(e) => states := states + [e];
      case Raw(_) =>
    }
  }

  /** A stream receives exactly the messages of its key, in order; no other stream appears or vanishes. */
  lemma {:induction false} RoutingByKey(s: ClientState, ms: seq<MainMessage>, key: SomeIpKey)
    ensures RouteAll(s, ms).streams.Keys == s.streams.Keys
    ensures key in s.streams ==> RouteAll(s, ms).streams[key] == s.streams[key] + ForKey(ms, key)
  {
    if ms != [] {
      RoutingByKey(s, Front(ms), key);
    }
  }

  // ---- end to end ----

  /** What reaches the worker: what a callback posts, by a subscriber with or without a schema id, and
      anything else that arrives at the port. */
  datatype Input = Callback(call: Call, schema: Option<u32>) | Other(arrival: Arrival)

  function PostedBy(i: Input): seq<Arrival> {
    match i
    case Callback(c, schema) =>
      var p := Posted(c, schema);
      if p.None? then [] else [Arrival(p.value, c.now)]
    case Other(a) => [a]
  }

  function Arrivals(inputs: seq<Input>): seq<Arrival> {
    if inputs == [] then [] else Arrivals(Front(inputs)) + PostedBy(Last(inputs))
  }

  predicate Ends(i: Input) {
    i.Other? && Stops(i.arrival.msg)
  }

  /** The inputs before the first that stops the worker. */
  function Heard(inputs: seq<Input>): seq<Input> {
    if inputs == [] then []
    else
      var p := Heard(Front(inputs));
      if |p| == |inputs| - 1 && !Ends(Last(inputs)) then inputs else p
  }

  /** The message a caller of on_message expects a client to see. */
  function Expected(c: Call): SomeIpMessage {
    SomeIpMessage(c.serviceId, c.instanceId, c.methodId, FromByte(c.messageType), c.returnCode,
                  c.client * 0x1_0000 + c.session, if c.payload == [] then None else Some(c.payload))
  }

  /** The message of a key that an input carries, if any, when it is not over the size limit. */
  function MessageFor(i: Input, key: SomeIpKey): seq<SomeIpMessage> {
    match i
    case Callback(c, _) => if |c.payload| <= MAX_PAYLOAD_BYTES && KeyOf(Expected(c)) == key then [Expected(c)] else []
    case Other(a) =>
      var action := Interpret(a.msg);
      if action.Throttled? && KeyOf(action.msg) == key then [action.msg] else []
  }

  /** The expected messages of one key, in order. */
  function ExpectedFor(inputs: seq<Input>, key: SomeIpKey): seq<SomeIpMessage> {
    if inputs == [] then [] else ExpectedFor(Front(inputs), key) + MessageFor(Last(inputs), key)
  }

  function TimeOf(i: Input): int {
    match i case Callback(c, _) => c.now case Other(a) => a.now
  }

  /** The times at which the worker sees them. */
  function TimesFor(inputs: seq<Input>, key: SomeIpKey): (ts: seq<int>)
    ensures |ts| == |ExpectedFor(inputs, key)|
  {
    if inputs == [] then []
    else
      TimesFor(Front(inputs), key) + if MessageFor(Last(inputs), key) == [] then [] else [TimeOf(Last(inputs))]
  }

  lemma {:induction false} CallDecodes(c: Call, schema: Option<u32>)
    requires |c.payload| <= 1048576
    ensures Posted(c, schema).Some? && Interpret(Posted(c, schema).value) == Throttled(Expected(c))
    ensures var m := Expected(c);
      && KeyOf(m) == SomeIpKey(c.serviceId, c.instanceId, c.methodId)
      && m.serviceId == c.serviceId && m.instanceId == c.instanceId && m.methodId == c.methodId
      && m.messageType == FromByte(c.messageType) && m.returnCode == c.returnCode
      && m.requestId == 65536 * c.client + c.session
      && (c.payload == [] ==> m.payload == None) && (c.payload != [] ==> m.payload == Some(c.payload))
  {
    hide PackRequestId;
    var h := HeaderOf(c);
    HeaderRoundTrip(h, if schema.None? then [] else LE(schema.value, 4));
    assert HeaderBytes(h)[0] == DISC_MESSAGE;
  }

  lemma {:induction false} IsPosted(c: Call, schema: Option<u32>)
    ensures Posted(c, schema).Some? <==> |c.payload| <= 1048576
  {}

  /** One input's arrival, if it has one, is for the worker what the input is. */
  lemma {:induction false} InputArrives(i: Input, key: SomeIpKey)
    ensures var p := PostedBy(i);
      |p| <= 1 && (i.Other? ==> p == [i.arrival]) &&
      if p == [] then !Ends(i) && MessageFor(i, key) == []
      else
        && p[0].now == TimeOf(i) && (Stops(p[0].msg) <==> Ends(i))
        && (Interpret(p[0].msg).Configure? ==> i.Other?)
        && var action := Interpret(p[0].msg);
           MessageFor(i, key) == if action.Throttled? && KeyOf(action.msg) == key then [action.msg] else []
  {
    hide Posted, Interpret, Expected;
    if i.Callback? {
      IsPosted(i.call, i.schema);
      if |i.call.payload| <= MAX_PAYLOAD_BYTES {
        CallDecodes(i.call, i.schema);
      }
    }
  }

  lemma {:induction false} ArrivalsSnoc(before: seq<Input>, i: Input)
    ensures Arrivals(before + [i]) == Arrivals(before) + PostedBy(i)
  {
    assert Front(before + [i]) == before;
  }

  /** The inputs heard are those whose arrivals the worker handles. */
  lemma {:induction false} HeardArrives(inputs: seq<Input>)
    ensures Arrivals(Heard(inputs)) == BeforeStop(Arrivals(inputs))
    ensures |Heard(inputs)| <= |inputs| && (|Heard(inputs)| == |inputs| ==> Heard(inputs) == inputs)
    ensures Heard(inputs) == inputs <==> Quiet(Arrivals(inputs))
  {
    hide Ends, PostedBy, Stops;
    if inputs != [] {
      var before, i := Front(inputs), Last(inputs);
      HeardArrives(before);
      InputArrives(i, SomeIpKey(0, 0, 0));
      var trace, p := Arrivals(before), PostedBy(i);
      BeforeStopShape(trace);
      BeforeStopShape(trace + p);
      if p != [] {
        assert Front(trace + p) == trace && p == [Last(trace + p)];
      } else {
        assert trace + p == trace;
      }
    }
  }

  /** The messages of a key arrive in order and at their times. */
  lemma {:induction false} InputsArrive(inputs: seq<Input>, key: SomeIpKey)
    ensures ForKey(DecodedAll(Arrivals(inputs)), key) == ExpectedFor(inputs, key)
    ensures KeyTimes(Arrivals(inputs), key) == TimesFor(inputs, key)
  {
    hide PostedBy, Interpret, MessageFor, TimeOf, DecodedAll, KeyTimes, ForKey;
    if inputs == [] {
      NoArrivals(key);
    } else {
      var before, i := Front(inputs), Last(inputs);
      InputsArrive(before, key);
      InputArrives(i, key);
      var trace, p := Arrivals(before), PostedBy(i);
      if p == [] {
        assert trace + p == trace;
      } else {
        assert Front(trace + p) == trace && Last(trace + p) == p[0];
        MessagesSnoc(trace + p, key);
      }
    }
  }

  lemma {:induction false} NoArrivals(key: SomeIpKey)
    ensures ForKey(DecodedAll([]), key) == [] && KeyTimes([], key) == []
  {}

  /** No throttle command for the key. */
  ghost predicate NeverCommanded(inputs: seq<Input>, key: SomeIpKey) {
    forall i :: 0 <= i < |inputs| && inputs[i].Other? ==>
      var action := Interpret(inputs[i].arrival.msg);
      !(action.Configure? && action.key == key)
  }

  /** None that sets a limit. */
  ghost predicate NeverThrottled(inputs: seq<Input>, key: SomeIpKey) {
    forall i :: 0 <= i < |inputs| && inputs[i].Other? ==>
      var action := Interpret(inputs[i].arrival.msg);
      action.Configure? && action.key == key ==> IntervalUs(action.maxHz) == 0
  }

  lemma {:induction false} CommandsArrive(inputs: seq<Input>, key: SomeIpKey)
    ensures NeverThrottled(inputs, key) ==> NeverLimited(Arrivals(inputs), key)
    ensures NeverCommanded(inputs, key) ==> NeverConfigured(Arrivals(inputs), key)
  {
    hide PostedBy, Interpret, MessageFor, IntervalUs;
    if inputs != [] {
      CommandsArrive(Front(inputs), key);
      InputArrives(Last(inputs), key);
      assert inputs[|inputs| - 1] == Last(inputs);
    }
  }

  /** What the stream of a subscribed key holds once the worker has handled these inputs. */
  function StreamOf(inputs: seq<Input>, client: ClientState, key: SomeIpKey): seq<SomeIpMessage> {
    RoutingByKey(Subscribe(client, key), Worker.Run(Arrivals(inputs)).sent, key);
    RouteAll(Subscribe(client, key), Worker.Run(Arrivals(inputs)).sent).streams[key]
  }

  /** While nothing has limited its key, the stream of a subscribed concrete key receives exactly the messages
      of that key heard before the worker stops, with equal fields for each on_message call of at most 1 MiB,
      in order, whatever events, other keys' messages and throttle commands come between. */
  lemma {:induction false} EndToEnd(inputs: seq<Input>, client: ClientState, key: SomeIpKey)
    requires NeverThrottled(Heard(inputs), key)
    ensures StreamOf(inputs, client, key) == Subscribe(client, key).streams[key] + ExpectedFor(Heard(inputs), key)
  {
    hide Heard, ExpectedFor, NeverThrottled, NeverCommanded, Worker.Run, BeforeStop, StreamOf;
    StreamIsSent(inputs, client, key);
    HeardArrives(inputs);
    CommandsArrive(Heard(inputs), key);
    OnlyThrottledKeysLose(Arrivals(inputs), key);
    InputsArrive(Heard(inputs), key);
  }

  /** From a throttle command for the key on, its stream receives exactly those of its messages that the
      throttle lets through at their times: at least an interval apart, and as many as can be. */
  lemma {:induction false} ThrottledEndToEnd(pre: seq<Input>, maxHz: real, now: int, post: seq<Input>,
                                             client: ClientState, key: SomeIpKey)
    requires Heard(pre) == pre && Heard(post) == post && !PeriodOverflows(maxHz) && NeverCommanded(post, key)
    ensures var all, interval := pre + [Other(Arrival(SetThrottle(key, maxHz), now))] + post, IntervalUs(maxHz);
      var times := TimesFor(post, key);
      var ds := Decisions(Limiter(interval, None), times);
      && StreamOf(all, client, key) == StreamOf(pre, client, key) + Select(ExpectedFor(post, key), ds)
      && |Select(ExpectedFor(post, key), ds)| == |Select(times, ds)|
      && (interval > 0 ==> Spaced(Select(times, ds), interval))
      && (NonDecreasing(times) ==>
            forall s :: Subsequence(s, times) && Spaced(s, interval) ==> |s| <= |Select(times, ds)|)
  {
    hide Heard, ExpectedFor, NeverThrottled, NeverCommanded, Worker.Run, BeforeStop, TimesFor, Decisions, Select,
         ForKey, IntervalUs, Spaced, NonDecreasing, Subsequence, StreamOf, PeriodOverflows, Arrivals, KeyTimes,
         DecodedAll, Forwarded;
    var command := Arrival(SetThrottle(key, maxHz), now);
    var all := pre + [Other(command)] + post;
    ArrivalsConcat(pre, Other(command), post);
    HeardArrives(pre);
    HeardArrives(post);
    CommandsArrive(post, key);
    InputsArrive(post, key);
    ThrottledKeyIsMaximum(Arrivals(pre), command, Arrivals(post), key);
    StreamIsSent(pre, client, key);
    StreamIsSent(all, client, key);
  }

  /** From subscribing on, with the command that SubscribeEvent sends for maxHz: the stream receives all of its
      messages when the rate is not positive or over 2 MHz, and else those that a throttle lets through, k of
      them over at least k - 1 periods, less half a microsecond each. */
  lemma {:induction false} SubscribedAtRate(pre: seq<Input>, command: Option<PortMessage>, maxHz: real, now: int,
                                            post: seq<Input>, client: ClientState, key: SomeIpKey, i: nat, j: nat)
    requires command == if maxHz > 0.0 then Some(SetThrottle(key, maxHz)) else None
    requires Heard(pre) == pre && Heard(post) == post && !PeriodOverflows(maxHz)
    requires NeverCommanded(post, key) && (maxHz <= 0.0 ==> NeverThrottled(pre, key))
    ensures var all := pre + (if command.Some? then [Other(Arrival(command.value, now))] else []) + post;
      var before, times := StreamOf(pre, client, key), TimesFor(post, key);
      if maxHz <= 0.0 || maxHz > 2000000.0 then StreamOf(all, client, key) == before + ExpectedFor(post, key)
      else
        var ds := Decisions(Limiter(IntervalUs(maxHz), None), times);
        var s := Select(times, ds);
        && StreamOf(all, client, key) == before + Select(ExpectedFor(post, key), ds)
        && (1000000.0 / maxHz < 9223372036854775807.5 && i <= j < |s| ==>
              (j - i) as real * (1000000.0 / maxHz - 0.5) <= (s[j] - s[i]) as real)
  {
    hide Heard, ExpectedFor, NeverThrottled, NeverCommanded, TimesFor, Decisions, Select, IntervalUs, StreamOf,
         PeriodOverflows, Forwarded, Spaced, NonDecreasing, Subsequence;
    if maxHz <= 0.0 {
      assert pre + [] + post == pre + post;
      UnthrottledOn(pre, post, client, key);
    } else {
      ThrottledEndToEnd(pre, maxHz, now, post, client, key);
      var l, times := Limiter(IntervalUs(maxHz), None), TimesFor(post, key);
      UnlimitedRates(maxHz);
      if maxHz > 2000000.0 {
        NoIntervalPassesAll(l, times, ExpectedFor(post, key));
      } else if 1000000.0 / maxHz < 9223372036854775807.5 && i <= j < |Select(times, Decisions(l, times))| {
        ForwardedIsSelect(l, times);
        ForwardsKeepRate(maxHz, times, i, j);
      }
    }
  }

  lemma {:induction false} NoIntervalPassesAll<T>(l: Limiter, times: seq<int>, msgs: seq<T>)
    requires l.interval == 0 && |times| == |msgs|
    ensures AfterOffers(l, times) == l && Select(msgs, Decisions(l, times)) == msgs
  {
    if times != [] {
      var front, ms, n := Front(times), Front(msgs), |times| - 1;
      assert times == front + [Last(times)] && msgs == ms + [Last(msgs)];
      NoIntervalPassesAll(l, front, ms);
      DecisionsSnoc(l, front, Last(times));
      SelectSnoc(ms, Decisions(l, front), Last(msgs), true);
    }
  }

  lemma {:induction false} UnthrottledOn(pre: seq<Input>, post: seq<Input>, client: ClientState, key: SomeIpKey)
    requires Heard(pre) == pre && Heard(post) == post
    requires NeverThrottled(pre, key) && NeverCommanded(post, key)
    ensures StreamOf(pre + post, client, key) == StreamOf(pre, client, key) + ExpectedFor(post, key)
  {
    hide Heard, ExpectedFor, StreamOf, Subscribe, Interpret, IntervalUs;
    HeardConcat(pre, post, key);
    assert NeverThrottled(pre + post, key);
    EndToEnd(pre, client, key);
    EndToEnd(pre + post, client, key);
  }

  lemma {:induction false} HeardConcat(pre: seq<Input>, post: seq<Input>, key: SomeIpKey)
    requires Heard(pre) == pre && Heard(post) == post
    ensures Heard(pre + post) == pre + post
    ensures ExpectedFor(pre + post, key) == ExpectedFor(pre, key) + ExpectedFor(post, key)
  {
    hide Heard, ExpectedFor;
    if post == [] {
      assert pre + post == pre;
      ExpectedForNothing(key);
    } else {
      var front, i := Front(post), Last(post);
      assert post == front + [i] && pre + post == pre + front + [i];
      HeardSnoc(front, i, key);
      HeardConcat(pre, front, key);
      HeardSnoc(pre + front, i, key);
    }
  }

  lemma {:induction false} ExpectedForNothing(key: SomeIpKey)
    ensures ExpectedFor([], key) == []
  {}

  lemma {:induction false} HeardSnoc(inputs: seq<Input>, i: Input, key: SomeIpKey)
    ensures Heard(inputs + [i]) == if Heard(inputs) == inputs && !Ends(i) then inputs + [i] else Heard(inputs)
    ensures Heard(inputs + [i]) == inputs + [i] <==> Heard(inputs) == inputs && !Ends(i)
    ensures ExpectedFor(inputs + [i], key) == ExpectedFor(inputs, key) + MessageFor(i, key)
  {
    hide MessageFor, Ends, Stops;
    assert Front(inputs + [i]) == inputs;
    HeardArrives(inputs);
  }

  lemma {:induction false} StreamIsSent(inputs: seq<Input>, client: ClientState, key: SomeIpKey)
    ensures StreamOf(inputs, client, key) ==
            Subscribe(client, key).streams[key] + ForKey(Worker.Run(Arrivals(inputs)).sent, key)
  {
    RoutingByKey(Subscribe(client, key), Worker.Run(Arrivals(inputs)).sent, key);
  }

  lemma {:induction false} ArrivalsConcat(pre: seq<Input>, i: Input, post: seq<Input>)
    ensures Arrivals(pre + [i] + post) == Arrivals(pre) + PostedBy(i) + Arrivals(post)
  {
    hide PostedBy;
    if post == [] {
      assert pre + [i] + post == pre + [i];
      ArrivalsSnoc(pre, i);
    } else {
      ArrivalsConcat(pre, i, Front(post));
      assert Front(pre + [i] + post) == pre + [i] + Front(post);
    }
  }

  // ---- events ----

  function AvailabilitiesIn(ms: seq<MainMessage>): seq<Availability> {
    if ms == [] then []
    else AvailabilitiesIn(Front(ms)) + if Last(ms).AvailabilityChange? then [Last(ms).availability] else []
  }

  function StatesIn(ms: seq<MainMessage>): seq<StateEvent> {
    if ms == [] then [] else StatesIn(Front(ms)) + if Last(ms).StateChange? then [Last(ms).event] else []
  }

  /** The availability and state streams receive exactly the events of their kind, in order. */
  lemma {:induction false} RoutingOfEvents(s: ClientState, ms: seq<MainMessage>)
    ensures RouteAll(s, ms).availability == s.availability + AvailabilitiesIn(ms)
    ensures RouteAll(s, ms).states == s.states + StatesIn(ms)
  {
    if ms != [] {
      RoutingOfEvents(s, Front(ms));
    }
  }

  lemma {:induction false} InEvents(ms: seq<MainMessage>)
    ensures AvailabilitiesIn(Events(ms)) == AvailabilitiesIn(ms) && StatesIn(Events(ms)) == StatesIn(ms)
  {
    if ms != [] {
      InEvents(Front(ms));
      if !Last(ms).Message? {
        assert Front(Events(Front(ms)) + [Last(ms)]) == Events(Front(ms));
      } else {
        assert Events(ms) == Events(Front(ms));
      }
    }
  }

  /** No availability or state event is lost before the worker stops, whatever is throttled. */
  lemma {:induction false} EventsEndToEnd(inputs: seq<Input>, client: ClientState)
    ensures var c, all := RouteAll(client, Worker.Run(Arrivals(inputs)).sent), DecodedAll(Arrivals(Heard(inputs)));
      && c.availability == client.availability + AvailabilitiesIn(all)
      && c.states == client.states + StatesIn(all)
  {
    hide Heard, Worker.Run, BeforeStop, RouteAll, AvailabilitiesIn, StatesIn;
    var sent := Worker.Run(Arrivals(inputs)).sent;
    RoutingOfEvents(client, sent);
    HeardArrives(inputs);
    OnlyThrottledKeysLose(Arrivals(inputs), SomeIpKey(0, 0, 0));
    InEvents(sent);
    InEvents(DecodedAll(Arrivals(Heard(inputs))));
  }

  /** What the native side posts as a single buffer. */
  datatype NativeEvent =
    | NativeAvailability(svc: u16, inst: u16, available: bool, padding: u8)
    | NativeState(registered: bool, appName: Buffer)

  /** post_to_dart: nothing when len is over the limit. */
  method PostToDart(disc: u8, data: Buffer, len: u32) returns (posted: Option<PortMessage>)
    requires len <= |data|
    ensures posted == if len > 1048576 then None else Some(Single([disc] + data[..len]))
  {
    if len > MAX_PAYLOAD_BYTES {
      return None;
    }
    var buf := new u8[1 + len](_ => 0);
    buf[0] := disc;
    forall i | 0 <= i < len {
      buf[1 + i] := data[i];
    }
    assert buf[..] == [disc] + data[..len];
    posted := Some(Single(buf[..]));
  }

  /** The length of a state event's data, cast to uint32. */
  function StateLength(appName: Buffer): u32 {
    (1 + |appName|) % 0x1_0000_0000
  }

  /** What is posted for an event, if anything. */
  function EventMessage(e: NativeEvent): Option<PortMessage> {
    match e
    case NativeAvailability(svc, inst, available, padding) =>
      Some(Single(AvailabilityBytes(svc, inst, available, padding)))
    case NativeState(registered, appName) =>
      var len := StateLength(appName);
      if len > MAX_PAYLOAD_BYTES then None else Some(Single(StateBytes(registered, appName)[..1 + len]))
  }

  /** VsomeipApp::on_state and on_availability. */
  method OnEvent(e: NativeEvent) returns (posted: Option<PortMessage>)
    ensures posted == EventMessage(e)
  {
    hide LE;
    match e
    case NativeAvailability(svc, inst, available, padding) =>
      var data: Buffer := LE(svc, 2) + LE(inst, 2) + [if available then 1 else 0] + [padding];
      posted := PostToDart(DISC_AVAILABILITY, data, 6);
      assert [DISC_AVAILABILITY] + data[..6] == AvailabilityBytes(svc, inst, available, padding);
    case NativeState(registered, appName) =>
      var data: Buffer := [if registered then 1 else 0];
      data := data + appName;
      var len := |data| % 0x1_0000_0000;
      posted := PostToDart(DISC_STATE, data, len);
      assert [DISC_STATE] + data[..len] == StateBytes(registered, appName)[..1 + len];
  }

  /** What the worker has after an event has been posted, if it was. */
  function HandleEvent(w: WorkerState, e: NativeEvent, now: int): WorkerState {
    var m := EventMessage(e);
    if m.None? then w else Handle(w, Arrival(m.value, now))
  }

  /** A running worker and the client deliver an availability event with equal fields always. A state event
      whose data are over 1 MiB is never posted; one without a name stops the worker; any other is delivered,
      with equal fields unless its length does not fit in 32 bits. */
  lemma {:induction false} EventDelivery(w: WorkerState, e: NativeEvent, now: int, client: ClientState)
    requires w.status == Running
    ensures var w' := HandleEvent(w, e, now);
      var before, after := RouteAll(client, w.sent), RouteAll(client, w'.sent);
      match e
      case NativeAvailability(svc, inst, available, _) =>
        && w'.status == Running
        && after == before.(availability := before.availability + [Availability(svc, inst, available)])
      case NativeState(registered, appName) =>
        var len := (1 + |appName|) % 0x1_0000_0000;
        && (|appName| < 0xFFFF_FFFF ==> len == 1 + |appName|)
        && if len > 1048576 then w' == w
           else if len <= 1 then w'.status == Failed && after == before
           else
             && w'.status == Running
             && after == before.(states := before.states + [StateEvent(registered, appName[..len - 1])])
  {
    hide LE, ReadLE, DecodeHeader, PeriodOverflows, IntervalUs, Offer;
    match e
    case NativeAvailability(svc, inst, available, padding) =>
      EventRoundTrips(svc, inst, available, padding, []);
      var m := AvailabilityChange(Availability(svc, inst, available));
      assert Front(w.sent + [m]) == w.sent;
    case NativeState(registered, appName) =>
      var len := StateLength(appName);
      if 1 < len <= MAX_PAYLOAD_BYTES {
        var name := appName[..len - 1];
        EventRoundTrips(0, 0, registered, 0, name);
        assert StateBytes(registered, appName)[..1 + len] == StateBytes(registered, name);
        var m := StateChange(StateEvent(registered, name));
        assert Front(w.sent + [m]) == w.sent;
      }
  }
}
