/** The worker isolate of lib/src/vsomeip_worker.dart: it decodes what the native bridge posts, throttles per
    signal, and forwards to the main isolate. An exception in the listener ends the isolate. */
module Worker {
  import opened Bits
  import opened Bytes
  import opened Options
  import opened Wire
  import opened Throttle

  datatype SomeIpKey = SomeIpKey(serviceId: nat, instanceId: nat, methodId: nat)

  datatype SomeIpMessage = SomeIpMessage(serviceId: nat, instanceId: nat, methodId: nat, messageType: MessageType,
                                         returnCode: nat, requestId: int, payload: Option<Buffer>)

  /** What arrives at the worker's port. */
  datatype PortMessage =
    | Pair(header: Buffer, payload: Option<Buffer>)
    | Single(bytes: Buffer)
    | SetThrottle(key: SomeIpKey, maxHz: real)
    | Shutdown
    | Unrecognised

  /** What the worker sends to the main isolate. */
  datatype MainMessage =
    | Message(msg: SomeIpMessage)
    | AvailabilityChange(availability: Availability)
    | StateChange(event: StateEvent)
    | Raw(bytes: Buffer)

  function KeyOf(m: SomeIpMessage): SomeIpKey {
    SomeIpKey(m.serviceId, m.instanceId, m.methodId)
  }

  /** WireCodec.toMessage */
  function ToMessage(h: WireHeader, payload: Option<Buffer>): SomeIpMessage {
    SomeIpMessage(h.serviceId, h.instanceId, h.methodId, FromByte(h.messageType), h.returnCode, h.requestId, payload)
  }

  /** What one arrival asks of the worker. */
  datatype Action =
    | Ignore
    | Fail
    | Stop
    | Configure(key: SomeIpKey, maxHz: real)
    | Forward(out: MainMessage)
    | Throttled(msg: SomeIpMessage)

  /** _handleDisc */
  function InterpretDisc(data: Buffer, payload: Option<Buffer>): Action {
    if data == [] then Ignore
    else if data[0] == DISC_MESSAGE then
      match DecodeHeader(data) { case None => Fail case Some(h) => Throttled(ToMessage(h, payload)) }
    else if data[0] == DISC_AVAILABILITY then
      match DecodeAvailability(data) { case None => Fail case Some(a) => Forward(AvailabilityChange(a)) }
    else if data[0] == DISC_STATE then
      match DecodeState(data) { case None => Fail case Some(e) => Forward(StateChange(e)) }
    else if data[0] == DISC_SENTINEL then Ignore
    else Forward(Raw(data))
  }

  /** The listener's tests, in order. A Uint8List is itself a List, so a single buffer of two bytes takes the
      pair branch, where casting its first element to Uint8List throws. */
  function Interpret(m: PortMessage): Action {
    match m
    case Pair(header, payload) => InterpretDisc(header, payload)
    case Single(bytes) =>
      if |bytes| == 2 then Fail
      else if bytes != [] then InterpretDisc(bytes, None)
      else Ignore
    case SetThrottle(key, maxHz) => if PeriodOverflows(maxHz) then Fail else Configure(key, maxHz)
    case Shutdown => Stop
    case Unrecognised => Ignore
  }

  datatype Status = Running | Closed | Failed

  datatype WorkerState = WorkerState(throttles: map<SomeIpKey, Limiter>, sent: seq<MainMessage>, status: Status)

  /** An arrival and the time a throttle would read while handling it. */
  datatype Arrival = Arrival(msg: PortMessage, now: int)

  function Start(): WorkerState {
    WorkerState(map[], [], Running)
  }

  function Act(s: WorkerState, action: Action, now: int): WorkerState {
    match action
    case Ignore => s
    case Fail => s.(status := Failed)
    case Stop => s.(status := Closed)
    case Configure(key, maxHz) => s.(throttles := s.throttles[key := Limiter(IntervalUs(maxHz), None)])
    case Forward(out) => s.(sent := s.sent + [out])
    case Throttled(m) =>
      if KeyOf(m) !in s.throttles then s.(sent := s.sent + [Message(m)])
      else
        var (l, ok) := Offer(s.throttles[KeyOf(m)], now);
        s.(throttles := s.throttles[KeyOf(m) := l], sent := if ok then s.sent + [Message(m)] else s.sent)
  }

  /** A closed or dead worker handles nothing. */
  function Handle(s: WorkerState, a: Arrival): WorkerState {
    if s.status != Running then s else Act(s, Interpret(a.msg), a.now)
  }

  function Run(trace: seq<Arrival>): WorkerState {
    if trace == [] then Start() else Handle(Run(trace[..|trace| - 1]), trace[|trace| - 1])
  }

  // ---- the listener itself ----

  class WorkerIsolate {
    var throttles: map<SomeIpKey, SignalThrottle>
    var sent: seq<MainMessage>
    var status: Status

    ghost function Repr(): set<SignalThrottle>
      reads this
    {
      set k | k in throttles :: throttles[k]
    }

    /** Each key has its own throttle object. */
    ghost predicate Valid()
      reads this
    {
      forall j, k :: j in throttles && k in throttles && j != k ==> throttles[j] != throttles[k]
    }

    ghost function Model(): WorkerState
      reads this, Repr()
    {
      WorkerState(map k | k in throttles :: throttles[k].Model(), sent, status)
    }

    constructor ()
      ensures Valid() && Model() == Start() && Repr() == {}
    {
      throttles, sent, status := map[], [], Running;
    }

    method Send(m: MainMessage)
      requires Valid()
      modifies this`sent
      ensures sent == old(sent) + [m]
    {
      sent := sent + [m];
    }

    /** The port's listener. */
    method OnMessage(msg: PortMessage, now: int)
      requires Valid()
      modifies this, Repr()
      ensures Valid() && fresh(Repr() - old(Repr()))
      ensures Model() == Handle(old(Model()), Arrival(msg, now))
      ensures msg.Shutdown? ==> status != Running && sent == old(sent)
      ensures old(status) != Running ==> sent == old(sent)
    {
      hide InterpretDisc, IntervalUs, PeriodOverflows;
      if status != Running {
        return;
      }
      match msg
      case Pair(header, payload) => HandleDisc(header, payload, now);
      case Single(bytes) =>
        if |bytes| == 2 {
          status := Failed;
        } else if bytes != [] {
          HandleDisc(bytes, None, now);
        }
      case SetThrottle(key, maxHz) =>
        ghost var before := Model().throttles;
        var t := SignalThrottle.Create(maxHz);
        if t.None? {
          status := Failed;
        } else {
          throttles := throttles[key := t.value];
          assert Model().throttles == before[key := Limiter(IntervalUs(maxHz), None)];
        }
      case Shutdown => status := Closed;
      case Unrecognised =>
    }

    method HandleDisc(data: Buffer, payload: Option<Buffer>, now: int)
      requires Valid() && status == Running
      modifies this, Repr()
      ensures Valid() && Repr() == old(Repr())
      ensures Model() == Act(old(Model()), InterpretDisc(data, payload), now)
    {
      if data == [] {
        return;
      }
      if data[0] == DISC_MESSAGE {
        HandleMessage(data, payload, now);
      } else if data[0] == DISC_AVAILABILITY {
        var a := DecodeAvailability(data);
        if a.None? {
          status := Failed;
        } else {
          Send(AvailabilityChange(a.value));
        }
      } else if data[0] == DISC_STATE {
        var e := DecodeState(data);
        if e.None? {
          status := Failed;
        } else {
          Send(StateChange(e.value));
        }
      } else if data[0] != DISC_SENTINEL {
        Send(Raw(data));
      }
    }

    method HandleMessage(data: Buffer, payload: Option<Buffer>, now: int)
      requires Valid() && status == Running && data != [] && data[0] == DISC_MESSAGE
      modifies this, Repr()
      ensures Valid() && Repr() == old(Repr())
      ensures Model() == Act(old(Model()), InterpretDisc(data, payload), now)
    {
      hide DecodeHeader, Offer, FromByte;
      var h := DecodeHeader(data);
      if h.None? {
        status := Failed;
        return;
      }
      var key := SomeIpKey(h.value.serviceId, h.value.instanceId, h.value.methodId);
      var forward := true;
      if key in throttles {
        ghost var before := Model().throttles;
        forward := throttles[key].ShouldForward(now);
        assert Model().throttles == before[key := Offer(before[key], now).0];
      }
      if forward {
        Send(Message(ToMessage(h.value, payload)));
      }
    }
  }
}
