/** Whole traces through the worker and the client: what is lost, what interferes, and end-to-end delivery
    from the native callback to the client's stream. */
module Delivery {
  import opened Bits
  import opened Bytes
  import opened Options
  import opened Sequences
  import opened Wire
  import opened Throttle
  import opened Worker

  // ---- stopping ----

  /** Shutdown, or a message whose handling throws. */
  predicate Stops(m: PortMessage) {
    Interpret(m).Stop? || Interpret(m).Fail?
  }

  /** The arrivals before the first that stops the worker. */
  function BeforeStop(trace: seq<Arrival>): seq<Arrival> {
    if trace == [] then []
    else
      var p := BeforeStop(Front(trace));
      if |p| == |trace| - 1 && !Stops(Last(trace).msg) then trace else p
  }

  lemma {:induction false} BeforeStopShape(trace: seq<Arrival>)
    ensures var p := BeforeStop(trace);
      && |p| <= |trace| && p == trace[..|p|]
      && (forall i :: 0 <= i < |p| ==> !Stops(p[i].msg))
      && (|p| < |trace| ==> Stops(trace[|p|].msg))
  {
    if trace != [] {
      BeforeStopShape(Front(trace));
    }
  }

  /** A worker runs on exactly while nothing has stopped it, and from then on nothing changes: no arrival
      after a shutdown or a failure is handled, throttled or sent. */
  lemma {:induction false} NothingAfterStop(trace: seq<Arrival>)
    ensures Run(trace).status == Running <==> BeforeStop(trace) == trace
    ensures Run(trace).sent == Run(BeforeStop(trace)).sent
    ensures Run(BeforeStop(trace)).status == Running
  {
    if trace != [] {
      NothingAfterStop(Front(trace));
      BeforeStopShape(Front(trace));
      BeforeStopShape(trace);
    }
  }

  /** A trace in which nothing stops the worker. */
  ghost predicate Quiet(trace: seq<Arrival>) {
    forall i :: 0 <= i < |trace| ==> !Stops(trace[i].msg)
  }

  lemma {:induction false} QuietRuns(trace: seq<Arrival>)
    requires Quiet(trace)
    ensures Run(trace).status == Running
  {
    if trace != [] {
      QuietRuns(Front(trace));
    }
  }

  /** The buffer of a native message. */
  function BytesOf(m: PortMessage): Buffer
    requires m.Pair? || m.Single?
  {
    if m.Pair? then m.header else m.bytes
  }

  /** A lone buffer of two bytes, one that is shorter than its discriminator promises, or a throttle command
      whose period is infinite. */
  predicate Kills(m: PortMessage) {
    || (m.SetThrottle? && PeriodOverflows(m.maxHz))
    || (m.Single? && |m.bytes| == 2)
    || ((m.Pair? || m.Single?) &&
        var b := BytesOf(m);
        b != [] && ((b[0] == 0x01 && |b| < 21) || (b[0] == 0x02 && |b| < 6) || (b[0] == 0x03 && |b| < 2)))
  }

  /** Exactly these arrivals kill the worker, and exactly a shutdown closes it. */
  lemma {:induction false} WhatFails(m: PortMessage)
    ensures Interpret(m).Fail? <==> Kills(m)
    ensures Interpret(m).Stop? <==> m.Shutdown?
  {}

  /** The worker still runs exactly when it has met no shutdown and nothing that kills it. */
  lemma {:induction false} RunsExactly(trace: seq<Arrival>)
    ensures Run(trace).status == Running <==>
      forall i :: 0 <= i < |trace| ==> !trace[i].msg.Shutdown? && !Kills(trace[i].msg)
  {
    hide Interpret, Kills;
    NothingAfterStop(trace);
    BeforeStopShape(trace);
    forall m: PortMessage ensures Stops(m) <==> m.Shutdown? || Kills(m) { WhatFails(m); }
    if |BeforeStop(trace)| == |trace| {
      assert forall i :: 0 <= i < |trace| ==> !Stops(trace[i].msg);
    }
  }

  /** From a shutdown on, or from an arrival that kills it, the worker sends nothing. */
  lemma {:induction false} SilentFrom(trace: seq<Arrival>, i: nat)
    requires i < |trace| && (trace[i].msg.Shutdown? || Kills(trace[i].msg))
    ensures Run(trace).status != Running && Run(trace).sent == Run(trace[..i]).sent
  {
    hide Kills, Interpret, Act;
    if i < |trace| - 1 {
      SilentFrom(Front(trace), i);
      assert Front(trace)[..i] == trace[..i];
    } else {
      WhatFails(Last(trace).msg);
      LastStops(Run(Front(trace)), Last(trace));
      assert Front(trace) == trace[..i];
    }
  }

  lemma {:induction false} LastStops(s: WorkerState, a: Arrival)
    requires Stops(a.msg)
    ensures Handle(s, a).status != Running && Handle(s, a).sent == s.sent
  {
    hide Interpret;
  }

  /** What each native message asks for, by its bytes. */
  lemma {:induction false} WhatIsAsked(m: PortMessage)
    requires (m.Pair? || m.Single?) && !Kills(m)
    ensures var b, action := BytesOf(m), Interpret(m);
      if b == [] then action == Ignore
      else if b[0] == 0x01 then
        && action.Throttled?
        && action.msg.serviceId == HalfWord(b[1], b[2])
        && action.msg.instanceId == HalfWord(b[3], b[4])
        && action.msg.methodId == HalfWord(b[5], b[6])
        && action.msg.messageType == FromByte(b[7])
        && action.msg.returnCode == b[8]
        && action.msg.payload == if m.Pair? then m.payload else None
      else if b[0] == 0x02 then
        action == Forward(AvailabilityChange(Availability(HalfWord(b[1], b[2]), HalfWord(b[3], b[4]), b[5] != 0)))
      else if b[0] == 0x03 then action == Forward(StateChange(StateEvent(b[1] != 0, b[2..])))
      else if b[0] == 0xFF then action == Ignore
      else action == Forward(Raw(b))
  {
    hide FromByte;
    var b := BytesOf(m);
    if |b| >= 6 {
      HalfWordRead(b, 1);
      HalfWordRead(b, 3);
    }
    if |b| >= 21 {
      HalfWordRead(b, 5);
    }
  }

  lemma {:induction false} HalfWordRead(b: Buffer, o: nat)
    requires o + 2 <= |b|
    ensures ReadLE(b, o, 2) == HalfWord(b[o], b[o + 1])
  {
    var c := b[o..o + 2];
    assert c[1..] == [b[o + 1]] && [b[o + 1]][1..] == [];
    assert FromLE([b[o + 1]]) == b[o + 1];
  }

  // ---- nothing is invented or reordered ----

  /** What an arrival would send if no throttle dropped it. */
  function Decoded(m: PortMessage): seq<MainMessage> {
    match Interpret(m)
    case Forward(out) => [out]
    case Throttled(msg) => [Message(msg)]
    case _ => []
  }

  function DecodedAll(trace: seq<Arrival>): seq<MainMessage> {
    if trace == [] then [] else DecodedAll(Front(trace)) + Decoded(Last(trace).msg)
  }

  /** What the worker sends is an order-preserving selection of what it decoded. */
  lemma {:induction false} SentIsSelection(trace: seq<Arrival>)
    ensures Subsequence(Run(trace).sent, DecodedAll(trace))
  {
    if trace != [] {
      SentIsSelection(Front(trace));
      var d := Decoded(Last(trace).msg);
      if d == [] {
        assert DecodedAll(trace) == DecodedAll(Front(trace));
      } else {
        SubsequenceSnoc(Run(Front(trace)).sent, DecodedAll(Front(trace)), d[0]);
      }
    }
  }

  // ---- keys do not interfere ----

  /** The messages of one key. */
  function ForKey(out: seq<MainMessage>, key: SomeIpKey): seq<SomeIpMessage> {
    if out == [] then []
    else ForKey(Front(out), key) +
         if Last(out).Message? && KeyOf(Last(out).msg) == key then [Last(out).msg] else []
  }

  /** The availability, state and raw events. */
  function Events(out: seq<MainMessage>): seq<MainMessage> {
    if out == [] then []
    else Events(Front(out)) + if Last(out).Message? then [] else [Last(out)]
  }

  lemma {:induction false} OutSnoc(out: seq<MainMessage>, x: MainMessage, key: SomeIpKey)
    ensures ForKey(out + [x], key) ==
            ForKey(out, key) + if x.Message? && KeyOf(x.msg) == key then [x.msg] else []
    ensures Events(out + [x]) == Events(out) + if x.Message? then [] else [x]
  {
    assert Front(out + [x]) == out;
  }

  predicate Concerns(m: PortMessage, key: SomeIpKey) {
    match Interpret(m)
    case Configure(k, _) => k == key
    case Throttled(msg) => KeyOf(msg) == key
    case _ => false
  }

  /** The messages and throttle commands of one key alone. */
  function Project(trace: seq<Arrival>, key: SomeIpKey): seq<Arrival> {
    if trace == [] then []
    else Project(Front(trace), key) + if Concerns(Last(trace).msg, key) then [Last(trace)] else []
  }

  /** What one key sees of the worker: its throttle and its messages sent. */
  datatype KeyState = KeyState(throttle: Option<Limiter>, out: seq<SomeIpMessage>)

  function KeyView(s: WorkerState, key: SomeIpKey): KeyState {
    KeyState(if key in s.throttles then Some(s.throttles[key]) else None, ForKey(s.sent, key))
  }

  /** What one action does to a key, given only what the key sees. */
  function KeyAct(v: KeyState, action: Action, now: int, key: SomeIpKey): KeyState {
    match action
    case Configure(k, hz) => if k == key then v.(throttle := Some(Limiter(IntervalUs(hz), None))) else v
    case Throttled(m) =>
      if KeyOf(m) != key then v
      else if v.throttle.None? then v.(out := v.out + [m])
      else
        var (l, ok) := Offer(v.throttle.value, now);
        KeyState(Some(l), if ok then v.out + [m] else v.out)
    case _ => v
  }

  /** A step's effect on a key depends on the key's own state and on nothing else. */
  lemma {:induction false} StepForKey(s: WorkerState, a: Arrival, key: SomeIpKey)
    requires s.status == Running && !Stops(a.msg)
    ensures Handle(s, a).status == Running
    ensures KeyView(Handle(s, a), key) == KeyAct(KeyView(s, key), Interpret(a.msg), a.now, key)
    ensures !Concerns(a.msg, key) ==> KeyView(Handle(s, a), key) == KeyView(s, key)
  {
    hide ForKey, Events, IntervalUs, Offer, PeriodOverflows;
    match Interpret(a.msg)
    case Forward(out) => OutSnoc(s.sent, out, key);
    case Throttled(m) => OutSnoc(s.sent, Message(m), key);
    case Configure(_, _) =>
    case Ignore =>
    case Fail =>
    case Stop =>
  }

  lemma {:induction false} ProjectQuiet(trace: seq<Arrival>, key: SomeIpKey)
    requires Quiet(trace)
    ensures Quiet(Project(trace, key))
  {
    if trace != [] {
      ProjectQuiet(Front(trace), key);
    }
  }

  lemma {:induction false} QuietNonInterference(trace: seq<Arrival>, key: SomeIpKey)
    requires Quiet(trace)
    ensures KeyView(Run(trace), key) == KeyView(Run(Project(trace, key)), key)
  {
    hide Handle, KeyView, KeyAct, Interpret;
    if trace != [] {
      var before, a := Front(trace), Last(trace);
      QuietNonInterference(before, key);
      QuietRuns(before);
      ProjectQuiet(before, key);
      QuietRuns(Project(before, key));
      StepForKey(Run(before), a, key);
      StepForKey(Run(Project(before, key)), a, key);
      if Concerns(a.msg, key) {
        assert Front(Project(trace, key)) == Project(before, key);
      } else {
        assert Project(trace, key) == Project(before, key);
      }
    }
  }

  /** Non-interference: what the worker sends for one key is what it would send had it received only that
      key's messages and throttle commands, up to the first arrival that stops it. */
  lemma {:induction false} NonInterference(trace: seq<Arrival>, key: SomeIpKey)
    ensures ForKey(Run(trace).sent, key) == ForKey(Run(Project(BeforeStop(trace), key)).sent, key)
  {
    NothingAfterStop(trace);
    BeforeStopShape(trace);
    QuietNonInterference(BeforeStop(trace), key);
  }

  // ---- losses ----

  ghost predicate NeverLimited(trace: seq<Arrival>, key: SomeIpKey) {
    forall i :: 0 <= i < |trace| && Interpret(trace[i].msg).Configure? && Interpret(trace[i].msg).key == key ==>
      IntervalUs(Interpret(trace[i].msg).maxHz) == 0
  }

  ghost predicate Unlimited(s: WorkerState, key: SomeIpKey) {
    key in s.throttles ==> s.throttles[key].interval == 0
  }

  lemma {:induction false} StepLosesNothing(s: WorkerState, d: seq<MainMessage>, a: Arrival, key: SomeIpKey)
    requires s.status == Running && !Stops(a.msg)
    ensures var s', d' := Handle(s, a), d + Decoded(a.msg);
      && (Events(s.sent) == Events(d) ==> Events(s'.sent) == Events(d'))
      && (Unlimited(s, key) && ForKey(s.sent, key) == ForKey(d, key) && NeverLimited([a], key) ==>
            Unlimited(s', key) && ForKey(s'.sent, key) == ForKey(d', key))
  {
    hide IntervalUs, ForKey, Events, PeriodOverflows;
    match Interpret(a.msg)
    case Forward(out) =>
      OutSnoc(s.sent, out, key);
      OutSnoc(d, out, key);
    case Throttled(m) =>
      OutSnoc(s.sent, Message(m), key);
      OutSnoc(d, Message(m), key);
    case Configure(k, hz) =>
      assert d + Decoded(a.msg) == d;
      if k == key && NeverLimited([a], key) {
        assert Interpret([a][0].msg).Configure?;
      }
    case Ignore =>
      assert d + Decoded(a.msg) == d;
    case Fail =>
    case Stop =>
  }

  lemma {:induction false} QuietLosesNothing(trace: seq<Arrival>, key: SomeIpKey)
    requires Quiet(trace)
    ensures Events(Run(trace).sent) == Events(DecodedAll(trace))
    ensures NeverLimited(trace, key) ==>
      Unlimited(Run(trace), key) && ForKey(Run(trace).sent, key) == ForKey(DecodedAll(trace), key)
  {
    hide Handle, Decoded, ForKey, Events, Unlimited, Interpret, IntervalUs;
    if trace == [] {
      NothingYet(key);
    } else {
      var before, a := Front(trace), Last(trace);
      QuietLosesNothing(before, key);
      QuietRuns(before);
      StepLosesNothing(Run(before), DecodedAll(before), a, key);
    }
  }

  lemma {:induction false} NothingYet(key: SomeIpKey)
    ensures Unlimited(Start(), key) && Events(Start().sent) == Events([])
    ensures ForKey(Start().sent, key) == ForKey([], key)
  {}

  /** Until something stops the worker it loses no availability, state or raw event, and no message of a key
      that was never given a limit. */
  lemma {:induction false} OnlyThrottledKeysLose(trace: seq<Arrival>, key: SomeIpKey)
    ensures Events(Run(trace).sent) == Events(DecodedAll(BeforeStop(trace)))
    ensures NeverLimited(BeforeStop(trace), key) ==>
      ForKey(Run(trace).sent, key) == ForKey(DecodedAll(BeforeStop(trace)), key)
  {
    NothingAfterStop(trace);
    BeforeStopShape(trace);
    QuietLosesNothing(BeforeStop(trace), key);
  }

  /** The times at which messages of a key arrive. */
  function KeyTimes(trace: seq<Arrival>, key: SomeIpKey): seq<int> {
    if trace == [] then []
    else KeyTimes(Front(trace), key) +
         var m := Interpret(Last(trace).msg);
         if m.Throttled? && KeyOf(m.msg) == key then [Last(trace).now] else []
  }

  ghost predicate NeverConfigured(trace: seq<Arrival>, key: SomeIpKey) {
    forall i :: 0 <= i < |trace| ==>
      !(Interpret(trace[i].msg).Configure? && Interpret(trace[i].msg).key == key)
  }

  /** The key's state once the throttle l, set when out had been sent, has met these messages. */
  function Limited(l: Limiter, out: seq<SomeIpMessage>, times: seq<int>, msgs: seq<SomeIpMessage>): KeyState
    requires |times| == |msgs|
  {
    KeyState(Some(AfterOffers(l, times)), out + Select(msgs, Decisions(l, times)))
  }

  lemma {:induction false} LimitedStep(l: Limiter, out: seq<SomeIpMessage>, times: seq<int>, msgs: seq<SomeIpMessage>,
                                       m: SomeIpMessage, now: int, key: SomeIpKey)
    requires |times| == |msgs| && KeyOf(m) == key
    ensures KeyAct(Limited(l, out, times, msgs), Throttled(m), now, key) ==
            Limited(l, out, times + [now], msgs + [m])
  {
    DecisionsSnoc(l, times, now);
    SelectSnoc(msgs, Decisions(l, times), m, Offer(AfterOffers(l, times), now).1);
  }

  lemma {:induction false} MessagesSnoc(trace: seq<Arrival>, key: SomeIpKey)
    requires trace != []
    ensures var m, before := Interpret(Last(trace).msg), Front(trace);
      if m.Throttled? && KeyOf(m.msg) == key
      then KeyTimes(trace, key) == KeyTimes(before, key) + [Last(trace).now] &&
           ForKey(DecodedAll(trace), key) == ForKey(DecodedAll(before), key) + [m.msg]
      else KeyTimes(trace, key) == KeyTimes(before, key) &&
           ForKey(DecodedAll(trace), key) == ForKey(DecodedAll(before), key)
  {
    hide DecodeHeader, DecodeAvailability, DecodeState, ToMessage, ForKey, PeriodOverflows;
    var d := Decoded(Last(trace).msg);
    if d == [] {
      assert DecodedAll(trace) == DecodedAll(Front(trace));
      assert KeyTimes(trace, key) == KeyTimes(Front(trace), key);
    } else {
      OutSnoc(DecodedAll(Front(trace)), d[0], key);
      assert DecodedAll(trace) == DecodedAll(Front(trace)) + [d[0]];
      if !(d[0].Message? && KeyOf(d[0].msg) == key) {
        assert KeyTimes(trace, key) == KeyTimes(Front(trace), key);
      }
    }
  }

  /** After a throttle command for a key, exactly those of its messages are forwarded that a throttle with
      that rate lets through at their arrival times. */
  lemma {:induction false} ThrottledKeyIsLimited(pre: seq<Arrival>, command: Arrival, post: seq<Arrival>,
                                                 key: SomeIpKey)
    requires Quiet(pre) && Quiet(post) && NeverConfigured(post, key)
    requires command.msg.SetThrottle? && command.msg.key == key && !PeriodOverflows(command.msg.maxHz)
    ensures |KeyTimes(post, key)| == |ForKey(DecodedAll(post), key)|
    ensures var s := Run(pre + [command] + post);
      && s.status == Running
      && KeyView(s, key) ==
           Limited(Limiter(IntervalUs(command.msg.maxHz), None), ForKey(Run(pre).sent, key),
                   KeyTimes(post, key), ForKey(DecodedAll(post), key))
  {
    hide Handle, KeyView, Limited, IntervalUs, ForKey, DecodedAll, KeyTimes;
    var all, l := pre + [command] + post, Limiter(IntervalUs(command.msg.maxHz), None);
    if post == [] {
      QuietRuns(pre);
      assert all == pre + [command] && Front(all) == pre;
      StepForKey(Run(pre), command, key);
      NothingLimited(l, Run(pre), command, key);
    } else {
      var before, a := Front(post), Last(post);
      assert Front(all) == pre + [command] + before;
      ThrottledKeyIsLimited(pre, command, before, key);
      StepForKey(Run(Front(all)), a, key);
      MessagesSnoc(post, key);
      var action := Interpret(a.msg);
      assert post[|post| - 1] == a && !(action.Configure? && action.key == key);
      if action.Throttled? && KeyOf(action.msg) == key {
        LimitedStep(l, ForKey(Run(pre).sent, key), KeyTimes(before, key), ForKey(DecodedAll(before), key),
                    action.msg, a.now, key);
      }
    }
  }

  lemma {:induction false} NothingLimited(l: Limiter, s: WorkerState, command: Arrival, key: SomeIpKey)
    requires command.msg.SetThrottle? && command.msg.key == key && !PeriodOverflows(command.msg.maxHz)
    requires l == Limiter(IntervalUs(command.msg.maxHz), None)
    ensures KeyTimes([], key) == [] && ForKey(DecodedAll([]), key) == []
    ensures KeyAct(KeyView(s, key), Interpret(command.msg), command.now, key) ==
            Limited(l, ForKey(s.sent, key), [], [])
  {}

  /** What the worker sends for a throttled key arrived at least an interval apart, and with a clock that
      does not step back no selection of that key's arrivals an interval apart is larger. */
  lemma {:induction false} ThrottledKeyIsMaximum(pre: seq<Arrival>, command: Arrival, post: seq<Arrival>,
                                                 key: SomeIpKey)
    requires Quiet(pre) && Quiet(post) && NeverConfigured(post, key)
    requires command.msg.SetThrottle? && command.msg.key == key && !PeriodOverflows(command.msg.maxHz)
    ensures var interval, times := IntervalUs(command.msg.maxHz), KeyTimes(post, key);
      var ds, msgs := Decisions(Limiter(interval, None), times), ForKey(DecodedAll(post), key);
      var before, after := ForKey(Run(pre).sent, key), ForKey(Run(pre + [command] + post).sent, key);
      && |msgs| == |times| && after == before + Select(msgs, ds)
      && Select(times, ds) == Forwarded(Limiter(interval, None), times)
      && |after| == |before| + |Select(times, ds)|
      && (interval > 0 ==> Spaced(Select(times, ds), interval))
      && (NonDecreasing(times) ==>
            forall s :: Subsequence(s, times) && Spaced(s, interval) ==> |s| <= |after| - |before|)
  {
    hide IntervalUs, ForKey, DecodedAll, KeyTimes, Decisions, Forwarded, Select, Run, PeriodOverflows;
    var l, times := Limiter(IntervalUs(command.msg.maxHz), None), KeyTimes(post, key);
    ThrottledKeyIsLimited(pre, command, post, key);
    SelectLength(ForKey(DecodedAll(post), key), times, Decisions(l, times));
    ForwardedIsSelect(l, times);
    ForwardedIsSelection(l, times);
    if NonDecreasing(times) {
      forall s | Subsequence(s, times) && Spaced(s, l.interval) ensures |s| <= |Forwarded(l, times)| {
        GreedyIsMaximum(l, times, s);
      }
    }
  }

  /** In Hz: of what the worker sends for a key throttled to maxHz, k messages arrived over at least k - 1
      periods, less half a microsecond each. */
  lemma {:induction false} ThrottledKeyKeepsRate(pre: seq<Arrival>, now: int, post: seq<Arrival>, key: SomeIpKey,
                                                 maxHz: real, i: nat, j: nat)
    requires Quiet(pre) && Quiet(post) && NeverConfigured(post, key)
    requires 0.0 < maxHz <= 2000000.0 && 1000000.0 / maxHz < 9223372036854775807.5 && !PeriodOverflows(maxHz)
    ensures var times := KeyTimes(post, key);
      var ds, msgs := Decisions(Limiter(IntervalUs(maxHz), None), times), ForKey(DecodedAll(post), key);
      var s := Select(times, ds);
      && |msgs| == |times|
      && ForKey(Run(pre + [Arrival(SetThrottle(key, maxHz), now)] + post).sent, key) ==
           ForKey(Run(pre).sent, key) + Select(msgs, ds)
      && (i <= j < |s| ==> (j - i) as real * (1000000.0 / maxHz - 0.5) <= (s[j] - s[i]) as real)
  {
    hide IntervalUs, ForKey, DecodedAll, KeyTimes, Decisions, Forwarded, Select, Run, PeriodOverflows, Spaced,
         NonDecreasing, Subsequence;
    var times := KeyTimes(post, key);
    ThrottledKeyIsMaximum(pre, Arrival(SetThrottle(key, maxHz), now), post, key);
    if i <= j < |Forwarded(Limiter(IntervalUs(maxHz), None), times)| {
      ForwardsKeepRate(maxHz, times, i, j);
    }
  }

  /** Of n messages of a key arriving a period apart under an interval it sends
      ceil(n / ceil(interval / period)). */
  lemma {:induction false} ThrottledEvenArrivals(pre: seq<Arrival>, command: Arrival, post: seq<Arrival>,
                                                 key: SomeIpKey, start: int, period: int, n: nat)
    requires Quiet(pre) && Quiet(post) && NeverConfigured(post, key)
    requires command.msg.SetThrottle? && command.msg.key == key && !PeriodOverflows(command.msg.maxHz)
    requires period > 0
    ensures var interval := IntervalUs(command.msg.maxHz);
      KeyTimes(post, key) == Even(start, period, n) && interval > 0 ==>
        CeilDiv(interval, period) > 0 &&
        |ForKey(Run(pre + [command] + post).sent, key)| ==
          |ForKey(Run(pre).sent, key)| + CeilDiv(n, CeilDiv(interval, period))
  {
    hide IntervalUs, ForKey, DecodedAll, KeyTimes, Decisions, Forwarded, Select, Run, PeriodOverflows, Even;
    ThrottledKeyIsMaximum(pre, command, post, key);
    if IntervalUs(command.msg.maxHz) > 0 {
      EvenArrivals(IntervalUs(command.msg.maxHz), start, period, n);
    }
  }
}
