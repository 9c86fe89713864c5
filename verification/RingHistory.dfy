/** What callers of the ring see: the results of completed calls, compared with a bounded FIFO. */
module RingHistory {
  import opened Bits
  import opened Options
  import opened Sequences
  import opened RingProtocol

  // ---- the reference: a sequential FIFO of at most cap entries ----

  ghost function FifoStep<T>(cap: nat, q: seq<T>, e: Event<T>): Option<seq<T>> {
    match e
    case Pushed(x) => if |q| < cap then Some(q + [x]) else None
    case PushFull(_) => if |q| == cap then Some(q) else None
    case Popped(out) => if q != [] && out == Whole(q[0]) then Some(q[1..]) else None
    case PopEmpty => if q == [] then Some(q) else None
  }

  /** The FIFO's contents after the calls in log, or None when it could not have given these results. */
  ghost function FifoRun<T>(cap: nat, log: seq<Event<T>>): Option<seq<T>> {
    if log == [] then Some([])
    else match FifoRun(cap, log[..|log| - 1])
      case None => None
      case Some(q) => FifoStep(cap, q, Last(log))
  }

  /** The log without the refused calls. */
  ghost function Successes<T>(log: seq<Event<T>>): seq<Event<T>> {
    if log == [] then []
    else Successes(log[..|log| - 1]) +
         (if Refused(Last(log)) then [] else [Last(log)])
  }

  ghost function Unread<T>(s: State<T>): seq<T>
    requires |s.popped| <= |s.pushed|
  {
    s.pushed[|s.popped|..]
  }

  ghost predicate FreshLoad<T>(s: State<T>, step: Step<T>) {
    && (step.LoadTailForPush? ==> step.at == |s.tailLog| - 1)
    && (step.LoadHeadForPop? ==> step.at == |s.headLog| - 1)
  }

  /** Every load of the other thread's index returns its newest value. */
  ghost predicate AllFresh<T>(n: u32, steps: seq<Step<T>>) {
    steps == [] ||
    (AllFresh(n, steps[..|steps| - 1]) && FreshLoad(Run(n, steps[..|steps| - 1]), Last(steps)))
  }

  lemma {:induction false} FifoSnoc<T>(cap: nat, log: seq<Event<T>>, e: Event<T>)
    ensures FifoRun(cap, log + [e]) ==
      (match FifoRun(cap, log) case None => None case Some(q) => FifoStep(cap, q, e))
    ensures Successes(log + [e]) == Successes(log) + if Refused(e) then [] else [e]
  {
    assert (log + [e])[..|log|] == log;
  }

  ghost predicate Refused<T>(e: Event<T>) {
    e.PushFull? || e.PopEmpty?
  }

  /** From log and contents q to log' and q', either nothing happened or one call completed. A completed
      call that was not refused, and any call when exact is set, has the FIFO's result. */
  ghost predicate Completes<T>(cap: nat, exact: bool, log: seq<Event<T>>, q: seq<T>,
                               log': seq<Event<T>>, q': seq<T>)
  {
    || (log' == log && q' == q)
    || (log' != [] && log' == log + [Last(log')]
        && (Refused(Last(log')) ==> q' == q)
        && (exact || !Refused(Last(log')) ==> FifoStep(cap, q, Last(log')) == Some(q')))
  }

  lemma {:induction false} PushStepCompletes<T>(s: State<T>, step: Step<T>)
    requires Inv(s) && Enabled(s, step) && (step.LoadTailForPush? || step.StoreHead?)
    ensures var s' := (StepInv(s, step); Next(s, step));
      Completes(s.n - 1, FreshLoad(s, step), s.log, Unread(s), s'.log, Unread(s'))
  {
    hide NextIndex, Wrap;
    StepInv(s, step);
    if step.LoadTailForPush? {
      InvLoadTailForPush(s, step.at);
    } else {
      assert Unread(Next(s, step)) == Unread(s) + [s.producer.entry];
    }
  }

  lemma {:induction false} PopStepCompletes<T>(s: State<T>, step: Step<T>)
    requires Inv(s) && Enabled(s, step) && (step.LoadHeadForPop? || step.StoreTail?)
    ensures var s' := (StepInv(s, step); Next(s, step));
      Completes(s.n - 1, FreshLoad(s, step), s.log, Unread(s), s'.log, Unread(s'))
  {
    hide NextIndex, Wrap, FifoRun, Successes;
    StepInv(s, step);
    if step.LoadHeadForPop? {
      InvLoadHeadForPop(s, step.at);
    } else {
      assert Unread(Next(s, step)) == Unread(s)[1..];
    }
  }

  /** Every step completes at most one call; a refusal is exact when its load is fresh. */
  lemma {:induction false} StepCompletes<T>(s: State<T>, step: Step<T>)
    requires Inv(s)
    ensures var s' := (AdvanceInv(s, step); Advance(s, step));
      Completes(s.n - 1, FreshLoad(s, step), s.log, Unread(s), s'.log, Unread(s'))
  {
    hide NextIndex, Wrap, FifoStep, FreshLoad;
    AdvanceInv(s, step);
    if WellShaped(s) && Enabled(s, step) {
      if step.LoadTailForPush? || step.StoreHead? {
        PushStepCompletes(s, step);
      } else if step.LoadHeadForPop? || step.StoreTail? {
        PopStepCompletes(s, step);
      }
    }
  }

  lemma {:induction false} CompletesFifo<T>(cap: nat, log: seq<Event<T>>, q: seq<T>, log': seq<Event<T>>, q': seq<T>)
    requires Completes(cap, true, log, q, log', q') && FifoRun(cap, log) == Some(q)
    ensures FifoRun(cap, log') == Some(q')
  {
    if log' != log {
      FifoSnoc(cap, log, Last(log'));
    }
  }

  lemma {:induction false} CompletesSuccesses<T>(cap: nat, log: seq<Event<T>>, q: seq<T>, log': seq<Event<T>>,
                                                 q': seq<T>)
    requires Completes(cap, false, log, q, log', q') && FifoRun(cap, Successes(log)) == Some(q)
    ensures FifoRun(cap, Successes(log')) == Some(q')
  {
    if log' != log {
      var e := Last(log');
      assert log' == log + [e];
      FifoSnoc(cap, log, e);
      if Refused(e) {
        assert Successes(log') == Successes(log);
      } else {
        FifoSnoc(cap, Successes(log), e);
      }
    }
  }

  /** A FIFO of cap entries gives the results in log and then holds the unread entries of s. */
  ghost predicate Explains<T>(cap: nat, log: seq<Event<T>>, s: State<T>) {
    |s.popped| <= |s.pushed| && FifoRun(cap, log) == Some(Unread(s))
  }

  lemma {:induction false} InvBasics<T>(s: State<T>)
    requires Inv(s)
    ensures s.n >= 2 && |s.popped| <= |s.pushed|
  {}

  lemma {:induction false} ExplainsStep<T>(s: State<T>, step: Step<T>)
    requires Inv(s)
    ensures var s' := Advance(s, step);
      && (FreshLoad(s, step) && Explains(s.n - 1, s.log, s) ==> Explains(s.n - 1, s'.log, s'))
      && (Explains(s.n - 1, Successes(s.log), s) ==> Explains(s.n - 1, Successes(s'.log), s'))
  {
    hide Advance, Inv, FifoRun, Successes, FreshLoad;
    AdvanceInv(s, step);
    InvBasics(s);
    InvBasics(Advance(s, step));
    StepCompletes(s, step);
    var s' := Advance(s, step);
    if FreshLoad(s, step) && Explains(s.n - 1, s.log, s) {
      CompletesFifo(s.n - 1, s.log, Unread(s), s'.log, Unread(s'));
    }
    if Explains(s.n - 1, Successes(s.log), s) {
      CompletesSuccesses(s.n - 1, s.log, Unread(s), s'.log, Unread(s'));
    }
  }

  lemma {:induction false} ExplainsRun<T>(n: u32, steps: seq<Step<T>>)
    requires ValidCapacity(n) && steps != []
    ensures var s, step := Run(n, steps[..|steps| - 1]), Last(steps);
      var s' := Run(n, steps);
      && (FreshLoad(s, step) && Explains(n - 1, s.log, s) ==> Explains(n - 1, s'.log, s'))
      && (Explains(n - 1, Successes(s.log), s) ==> Explains(n - 1, Successes(s'.log), s'))
  {
    hide Inv, Explains, Next, Advance, FreshLoad, Successes;
    RunInv(n, steps[..|steps| - 1]);
    ExplainsStep(Run(n, steps[..|steps| - 1]), Last(steps));
  }

  /** Linearizability. Under fresh loads, for every interleaving, the results of the completed calls, in
      the order of their deciding steps, are those of a FIFO of n-1 entries, which then holds exactly the
      unread ones. Each deciding step lies between the call's first step and its return. */
  lemma {:induction false} Linearizable<T>(n: u32, steps: seq<Step<T>>)
    requires ValidCapacity(n) && AllFresh(n, steps)
    ensures Explains(n - 1, Run(n, steps).log, Run(n, steps))
  {
    if steps != [] {
      Linearizable(n, steps[..|steps| - 1]);
      ExplainsRun(n, steps);
    }
  }

  /** With stale loads the successful calls are still those of the FIFO: staleness can only refuse. */
  lemma {:induction false} StaleLoadsOnlyRefuse<T>(n: u32, steps: seq<Step<T>>)
    requires ValidCapacity(n)
    ensures Explains(n - 1, Successes(Run(n, steps).log), Run(n, steps))
  {
    if steps != [] {
      StaleLoadsOnlyRefuse(n, steps[..|steps| - 1]);
      ExplainsRun(n, steps);
    }
  }

  ghost function PushesIn<T>(log: seq<Event<T>>): seq<T> {
    if log == [] then []
    else PushesIn(log[..|log| - 1]) + if Last(log).Pushed? then [Last(log).x] else []
  }

  ghost function PopsIn<T>(log: seq<Event<T>>): seq<Slot<T>> {
    if log == [] then []
    else PopsIn(log[..|log| - 1]) + if Last(log).Popped? then [Last(log).out] else []
  }

  lemma {:induction false} HistorySnoc<T>(log: seq<Event<T>>, e: Event<T>)
    ensures PushesIn(log + [e]) == PushesIn(log) + if e.Pushed? then [e.x] else []
    ensures PopsIn(log + [e]) == PopsIn(log) + if e.Popped? then [e.out] else []
  {
    assert (log + [e])[..|log|] == log;
  }

  lemma {:induction false} HistoryStep<T>(s: State<T>, step: Step<T>)
    requires WellShaped(s) && Enabled(s, step)
    requires s.pushed == PushesIn(s.log) && s.popped == PopsIn(s.log)
    ensures var s' := Next(s, step); s'.pushed == PushesIn(s'.log) && s'.popped == PopsIn(s'.log)
  {
    hide NextIndex, PushesIn, PopsIn;
    match step
    case LoadTailForPush(at) => HistorySnoc(s.log, PushFull(s.producer.entry));
    case LoadHeadForPop(at) => HistorySnoc(s.log, PopEmpty);
    case StoreHead => HistorySnoc(s.log, Pushed(s.producer.entry));
    case StoreTail => HistorySnoc(s.log, Popped(s.consumer.out));
    case _ =>
  }

  /** pushed and popped are what the calls that returned true pushed and popped. */
  lemma {:induction false} HistoryIsOfSuccesses<T>(n: u32, steps: seq<Step<T>>)
    ensures var s := Run(n, steps); s.pushed == PushesIn(s.log) && s.popped == PopsIn(s.log)
  {
    if steps != [] {
      HistoryIsOfSuccesses(n, steps[..|steps| - 1]);
      var s, step := Run(n, steps[..|steps| - 1]), Last(steps);
      if WellShaped(s) && Enabled(s, step) {
        HistoryStep(s, step);
      }
    }
  }

  // ---- size() ----

  /** size() called by the producer: its own head, then tail as loaded. */
  lemma {:induction false} SizeByProducer<T>(n: u32, steps: seq<Step<T>>, at: nat)
    requires ValidCapacity(n)
    ensures var s := Run(n, steps);
      s.headLog != [] && s.tailLog != [] &&
      (s.seenTail <= at < |s.tailLog| ==>
        && MaskedDifference(Last(s.headLog), s.tailLog[at], n) == |s.pushed| - at
        && (at == |s.tailLog| - 1 ==>
              MaskedDifference(Last(s.headLog), s.tailLog[at], n) == |s.pushed| - |s.popped|))
  {
    RunInv(n, steps);
    var s := Run(n, steps);
    if s.seenTail <= at < |s.tailLog| {
      MaskedDifferenceCounts(|s.pushed|, at, n);
    }
  }

  ghost predicate IsProducerStep<T>(step: Step<T>) {
    step.LoadHeadForPush? || step.LoadTailForPush? || step.BeginWrite? || step.EndWrite? || step.StoreHead?
  }

  lemma {:induction false} ProducerKeepsTail<T>(n: u32, steps: seq<Step<T>>, more: seq<Step<T>>)
    requires forall i :: 0 <= i < |more| ==> IsProducerStep(more[i])
    ensures Run(n, steps + more).tailLog == Run(n, steps).tailLog
  {
    hide Inv, WellShaped, NextIndex;
    if more == [] {
      assert steps + more == steps;
    } else {
      ProducerKeepsTail(n, steps, more[..|more| - 1]);
      assert (steps + more)[..|steps + more| - 1] == steps + more[..|more| - 1];
    }
  }

  /** size() called by the consumer: it loads head first, and only the producer can move before it loads
      its own tail. The result is the length when head was loaded. */
  lemma {:induction false} SizeByConsumer<T>(n: u32, steps: seq<Step<T>>, more: seq<Step<T>>, at: nat)
    requires ValidCapacity(n)
    requires forall i :: 0 <= i < |more| ==> IsProducerStep(more[i])
    ensures var s, later := Run(n, steps), Run(n, steps + more);
      later.tailLog != [] &&
      (s.seenHead <= at < |s.headLog| ==>
        && MaskedDifference(s.headLog[at], Last(later.tailLog), n) == at - |s.popped|
        && (at == |s.headLog| - 1 ==>
              MaskedDifference(s.headLog[at], Last(later.tailLog), n) == |s.pushed| - |s.popped|))
  {
    RunInv(n, steps);
    ProducerKeepsTail(n, steps, more);
    var s := Run(n, steps);
    if s.seenHead <= at < |s.headLog| {
      MaskedDifferenceCounts(at, |s.popped|, n);
    }
  }
}
