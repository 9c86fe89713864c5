/** The single-producer single-consumer queue of src/ring_buffer.h as a state machine over its
    individual loads, slot accesses and stores.

    Each atomic index is the sequence of the values ever stored to it, in modification order. A thread
    always sees its own index exactly; a load of the other thread's index may return any value from the
    last one it saw onwards, which is what acquire/release coherence grants. A load is fresh when it
    returns the newest value. A slot access takes two steps, so an access that overlaps a write is seen
    as Torn. */
module RingProtocol {
  import opened Bits
  import opened Sequences

  const WORD: nat := 0x1_0000_0000

  // ---- index arithmetic on uint32 ----

  /** The two static assertions on the template parameter N. */
  ghost predicate ValidCapacity(n: u32) {
    n >= 2 && And(n, n - 1) == 0
  }

  /** (i + 1) & mask_ */
  function NextIndex(i: u32, n: u32): u32
    requires n > 0
  {
    And((i + 1) % WORD, n - 1)
  }

  /** (head - tail) & mask_ */
  function MaskedDifference(head: u32, tail: u32, n: u32): u32
    requires n > 0
  {
    And((head - tail) % WORD, n - 1)
  }

  /** Masking a uint32 result is reduction modulo n, wrapped or not, because n divides 2^32. */
  lemma {:induction false} MaskedIs(z: int, n: u32)
    requires ValidCapacity(n)
    ensures And(z % WORD, n - 1) == z % n
  {
    PowerOfTwoTest(n);
    var k: nat :| n == Pow2(k);
    Pow2Small();
    AndMask(z % WORD, k);
    if k > 32 {
      Pow2Monotone(32, k);
    } else {
      Pow2Add(32 - k, k);
      ModOfMod(z, Pow2(32 - k), n);
    }
  }

  lemma {:induction false} ModOfMod(z: int, c: nat, n: nat)
    requires c > 0 && n > 0
    ensures c * n > 0 && z % (c * n) % n == z % n
  {
    assert c * n == n + (c - 1) * n;
    if c > 1 { MulAtLeast(c - 1, n); }
    var m := c * n;
    var q, r := z / m, z % m;
    assert z == q * m + r && r == r / n * n + r % n;
    assert q * m == (q * c) * n;
    assert (q * c + r / n) * n == (q * c) * n + r / n * n;
    DivModUnique(z, n, q * c + r / n, r % n);
  }

  /** A counter's slot: the counter modulo n. */
  function Wrap(a: nat, n: nat): (r: nat)
    requires n > 0
    ensures r < n
  {
    if a < n then a else Wrap(a - n, n)
  }

  lemma {:induction false} WrapIsMod(a: nat, n: nat)
    requires n > 0
    ensures Wrap(a, n) == a % n
  {
    if a < n {
      DivModUnique(a, n, 0, a);
    } else {
      WrapIsMod(a - n, n);
      assert a - n == (a - n) / n * n + (a - n) % n;
      DivModUnique(a, n, (a - n) / n + 1, (a - n) % n);
    }
  }

  /** Two counters less than n apart share a slot only when they are equal. */
  lemma {:induction false} SameSlot(a: nat, b: nat, n: nat)
    requires n > 0 && a <= b < a + n
    ensures Wrap(a, n) == Wrap(b, n) <==> a == b
  {
    if a >= n {
      SameSlot(a - n, b - n, n);
    }
  }

  lemma {:induction false} WrapAdd(a: nat, j: nat, n: nat)
    requires n > 0
    ensures Wrap(Wrap(a, n) + j, n) == Wrap(a + j, n)
  {
    if a >= n {
      WrapAdd(a - n, j, n);
    }
  }

  /** Advancing the stored index is counting on. */
  lemma {:induction false} NextIndexCounts(a: nat, n: u32)
    requires ValidCapacity(n)
    ensures NextIndex(Wrap(a, n), n) == Wrap(a + 1, n)
  {
    MaskedIs(Wrap(a, n) + 1, n);
    WrapIsMod(Wrap(a, n) + 1, n);
    WrapAdd(a, 1, n);
  }

  /** Masked indices differ by the difference of the counters, less one turn when they have wrapped. */
  lemma {:induction false} IndexDifference(h: nat, t: nat, n: nat)
    requires n > 0 && t <= h < t + n
    ensures h - t == Wrap(h, n) - Wrap(t, n) + if Wrap(h, n) >= Wrap(t, n) then 0 else n
  {
    if t >= n {
      IndexDifference(h - n, t - n, n);
    }
  }

  /** The uint32 subtraction may wrap; masking still gives the difference of the counters. */
  lemma {:induction false} MaskedDifferenceCounts(h: nat, t: nat, n: u32)
    requires ValidCapacity(n)
    requires t <= h < t + n
    ensures MaskedDifference(Wrap(h, n), Wrap(t, n), n) == h - t
  {
    var x: int, y: int := Wrap(h, n), Wrap(t, n);
    IndexDifference(h, t, n);
    MaskedIs(x - y, n);
    DivModUnique(x - y, n, if x >= y then 0 else -1, h - t);
  }

  // ---- the state machine ----

  /** What a slot holds: nothing whole before it is first written or while it is being written. */
  datatype Slot<T> = Torn | Whole(value: T)

  /** Where the producer is inside push(), with its local variables. */
  datatype Producer<T> =
    | PushIdle
    | PushLoaded(entry: T, head: u32)
    | PushAdmitted(entry: T, head: u32)
    | PushWriting(entry: T, head: u32)
    | PushWritten(entry: T, head: u32)

  /** Where the consumer is inside pop(), with its local variables. */
  datatype Consumer<T> =
    | PopIdle
    | PopLoaded(tail: u32)
    | PopAdmitted(tail: u32)
    | PopReading(tail: u32, seen: Slot<T>)
    | PopRead(tail: u32, out: Slot<T>)

  /** A completed call with its result. */
  datatype Event<T> = Pushed(x: T) | PushFull(x: T) | Popped(out: Slot<T>) | PopEmpty

  /** The shared memory, both threads, and the history of completed calls. headLog and tailLog are the
      values stored to head_ and tail_; seenHead and seenTail are the positions in them that the other
      thread has loaded last. */
  datatype State<T> = State(
    n: u32, slots: seq<Slot<T>>, headLog: seq<u32>, tailLog: seq<u32>, seenHead: nat, seenTail: nat,
    producer: Producer<T>, consumer: Consumer<T>,
    pushed: seq<T>, popped: seq<Slot<T>>, log: seq<Event<T>>)

  datatype Step<T> =
    | LoadHeadForPush(entry: T)
    | LoadTailForPush(at: nat)
    | BeginWrite
    | EndWrite
    | StoreHead
    | LoadTailForPop
    | LoadHeadForPop(at: nat)
    | BeginRead
    | EndRead
    | StoreTail

  ghost predicate WellShaped<T>(s: State<T>) {
    && ValidCapacity(s.n) && |s.slots| == s.n && s.headLog != [] && s.tailLog != []
    && (forall i :: 0 <= i < |s.headLog| ==> s.headLog[i] < s.n)
    && (forall i :: 0 <= i < |s.tailLog| ==> s.tailLog[i] < s.n)
    && (!s.producer.PushIdle? ==> s.producer.head < s.n)
    && (!s.consumer.PopIdle? ==> s.consumer.tail < s.n)
  }

  ghost predicate Enabled<T>(s: State<T>, step: Step<T>) {
    match step
    case LoadHeadForPush(_) => s.producer.PushIdle?
    case LoadTailForPush(at) => s.producer.PushLoaded? && s.seenTail <= at < |s.tailLog|
    case BeginWrite => s.producer.PushAdmitted?
    case EndWrite => s.producer.PushWriting?
    case StoreHead => s.producer.PushWritten?
    case LoadTailForPop => s.consumer.PopIdle?
    case LoadHeadForPop(at) => s.consumer.PopLoaded? && s.seenHead <= at < |s.headLog|
    case BeginRead => s.consumer.PopAdmitted?
    case EndRead => s.consumer.PopReading?
    case StoreTail => s.consumer.PopRead?
  }

  ghost function Next<T>(s: State<T>, step: Step<T>): State<T>
    requires WellShaped(s) && Enabled(s, step)
  {
    var p, c := s.producer, s.consumer;
    match step
    case LoadHeadForPush(x) => s.(producer := PushLoaded(x, Last(s.headLog)))
    case LoadTailForPush(at) =>
      if NextIndex(p.head, s.n) == s.tailLog[at]
      then s.(seenTail := at, producer := PushIdle, log := s.log + [PushFull(p.entry)])
      else s.(seenTail := at, producer := PushAdmitted(p.entry, p.head))
    case BeginWrite => s.(slots := s.slots[p.head := Torn], producer := PushWriting(p.entry, p.head))
    case EndWrite =>
      s.(slots := s.slots[p.head := Whole(p.entry)], producer := PushWritten(p.entry, p.head))
    case StoreHead =>
      s.(headLog := s.headLog + [NextIndex(p.head, s.n)], producer := PushIdle,
         pushed := s.pushed + [p.entry], log := s.log + [Pushed(p.entry)])
    case LoadTailForPop => s.(consumer := PopLoaded(Last(s.tailLog)))
    case LoadHeadForPop(at) =>
      if c.tail == s.headLog[at]
      then s.(seenHead := at, consumer := PopIdle, log := s.log + [PopEmpty])
      else s.(seenHead := at, consumer := PopAdmitted(c.tail))
    case BeginRead => s.(consumer := PopReading(c.tail, s.slots[c.tail]))
    case EndRead =>
      s.(consumer := PopRead(c.tail, if s.slots[c.tail] == c.seen then c.seen else Torn))
    case StoreTail =>
      s.(tailLog := s.tailLog + [NextIndex(c.tail, s.n)], consumer := PopIdle,
         popped := s.popped + [c.out], log := s.log + [Popped(c.out)])
  }

  function Init<T>(n: u32): State<T> {
    State(n, seq(n, _ => Torn), [0], [0], 0, 0, PushIdle, PopIdle, [], [], [])
  }

  // ---- the invariant ----

  ghost predicate IndexInv<T>(s: State<T>) requires s.n > 0 {
    && |s.headLog| == |s.pushed| + 1 && |s.tailLog| == |s.popped| + 1
    && (forall i :: 0 <= i < |s.headLog| ==> s.headLog[i] == Wrap(i, s.n))
    && (forall i :: 0 <= i < |s.tailLog| ==> s.tailLog[i] == Wrap(i, s.n))
    && s.seenTail <= |s.popped| <= s.seenHead <= |s.pushed| < s.seenTail + s.n
  }

  ghost predicate ProducerInv<T>(s: State<T>) requires |s.slots| == s.n > 0 {
    && (!s.producer.PushIdle? ==> s.producer.head < s.n && s.producer.head == Wrap(|s.pushed|, s.n))
    && (!s.producer.PushIdle? && !s.producer.PushLoaded? ==> |s.pushed| + 1 < s.seenTail + s.n)
    && (s.producer.PushWritten? ==> s.slots[s.producer.head] == Whole(s.producer.entry))
  }

  ghost predicate ConsumerInv<T>(s: State<T>) requires |s.slots| == s.n > 0 {
    && (!s.consumer.PopIdle? ==> s.consumer.tail < s.n && s.consumer.tail == Wrap(|s.popped|, s.n))
    && (!s.consumer.PopIdle? && !s.consumer.PopLoaded? ==> |s.popped| < s.seenHead)
    && (s.consumer.PopReading? ==> |s.popped| < |s.pushed| && s.consumer.seen == Whole(s.pushed[|s.popped|]))
    && (s.consumer.PopRead? ==> |s.popped| < |s.pushed| && s.consumer.out == Whole(s.pushed[|s.popped|]))
  }

  /** The unread entries lie in order in slots tail .. head-1 modulo n, and what was read is what was
      pushed. */
  ghost predicate ContentsInv<T>(s: State<T>) requires |s.slots| == s.n > 0 {
    && |s.popped| <= |s.pushed|
    && (forall i :: 0 <= i < |s.popped| ==> s.popped[i] == Whole(s.pushed[i]))
    && (forall i :: |s.popped| <= i < |s.pushed| ==> s.slots[Wrap(i, s.n)] == Whole(s.pushed[i]))
  }

  ghost predicate Inv<T>(s: State<T>) {
    && ValidCapacity(s.n) && |s.slots| == s.n
    && IndexInv(s) && ProducerInv(s) && ConsumerInv(s) && ContentsInv(s)
  }

  lemma {:induction false} InitInv<T>(n: u32)
    requires ValidCapacity(n)
    ensures Inv(Init<T>(n))
  {}

  lemma {:induction false} FullCheck<T>(s: State<T>, at: nat)
    requires ValidCapacity(s.n) && |s.slots| == s.n && IndexInv(s)
    requires s.seenTail <= at < |s.tailLog|
    ensures NextIndex(Wrap(|s.pushed|, s.n), s.n) == s.tailLog[at] <==> |s.pushed| - at == s.n - 1
  {
    hide NextIndex;
    var b := |s.pushed| + 1;
    NextIndexCounts(|s.pushed|, s.n);
    if b < at + s.n {
      SameSlot(at, b, s.n);
    } else {
      assert b == at + s.n && Wrap(b, s.n) == Wrap(at, s.n);
    }
  }

  /** push() is refused exactly when, against the loaded tail, N-1 entries are present. */
  lemma {:induction false} InvLoadTailForPush<T>(s: State<T>, at: nat)
    requires Inv(s) && Enabled(s, LoadTailForPush(at))
    ensures Inv(Next(s, LoadTailForPush(at)))
    ensures Next(s, LoadTailForPush(at)).producer.PushIdle? <==> |s.pushed| - at == s.n - 1
  {
    hide NextIndex, Wrap;
    FullCheck(s, at);
  }

  /** pop() is refused exactly when, against the loaded head, nothing is unread. */
  lemma {:induction false} InvLoadHeadForPop<T>(s: State<T>, at: nat)
    requires Inv(s) && Enabled(s, LoadHeadForPop(at))
    ensures Inv(Next(s, LoadHeadForPop(at)))
    ensures Next(s, LoadHeadForPop(at)).consumer.PopIdle? <==> at == |s.popped|
  {
    SameSlot(|s.popped|, at, s.n);
  }

  /** The producer's slot is none of the unread ones, hence not the one the consumer is reading. */
  lemma {:induction false} WriteSlotIsFree<T>(s: State<T>)
    requires Inv(s) && !s.producer.PushIdle? && !s.producer.PushLoaded?
    ensures forall i :: |s.popped| <= i < |s.pushed| ==> Wrap(i, s.n) != s.producer.head
    ensures !s.consumer.PopIdle? && !s.consumer.PopLoaded? ==> s.consumer.tail != s.producer.head
  {
    forall i | |s.popped| <= i < |s.pushed| ensures Wrap(i, s.n) != s.producer.head {
      SameSlot(i, |s.pushed|, s.n);
    }
  }

  lemma {:induction false} InvWrite<T>(s: State<T>, step: Step<T>)
    requires Inv(s) && Enabled(s, step) && (step.BeginWrite? || step.EndWrite?)
    ensures Inv(Next(s, step))
  {
    WriteSlotIsFree(s);
  }

  lemma {:induction false} InvStoreHead<T>(s: State<T>)
    requires Inv(s) && Enabled(s, StoreHead)
    ensures Inv(Next(s, StoreHead))
  {
    hide NextIndex, Wrap;
    NextIndexCounts(|s.pushed|, s.n);
    StoredHeadContents(s);
  }

  lemma {:induction false} StoredHeadContents<T>(s: State<T>)
    requires Inv(s) && Enabled(s, StoreHead)
    ensures Next(s, StoreHead).pushed == s.pushed + [s.producer.entry]
    ensures ContentsInv(Next(s, StoreHead))
  {
    hide NextIndex, Wrap;
    var s' := Next(s, StoreHead);
    forall i | |s'.popped| <= i < |s'.pushed| ensures s'.slots[Wrap(i, s.n)] == Whole(s'.pushed[i]) {
      if i < |s.pushed| { assert s.slots[Wrap(i, s.n)] == Whole(s.pushed[i]); }
    }
  }

  lemma {:induction false} InvRead<T>(s: State<T>, step: Step<T>)
    requires Inv(s) && Enabled(s, step) && (step.BeginRead? || step.EndRead?)
    ensures Inv(Next(s, step))
  {
    assert s.slots[Wrap(|s.popped|, s.n)] == Whole(s.pushed[|s.popped|]);
  }

  lemma {:induction false} InvStoreTail<T>(s: State<T>)
    requires Inv(s) && Enabled(s, StoreTail)
    ensures Inv(Next(s, StoreTail))
  {
    hide NextIndex, Wrap;
    NextIndexCounts(|s.popped|, s.n);
  }

  /** Every step of either thread, stale loads included, keeps the invariant. */
  lemma {:induction false} StepInv<T>(s: State<T>, step: Step<T>)
    requires Inv(s) && Enabled(s, step)
    ensures Inv(Next(s, step))
  {
    match step
    case LoadHeadForPush(_) =>
    case LoadTailForPush(at) => InvLoadTailForPush(s, at);
    case BeginWrite => InvWrite(s, step);
    case EndWrite => InvWrite(s, step);
    case StoreHead => InvStoreHead(s);
    case LoadTailForPop =>
    case LoadHeadForPop(at) => InvLoadHeadForPop(s, at);
    case BeginRead => InvRead(s, step);
    case EndRead => InvRead(s, step);
    case StoreTail => InvStoreTail(s);
  }

  // ---- runs ----

  /** One scheduled step; a step whose thread is not at that point does nothing. */
  ghost function Advance<T>(s: State<T>, step: Step<T>): State<T> {
    if WellShaped(s) && Enabled(s, step) then Next(s, step) else s
  }

  /** The state after an interleaving of the two threads, from an empty queue of size n. */
  ghost function Run<T>(n: u32, steps: seq<Step<T>>): State<T> {
    if steps == [] then Init(n) else Advance(Run(n, steps[..|steps| - 1]), Last(steps))
  }

  lemma {:induction false} RunInv<T>(n: u32, steps: seq<Step<T>>)
    requires ValidCapacity(n)
    ensures Inv(Run(n, steps)) && Run(n, steps).n == n
  {
    if steps == [] {
      InitInv<T>(n);
    } else {
      RunInv(n, steps[..|steps| - 1]);
      AdvanceInv(Run(n, steps[..|steps| - 1]), Last(steps));
    }
  }

  lemma {:induction false} AdvanceInv<T>(s: State<T>, step: Step<T>)
    requires Inv(s)
    ensures Inv(Advance(s, step)) && Advance(s, step).n == s.n
  {
    if WellShaped(s) && Enabled(s, step) {
      StepInv(s, step);
    }
  }

  /** For every interleaving, with stale loads allowed, what has been popped is whole and is a prefix of
      what was pushed; the rest waits in order in slots tail .. head-1 modulo n, at most n-1 of it; and
      while the producer writes a slot it is neither unread nor under the consumer's hands. */
  lemma {:induction false} QueueSafety<T>(n: u32, steps: seq<Step<T>>)
    requires ValidCapacity(n)
    ensures Safe(Run(n, steps))
  {
    RunInv(n, steps);
    InvIsSafe(Run(n, steps));
  }

  /** The j-th slot from tail on, going round. */
  ghost function SlotAt<T>(s: State<T>, j: nat): nat
    requires s.n > 0 && s.tailLog != []
  {
    Wrap(Last(s.tailLog) + j, s.n)
  }

  ghost predicate Safe<T>(s: State<T>) {
    && |s.slots| == s.n > 0 && s.headLog != [] && s.tailLog != []
    && |s.popped| <= |s.pushed| <= |s.popped| + s.n - 1
    && (forall i :: 0 <= i < |s.popped| ==> s.popped[i] == Whole(s.pushed[i]))
    && Last(s.headLog) == SlotAt(s, |s.pushed| - |s.popped|)
    && (forall j :: 0 <= j < |s.pushed| - |s.popped| ==>
          SlotAt(s, j) < s.n && s.slots[SlotAt(s, j)] == Whole(s.pushed[|s.popped| + j]))
    && (s.producer.PushAdmitted? || s.producer.PushWriting? ==>
          (forall j :: 0 <= j < |s.pushed| - |s.popped| ==> SlotAt(s, j) != s.producer.head)
          && (s.consumer.PopAdmitted? || s.consumer.PopReading? ==> s.consumer.tail != s.producer.head))
  }

  lemma {:induction false} SlotAtCounts<T>(s: State<T>, j: nat)
    requires Inv(s)
    ensures SlotAt(s, j) == Wrap(|s.popped| + j, s.n) < s.n
  {
    WrapAdd(|s.popped|, j, s.n);
  }

  lemma {:induction false} InvIsSafe<T>(s: State<T>)
    requires Inv(s)
    ensures Safe(s)
  {
    hide SlotAt, NextIndex, Wrap;
    SlotAtCounts(s, |s.pushed| - |s.popped|);
    var writing := s.producer.PushAdmitted? || s.producer.PushWriting?;
    if writing { WriteSlotIsFree(s); }
    forall j | 0 <= j < |s.pushed| - |s.popped|
      ensures SlotAt(s, j) < s.n && s.slots[SlotAt(s, j)] == Whole(s.pushed[|s.popped| + j])
      ensures writing ==> SlotAt(s, j) != s.producer.head
    {
      SlotAtCounts(s, j);
      assert SlotAt(s, j) == Wrap(|s.popped| + j, s.n);
    }
  }

  /** Accesses to one slot are ordered by acquire and release. Before the producer writes, it has
      acquired the tail released after every earlier read of that slot; before the consumer reads, it
      has acquired the head released after every earlier write to that slot. */
  lemma {:induction false} SlotAccessesAreOrdered<T>(s: State<T>)
    requires Inv(s)
    ensures s.producer.PushAdmitted? || s.producer.PushWriting? ==>
      forall t :: (0 <= t < |s.popped| + (if s.consumer.PopAdmitted? || s.consumer.PopReading? then 1 else 0)
        && Wrap(t, s.n) == s.producer.head) ==> t < s.seenTail
    ensures s.consumer.PopAdmitted? || s.consumer.PopReading? ==>
      forall w :: (0 <= w < |s.pushed| + (if s.producer.PushWriting? then 1 else 0)
        && Wrap(w, s.n) == s.consumer.tail) ==> w < s.seenHead
  {
    if s.producer.PushAdmitted? || s.producer.PushWriting? {
      forall t | s.seenTail <= t <= |s.pushed| && t != |s.pushed| ensures Wrap(t, s.n) != s.producer.head {
        SameSlot(t, |s.pushed|, s.n);
      }
    }
    if s.consumer.PopAdmitted? || s.consumer.PopReading? {
      forall w | s.seenHead <= w <= |s.pushed| && w < |s.popped| + s.n
        ensures Wrap(w, s.n) != s.consumer.tail
      {
        SameSlot(|s.popped|, w, s.n);
      }
      if s.producer.PushWriting? { WriteSlotIsFree(s); }
    }
  }
}
