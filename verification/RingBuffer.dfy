/** spsc_ring_buffer itself: its fields, and push() and pop() taken apart into the accesses they make.
    The ghost fields carry the history that RingProtocol's state needs; every method is one step of that
    state machine, or an uninterrupted sequence of them. */
module RingBuffer {
  import opened Bits
  import opened Sequences
  import opened RingProtocol

  class SpscRingBuffer<T(==)> {
    const n: u32
    const buf: array<Slot<T>>
    var head: u32
    var tail: u32
    var producer: Producer<T>
    var consumer: Consumer<T>

    ghost var headLog: seq<u32>
    ghost var tailLog: seq<u32>
    ghost var seenHead: nat
    ghost var seenTail: nat
    ghost var pushed: seq<T>
    ghost var popped: seq<Slot<T>>
    ghost var log: seq<Event<T>>

    ghost function Model(): State<T>
      reads this, buf
    {
      State(n, buf[..], headLog, tailLog, seenHead, seenTail, producer, consumer, pushed, popped, log)
    }

    ghost predicate Valid()
      reads this, buf
    {
      Inv(Model()) && head == Last(headLog) && tail == Last(tailLog)
    }

    /** The entries pushed and not yet popped, oldest first. */
    ghost function Contents(): seq<T>
      requires Valid()
      reads this, buf
    {
      pushed[|popped|..]
    }

    constructor (n: u32)
      requires ValidCapacity(n)
      ensures Valid() && Model() == Init(n) && Contents() == [] && fresh(buf)
    {
      this.n := n;
      buf := new Slot<T>[n](_ => Torn);
      head, tail, producer, consumer := 0, 0, PushIdle, PopIdle;
      headLog, tailLog, seenHead, seenTail, pushed, popped, log := [0], [0], 0, 0, [], [], [];
      new;
      InitInv<T>(n);
      assert Model() == Init(n);
    }

    // ---- the accesses of push() ----

    method LoadHeadForPush(entry: T)
      requires Valid() && producer.PushIdle?
      modifies this
      ensures Valid() && Model() == Next(old(Model()), Step.LoadHeadForPush(entry))
    {
      ghost var s := Model();
      StepInv(s, Step.LoadHeadForPush(entry));
      producer := PushLoaded(entry, head);
    }

    method LoadTailForPush() returns (admitted: bool)
      requires Valid() && producer.PushLoaded?
      modifies this
      ensures Valid() && Model() == Next(old(Model()), Step.LoadTailForPush(|old(tailLog)| - 1))
      ensures admitted == producer.PushAdmitted?
    {
      hide NextIndex, Wrap;
      ghost var s, at := Model(), |tailLog| - 1;
      StepInv(s, Step.LoadTailForPush(at));
      seenTail := at;
      admitted := NextIndex(producer.head, n) != tail;
      if admitted {
        producer := PushAdmitted(producer.entry, producer.head);
      } else {
        log := log + [PushFull(producer.entry)];
        producer := PushIdle;
      }
    }

    method BeginWrite()
      requires Valid() && producer.PushAdmitted?
      modifies this, buf
      ensures Valid() && Model() == Next(old(Model()), Step.BeginWrite)
    {
      ghost var s := Model();
      StepInv(s, Step.BeginWrite);
      buf[producer.head] := Torn;
      producer := PushWriting(producer.entry, producer.head);
      assert Model() == Next(s, Step.BeginWrite);
    }

    method EndWrite()
      requires Valid() && producer.PushWriting?
      modifies this, buf
      ensures Valid() && Model() == Next(old(Model()), Step.EndWrite)
    {
      ghost var s := Model();
      StepInv(s, Step.EndWrite);
      buf[producer.head] := Whole(producer.entry);
      producer := PushWritten(producer.entry, producer.head);
      assert Model() == Next(s, Step.EndWrite);
    }

    method StoreHead()
      requires Valid() && producer.PushWritten?
      modifies this
      ensures Valid() && Model() == Next(old(Model()), Step.StoreHead)
    {
      ghost var s := Model();
      StepInv(s, Step.StoreHead);
      head := NextIndex(producer.head, n);
      headLog, pushed, log := headLog + [head], pushed + [producer.entry], log + [Pushed(producer.entry)];
      producer := PushIdle;
    }

    /** push() up to its full check. */
    method AdmitPush(entry: T) returns (admitted: bool)
      requires Valid() && producer.PushIdle?
      modifies this
      ensures Valid()
      ensures admitted <==> |old(pushed)| - |old(popped)| < n - 1
      ensures Model() == old(Model()).(
                seenTail := |popped|,
                producer := if admitted then PushAdmitted(entry, old(head)) else PushIdle,
                log := if admitted then old(log) else old(log) + [PushFull(entry)])
    {
      LoadHeadForPush(entry);
      InvLoadTailForPush(Model(), |tailLog| - 1);
      admitted := LoadTailForPush();
    }

    /** push() from the full check on. */
    method CommitPush()
      requires Valid() && producer.PushAdmitted?
      modifies this, buf
      ensures Valid() && producer.PushIdle? && consumer == old(consumer)
      ensures pushed == old(pushed) + [old(producer).entry] && popped == old(popped)
      ensures log == old(log) + [Pushed(old(producer).entry)]
    {
      BeginWrite();
      EndWrite();
      StoreHead();
    }

    /** push(), not interrupted. The consumer may be anywhere inside pop(). */
    method Push(entry: T) returns (ok: bool)
      requires Valid() && producer.PushIdle?
      modifies this, buf
      ensures Valid() && producer.PushIdle? && consumer == old(consumer)
      ensures ok <==> |old(Contents())| < n - 1
      ensures Contents() == if ok then old(Contents()) + [entry] else old(Contents())
      ensures popped == old(popped) && log == old(log) + [if ok then Pushed(entry) else PushFull(entry)]
    {
      ok := AdmitPush(entry);
      if ok {
        CommitPush();
      }
    }

    // ---- the accesses of pop() ----

    method LoadTailForPop()
      requires Valid() && consumer.PopIdle?
      modifies this
      ensures Valid() && Model() == Next(old(Model()), Step.LoadTailForPop)
    {
      ghost var s := Model();
      StepInv(s, Step.LoadTailForPop);
      consumer := PopLoaded(tail);
    }

    method LoadHeadForPop() returns (admitted: bool)
      requires Valid() && consumer.PopLoaded?
      modifies this
      ensures Valid() && Model() == Next(old(Model()), Step.LoadHeadForPop(|old(headLog)| - 1))
      ensures admitted == consumer.PopAdmitted?
    {
      ghost var s, at := Model(), |headLog| - 1;
      StepInv(s, Step.LoadHeadForPop(at));
      seenHead := at;
      admitted := consumer.tail != head;
      if admitted {
        consumer := PopAdmitted(consumer.tail);
      } else {
        log := log + [PopEmpty];
        consumer := PopIdle;
      }
    }

    method BeginRead()
      requires Valid() && consumer.PopAdmitted?
      modifies this
      ensures Valid() && Model() == Next(old(Model()), Step.BeginRead)
    {
      ghost var s := Model();
      StepInv(s, Step.BeginRead);
      consumer := PopReading(consumer.tail, buf[consumer.tail]);
    }

    method EndRead()
      requires Valid() && consumer.PopReading?
      modifies this
      ensures Valid() && Model() == Next(old(Model()), Step.EndRead)
    {
      ghost var s := Model();
      StepInv(s, Step.EndRead);
      consumer :=
        PopRead(consumer.tail, if buf[consumer.tail] == consumer.seen then consumer.seen else Torn);
    }

    method StoreTail() returns (out: Slot<T>)
      requires Valid() && consumer.PopRead?
      modifies this
      ensures Valid() && Model() == Next(old(Model()), Step.StoreTail)
      ensures out == old(consumer.out)
    {
      ghost var s := Model();
      StepInv(s, Step.StoreTail);
      out := consumer.out;
      tail := NextIndex(consumer.tail, n);
      tailLog, popped, log := tailLog + [tail], popped + [out], log + [Popped(out)];
      consumer := PopIdle;
    }

    /** pop() up to its empty check. */
    method AdmitPop() returns (admitted: bool)
      requires Valid() && consumer.PopIdle?
      modifies this
      ensures Valid()
      ensures admitted <==> |old(popped)| < |old(pushed)|
      ensures Model() == old(Model()).(
                seenHead := |pushed|,
                consumer := if admitted then PopAdmitted(old(tail)) else PopIdle,
                log := if admitted then old(log) else old(log) + [PopEmpty])
    {
      LoadTailForPop();
      InvLoadHeadForPop(Model(), |headLog| - 1);
      admitted := LoadHeadForPop();
    }

    /** pop() from the empty check on. */
    method CommitPop() returns (out: Slot<T>)
      requires Valid() && consumer.PopAdmitted?
      modifies this
      ensures Valid() && consumer.PopIdle? && producer == old(producer)
      ensures |old(popped)| < |pushed| && out == Whole(pushed[|old(popped)|])
      ensures pushed == old(pushed) && popped == old(popped) + [out]
      ensures log == old(log) + [Popped(out)]
    {
      BeginRead();
      EndRead();
      out := StoreTail();
    }

    /** pop(), not interrupted. The producer may be anywhere inside push(). */
    method Pop() returns (ok: bool, out: Slot<T>)
      requires Valid() && consumer.PopIdle?
      modifies this
      ensures Valid() && consumer.PopIdle? && producer == old(producer)
      ensures ok <==> old(Contents()) != []
      ensures ok ==> out == Whole(old(Contents())[0]) && Contents() == old(Contents())[1..]
      ensures !ok ==> Contents() == old(Contents())
      ensures pushed == old(pushed) && log == old(log) + [if ok then Popped(out) else PopEmpty]
    {
      out := Torn;
      ok := AdmitPop();
      if ok {
        out := CommitPop();
      }
    }

    // ---- queries ----

    method Size() returns (size: u32)
      requires Valid()
      ensures size == |Contents()| <= n - 1
    {
      MaskedDifferenceCounts(|pushed|, |popped|, n);
      size := MaskedDifference(head, tail, n);
    }

    method Empty() returns (empty: bool)
      requires Valid()
      ensures empty <==> Contents() == []
    {
      SameSlot(|popped|, |pushed|, n);
      empty := head == tail;
    }
  }
}
