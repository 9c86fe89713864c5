# Verified models of vsomeip_dart

This project models the parts of vsomeip_dart that keep state over unbounded runs or must give data back
exactly, and proves properties of them for every input, every run and every interleaving. It consists of
Dafny files only; `dafny verify dfyconfig.toml` checks all of it.

## What is modelled

**The lock-free ring buffer** (`RingProtocol`, `RingHistory`, `RingBuffer`). `push()` and `pop()` are taken apart
into the loads, slot accesses and stores they make, and the two threads' steps are interleaved freely. An
atomic index is the sequence of values ever stored to it; a load of the other thread's index may return any
value from the last one seen onwards, which is what acquire/release coherence promises. A slot access takes two
steps, so a read that overlapped a write would see a torn slot. The invariant counts pushes and pops without
wrapping and relates them to the masked uint32 indices. The class `SpscRingBuffer` makes the same accesses on
its fields, each method being one step of the state machine.

**The signal filters and their registry** (`Medians`, `Iir`, `Powers`, `SignalFilters`, `FilterObjects`,
`FilterTable`, `FilterRegistry`, `FilterRuns`). The median filter's circular window and in-place sort against a characterisation
of the median by counting; the exponential filters over the reals against their closed form; the registry's
offset-sorted lists of owned filter objects against a plain map, and whole runs of registry calls against one
standalone filter per event and offset.

**The schema layout and codec generator** (`SchemaLayout`, `SchemaCodec`, `SchemaRoundTrip`). The offsets `layout`
assigns, and the meaning of the emitted Builder and Reader for an arbitrary list of field types: whole payloads,
payloads cut short anywhere, and arbitrary bytes.

**The rate limiter and the message pipeline** (`Throttle`, `Wire`, `Worker`, `Delivery`, `Client`, `Dispatch`). The
throttle as a greedy selection; the header written byte by byte in C++ and read in Dart; the worker isolate as a
state machine over timestamped arrivals; the client's streams; and delivery all the way from vsomeip, through the
signal filters and the throttle, to a stream (`Dispatch.WholeRun`).

**The bridge's handler tables** (`Handlers`) and **the cockpit's frame interpolator and history** (`Smoothing`,
`Cockpit`).

`Bits`, `Bytes`, `Options` and `Sequences` hold what these share.

## Reading the model

- Machine words are subset types of `int`; masks, shifts and wrap-around are written out (`Bits.And`, `Bits.Or`,
  `Bits.Shl`, `Bits.Shr`, reduction modulo 2^32).
- Times are parameters: a throttle decision or a history sample takes the clock value it would have read.
- A Dart exception in the worker's port listener ends the isolate, so the worker state becomes `Failed`.
- `alpha`, cutoff, samples and the cockpit's angles are reals; median inputs are any reals, so NaN does not occur.
- Members named after a class method update that class's fields; each is proved against a function of the old
  state, and the lemmas are about those functions.

## Where the code does less than one might expect

- A `Uint8List` is a `List`, so a lone two-byte buffer takes the worker's pair branch and its cast throws. The
  state event of an application with an empty name is such a buffer. `Delivery.WhatFails` gives the exact
  condition under which an arrival ends the worker; a throttle command with a rate so small that its period is
  infinite is another such arrival.
- A state event whose data, one byte and the name, are over 1 MiB is silently not posted, and the length is cast
  to 32 bits, so a name of 4 GiB or more is cut short (`Client.EventDelivery`).
- The Dart side reads the application's name one byte per code unit although it is UTF-8, so a name with bytes of
  0x80 and above comes back as another string. Here names are bytes on both sides, and those are equal.
- Subscribing again without a rate sends no command, so an earlier limit of the key stays (`Client.SubscribedAtRate`).
- `vsomeip_send_response` reads a service and an instance out of the request id, but only client and session are
  ever packed: both always come out as 0 (`Wire.RequestIdRoundTrip`).
- A 64-bit unsigned value of 2^63 or more reads as a negative Dart int; for the header's request id
  `Wire.HeaderRoundTrip` says when it is recovered. For schema fields the Builder takes a Dart int and the
  Reader gives the same one back.
- The emitted Builder checks nothing: `SchemaRoundTrip.RoundTrip` gives the exact condition, on the arguments,
  under which all fields are read back. A Float32 field takes any double and gives back the float32 nearest to
  it, for 0.1 another double (`SchemaRoundTrip.TenthIsRounded`).
- The registry's header file asks for 4-byte aligned offsets; nothing enforces it. The decomposition theorems
  need less: whenever an event's filters are applied, the slices in that payload must not overlap.
  `FilterRuns.SafeOffsets` shows which offsets guarantee that every filter acts alone: exactly those pairwise at
  least 4 apart.
- The median's header comment asks for an odd window; an even one is accepted and gives the upper median.
- Generated readers place VehicleSpeed's timestamp at offset 8 (`SchemaLayout.RepositorySchemas`); the committed
  VehicleSpeed files and `src/capnp_service.cpp:83` use 4.
- The emitted reader's comment says variable fields follow in declaration order; they follow in ordinal order.

## Model

| member | source | states |
|---|---|---|
| Bits.PowerOfTwoTest | src/ring_buffer.h:39-40 | the static assertion (N & (N-1)) == 0 accepts exactly the powers of two |
| RingProtocol.NextIndexCounts | src/ring_buffer.h:53 | (head + 1) & mask on uint32 is the next counter's slot |
| RingProtocol.MaskedDifferenceCounts | src/ring_buffer.h:80 | (head - tail) & mask is the true distance, also when the uint32 subtraction wraps |
| RingProtocol.FullCheck | src/ring_buffer.h:53-56 | next == tail holds exactly when N-1 entries are present against the loaded tail |
| RingProtocol.InvLoadTailForPush | src/ring_buffer.h:54-56 | push is refused exactly when the loaded tail leaves N-1 entries present; the invariant is kept |
| RingProtocol.InvLoadHeadForPop | src/ring_buffer.h:66-68 | pop is refused exactly when the loaded head leaves nothing unread; the invariant is kept |
| RingProtocol.StepInv | src/ring_buffer.h:51-72 | every single load, slot access or store of either thread keeps the invariant, stale loads included |
| RingProtocol.RunInv | src/ring_buffer.h:51-72 | the invariant holds after every interleaving |
| RingProtocol.QueueSafety | src/ring_buffer.h:51-72 | in every interleaving the popped values are whole and a prefix of the pushed ones, the rest lies in order in slots tail..head-1 modulo N, at most N-1 of it, and the slot being written is neither unread nor being read |
| RingProtocol.WriteSlotIsFree | src/ring_buffer.h:57 | the slot the producer writes holds no unread entry and is not the consumer's |
| RingProtocol.SlotAccessesAreOrdered | src/ring_buffer.h:54-70 | before writing a slot the producer has acquired the store after every earlier read of it, and before reading one the consumer has acquired the store after every earlier write |
| RingHistory.StepCompletes | src/ring_buffer.h:51-72 | each step completes at most one call, whose result is the FIFO's; a refusal is exact when its load is fresh |
| RingHistory.Linearizable | src/ring_buffer.h:51-72 | under fresh loads the results of all calls, at their deciding steps, are those of a FIFO of N-1 entries that then holds exactly the unread ones |
| RingHistory.StaleLoadsOnlyRefuse | src/ring_buffer.h:54-66 | with stale loads the successful calls are still those of that FIFO: staleness only causes spurious full or empty |
| RingHistory.HistoryIsOfSuccesses | src/ring_buffer.h:51-72 | the pushed and popped sequences are those of the calls that returned true |
| RingHistory.SizeByProducer | src/ring_buffer.h:77-81 | size() called by the producer is exact at its load of tail |
| RingHistory.SizeByConsumer | src/ring_buffer.h:77-81 | size() called by the consumer is exact at its load of head, whatever the producer does before the load of tail |
| RingBuffer.SpscRingBuffer.constructor | src/ring_buffer.h:45-47 | a new buffer is empty |
| RingBuffer.SpscRingBuffer.LoadHeadForPush | src/ring_buffer.h:52 | the producer's first access is that step of the state machine |
| RingBuffer.SpscRingBuffer.LoadTailForPush | src/ring_buffer.h:53-56 | so is the full check |
| RingBuffer.SpscRingBuffer.BeginWrite | src/ring_buffer.h:57 | the slot write as an access with a beginning and an end: here it begins |
| RingBuffer.SpscRingBuffer.EndWrite | src/ring_buffer.h:57 | and here it ends |
| RingBuffer.SpscRingBuffer.StoreHead | src/ring_buffer.h:58 | publishing the entry is the producer's last step |
| RingBuffer.SpscRingBuffer.Push | src/ring_buffer.h:51-60 | succeeds exactly when fewer than N-1 entries are present, and then appends; else changes no contents |
| RingBuffer.SpscRingBuffer.LoadTailForPop | src/ring_buffer.h:65 | the consumer's first access is that step of the state machine |
| RingBuffer.SpscRingBuffer.LoadHeadForPop | src/ring_buffer.h:66-68 | so is the empty check |
| RingBuffer.SpscRingBuffer.BeginRead | src/ring_buffer.h:69 | the slot read begins |
| RingBuffer.SpscRingBuffer.EndRead | src/ring_buffer.h:69 | and ends with the value read, torn if a write had overlapped it |
| RingBuffer.SpscRingBuffer.StoreTail | src/ring_buffer.h:70 | releasing the slot is the consumer's last step |
| RingBuffer.SpscRingBuffer.Pop | src/ring_buffer.h:64-72 | succeeds exactly when an entry is present, and then removes and returns the oldest, whole |
| RingBuffer.SpscRingBuffer.Size | src/ring_buffer.h:77-81 | the number of entries, at most N-1 |
| RingBuffer.SpscRingBuffer.Empty | src/ring_buffer.h:86-88 | true exactly when no entry is present |
| Iir.EmaAlpha | src/signal_filter.cpp:25-31 | the coefficient lands in (0, 1]; one already there is kept, one above becomes 1, any other 0.001 |
| Iir.LowpassAlphaIs | src/signal_filter.cpp:50-65 | alpha (6.28318530718 cutoff + rate) = 6.28318530718 cutoff, with 0.001 for a cutoff and 1 for a rate that are not positive |
| Iir.LowpassAlphaInRange | src/signal_filter.cpp:50-65 | dt / (RC + dt) lies strictly between 0 and 1 for all parameters |
| Iir.LowpassAlphaIncreases | src/signal_filter.cpp:50-65 | and grows strictly with the cutoff |
| Iir.OutputIsBounded | src/signal_filter.cpp:33-41 | every output lies between any bounds of the inputs since the reset |
| Iir.ClosedForm | src/signal_filter.cpp:33-41 | the output is the weighted sum of all inputs since the reset |
| Iir.WeightAt | src/signal_filter.cpp:33-41 | input 0 weighs (1-alpha)^(n-1), input i weighs alpha (1-alpha)^(n-1-i) |
| Iir.WeightsSumToOne | src/signal_filter.cpp:33-41 | the weights sum to 1 |
| Iir.ConstantInput | src/signal_filter.cpp:33-41 | under a constant input the error is exactly (1-alpha)^n times the first |
| SignalFilters.EmaFilter.constructor | src/signal_filter.cpp:25-31 | the clamped coefficient and no inputs yet |
| SignalFilters.EmaFilter.Apply | src/signal_filter.cpp:33-41 | returns the closed form over the inputs since the reset |
| SignalFilters.EmaFilter.Reset | src/signal_filter.cpp:43-46 | forgets all inputs |
| SignalFilters.Lowpass1Filter.constructor | src/signal_filter.cpp:50-65 | that coefficient for the cutoff and sample rate, and no inputs yet |
| SignalFilters.Lowpass1Filter.Apply | src/signal_filter.cpp:67-75 | returns the closed form over the inputs since the reset |
| SignalFilters.Lowpass1Filter.Reset | src/signal_filter.cpp:77-80 | forgets all inputs |
| Medians.MedianIsRank | src/signal_filter.cpp:105-106 | element valid/2 of the sorted samples is the sample of rank valid/2: at most that many below, more not above |
| Medians.RankIsUnique | src/signal_filter.cpp:105-106 | rank determines the value, whatever the order of the samples |
| Medians.MedianIsRobust | src/signal_filter.cpp:89-107 | with at most (valid-1)/2 samples outside [lo, hi] the output lies in it |
| Medians.MedianIsMonotone | src/signal_filter.cpp:89-107 | raising samples never lowers the output |
| SignalFilters.SortFront | src/signal_filter.cpp:105 | the front of the scratch buffer is sorted in place, the rest untouched |
| SignalFilters.InsertLast | src/signal_filter.cpp:105 | one insertion of the sort, in place |
| SignalFilters.StoreKeeps | src/signal_filter.cpp:90-94 | the circular write keeps the last windowSize inputs, through wrap-around, and full_ says whether there are that many |
| SignalFilters.HoldsMedian | src/signal_filter.cpp:96-106 | the median of the filled slots is that of the last min(n, windowSize) inputs in any rotation |
| SignalFilters.MedianFilter.constructor | src/signal_filter.cpp:84-87 | window size 0 becomes 1; all slots zero |
| SignalFilters.MedianFilter.Store | src/signal_filter.cpp:90-94 | the new sample replaces the oldest |
| SignalFilters.MedianFilter.Apply | src/signal_filter.cpp:89-107 | returns element valid/2 of the sorted last min(n, windowSize) inputs |
| SignalFilters.MedianFilter.Reset | src/signal_filter.cpp:109-114 | leaves exactly the state of a new filter |
| SignalFilters.MedianRun | src/signal_filter.cpp:89-107 | over whole runs: outputs are monotone in the inputs and stay in [lo, hi] while outliers are a minority of the window |
| FilterObjects.NewFilter | src/signal_filter.cpp:118-138 | allocates the filter that the type byte and parameter say |
| FilterObjects.ApplyRef | src/signal_filter.cpp:216 | the virtual call updates the object as its value's recurrence or window says |
| FilterTable.SameKey | src/signal_filter.h:108-111 | make_key is injective on (service, instance, event) |
| FilterTable.MakeKey | src/signal_filter.h:108-111 | the or-ed shifts are the sum of the three fields' places |
| FilterTable.PutKeeps | src/signal_filter.cpp:150-166 | replacing or inserting keeps the list strictly increasing in offset |
| FilterTable.FindPut | src/signal_filter.cpp:150-166 | afterwards the offset holds the new filter and every other offset what it held |
| FilterTable.FindWithout | src/signal_filter.cpp:182-189 | removing an offset removes it and nothing else |
| FilterTable.ApplyDecomposes | src/signal_filter.cpp:201-221 | over separated slices each filter sees the original bytes of its slice, its output is written there, and every other byte is unchanged |
| FilterTable.OverlapStep | src/signal_filter.cpp:209-218 | of two overlapping slices the second is found as it was exactly when the first filter's output has the original bytes where they overlap |
| FilterTable.EventsOf | src/signal_filter.cpp:195-199 | the set of exactly the events with a filter at some offset |
| FilterTable.CountIsOfEvents | src/signal_filter.cpp:223-226 | the number of keys is the number of events with at least one filter |
| FilterRegistry.Registry.constructor | src/signal_filter.h:104-152 | a new registry has no entries |
| FilterRegistry.Registry.SetFilter | src/signal_filter.cpp:140-167 | replaces the filter at the offset or inserts in order |
| FilterRegistry.Registry.FindOffset | src/signal_filter.cpp:150-155 | the index of the entry at the offset, if any |
| FilterRegistry.Registry.LowerBound | src/signal_filter.cpp:162-165 | the first position whose offset is not below the given one |
| FilterRegistry.Registry.ClearFilter | src/signal_filter.cpp:169-172 | removes the event |
| FilterRegistry.Registry.ClearFilterAt | src/signal_filter.cpp:174-193 | removes one offset, and the event with its last one |
| FilterRegistry.Registry.RemoveIf | src/signal_filter.cpp:184-189 | keeps exactly the other entries, in order |
| FilterRegistry.Registry.HasFilter | src/signal_filter.cpp:195-199 | true exactly when some offset of the event has a filter |
| FilterRegistry.Registry.ApplyOne | src/signal_filter.cpp:209-218 | one slice rewritten in the buffer, and the filter object fed, unless it reaches past the length |
| FilterRegistry.Registry.ApplyAt | src/signal_filter.cpp:209-219 | one round of the loop updates that filter's object and slice, and no other filter |
| FilterRegistry.Registry.Apply | src/signal_filter.cpp:201-221 | the buffer and the filter objects become what applying the list in turn gives, bytes past the length untouched; true exactly when some slice fits |
| FilterRegistry.Registry.Count | src/signal_filter.cpp:223-226 | the number of distinct (service, instance, event) with a filter, the size of that set |
| FilterRuns.DoKeepsTable | src/signal_filter.cpp:140-221 | every call keeps all stored lists non-empty and strictly increasing |
| FilterRuns.DoRefinesMap | src/signal_filter.cpp:140-221 | every call acts on the plain map from (service, instance, event, offset) to filter; set is a fresh overwrite; an apply needs non-overlapping slices |
| FilterRuns.RegistryDecomposes | src/signal_filter.cpp:140-221 | after any run in which an event's slices do not overlap where they are applied, the filter at (event, offset) is the one last set there, fed exactly that offset's samples from long-enough payloads since |
| FilterRuns.AlignedDecomposes | src/signal_filter.h:118 | with filters at 4-byte aligned offsets only, every filter of the event is the standalone one after every run |
| FilterRuns.PayloadDecomposes | src/signal_filter.cpp:201-221 | after any such run apply writes the standalone filters' outputs at their offsets and changes no other byte |
| FilterRuns.ApplyIsStandalone | src/signal_filter.cpp:201-221 | so apply makes of a payload exactly what the event's standalone filters make of it |
| FilterRuns.MedianIsWindowed | src/signal_filter.cpp:89-107 | a median filter in the registry is the median of the last w samples |
| FilterRuns.FilterTypesCompute | src/signal_filter.cpp:118-138 | what each type byte's filter answers: the closed form with its coefficient, the median of the last window, or the sample |
| FilterRuns.FloatFormatExists | src/signal_filter.cpp:214-217 | the facts that the next two ask of the float32 encoding can be met |
| FilterRuns.OverlapCouples | src/signal_filter.cpp:201-221 | for any two offsets less than 4 apart, and any float32 encoding, a run of calls after which the second filter is not the standalone one |
| FilterRuns.SafeOffsets | src/signal_filter.h:113-118 | every filter of an event is the standalone one after all runs that set filters at the given offsets only, if and only if the offsets are pairwise at least 4 apart |
| SchemaLayout.LayoutIsPacked | tool/capnp_dart_gen.py:134-151 | each fixed field gets the least naturally aligned offset clear of the fields before it, inside an 8-aligned header with under 8 bytes of tail padding |
| SchemaLayout.SizeTable | tool/capnp_dart_gen.py:30-44 | how many bytes each type takes |
| SchemaLayout.EndMonotone | tool/capnp_dart_gen.py:137-147 | offsets increase and fields do not overlap |
| SchemaLayout.AppendedFieldsMoveNothing | tool/capnp_dart_gen.py:137-147 | later fields move no fixed field before them |
| SchemaLayout.SortOrders | tool/capnp_dart_gen.py:130 | fields are put in order of their ordinals |
| SchemaLayout.DeclarationOrderIsIrrelevant | tool/capnp_dart_gen.py:123-131 | with distinct ordinals the layout does not depend on the order of declaration |
| SchemaLayout.NewestFieldMovesNothing | tool/capnp_dart_gen.py:123-151 | a field with the highest ordinal, declared anywhere, comes last and moves no existing fixed field |
| SchemaLayout.RepositorySchemas | lib/generated/infotainment.capnp.dart:43-60 | Infotainment gets the committed offsets 0, 4, 8 and header 16 |
| SchemaLayout.Layout | tool/capnp_dart_gen.py:134-151 | the loop assigns those offsets to the fields and returns the header length |
| SchemaCodec.Build | tool/capnp_dart_gen.py:289-337 | the buffer is the header with all fixed fields written, followed by the records of the variable ones |
| SchemaCodec.WriteFixed | tool/capnp_dart_gen.py:312-321 | the setter calls fill the header in field order |
| SchemaCodec.WriteVariable | tool/capnp_dart_gen.py:324-335 | the records are written one behind the other from p on |
| SchemaCodec.Walk | tool/capnp_dart_gen.py:212-219 | the doubly recursive offset functions are one left-to-right walk over the length words |
| SchemaRoundTrip.FixedRoundTrip | tool/capnp_dart_gen.py:188-200 | a fixed getter returns the written value exactly when it is in the field's range, or for Float32 a double that is a float32 value |
| SchemaRoundTrip.FixedWraps | tool/capnp_dart_gen.py:312-321 | an integer out of range reads back as the one value of its type that differs by a multiple of 256^size |
| SchemaRoundTrip.OnesRead | tool/capnp_dart_gen.py:354-421 | bytes of all ones read as -1 for signed types and UInt64, as the largest value for the others |
| SchemaRoundTrip.HeaderHolds | tool/capnp_dart_gen.py:312-321 | a field's bytes survive all later header writes |
| SchemaRoundTrip.PaddingIsZero | tool/capnp_dart_gen.py:304-321 | every header byte outside the fixed fields is zero |
| SchemaRoundTrip.OffsetOnPrefix | tool/capnp_dart_gen.py:212-219 | on the first k bytes of a payload the offset of a variable field is its true start or past the end |
| SchemaRoundTrip.TruncatedReads | tool/capnp_dart_gen.py:187-267 | on a payload cut anywhere, a representable field wholly inside reads as its value and any other as its default, whatever the other fixed fields hold |
| SchemaRoundTrip.RoundTrip | tool/capnp_dart_gen.py:187-337 | for every schema and every arguments, all fields read back if and only if integers are in range, Float32 arguments are float32 values and variable lengths are below 2^32; empty ones included |
| SchemaRoundTrip.TenthIsRounded | tool/capnp_dart_gen.py:312-321 | the double 0.1 is accepted for a Float32 field and read back as another double |
| SchemaRoundTrip.SamplePayload | lib/generated/infotainment.capnp.dart:80-121 | one whole payload, byte for byte |
| SchemaRoundTrip.NothingReads | tool/capnp_dart_gen.py:249-267 | an empty buffer reads as zeros, false and empty |
| SchemaRoundTrip.ReadsStayInside | tool/capnp_dart_gen.py:249-267 | on arbitrary bytes every getter gives a default or what lies wholly inside the buffer: a fixed field depends on the bytes at its offset alone, Text and Data are a slice behind their length word and depend on nothing behind it |
| Throttle.UnlimitedRates | lib/src/throttle.dart:16-17 | the interval is 0 exactly for rates not positive or above 2 MHz |
| Throttle.IntervalIsPeriod | lib/src/throttle.dart:16-17 | the interval is within half a microsecond of 1000000 / maxHz, halves rounded up, and the largest int exactly for periods that round there or beyond |
| Throttle.UsualRates | lib/src/throttle.dart:5-9 | 30, 60 and 10 Hz give 33333, 16667 and 100000 microseconds |
| Throttle.OverflowIsHalfway | lib/src/throttle.dart:17 | a period is infinite from halfway between the largest double and 2^1024 |
| Throttle.ForwardsKeepRate | lib/src/throttle.dart:16-32 | k forwards at maxHz span at least (k-1) (1000000 / maxHz - 0.5) microseconds |
| Throttle.SignalThrottle.Create | lib/src/throttle.dart:16-18 | the interval is the rounded period and there is no forward yet; it throws exactly when the period is infinite |
| Throttle.SignalThrottle.ShouldForward | lib/src/throttle.dart:23-32 | one decision of the limiter |
| Throttle.ForwardsAreSpaced | lib/src/throttle.dart:23-32 | for any clock, k forwards span at least k-1 intervals |
| Throttle.DroppedAreNear | lib/src/throttle.dart:26-31 | every dropped arrival is less than an interval after an earlier forwarded one |
| Throttle.GreedyIsMaximum | lib/src/throttle.dart:16-32 | with a clock that does not step back no selection of arrivals an interval apart is larger than what is forwarded |
| Throttle.ForwardedIsSelection | lib/src/throttle.dart:16-32 | and what is forwarded is such a selection |
| Throttle.ForwardedIsSelect | lib/src/throttle.dart:23-32 | the forwards are the arrivals answered with true |
| Throttle.EvenArrivals | lib/src/throttle.dart:23-32 | n arrivals a period p apart give exactly ceil(n / ceil(interval / p)) forwards |
| Wire.EncodeHeader | src/vsomeip_subscriber.cpp:56-100 | the bytes pushed are the 21 bytes of the header, low byte first |
| Wire.HeaderLayout | src/vsomeip_subscriber.cpp:56-100 | which byte holds which part of which field |
| Wire.PushU64 | src/vsomeip_subscriber.cpp:85-89 | the loop appends the eight bytes of the word |
| Wire.EncodeCapnpHeader | src/capnp_subscriber.cpp:70-82 | the header followed by the schema id in bytes 21 to 24, 25 bytes |
| Wire.HeaderRoundTrip | lib/src/ffi/codec.dart:51-64 | every header, in either form, decodes to the same fields; the request id exactly when below 2^63 |
| Wire.DecodeIsInjective | lib/src/ffi/codec.dart:51-64 | a buffer that decodes to a header starts with that header's bytes |
| Wire.PackRequestId | src/vsomeip_subscriber.cpp:42 | client in the upper, session in the lower 16 bits |
| Wire.RequestIdRoundTrip | src/vsomeip_bridge.cpp:566-569 | client and session are recovered for all values; service and instance come out as 0 |
| Wire.EventRoundTrips | lib/src/ffi/codec.dart:68-88 | availability and state events decode to what the application posted |
| Wire.EventLayout | src/vsomeip_app.cpp:134-149 | the bytes of both events, one by one |
| Wire.MessageTypeRoundTrip | lib/src/vsomeip_message.dart:18-23 | every type's code reads back as that type, and a byte is unknown exactly when it is no listed type's code |
| Wire.MessageTypeTable | lib/src/vsomeip_message.dart:5-23 | which byte reads as which message type |
| Worker.WorkerIsolate.OnMessage | lib/src/vsomeip_worker.dart:75-95 | the listener acts on the throttle objects and the port as the state machine does; a shutdown ends it and sends nothing |
| Worker.WorkerIsolate.HandleDisc | lib/src/vsomeip_worker.dart:99-126 | dispatch by discriminator |
| Worker.WorkerIsolate.HandleMessage | lib/src/vsomeip_worker.dart:129-143 | decode, throttle by key, send |
| Delivery.WhatFails | lib/src/vsomeip_worker.dart:75-95 | an arrival kills the worker exactly when it is a lone two-byte buffer, is shorter than its discriminator demands, or sets a rate whose period is infinite; exactly a shutdown closes it |
| Delivery.RunsExactly | lib/src/vsomeip_worker.dart:75-95 | the worker still runs exactly when it has met no shutdown and nothing that kills it |
| Delivery.SilentFrom | lib/src/vsomeip_worker.dart:92-94 | from a shutdown on, or from an arrival that kills it, the worker sends nothing |
| Delivery.WhatIsAsked | lib/src/vsomeip_worker.dart:99-143 | what each native message asks for, by its discriminator byte and the bytes of its fields |
| Delivery.NothingAfterStop | lib/src/vsomeip_worker.dart:92-94 | nothing is handled or sent after a shutdown or failure |
| Delivery.SentIsSelection | lib/src/vsomeip_worker.dart:99-143 | the output is an order-preserving selection of the decoded inputs |
| Delivery.StepForKey | lib/src/vsomeip_worker.dart:129-143 | what a step does to a key depends on that key's throttle and message only |
| Delivery.NonInterference | lib/src/vsomeip_worker.dart:69-143 | what is sent for a key is what would be sent had only that key's messages and throttle commands arrived |
| Delivery.OnlyThrottledKeysLose | lib/src/vsomeip_worker.dart:99-143 | until stopped, the worker loses no event and no message of a key never given a limit |
| Delivery.ThrottledKeyIsLimited | lib/src/vsomeip_worker.dart:86-143 | after a throttle command exactly those messages of the key are sent that the new throttle lets through at their arrival times |
| Delivery.ThrottledKeyIsMaximum | lib/src/vsomeip_worker.dart:86-143 | what the worker then sends for the key arrived at least an interval apart, and with a clock that does not step back no selection of the key's arrivals an interval apart is larger |
| Delivery.ThrottledKeyKeepsRate | lib/src/vsomeip_worker.dart:86-143 | of what it sends for a key throttled to maxHz, k messages arrived over at least (k-1) (1000000 / maxHz - 0.5) microseconds |
| Delivery.ThrottledEvenArrivals | lib/src/vsomeip_worker.dart:86-143 | of n messages a period p apart it sends exactly ceil(n / ceil(interval / p)) |
| Client.OnMessage | src/vsomeip_subscriber.cpp:26-54 | what one callback posts: the encoded header, and the payload or null, or nothing when oversize |
| Client.PostMessage | src/vsomeip_bridge.cpp:118-168 | payloads over 1 MiB are dropped and empty ones become null |
| Client.VsomeipClient.SubscribeEvent | lib/src/vsomeip_client.dart:124-146 | a key gets a stream unless it has one, every existing stream stays as it was, and a throttle command with this key and rate goes to the worker exactly for a positive rate |
| Client.SubscribeKeeps | lib/src/vsomeip_client.dart:144 | subscribing adds at most one empty stream and takes nothing from any other |
| Client.VsomeipClient.OnMainPortMessage | lib/src/vsomeip_client.dart:343-356 | a message goes to the stream of its key, events to their streams, anything else nowhere |
| Client.RoutingByKey | lib/src/vsomeip_client.dart:343-356 | a stream receives exactly its key's messages, in order |
| Client.RoutingOfEvents | lib/src/vsomeip_client.dart:350-354 | the availability and state streams receive exactly the events of their kind, in order |
| Client.CallDecodes | lib/src/ffi/codec.dart:117-127 | one callback of at most 1048576 bytes is posted and decodes to a message with the same fields |
| Client.PostToDart | src/vsomeip_bridge.cpp:74-112 | nothing is posted when the data are over 1 MiB, else the discriminator and the data |
| Client.OnEvent | src/vsomeip_app.cpp:134-149 | the bytes posted for an event, the state event's length cast to 32 bits |
| Client.EventDelivery | src/vsomeip_app.cpp:134-149 | a running worker delivers every availability event with equal fields; a state event over 1 MiB is never posted, one without a name stops the worker, any other is delivered, with equal fields unless its length does not fit in 32 bits |
| Client.EndToEnd | lib/src/vsomeip_client.dart:343-356 | whatever else arrives in between, while nothing limits the key its stream receives exactly that key's messages heard before the worker stops, on_message calls of at most 1 MiB with equal fields, in order |
| Client.ThrottledEndToEnd | lib/src/vsomeip_client.dart:343-356 | from a throttle command on, the key's stream receives exactly the messages the throttle lets through: an interval apart, and a maximum |
| Client.SubscribedAtRate | lib/src/vsomeip_client.dart:124-146 | with the command that subscribing at maxHz sends, the stream receives all of its messages for a rate not positive or above 2 MHz, and else those the throttle lets through, at no more than that rate |
| Client.EventsEndToEnd | lib/src/vsomeip_client.dart:350-354 | no availability or state event is lost before the worker stops, whatever is throttled |
| Dispatch.DispatchMessage | src/vsomeip_bridge.cpp:298-346 | the message passed on and the registry after it: dropped when oversize, filtered in a copy when its event has a filter and it has a payload, else unchanged |
| Dispatch.DispatchIsApply | src/vsomeip_bridge.cpp:325-330 | asking has_filter first changes nothing: any message not oversize comes out as apply alone would leave it |
| Dispatch.MessagesAreFiltered | src/vsomeip_bridge.cpp:298-346 | after any run in which the event's slices do not overlap where they are applied, the next message is passed on with only its filtered slices changed, each to the output of a filter fed exactly that event and offset's samples since it was set |
| Dispatch.WholeRun | src/vsomeip_bridge.cpp:298-346 | over any run of filter and throttle commands, messages, events and shutdowns an event's stream receives exactly what its standalone filters and its own throttle make of its own messages |
| Dispatch.FilteredEndToEnd | src/vsomeip_bridge.cpp:298-346 | while the worker runs and the key is not limited, each incoming message appends itself, filtered, to its own key's stream and nothing to any other; an oversize one appends nothing |
| Handlers.RunsAreCoupled | src/vsomeip_bridge.cpp:172-267 | in every sequential run, with addresses reused, tracked handles are live, every registered handler is tracked, and no destroyed application keeps one |
| Handlers.TablesAreHistory | src/vsomeip_bridge.cpp:193-267 | the tables are exactly what the calls since the application's creation say; nothing is inherited at a reused address |
| Handlers.Bridge.AppCreate | src/vsomeip_bridge.cpp:200-226 | a started application is entered under its address; a failed start changes nothing and returns null |
| Handlers.Bridge.AppDestroy | src/vsomeip_bridge.cpp:228-267 | the application leaves both tables and ends with no handler registered |
| Handlers.Bridge.UnregisterAll | src/vsomeip_bridge.cpp:255-261 | the loop unregisters exactly the given keys |
| Handlers.Bridge.RegisterMessageHandler | src/vsomeip_bridge.cpp:416-446 | registers and tracks the key, as subscribe does; an unknown handle does nothing |
| Handlers.Bridge.TrackHandler | src/vsomeip_bridge.cpp:195-198 | adds the key to the handle's tracked set |
| Handlers.Bridge.UnregisterMessageHandler | src/vsomeip_bridge.cpp:448-456 | unregisters the key, which stays tracked |
| Smoothing.FrameShrinksGap | example/flutter_drone_cockpit/lib/main.dart:122-159 | a frame ends exactly on the target when the gap is below epsilon, else shrinks the wrapped gap by exactly 1 - smoothing |
| Smoothing.FrameShows | example/flutter_drone_cockpit/lib/main.dart:141-156 | a frame shows the target when the gap is below 0.0005, else the value and its share of the gap; an angle as the equivalent one in [0, 2 pi) |
| Smoothing.GapIsShortest | example/flutter_drone_cockpit/lib/main.dart:127-139 | the gap is target minus value, for an angle the shorter way round |
| Smoothing.SettersAct | example/flutter_drone_cockpit/lib/main.dart:104-125 | what setting, snapping and disposing do, field by field |
| Smoothing.AtMostOneFrame | example/flutter_drone_cockpit/lib/main.dart:104-164 | in every run at most one frame is pending, exactly while ticking, and a value that is not ticking has reached its target |
| Smoothing.GapDecays | example/flutter_drone_cockpit/lib/main.dart:122-159 | after n frames the gap is exactly (1-smoothing)^n times the first |
| Smoothing.StopsExactly | example/flutter_drone_cockpit/lib/main.dart:122-159 | after n + 1 frames the animation still runs if and only if (1-smoothing)^n times the first gap is not below 0.0005; it stops on target |
| Smoothing.StopsInTime | example/flutter_drone_cockpit/lib/main.dart:122-159 | so it stops within one frame more than gap / (epsilon smoothing) |
| Smoothing.TargetIsReached | example/flutter_drone_cockpit/lib/main.dart:104-159 | setting a target and letting that many frames run shows the target: exactly, or for an angle the equivalent one in [0, 2 pi) |
| Smoothing.WrapFinds | example/flutter_drone_cockpit/lib/main.dart:130-139 | the normalising loops find the equivalent angle strictly inside (-pi, pi) |
| Cockpit.SmoothedValue.SetTarget | example/flutter_drone_cockpit/lib/main.dart:104-108 | sets the target and starts ticking unless disposed |
| Cockpit.SmoothedValue.Tick | example/flutter_drone_cockpit/lib/main.dart:122-159 | one frame of the state machine |
| Cockpit.SmoothedValue.NormaliseGap | example/flutter_drone_cockpit/lib/main.dart:130-139 | the two loops end and give the wrapped gap |
| Cockpit.SmoothedValue.Snap | example/flutter_drone_cockpit/lib/main.dart:111-114 | value and target at once |
| Cockpit.SmoothedValue.Dispose | example/flutter_drone_cockpit/lib/main.dart:161-164 | no more frames are scheduled |
| Cockpit.SignalHistory.Add | example/flutter_drone_cockpit/lib/main.dart:192-200 | captures unless the last capture is less than an interval ago |
| Cockpit.SignalHistory.Samples | example/flutter_drone_cockpit/lib/main.dart:204-211 | the last min(n, capacity) captured samples, oldest first |
| Cockpit.SignalHistory.Range | example/flutter_drone_cockpit/lib/main.dart:215-225 | least and greatest sample, widened by 1 each way exactly when all samples are equal, (0, 1) when empty |
| Cockpit.SignalHistory.Clear | example/flutter_drone_cockpit/lib/main.dart:227-232 | empty again |

## Left out

- IEEE rounding, NaN and infinities: filters and angles are over the reals, floating-point schema fields are bit patterns.
- RingHistory.SizeByProducer: size() and empty() called by a third thread are not modelled; there the two loads can be of moments between which both indices moved.
- Ring buffer executions in which a load returns a value not yet stored, which the acquire/release orders rule out.
- FilterRegistry.Registry.Apply: the registry's mutex is not modelled, calls are sequential; entries are values holding a reference to an owned filter object, and deleting replaced objects is left to the garbage collector.
- Float encodings: how 4 bytes become a float32 sample, and how doubles are narrowed to float32 and widened, are parameters; only `FilterRuns.OverlapCouples`, `FilterRuns.SafeOffsets` and `SchemaRoundTrip.TenthIsRounded` ask facts of them.
- Throttle.SignalThrottle.Create: the quotient is the real one, rounded half up and capped at the largest Dart int; NaN and infinite rates do not occur.
- Overflow of the Dart int offsets in emitted readers, which would need more than 2^31 variable fields.
- The generator's regular-expression parsing, its emitted text, UTF-8 and name collisions; fields are identified by position.
- The emitted reader's debug assertion that its buffer is not empty.
- Handlers.RunsAreCoupled: calls are sequential, and unregistering a handler never throws; concurrent destroy and subscribe are not modelled because no lock spans them.
- Dispatch.DispatchMessage: copying the payload never runs out of memory, and what a client hears of subscription acknowledgements, which the worker passes on raw and the client ignores, is not stated.
- request_event, subscribe and unsubscribe towards vsomeip, which leave the handler tables alone.
- Client.EndToEnd: posting to the Dart port and allocating memory succeed; listeners are attached, as a broadcast stream drops what nobody hears; streams opened with a wildcard id are not routed to.
- The client's pending requests, whose table is never filled.
- Cockpit.SignalHistory.Add: the capacity is positive, as it is everywhere in the cockpit; notifying listeners is not modelled.
- Cockpit.SmoothedValue.Snap: setting the notifier of a disposed value, which Flutter rejects, is not an error here.
- ServiceRegistry, CapnpPayloadBuilder, the selective decoder and alignment copies: straightforward maps and bounds checks.
- Flutter widgets, isolate start-up, FFI marshalling, build hooks and the simulators.
