# Order-flow engine: a verified model

The order-flow engine turns a stream of market ticks into analytics. Ticks enter through
lock-free ring buffers, a router finds the buffer of a symbol, and a worker thread per
symbol drains its ring through a fixed list of stages. Behind that, incremental engines
build bars and footprints, delta metrics, a volume profile with its value area, a
volume-weighted average price with bands, trade classification and imbalance zones.

This project models those parts in Dafny and proves what holds over every run of them.

## Organisation

- **Concurrent tick path.** `FreeRunningRing`, `WrappedRing` and `WorkerProtocol` are state
  machines whose steps are single atomic loads and stores with stale local reads; a run is
  any interleaving. `RouterProtocol` takes router commands whole, `ConcurrentRouter`
  interleaves them with the steps of the rings. The classes in `RingBuffer`, `SpscRing`,
  `SymbolWorker` and `TickRouter` update their fields in place and are proved to take
  exactly these steps. `FreeRunningQueries` and `WrappedQueries` are the size and emptiness
  queries that race with these steps, `WorkerProgress` bounds the wait of an accepted tick,
  `WorkerLifecycle` follows start, submit and stop from the command to its effect,
  `RouterLinearization` relates the interleaved router to the whole one, and `RouterProgress`
  bounds the steps of its calls.
  `Fifo` is the reference queue. `SymbolHash` holds the symbol ids.
- **Value area.** `ValueArea` is the greedy expansion over a list of volumes,
  `VolumeProfile` the engine around it.
- **Imbalance zones.** `Footprint` flags diagonals, `Runs` is the scan for streaks, `Zones`
  and `ZoneTheorems` are the registry, `ImbalanceDetector` the objects.
- **Statistics against history.** `Vwap`, `DeltaEngine`, `LeeReady`, and the bar series:
  `BarProtocol` (where bars are cut), `BarLevels` (price levels), `BarSeries` (the object),
  `BarZones` (bars as input of the detector), `RootBars` (the bar series of the header
  library).
- `Bits`, `Reals`, `Grid`, `Sets`, `Ticks`, `BarTypes` and `Wrappers` are shared.

Hypotheses: one producer and one consumer per buffer, one controlling thread per worker.
The ring capacity is any power of two `Pow2(k)`, and a word has any width `w > k`; the
engine uses 4096 and 16384 slots and 64 bits. Prices of footprints and zones are counted
in ticks, which loses nothing because the bar series rounds its levels to the grid; the low
and high of a bar are not rounded and may lie between two ticks (`Grid`, `BarZones`). The
square root of `snapshot` in the average-price engine is a parameter that squares to the
variance.

## Where the code and its documentation differ

- A stacked zone is documented to survive across bars
  (`ofe_session1_code/ofe/include/signals/signal_types.h:188`). `detect_all` resolves with
  the same bar every zone it has just created or extended, except when the low or high of
  the bar lies exactly half a tick beyond the zone (`DetectAllSurvivors`,
  `SurvivorsOfBars`, `ExampleZone`). With prices that are multiples of the tick size none
  survives (`NoZoneOnGrid`).
- The extreme-delta signal is documented to fire when a bar exceeds the session maximum
  times a threshold of 1.5 by default
  (`ofe_session1_code/ofe/include/analytics/delta_engine.h:131-139`). The session maximum
  already includes the bar, so no threshold above one ever fires (`CloseAndDetect`). When
  some earlier bar had a delta, the test agrees with one against the earlier bars exactly
  for thresholds of at most one; when none had, exactly for thresholds above one
  (`ExtremeAgainstEarlier`).
- A bar is documented to be replaced by a new one when a tick closes it
  (`ofe_session1_code/ofe/include/core/bar_engine.h:52-55`). The next bar opens with the
  next tick that counts, and the closing tick of a time bar belongs to the bar whose
  window it has left (`EndsUnreplaced`, `TimeBarWindow`).
- The end of a time bar is documented to start from the rounded-down stamp of its opening
  (`ofe_session1_code/ofe/src/core/bar_engine.cpp:206-207`). The division drops the fraction
  instead, so a bar that opens at a negative stamp off the grid ends one size later
  (`TimeBarEnd`).
- The header library documents that each bar tracks the cumulative volume delta
  (`README.md:65`) and that this is a running total across all bars (`README.md:80`). The
  figure in a bar's record adds the running delta of the bar at every tick and restarts
  with each bar; it is that total exactly under the conditions of `CvdExact` and, over a
  whole run, `CvdAlwaysTotal`.

## Model

| member | source | states |
|---|---|---|
| `FreeRunningRing.RefinesFifo` | include/ofe/core/ring_buffer.h:44-78 | In every interleaving of one producer and one consumer, however often the counters wrap, no slot is read before it holds an element or overwritten while it does, every answer is that of a FIFO of Capacity elements, and popped followed by queued elements are the accepted ones in order. |
| `FreeRunningRing.RunInv` | include/ofe/core/ring_buffer.h:44-78 | Every schedule of atomic steps, starting from an empty ring, keeps the ring invariant between any two steps. |
| `FreeRunningRing.ProducerKeepsInv` | include/ofe/core/ring_buffer.h:44-55 | Each atomic step of `emplace` (own index load, other index load and test, construction, publication), taken with stale reads at any point of a running `try_pop`, keeps the invariant. |
| `FreeRunningRing.ConsumerKeepsInv` | include/ofe/core/ring_buffer.h:65-78 | Each atomic step of `try_pop`, taken at any point of a running `emplace`, keeps the invariant. |
| `FreeRunningRing.CountersMeasure` | include/ofe/core/ring_buffer.h:35-41 | The wrapped difference of the two counters is the number of queued elements, and the counters are equal exactly for an empty queue. |
| `FreeRunningRing.WrappedIndex` | include/ofe/core/ring_buffer.h:51-51 | Because the capacity divides the word, masking a wrapped counter selects the slot of the counter that never wraps. |
| `FreeRunningRing.LiveWindow` | include/ofe/core/ring_buffer.h:86-96 | The slots from the tail on hold the queued elements in order; only the first may be destroyed already, before the tail is published. |
| `Fifo.Conservation` | include/ofe/core/ring_buffer.h:44-78 | In any history a bounded FIFO allows, delivered followed by queued elements are the accepted ones, and the queue respects its bound. |
| `RingBuffer.RingBuffer.constructor` | include/ofe/core/ring_buffer.h:20-24 | A new ring is empty and sound. |
| `RingBuffer.RingBuffer.ProducerTurn` | include/ofe/core/ring_buffer.h:44-55 | The object's fields and slot array after one atomic step of `emplace` are those of the step protocol. |
| `RingBuffer.RingBuffer.ConsumerTurn` | include/ofe/core/ring_buffer.h:65-78 | The same for one atomic step of `try_pop`. |
| `RingBuffer.RingBuffer.Emplace` | include/ofe/core/ring_buffer.h:44-63 | An uninterrupted push succeeds exactly when fewer than Capacity elements are queued, and then appends its value. |
| `RingBuffer.RingBuffer.TryPop` | include/ofe/core/ring_buffer.h:65-78 | An uninterrupted pop succeeds exactly on a non-empty queue and returns its front. |
| `RingBuffer.RingBuffer.Clear` | include/ofe/core/ring_buffer.h:80-84 | Terminates with an empty queue. |
| `RingBuffer.RingBuffer.SizeApprox` | include/ofe/core/ring_buffer.h:39-41 | With no call in progress the size is the number of queued elements. |
| `RingBuffer.RingBuffer.Empty` | include/ofe/core/ring_buffer.h:35-37 | With no call in progress, empty is reported exactly for the empty queue. |
| `FreeRunningQueries.ProducersQuery` | include/ofe/core/ring_buffer.h:35-41 | Asked by the producer's own thread in the middle of any interleaving, the size is the exact length of the queue at the load of the consumer's counter, and empty is reported exactly when that length is zero. |
| `FreeRunningQueries.ConsumersQuery` | include/ofe/core/ring_buffer.h:35-41 | Asked by the consumer's own thread, the same holds at the load of the producer's counter. |
| `FreeRunningQueries.ProducerFirst` | include/ofe/core/ring_buffer.h:35-41 | Asked by a third thread that loads the producer's counter first, the size is the length at that load less the elements delivered in between, never more than the length at either load, exactly when no more were delivered than were queued; otherwise the difference wraps. |
| `FreeRunningQueries.ConsumerFirst` | include/ofe/core/ring_buffer.h:35-41 | Asked by a third thread that loads the consumer's counter first, the size is the length at either load plus what was delivered, or accepted, in between, exactly as long as that fits in a word. |
| `WorkerProtocol.NothingLost` | include/ofe/core/symbol_worker.h:43-85 | Over any interleaving of submits, worker steps and start/stop/restart: processed ticks, then the at most one in flight, then the ring contents are the accepted ticks in order; the ring is never misused; at most one worker thread is alive, and one is whenever the worker runs and no call is in progress. |
| `WorkerProtocol.EachTickStagedOnce` | include/ofe/core/symbol_worker.h:67-101 | Every processed tick went through each stage that has a handler exactly once, in stage order and before the next tick, and is published exactly when a bus is attached. |
| `WorkerProtocol.HandlersCalled` | include/ofe/core/symbol_worker.h:75-79 | In every run a processed tick has been through every handler at the indices 0 to 10, and no other handler is ever called. |
| `WorkerProtocol.StoppedLosesNothing` | include/ofe/core/symbol_worker.h:51-56 | After a completed `stop` no thread is alive and no tick in flight: processed ticks followed by the ring contents are the accepted ones, so a restart continues without loss. |
| `WorkerProtocol.StopReturns` | include/ofe/core/symbol_worker.h:51-85 | In every run: once `stop` waits for a worker thread, any schedule in which that thread takes 19 steps and after which the controller takes one passes through a state in which the stop has returned and the worker does not run. |
| `WorkerProtocol.StopCompletes` | include/ofe/core/symbol_worker.h:51-85 | While `stop` waits, every step of the worker thread brings its exit closer, no other step delays it, and the next step of the controller after the exit returns. |
| `WorkerProgress.AcceptedIsProcessed` | include/ofe/core/symbol_worker.h:67-85 | In every run: while the worker runs and is not stopped, any schedule in which its thread takes 19 steps for a tick and for each unprocessed one before it, whatever the other threads do, processes the tick accepted as number m as number m. |
| `WorkerLifecycle.StartStarts` | include/ofe/core/symbol_worker.h:43-49 | In every run a start of a stopped worker, whatever the other threads do in the meantime, leads to a running worker with exactly one live thread, a fresh one. |
| `WorkerLifecycle.KeepsRunning` | include/ofe/core/symbol_worker.h:43-85 | As long as no stop is called a running worker keeps running with that one live thread, whatever else happens. |
| `WorkerLifecycle.IdleCommands` | include/ofe/core/symbol_worker.h:43-56 | A start of a running worker and a stop of a stopped one change nothing. |
| `WorkerLifecycle.StopBegins` | include/ofe/core/symbol_worker.h:51-56 | A stop of a running worker takes the flag down and waits for its thread, and changes nothing else. |
| `WorkerLifecycle.StopStops` | include/ofe/core/symbol_worker.h:51-85 | A stop stops: in every run, when a running worker is stopped, any schedule in which its thread takes 19 steps and after which the controller takes one passes through a state in which the worker is stopped, no thread is alive and every accepted tick is processed or in the ring. |
| `WorkerLifecycle.StartProcesses` | include/ofe/core/symbol_worker.h:43-85 | From the start to the tick: after a start, while no stop is called, any schedule in which the new thread takes 19 steps for a tick and for each unprocessed one before it processes the tick accepted as number m as number m. |
| `WorkerLifecycle.SubmitAccepts` | include/ofe/core/symbol_worker.h:58-60 | A submit that begins while the ring is not full has its tick accepted as the next one after its four steps, in every interleaving. |
| `WorkerLifecycle.SubmittedIsProcessed` | include/ofe/core/symbol_worker.h:58-85 | From the submit to the tick: on a running worker with room, such a submit and then 19 steps of the thread for its tick and each unprocessed one before it process that tick right after all ticks accepted before. |
| `WorkerProtocol.RunInv` | include/ofe/core/symbol_worker.h:43-85 | Every run keeps the invariant of ring, threads and logs. |
| `WorkerProtocol.SubmitKeepsInv` | include/ofe/core/symbol_worker.h:58-60 | A step of a submit keeps it, whatever the worker threads do. |
| `WorkerProtocol.ControllerKeepsInv` | include/ofe/core/symbol_worker.h:43-56 | A step of `start` or `stop` keeps it; a joinable thread handle is never overwritten. |
| `WorkerProtocol.ThreadKeepsInv` | include/ofe/core/symbol_worker.h:67-85 | A step of any worker thread keeps it. |
| `SymbolWorker.SymbolWorker.TicksAccounted` | include/ofe/core/symbol_worker.h:43-101 | Of the object, after any steps taken on it: processed ticks, the one in flight and the ring contents are the accepted ticks in order, processed ticks are published if a bus is attached, and at most one worker thread is alive. |
| `SymbolWorker.SymbolWorker.SubmitTurn` | include/ofe/core/symbol_worker.h:58-60 | The object after one atomic step of `submit` is in the state the protocol gives, and stays in the state that the run of all its steps gives. |
| `SymbolWorker.SymbolWorker.ControllerTurn` | include/ofe/core/symbol_worker.h:43-56 | The same for `start` and `stop`. |
| `SymbolWorker.SymbolWorker.ThreadTurn` | include/ofe/core/symbol_worker.h:67-101 | The same for the loop of a worker thread with its stages and `publish_tick`. |
| `WrappedRing.RefinesFifo` | ofe_session1_code/ofe/src/core/ring_buffer.cpp:32-78 | In every interleaving the wrapped-index ring answers as a FIFO of Capacity - 1 elements and loses, duplicates or reorders nothing; the drop counter is the number of rejected pushes, one behind only while a drop is being counted. |
| `WrappedRing.RunInv` | ofe_session1_code/ofe/src/core/ring_buffer.cpp:32-78 | Every schedule keeps the ring invariant. |
| `WrappedRing.WriteSlot` | ofe_session1_code/ofe/src/core/ring_buffer.cpp:44-44 | The slot that a push writes is none of the live ones, at any point of a running pop. |
| `WrappedRing.ReadValue` | ofe_session1_code/ofe/src/core/ring_buffer.cpp:75-75 | The value that a pop reads is the front of the queue, at any point of a running push. |
| `WrappedRing.IndicesMeasure` | ofe_session1_code/ofe/src/core/ring_buffer.cpp:90-111 | The indices alone tell size, emptiness and fullness of the queue. |
| `SpscRing.SpscRing.ProducerTurn` | ofe_session1_code/ofe/src/core/ring_buffer.cpp:33-63 | The object after one atomic step of `try_push` is in the state of the step protocol. |
| `SpscRing.SpscRing.ConsumerTurn` | ofe_session1_code/ofe/src/core/ring_buffer.cpp:66-78 | The same for `try_pop`. |
| `SpscRing.SpscRing.TryPush` | ofe_session1_code/ofe/src/core/ring_buffer.cpp:33-63 | An uninterrupted push succeeds exactly when fewer than Capacity - 1 elements are queued; otherwise the queue stays and one drop is counted. |
| `SpscRing.SpscRing.TryPop` | ofe_session1_code/ofe/src/core/ring_buffer.cpp:66-78 | An uninterrupted pop returns the front exactly when there is one and counts no drop. |
| `SpscRing.SpscRing.Peek` | ofe_session1_code/ofe/src/core/ring_buffer.cpp:81-88 | The front, if any, which stays queued. |
| `SpscRing.SpscRing.SizeApprox` | ofe_session1_code/ofe/src/core/ring_buffer.cpp:91-96 | The number of queued elements, although the difference wraps in a machine word. |
| `SpscRing.SpscRing.Empty` | ofe_session1_code/ofe/src/core/ring_buffer.cpp:99-103 | True exactly for the empty queue. |
| `SpscRing.SpscRing.Full` | ofe_session1_code/ofe/src/core/ring_buffer.cpp:106-111 | True exactly when Capacity - 1 elements are queued. |
| `SpscRing.SpscRing.DroppedCount` | ofe_session1_code/ofe/src/core/ring_buffer.cpp:114-117 | The number of failed pushes. |
| `WrappedQueries.ProducersQuery` | ofe_session1_code/ofe/src/core/ring_buffer.cpp:90-111 | Asked by the producer's own thread in the middle of any interleaving, size, empty and full answer for the exact length of the queue at the load of the consumer's index. |
| `WrappedQueries.ConsumersQuery` | ofe_session1_code/ofe/src/core/ring_buffer.cpp:90-111 | Asked by the consumer's own thread, they answer for the exact length at the load of the producer's index. |
| `WrappedQueries.ProducerFirst` | ofe_session1_code/ofe/src/core/ring_buffer.cpp:90-96 | Asked by a third thread that loads the producer's index first, the size is the length at that load less the elements delivered in between, never more than the length at either load, exactly when no more were delivered than were queued. |
| `WrappedQueries.ConsumerFirst` | ofe_session1_code/ofe/src/core/ring_buffer.cpp:90-96 | Asked by a third thread that loads the consumer's index first, the size is the length at either load plus what was delivered, or accepted, in between, exactly as long as that is less than the number of slots. |
| `RouterProtocol.CountersAddUp` | ofe_session1_code/ofe/src/core/tick_router.cpp:34-137 | Over any run: routed + dropped + unknown is the number of route calls, routed is the number of accepted ticks, and the registry never exceeds its limit. |
| `RouterProtocol.EachBufferItsOwn` | ofe_session1_code/ofe/src/core/tick_router.cpp:34-137 | Over any run: what the consumer of a buffer popped followed by what the buffer holds are exactly the accepted ticks routed to it, in order, and it never holds more than fits. |
| `RouterProtocol.NoForeignTick` | ofe_session1_code/ofe/src/core/tick_router.cpp:78-137 | A buffer receives a tick only from a route call for that tick that came after a registration of its symbol with that buffer. |
| `RouterProtocol.RegistryExact` | ofe_session1_code/ofe/src/core/tick_router.cpp:34-74 | Over any run a symbol is registered with a buffer exactly when the last command that changed its entry, a register call that found room or an unregister call, registered it with that buffer. |
| `RouterProtocol.LossesExact` | ofe_session1_code/ofe/src/core/tick_router.cpp:78-137 | Over any run the unknown counter is the number of route calls for a symbol that no command has left registered, and the dropped counter the number of route calls for a registered symbol whose buffer was full. |
| `ConcurrentRouter.EachRingItsOwn` | ofe_session1_code/ofe/src/core/tick_router.cpp:34-137 | Over every interleaving of route calls for different buffers, registrations and consumers, down to the atomic steps of the rings: what the consumer of a buffer popped followed by what it holds are exactly the ticks routed to it in order of publication, never more than fits, and its ring answers as a bounded FIFO. |
| `ConcurrentRouter.NoForeignTickEver` | ofe_session1_code/ofe/src/core/tick_router.cpp:78-137 | No buffer ever receives a tick whose symbol is not registered with it at the moment of publication. |
| `ConcurrentRouter.CountersAgree` | ofe_session1_code/ofe/src/core/tick_router.cpp:78-137 | In every such interleaving each started call is running or counted exactly once, the registry respects its limit, and the routed counter falls short of the published ticks only by calls between push and count. |
| `ConcurrentRouter.RingIsScheduled` | ofe_session1_code/ofe/src/core/tick_router.cpp:96-96 | Each ring of the router is where a schedule of its own producer and consumer steps leads. |
| `RouterLinearization.Linearizes` | ofe_session1_code/ofe/src/core/tick_router.cpp:34-137 | Linearizability: over every interleaving, down to the steps of the rings, registry, buffer contents and counters are those that the commands leave when each is taken whole at the moment it takes effect; the routed and dropped counters are behind by exactly the calls that have not counted yet. |
| `RouterLinearization.LossesExact` | ofe_session1_code/ofe/src/core/tick_router.cpp:78-137 | Over every interleaving the unknown counter is the number of lookups that found no entry, and the dropped counter, with the calls that are about to count a drop, the number of tests that found the buffer full. |
| `RouterProgress.RouteReturns` | ofe_session1_code/ofe/src/core/tick_router.cpp:78-137 | In every interleaving a call for a registered symbol with a free buffer returns: with room, its tick is in the buffer after five steps of the call; with a full buffer that nothing is popped from, it returns after four and nothing is put there. |
| `RouterProgress.PopDelivers` | ofe_session1_code/ofe/src/core/tick_router.cpp:96-96 | In every interleaving a pop that begins on a buffer with ticks delivers the front one after its four steps. |
| `TickRouter.TickRouter.constructor` | ofe_session1_code/ofe/src/core/tick_router.cpp:24-28 | A new router over empty buffers has no entries and zero counters. |
| `TickRouter.TickRouter.RegisterSymbol` | ofe_session1_code/ofe/src/core/tick_router.cpp:34-59 | Succeeds exactly for a buffer that is not null while the registry is below its limit, tested before the id is looked up, and then sets or replaces the entry. |
| `TickRouter.TickRouter.UnregisterSymbol` | ofe_session1_code/ofe/src/core/tick_router.cpp:61-74 | Removes the entry if there is one and touches nothing else. |
| `TickRouter.TickRouter.Route` | ofe_session1_code/ofe/src/core/tick_router.cpp:78-137 | A tick of an unregistered symbol is counted as unknown and changes nothing else. Any other tick is appended to the buffer of its symbol and counted as routed when the buffer has room, else counted as dropped; all other buffers and the registry stay. |
| `SymbolHash.ComputeSymbolId` | ofe_session1_code/ofe/src/core/tick_router.cpp:141-163 | The loop computes 32-bit FNV-1a (section 2 of draft-eastlake-fnv) of the upper-cased symbol. |
| `SymbolHash.MixBijective` | ofe_session1_code/ofe/src/core/tick_router.cpp:159-160 | Each step of the hash is a bijection on the 32-bit states, undone by multiplying with 899433627 and xoring the byte again. |
| `SymbolHash.OneLetterApart` | ofe_session1_code/ofe/src/core/tick_router.cpp:141-163 | Symbols of equal length that differ in exactly one character, ASCII case aside, always get different ids. |
| `SymbolHash.KnownValues` | ofe_session1_code/ofe/src/core/tick_router.cpp:154-163 | The ids of the empty symbol and of the letter a are the published 32-bit FNV-1a values. |
| `SymbolHash.KnownPair` | ofe_session1_code/ofe/src/core/tick_router.cpp:154-163 | The id of the symbol ES, in either case, is the 32-bit FNV-1a value of its two letters in their order. |
| `SymbolHash.CaseInsensitive` | ofe_session1_code/ofe/src/core/tick_router.cpp:144-150 | The id does not depend on ASCII case. |
| `VolumeProfile.VolumeProfileEngine.Add` | include/ofe/analytics/volume_profile.h:27-29 | The volume at the price grows by the added volume, every other price keeps its volume, and the total grows by the same. |
| `VolumeProfile.VolumeProfileEngine.Reset` | include/ofe/analytics/volume_profile.h:23-25 | Afterwards no price has a volume. |
| `VolumeProfile.VolumeProfileEngine.Snapshot` | include/ofe/analytics/volume_profile.h:31-91 | All zero for an empty profile; otherwise the lowest price of maximal volume with its volume, the sum of all volumes, and an area around that price which for non-negative volumes and a ratio of at most one holds at least the ratio times the total; unless it is that price alone, it held less before its last step, and a neighbour was taken in by that step exactly when the other neighbour was not heavier. |
| `VolumeProfile.MaxElement` | include/ofe/analytics/volume_profile.h:37-43 | Compared by volume and, at equal volume, by descending price, the largest element is the lowest price of maximal volume. |
| `VolumeProfile.TieBreakIdle` | include/ofe/analytics/volume_profile.h:37-43 | In ascending price the tie-break never decides. |
| `VolumeProfile.ExpandValueArea` | include/ofe/analytics/volume_profile.h:53-88 | The loop with its two cursors and accumulator ends at the window that the greedy expansion defines. |
| `VolumeProfile.Advance` | include/ofe/analytics/volume_profile.h:61-88 | One round moves the window as one greedy step does and keeps the accumulator equal to the volume of the window. |
| `VolumeProfile.ReplayConserves` | include/ofe/analytics/volume_profile.h:27-51 | Over any list of adds the prices ascend and the total is the volume of all adds. |
| `VolumeProfile.OrderIrrelevant` | include/ofe/analytics/volume_profile.h:27-29 | The same adds in any order build the same profile. |
| `VolumeProfile.RatioCovered` | include/ofe/analytics/volume_profile.h:53-61 | For non-negative volumes and a ratio of at most one the window of the expansion holds at least the total times the ratio. |
| `ValueArea.Coverage` | include/ofe/analytics/volume_profile.h:61-88 | For non-negative volumes the area reaches a target exactly when the whole profile does. |
| `ValueArea.Nesting` | include/ofe/analytics/volume_profile.h:61-88 | The order of expansion does not depend on the target: a larger target gives an area that contains the smaller one's. |
| `ValueArea.RatioNesting` | include/ofe/analytics/volume_profile.h:31-91 | For non-negative volumes a larger ratio gives an area that contains the smaller ratio's. |
| `ValueArea.Thrift` | include/ofe/analytics/volume_profile.h:61-88 | An area larger than its start was still below the target before its last step. |
| `ValueArea.ExpandHeaviest` | include/ofe/analytics/volume_profile.h:61-88 | If volumes never increase moving away from the point of control, every level inside has at least the volume of every level outside. |
| `ValueArea.Exchange` | include/ofe/analytics/volume_profile.h:61-88 | No set with as few levels as such an area holds more volume. |
| `ValueArea.NearlyFewestLevels` | include/ofe/analytics/volume_profile.h:53-88 | On such a profile the area has at most one level more than any set of levels that reaches the target, and one more only when its last step took in two tied neighbours, or when the target needs no level at all. |
| `ValueArea.TieTakesOneMore` | include/ofe/analytics/volume_profile.h:76-86 | The extra level does occur: a tie takes in both neighbours where one would do. |
| `Footprint.FindLevel` | ofe_session1_code/ofe/src/analytics/imbalance_detector.cpp:528-541 | The first level at a price, or none when no level has it. |
| `Footprint.DetectSingleImbalances` | ofe_session1_code/ofe/src/analytics/imbalance_detector.cpp:143-185 | A level is flagged as buying exactly when the first level one tick below it has bid volume, it has ask volume itself, and the latter is at least the ratio times the former; as selling with sides and direction exchanged. Prices and volumes stay, and the two counts are the numbers of flags. |
| `Footprint.OneSidedUnflagged` | ofe_session1_code/ofe/src/analytics/imbalance_detector.cpp:158-181 | With distinct prices no level is flagged against a diagonal of which one side traded nothing. |
| `Footprint.OneSideDominates` | ofe_session1_code/ofe/src/analytics/imbalance_detector.cpp:158-181 | For a ratio above one the two sides of a diagonal cannot both dominate. |
| `Footprint.DiagonalsDisjoint` | ofe_session1_code/ofe/src/analytics/imbalance_detector.cpp:158-181 | A buying flag and a selling flag one tick below it exclude each other. |
| `Footprint.FewerFlagsThanLevels` | ofe_session1_code/ofe/src/analytics/imbalance_detector.cpp:143-185 | For a ratio above one and distinct prices, buying and selling flags together number less than the levels. |
| `Grid.LevelTolerance` | ofe_session1_code/ofe/src/analytics/imbalance_detector.cpp:534-538 | On a tick grid, within a hundredth of a tick means at the same price. |
| `Grid.ZoneTolerance` | ofe_session1_code/ofe/src/analytics/imbalance_detector.cpp:218-220 | On a grid of at least a millionth, within a millionth means at the same price. |
| `Grid.ResolveInTicks` | ofe_session1_code/ofe/src/analytics/imbalance_detector.cpp:489-504 | For any price, on the grid or not, beyond by more than half a tick means the same when prices are counted in ticks. |
| `Grid.ResolveTolerance` | ofe_session1_code/ofe/src/analytics/imbalance_detector.cpp:489-504 | For prices on a grid, beyond by more than half a tick means beyond. |
| `Runs.ScanExact` | ofe_session1_code/ofe/src/analytics/imbalance_detector.cpp:199-280 | The streak scan reports exactly the maximal runs of at least the minimum count of flags, each once and in ascending order. |
| `ZoneTheorems.StacksExact` | ofe_session1_code/ofe/src/analytics/imbalance_detector.cpp:199-359 | The stacks handled are exactly the runs of flagged levels, as long as possible and at least the minimum count, with the prices of their first and last level and their number of levels. |
| `Zones.ApplyAllClosed` | ofe_session1_code/ofe/src/analytics/imbalance_detector.cpp:199-359 | Handling the stacks one by one with the search for a matching zone has a closed form: each zone is extended by the stack that matches it, if any, and the unmatched stacks become new zones in order. |
| `ZoneTheorems.DetectStackedExact` | ofe_session1_code/ofe/src/analytics/imbalance_detector.cpp:189-362 | The whole registry after a detection: a zone that no stack continues stays; one of the same direction with the low of a buying or the high of a selling stack takes over its prices and count and the stamp of the call; every other stack is signalled and becomes a new zone at the end, buying before selling ones and each kind in ascending price; each stack is then shown by exactly one zone. |
| `ZoneTheorems.RunContiguous` | ofe_session1_code/ofe/src/analytics/imbalance_detector.cpp:153-182 | A run of flagged indices covers consecutive prices. |
| `ZoneTheorems.RegistryInvariant` | ofe_session1_code/ofe/src/analytics/imbalance_detector.cpp:189-511 | Over any sequence of detections and resolutions, with ratio and minimum count chosen anew for each, active buying zones differ in their low, active selling zones in their high, and every zone spans its number of imbalances less one in ticks. |
| `ZoneTheorems.ResolvedByBars` | ofe_session1_code/ofe/src/analytics/imbalance_detector.cpp:483-511 | Over any sequence of calls an active zone has no stamp of resolution, and a resolved one has the stamp of a bar given to the registry that traded through it. |
| `ZoneTheorems.ResolvedIsFinal` | ofe_session1_code/ofe/src/analytics/imbalance_detector.cpp:483-511 | A resolved zone never changes again, and zones keep their place, direction and creation time. |
| `ZoneTheorems.DetectAllSurvivors` | ofe_session1_code/ofe/src/analytics/imbalance_detector.cpp:119-125 | On a bar whose levels were rounded, a zone that the call creates or extends stays active exactly when the extreme of the bar lies half a tick beyond its edge; every other zone is resolved if the bar traded through it and unchanged if not. |
| `ZoneTheorems.DetectAllStamps` | ofe_session1_code/ofe/src/analytics/imbalance_detector.cpp:119-125 | Zones that the call creates or extends bear the close of the bar, and so does every zone that it resolves. |
| `ZoneTheorems.SurvivorsExact` | ofe_session1_code/ofe/src/analytics/imbalance_detector.cpp:119-125 | Over any such bars from an empty registry, the configuration changing from bar to bar, no zone is ever active after a call exactly when no bar shows a stack that its extreme lies half a tick beyond. |
| `ZoneTheorems.DetectAllResolvesItsOwn` | ofe_session1_code/ofe/src/analytics/imbalance_detector.cpp:119-125 | On a bar whose levels lie within it every zone that the call creates or extends is resolved by that call; a zone is active afterwards exactly when it was active before and the bar did not trade through it, and then it is unchanged. |
| `ZoneTheorems.NoZoneSurvives` | ofe_session1_code/ofe/src/analytics/imbalance_detector.cpp:119-125 | Starting from an empty registry no zone is ever active between two calls on bars whose levels lie within them. |
| `BarZones.BarWellFormed` | ofe_session1_code/ofe/src/core/bar_engine.cpp:145-173 | Counted in ticks, the levels of every bar that a series ends ascend from its rounded low to its rounded high, so they lie at most half a tick outside the bar. |
| `BarZones.SurvivorsOfBars` | ofe_session1_code/ofe/src/analytics/imbalance_detector.cpp:119-125 | Bar series and detector composed, for any prices and any configuration of each call: no zone is ever active after `detect_all` exactly when no bar that the series ended shows a stack that the unrounded extreme of the bar lies half a tick beyond. |
| `BarZones.NoZoneOnGrid` | ofe_session1_code/ofe/src/analytics/imbalance_detector.cpp:119-125 | When every price is a multiple of the tick size, no zone is ever active after `detect_all`. |
| `BarZones.SurvivorSides` | ofe_session1_code/ofe/src/analytics/imbalance_detector.cpp:494-504 | A surviving buying zone needs a negative low, a surviving selling zone a positive high: halves are rounded away from zero. |
| `BarZones.ExampleZone` | ofe_session1_code/ofe/src/analytics/imbalance_detector.cpp:119-125 | A bar with a trade at ten and one between ten and a half and eleven and a half, at a tick size of one, creates a selling zone; the zone is active afterwards exactly when the second price is ten and a half. |
| `BarZones.ExampleRun` | ofe_session1_code/ofe/src/core/bar_engine.cpp:60-105 | A bar series ends that bar. |
| `ImbalanceDetector.ImbalanceDetector.HandleStreak` | ofe_session1_code/ofe/src/analytics/imbalance_detector.cpp:210-276 | The first active zone with the streak's direction and key is extended, or a zone is appended and a signal emitted. |
| `ImbalanceDetector.ImbalanceDetector.ScanStreaks` | ofe_session1_code/ofe/src/analytics/imbalance_detector.cpp:199-280 | The streak loop leaves the registry and the signals that handling the stacks of one direction in order gives. |
| `ImbalanceDetector.ImbalanceDetector.DetectStacked` | ofe_session1_code/ofe/src/analytics/imbalance_detector.cpp:189-362 | Buying stacks are handled before selling ones. |
| `ImbalanceDetector.ImbalanceDetector.UpdateZoneRegistry` | ofe_session1_code/ofe/src/analytics/imbalance_detector.cpp:483-511 | Exactly the active zones that the bar traded through become inactive, stamped with the close of the bar. |
| `ImbalanceDetector.ImbalanceDetector.DetectAll` | ofe_session1_code/ofe/src/analytics/imbalance_detector.cpp:76-139 | Flags, then stacks, then resolution with the same bar, on the same registry. |
| `ImbalanceDetector.ImbalanceDetector.SetConfig` | ofe_session1_code/ofe/src/analytics/imbalance_detector.cpp:70-73 | Replaces ratio and minimum count. |
| `Vwap.VwapEngine.Add` | include/ofe/analytics/vwap_engine.h:27-34 | A trade of positive volume raises the sums by its volume, by its price times its volume and by its squared price times its volume; any other trade changes none. The sums become those of the history with the trade appended. |
| `Vwap.TotalsMeaning` | include/ofe/analytics/vwap_engine.h:27-34 | The sums of a history are taken over the trades of positive volume: their volumes, and their prices and squared prices times their volumes. |
| `Vwap.SplitIrrelevant` | include/ofe/analytics/vwap_engine.h:27-34 | A trade split in two at its price leaves the sums, and so every later snapshot, as they are. |
| `Vwap.TwoTrades` | include/ofe/analytics/vwap_engine.h:43-43 | The average of two trades weighs each price with its volume. |
| `Vwap.VwapEngine.Reset` | include/ofe/analytics/vwap_engine.h:21-25 | The sums become those of the empty history. |
| `Vwap.VwapEngine.Snapshot` | include/ofe/analytics/vwap_engine.h:36-52 | All zero without volume. Otherwise the total is the sum of the positive volumes and the average times it that of prices times volumes; the average lies within every price range of the history, the deviation is the volume-weighted deviation of its trades, the bands lie one and two deviations away, and at most a quarter of the volume lies outside the outer ones. |
| `Vwap.MeanWithin` | include/ofe/analytics/vwap_engine.h:43-43 | The average lies between the lowest and the highest price that counts. |
| `Vwap.VarianceMeaning` | include/ofe/analytics/vwap_engine.h:44-45 | Mean square less squared mean is the volume-weighted mean squared distance from the average. |
| `Vwap.ClampIdle` | include/ofe/analytics/vwap_engine.h:45-45 | That difference is never negative, so the cut-off at zero never acts. |
| `Vwap.VarianceBound` | include/ofe/analytics/vwap_engine.h:45-45 | The variance is at most (high - average) * (average - low) for every range that holds the prices. |
| `Vwap.QuarterOutside` | include/ofe/analytics/vwap_engine.h:49-50 | At most a quarter of the volume lies strictly outside two deviations, also when the deviation is zero. |
| `DeltaEngine.DeltaEngine.OnTick` | ofe_session1_code/ofe/src/analytics/delta_engine.cpp:34-57 | A trade at the ask adds its volume to the ask volume and the running delta, one at the bid adds it to the bid volume and takes it off the running delta, any other tick changes nothing; largest and smallest are those of all running deltas, the start included. |
| `DeltaEngine.DeltaEngine.OnBarClose` | ofe_session1_code/ofe/src/analytics/delta_engine.cpp:61-130 | The record gets delta, extremes, volume and percentage of the bar's ticks and the signed volume of the session; the session takes the bar in and the open bar is empty. |
| `DeltaEngine.DeltaEngine.OnSessionOpen` | ofe_session1_code/ofe/src/analytics/delta_engine.cpp:134-137 | The state describes an empty session. |
| `DeltaEngine.DeltaEngine.DetectExtremeDelta` | ofe_session1_code/ofe/src/analytics/delta_engine.cpp:251-269 | A signal is raised exactly when some session extreme is not zero and the bar's delta reaches the threshold times the larger one; its direction is the sign. |
| `DeltaEngine.DeltaEngine.CloseAndDetect` | ofe_session1_code/ofe/src/analytics/delta_engine.cpp:61-130 | After a bar is closed, a signal is raised for it exactly when its delta reaches the threshold times the larger of itself and the largest delta of the bars before it, with the sign of its delta; hence never for a threshold above one such as the default 1.5. |
| `DeltaEngine.NotExtreme` | ofe_session1_code/ofe/src/analytics/delta_engine.cpp:97-101 | No bar exceeds a multiple above one of extremes that include it. |
| `DeltaEngine.ExtremesGiveLargest` | ofe_session1_code/ofe/src/analytics/delta_engine.cpp:260-265 | The larger of the two session extremes is the largest size of a bar delta of the session. |
| `DeltaEngine.ExtremeAgainstEarlier` | ofe_session1_code/ofe/src/analytics/delta_engine.cpp:251-269 | After any bars, the test agrees with a test against those bars alone, for every next bar, exactly when both or neither of these hold: the threshold is at most one, and some earlier bar had a delta. |
| `DeltaEngine.DeltasSum` | ofe_session1_code/ofe/src/analytics/delta_engine.cpp:74-76 | The bar deltas of a session sum to the signed volume of all its ticks. |
| `DeltaEngine.CutsIrrelevant` | ofe_session1_code/ofe/src/analytics/delta_engine.cpp:74-76 | The cumulative delta does not depend on where the ticks were cut into bars. |
| `DeltaEngine.EmaBounds` | ofe_session1_code/ofe/src/analytics/delta_engine.cpp:103-113 | For a factor from zero to one the truncated average, with its reseeding at zero, lies between the smallest and the largest absolute bar delta. |
| `DeltaEngine.DeltaEngine.Average` | ofe_session1_code/ofe/src/analytics/delta_engine.cpp:103-113 | The first delta after zero is taken as it is; from then on the average is the factor times the new one plus one less the factor times the average so far, without its fraction. |
| `DeltaEngine.EmaWeights` | ofe_session1_code/ofe/src/analytics/delta_engine.cpp:103-113 | With a factor of one the average is the last delta, with zero it stays, and it never falls when the delta is larger. |
| `BarProtocol.BarsPartition` | ofe_session1_code/ofe/src/core/bar_engine.cpp:60-116 | Over any run of ticks, forced closes and session opens, the bars that have ended and the open one partition the ticks that count, in order. |
| `BarProtocol.RunInv` | ofe_session1_code/ofe/src/core/bar_engine.cpp:60-116 | Every run keeps the invariant that a bar ends with a tick exactly when that tick is its first to meet the test. |
| `BarProtocol.EnoughTicks` | ofe_session1_code/ofe/src/core/bar_engine.cpp:73-96 | A bar that has ended has a tick, and one that a tick ended has at least two: the opening tick never meets the test. |
| `BarProtocol.EndsUnreplaced` | ofe_session1_code/ofe/src/core/bar_engine.cpp:73-96 | After a tick that counts no bar is open exactly when the tick met the close test: the closing tick opens no new bar. |
| `BarProtocol.OnlyLastTickCloses` | ofe_session1_code/ofe/src/core/bar_engine.cpp:73-96 | A tick of a bar, ended or open, met the close test exactly when it is the last one and ended the bar. |
| `BarProtocol.TickStepTakes` | ofe_session1_code/ofe/src/core/bar_engine.cpp:60-78 | A trade with a side joins the bars as the next tick; any other tick, an unclassified trade included, changes nothing. |
| `BarProtocol.VolumeTest` | ofe_session1_code/ofe/src/core/bar_engine.cpp:226-230 | In every run the volume of a volume bar before one of its ticks had reached the size exactly when that tick ended the bar; so no open bar goes on at its size. |
| `BarProtocol.TimeBarEnd` | ofe_session1_code/ofe/src/core/bar_engine.cpp:205-215 | In every run, whatever the stamps, a tick of a time bar comes at or after the end of its time exactly when it ended the bar; that is the next multiple of the size after the first stamp, in nanoseconds, but one multiple later for a negative stamp that is not a multiple itself. |
| `BarProtocol.VolumeBarSize` | ofe_session1_code/ofe/src/core/bar_engine.cpp:226-230 | A volume bar without its last tick holds at least the size, without its last two less. |
| `BarProtocol.RangeBarSize` | ofe_session1_code/ofe/src/core/bar_engine.cpp:217-224 | In every run a tick of a range bar, ended or open, is the size or more away from the first price exactly when it ended the bar. |
| `BarProtocol.TimeBarWindow` | ofe_session1_code/ofe/src/core/bar_engine.cpp:205-215 | With stamps that never go back, all ticks of a time bar, ended or open, but the one that ended it lie in the same window of the size times a thousand million nanoseconds, and that one lies in a later window. |
| `BarProtocol.WindowsIncrease` | ofe_session1_code/ofe/src/core/bar_engine.cpp:205-215 | Every bar after one that a tick ended lies in a later window. |
| `BarSeries.BarSeries.Create` | ofe_session1_code/ofe/src/core/bar_engine.cpp:27-56 | There is a series exactly for a positive tick size and a size of 5 to 2678400 seconds, 1 to 500 ticks or 50 to 1000000 lots. |
| `BarSeries.BarSeries.OnTick` | ofe_session1_code/ofe/src/core/bar_engine.cpp:60-98 | The object cuts the ticks as the protocol does, its records describe the ticks of their bars, and a record is passed on exactly when a bar ends. |
| `BarSeries.BarSeries.ForceCloseBar` | ofe_session1_code/ofe/src/core/bar_engine.cpp:100-105 | Ends the open bar, if any. |
| `BarSeries.BarSeries.OnSessionOpen` | ofe_session1_code/ofe/src/core/bar_engine.cpp:107-116 | Ends the open bar, if any, and forgets the last one. |
| `BarSeries.BarSeries.CloseCurrentBar` | ofe_session1_code/ofe/src/core/bar_engine.cpp:145-195 | The record of the bar gets ascending levels, one marked level, and becomes the last bar. |
| `BarSeries.Accumulate` | ofe_session1_code/ofe/src/core/bar_engine.cpp:76-91 | A record that describes the ticks so far, open, high, low, close, volume and levels alike, describes them with the new tick. |
| `BarSeries.MaxElement` | ofe_session1_code/ofe/src/core/bar_engine.cpp:162-168 | The lowest of the levels of maximal volume. |
| `BarSeries.ClosedBarAddsUp` | ofe_session1_code/ofe/src/core/bar_engine.cpp:145-173 | Levels of a bar that has ended ascend from its rounded low to its rounded high, their volumes sum to its volume and their deltas to the delta of its ticks, and exactly the lowest one of maximal volume is marked. |
| `BarSeries.ExtremesOnGrid` | ofe_session1_code/ofe/src/core/bar_engine.cpp:145-173 | On a tick grid the extreme levels are the low and the high of the bar. |
| `BarLevels.GetOrCreateLevel` | ofe_session1_code/ofe/src/core/bar_engine.cpp:237-254 | The scan with its tolerance finds the level of the rounded price exactly when there is one, else appends it. |
| `BarLevels.LevelsSnoc` | ofe_session1_code/ofe/src/core/bar_engine.cpp:76-85 | Counting a tick in its level keeps one level per traded price with the volumes of its ticks. |
| `BarLevels.SortMeans` | ofe_session1_code/ofe/src/core/bar_engine.cpp:153-159 | Sorting keeps what the levels mean and makes their prices strictly ascend. |
| `BarLevels.LevelsAddUp` | ofe_session1_code/ofe/src/core/bar_engine.cpp:76-88 | Level volumes sum to the volume, and level deltas to the delta, of the bar's ticks. |
| `BarLevels.DeltaOfAccumulatable` | ofe_session1_code/ofe/src/analytics/delta_engine.cpp:34-50 | Ticks that do not count have no delta: the bar series and the delta engine, which sees every tick, agree on a bar's delta. |
| `RootBars.BarSeries.Ingest` | include/ofe/core/bar_engine.h:38-125 | The ticks are cut as the protocol says; each kept record describes its bar: prices, volume, average price, sides, delta and its extremes over non-empty prefixes, candle geometry. |
| `RootBars.BarSeries.ClearCompleted` | include/ofe/core/bar_engine.h:34-36 | Forgets the records and leaves the open bar. |
| `RootBars.UpdateBar` | include/ofe/core/bar_engine.h:76-106 | A record that describes the ticks so far describes them with the new tick, whose size counts as bought at or above a quoted ask and else as sold at or below a quoted bid. |
| `RootBars.BarsPartition` | include/ofe/core/bar_engine.h:38-56 | Over any list of ticks the bars that have ended and the open one partition all of them, in order. |
| `RootBars.VolumeBarEnds` | include/ofe/core/bar_engine.h:108-118 | In every run a volume bar ends with exactly the tick that brings its volume to the size, and no open bar has that volume. |
| `RootBars.RangeBarEnds` | include/ofe/core/bar_engine.h:108-118 | In every run a range bar ends with exactly the tick by which two of its prices are the size apart, and no open bar has two such prices. |
| `RootBars.TimeBars` | include/ofe/core/bar_engine.h:43-46 | All ticks of a time bar, ended or open, lie within its time, and the bar after an ended one opens after it. |
| `RootBars.AverageWithinBar` | include/ofe/core/bar_engine.h:81-84 | For non-negative sizes the average price lies between the low and the high of the bar. |
| `RootBars.CandleAddsUp` | include/ofe/core/bar_engine.h:102-105 | Wicks and body are not negative and add up to the range. |
| `RootBars.RunningSumWeights` | include/ofe/core/bar_engine.h:92-94 | The cumulative figure of a bar counts the delta so far once more for every further tick, whatever that tick adds itself. |
| `RootBars.CvdExact` | include/ofe/core/bar_engine.h:72-94 | In every run, after a tick the cumulative figure in the record of its bar is the running total of all ticks exactly when, before the tick, the figure of that bar was the delta of all earlier bars. |
| `RootBars.CvdAlwaysTotal` | include/ofe/core/bar_engine.h:72-94 | Over a whole run the figure is the running total after every tick exactly when every tick but the last has neither buying nor selling volume. |
| `RootBars.BarSeries.ReportedCvd` | include/ofe/core/bar_engine.h:72-94 | The same exact condition for the record that the object holds after one more tick, its open bar or else its last completed one. |
| `RootBars.CvdCountsAgain` | include/ofe/core/bar_engine.h:92-94 | While one side leads a bar throughout, the figure is the delta of the bar after its first tick and never again. |
| `LeeReady.ClassifyTrade` | ofe_session1_code/ofe/src/core/lee_ready.cpp:19-55 | The side returned is remembered with the price; the state after the call is that of the fold over the history. |
| `LeeReady.UpdateQuote` | ofe_session1_code/ofe/src/core/lee_ready.cpp:57-68 | A bid or ask quote replaces the prevailing one, any other kind changes nothing. |
| `LeeReady.ClassifyInplace` | ofe_session1_code/ofe/src/core/lee_ready.cpp:70-85 | A trade tick gets the side found without an aggressor; a quote only updates the state. |
| `LeeReady.StaysClassified` | ofe_session1_code/ofe/src/core/lee_ready.cpp:19-68 | Without a price of zero, once a trade has been classified no later trade is unknown, whatever quotes arrive in between. |
| `LeeReady.NextClassifiedExact` | ofe_session1_code/ofe/src/core/lee_ready.cpp:39-48 | After a classified history, the next trade is classified, whatever quotes come before it and whatever its price and aggressor, exactly when the price of the latest trade is not zero. |
| `LeeReady.ZeroPriceForgets` | ofe_session1_code/ofe/src/core/lee_ready.cpp:39-48 | A history with a price of zero after which a trade is unknown. |
| `LeeReady.TickRuleMeaning` | ofe_session1_code/ofe/src/core/lee_ready.cpp:27-48 | Without quotes the last side is the direction of the latest event in the whole history that decides one, a reported aggressor or a price move larger than epsilon, and unknown when there is none (Lee and Ready, Journal of Finance 46(2), 1991). |
| `LeeReady.QuotesDecide` | ofe_session1_code/ofe/src/core/lee_ready.cpp:89-100 | At a spread above two epsilons a trade at or above the ask is a buy and one at or below the bid a sell, and no higher price turns a buy into a sell. |
| `LeeReady.NextSideExact` | ofe_session1_code/ofe/src/core/lee_ready.cpp:19-55 | The side of the next trade of any history, exactly: a reported aggressor; else, with a positive bid and ask, a price more than a billionth off their midpoint; else, at the midpoint or without quotes, a price more than a billionth off that of the latest trade; else the side of that trade, or none without one. |
| `LeeReady.QuotesPrevail` | ofe_session1_code/ofe/src/core/lee_ready.cpp:57-68 | The quotes it goes by are the latest bid and the latest ask of the history, or zero. |

## Left out

- The tree `ofe_session1_code/ofe_session1`, a copy of `ofe_session1_code/ofe`.
- Logging, licensing, configuration files, the API server, feed adapters and the event bus itself: input and output.
- Signal payloads, clock reads, random zone ids, strength scores and labels; a stacked signal is its direction, prices and count.
- `detect_absorption`, `detect_trapped_traders`, `detect_2nd_slot`, `detect_divergence`, `detect_surge` and `detect_small_range`: single expressions over one bar.
- The header library's signal detector, imbalance detector, Lee-Ready, delta engine and tick router: straight-line members without a harder property.
- Session volume profile, average price, signal detector and symbol worker: declared only.
- `BarEngine` in both libraries, which forwards each tick to its series.
- Weak memory orderings: an acquire load or a release store is one atomic step. Object lifetimes beyond one slot, alignment and cache lines.
- Several producers of one buffer, concurrent calls of `start` and `stop`, and changing the bus or the stages while the worker runs.
- `RingBuffer.RingBuffer.SizeApprox`, `RingBuffer.RingBuffer.Empty` and the queries of `SpscRing.SpscRing` are stated for an object with no call in progress; queries that race with calls are in `FreeRunningQueries` and `WrappedQueries`.
- Floating-point rounding: prices, ratios and averages are exact reals. The conversion of the moving average to an integer is modelled.
- 32-bit truncation of volumes and deltas, and the wrap-around of 64-bit time stamps and statistics counters: integers are unbounded.
- Ordered maps are the list of their entries in ascending key; `std::sort` is an ascending permutation.
- `Zones` counts the prices of levels and zones, which the bar series rounds to the grid, in ticks; zone matching is therefore stated for tick sizes of at least a millionth.
- `ImbalanceDetector.ImbalanceDetector.DetectStacked`: the minimum count is at least one, without which the scan would read before the first level.
- `RootBars.BarSeries.Ingest`: says nothing about `bar_index` and the score fields, which nothing else in the series reads.
- `BarSeries.BarSeries.OnTick`: bar ids and symbol names are not modelled.
- `TickRouter.TickRouter.Route`: the object takes a whole call as one step. Route calls hold the registry lock in shared mode and may overlap, and consumers take no lock; those interleavings are in `ConcurrentRouter`, with one route call at a time for each buffer.
