# Verified model of the Spread transport of RSB

This project models how the C++ Spread transport of the Robotics Service Bus moves events:
an out-connector cuts a payload into fragments and multicasts them, a receiver reassembles
fragments that arrive in any order, buses route events to sinks by scope, and a bus shuts its
receiver thread down. `dafny verify dfyconfig.toml` checks all of it.

| file | what it holds |
|---|---|
| `Wire.dfy` | events, notification records, fragments, packets (an event with its parts), assembly keys |
| `Fragmentation.dfy` | the arithmetic of the fragmentation loop, unbounded and in 32 bits |
| `Reassembly.dfy` | slots, joining, the pool and the age test, on values |
| `AssemblyPools.dfy` | the mutable fragment, assembly and pool objects, proved against `Reassembly` |
| `Channel.dfy` | a receiver behind a channel that reorders, copies, loses and prunes; conservation of fragments |
| `RoundTrip.dfy` | no corruption, bounds on deliveries, exactly-once, arbitrary permutations |
| `Duplication.dfy` | how often an event can be delivered when its fragments are copied |
| `Collisions.dfy` | what happens when events share a key, and the exact condition of the round trip |
| `Corruption.dfy` | which events cannot be corrupted by any channel |
| `Fifo.dfy` | order of deliveries per sending connection |
| `Pruning.dfy` | when assemblies disappear |
| `GroupNames.dfy` | group names of scopes and the cache of them |
| `Membership.dfy` | reference counts and the in-connector life cycle over whole runs |
| `Connection.dfy`, `Bus.dfy`, `Connectors.dfy`, `Receiver.dfy` | the mutable objects from the connection up to the connectors and the receiver |
| `Routing.dfy` | several buses on one network with sinks that come and go, end to end |
| `Shutdown.dfy` | `deactivate` against the receiver thread |
| `Factory.dfy` | sharing of buses |

The central fact is a conservation law in `Channel`: for every fragment, the number of times it
was put into the network (once if sent, plus copies) equals the number of times it is in the
network, lost, rejected, consumed by a delivery, pruned, or held in the pool. Deliveries consume
an event's fragments all at once, so statements about deliveries become statements about counts.

## Assumptions about the environment

- Memory: how many fragments a sender can hold is a parameter, below 2^32; growing the list beyond it throws.
- Protocol Buffers: parsing inverts serializing, so a message carries the fragment itself, or
  nothing when its bytes do not parse. Encoded sizes are an arbitrary function of the record.
- MD5: an arbitrary function from scopes to strings; no injectivity is used anywhere.
- Spread: a regular message reaches, once, every connection that is in one of its groups, except
  back to its sender when `SELF_DISCARD` is set; private group names are not group names of scopes.
  The daemon's answers (errors of connect, join, leave, receive and multicast) are parameters.
- The scope dispatcher calls each sink whose scope is a super-scope of the notification's or the
  same, as `src/rsb/transport/spread/Bus.h` lines 47-49 say. A scope is its list of components.
- A repetitive task loops on `execute` until it is cancelled. Whether it counts as done, for those who wait
  for it, when an exception has left `execute` is up to the task library and a parameter of `Shutdown`.
- Clocks are parameters, in microseconds.
- Assertions of the source are taken as compiled out. The one on the header size (`OutConnector.cpp` line 148)
  would end the program for every header above the limit, before the exception; the exception would then only
  come at equality. The one on part counts (`Assembly.cpp` line 77) is a result here, for events whose
  keys differ. Where the source is undefined afterwards, the model has an outcome for it (`AssertionFailed` in
  `Membership`, `Malformed` in `Reassembly` for a slot that does not exist).
- Whether protocol exceptions belong to the exception class that the receiver catches is not
  visible in this repository; `Receiver.ReceiverTask` has it as a parameter.

## What turned out false, and when it holds

- The fragmentation loop is correct exactly when neither its 32-bit end offset nor its 32-bit counter wraps
  (`Fragmentation.LoopCorrectIffNoWrap`); `Fragmentation.WrapExample` is a payload for which the offset wraps.
  The counter wraps first for a single length and pair of capacities (`Fragmentation.CounterWrapsFirstIff`),
  which the size check admits only for maxima below 5 bytes.
- "Header and data stay within the maximum fragment size" holds exactly when the header alone does
  (`Fragmentation.FragmentFits`). The size check guarantees that for maxima of at least 5 bytes; below,
  its subtraction wraps (`Fragmentation.TinyLimitExample`).
- Joining twice does not give the same record twice unless all later parts are empty
  (`Reassembly.SecondJoinDiffers`).
- "No assembly is pruned early" needs a clock that does not go back: a local clock that is set back by
  a second makes every fresh assembly look expired (`Pruning.ExpiredExact`, `Pruning.ClockSetBackExample`).
- At-most-once delivery fails under duplication (`RoundTrip.DuplicateExample`). Given how often each fragment
  is copied, every run delivers the event at most m times exactly when some fragment is copied less than m
  times, so at most once exactly when some fragment is never copied (`Duplication.DeliveryBoundIff`).
- Events with several parts whose keys collide can be mixed (`Collisions.KeyCollisionMixes`); a mix that
  nobody has sent is possible exactly when they differ in two places (`Collisions.MixesAlienIff`). Every order
  of arrivals restores all events exactly when no two events with several parts share a key
  (`Collisions.RestoredIff`). A key that is shared with a single-part event does no harm, because that event
  does not go through the pool.
- Distinct keys are not needed against corruption either. Whichever of some events are sent, whatever the
  channel does, only sent events come out and every fragment finds its slot, exactly when any two of the events
  with several parts that share a key have as many parts and differ in one place at most
  (`Corruption.CleanIff`). For a list of events that are all sent, differing in two places can be harmless, if
  every mix happens to be in the list (`Corruption.ClosedFamilyExample`).
- A receiver does not survive duplicates: a fragment that is in the pool already makes the source throw a protocol
  exception, which cancels the receiver or escapes from it. A round is survived exactly if nothing is
  rejected in it (`Receiver.GoesOnIff`). Runs of `Channel` go on instead, so they include all runs of the receiver;
  the lossless ones have no rejection (`Receiver.LosslessGoesOn`), nor have those that reach the bound on
  deliveries (`Duplication.DeliveriesReached`).
- The reference counts mirror reality exactly as long as no leave is refused by the daemon
  (`Membership.MirrorKeptIff`); after a refused one the connector stays active without its registration,
  and its next deactivation runs into the assertion (`Membership.RefusedLeave`).
- Deactivating a bus can hang in two cases: if an exception leaves `execute` and the task library does not
  count the task as done then, and if the daemon refuses the wake-up message, whose result the source does not
  look at, while the receiver is blocked (`Shutdown.RefusedWakeUpHangs`). The latter lasts until a message
  of somebody else (`Shutdown.ForeignMessageFrees`) or an error comes. Without these it cannot hang
  (`Shutdown.AbandonedOnlyIf`, `Shutdown.NeverHangsIff`).

## Model

| member | source | states |
|---|---|---|
| Wire.KeyExact | src/rsb/transport/spread/Assembly.cpp:171-177 | Two events get the same assembly key if and only if their sender ids are equal, of whatever length, and their sequence numbers agree modulo 2^32. |
| Fragmentation.LoopCorrectIffNoWrap | src/rsb/transport/spread/OutConnector.cpp:132-162 | Run with 32-bit counter and offset, the loop is left with parts that concatenate to the payload if and only if the payload fits the first fragment or the end offset of the last one and the number of fragments stay below 2^32; otherwise it is never left properly or has emitted too much. |
| Fragmentation.CounterWrapsFirstIff | src/rsb/transport/spread/OutConnector.cpp:132-137 | Where the end offset does not wrap, the counter does exactly for an empty first and one-byte later fragments and a payload of 2^32 - 1 bytes. |
| Fragmentation.CounterExample | src/rsb/transport/spread/OutConnector.cpp:137-139 | That payload needs 2^32 fragments, so the list is resized to nothing before the last one. |
| Fragmentation.CutWithinExact | src/rsb/transport/spread/OutConnector.cpp:132-162 | Parts come out if and only if no size is rejected and the 32-bit loop is left, with these parts, before memory is used up. |
| Fragmentation.CutWithinCorrectIff | src/rsb/transport/spread/OutConnector.cpp:132-162 | What comes out makes up the payload if and only if nothing wraps and the intended parts fit into memory, and then these come out. |
| Fragmentation.WrapExample | src/rsb/transport/spread/OutConnector.cpp:157 | A concrete limit and length that pass the size check and make the offset wrap back into the payload. |
| Fragmentation.CutFlattens | src/rsb/transport/spread/OutConnector.cpp:155-157 | The parts of a payload concatenate to the payload, for all capacities. |
| Fragmentation.CutSizes | src/rsb/transport/spread/OutConnector.cpp:153-157 | Every part but the last is full, none is above capacity, and a part is empty only for an empty payload or a first fragment without capacity. |
| Fragmentation.PartCountFormula | src/rsb/transport/spread/OutConnector.cpp:132-134 | One part if the payload fits the first fragment, otherwise one plus the rest divided by the later capacity, rounded up; the count itself is defined as the first index whose start lies behind the payload. |
| Fragmentation.BoundedOffsets | src/rsb/transport/spread/OutConnector.cpp:132-157 | If the limit is at least 5 and payload plus limit are at most 2^32, there is no wrap, every cut starts inside the payload, and each iteration advances by at least 6 bytes. |
| Fragmentation.FragmentFits | src/rsb/transport/spread/OutConnector.cpp:147-156 | A fragment that passed the size check stays within the limit if and only if its header alone does, which limits of at least 5 guarantee. |
| Fragmentation.SizeCheckExact | src/rsb/transport/spread/OutConnector.cpp:147-152 | A header is refused exactly if its size plus 5 is at least the limit, or, for limits below 5, at least the limit plus 2^32. |
| Fragmentation.RoomExact | src/rsb/transport/spread/OutConnector.cpp:153 | For limits of at least 5, the data space of an accepted header is exactly what is left of the limit. |
| Fragmentation.SizesDecide | src/rsb/transport/spread/OutConnector.cpp:132-157 | For limits of at least 5, cutting ends with a size error exactly if a header of a fragment that is needed, and for which there is memory, leaves 5 bytes or less; when parts come out, every header leaves 6 or more. |
| Fragmentation.TinyLimitExample | src/rsb/transport/spread/OutConnector.cpp:149 | With a limit of 4 bytes an oversized header passes the check. |
| Fragmentation.RejectionIsImmediate | src/rsb/transport/spread/OutConnector.cpp:140-152 | If the identifier-only header is no larger than the full one, a size error can only come from fragment 0. |
| Connectors.OutConnector.Fragment | src/rsb/transport/spread/OutConnector.cpp:132-162 | For every payload, the loop throws exactly when a needed fragment leaves no more than 5 bytes for data or memory is used up, and otherwise builds what the 32-bit loop cuts off, in order, with the header only in the first, the index in each and an optimistic count of one. |
| Connectors.OutConnector.Handle | src/rsb/transport/spread/OutConnector.cpp:111-170 | If cutting throws, nothing is sent and no sink is called. Otherwise it succeeds if and only if the connection is up and refuses none of the multicasts; then all pieces of the event have been posted and the local sinks in super-scopes called once each, which is a publication of `Routing` for this bus and every other. After a refusal exactly the pieces before it have been posted and no sink called. |
| Connectors.OutConnector.HandOver | src/rsb/transport/spread/OutConnector.cpp:164-169 | The same for the cut event, with every posted message spelled out: the groups of all super-scopes, identity, header in the first only, data, index and final count. |
| Connectors.SentPacketsAreWellCut | src/rsb/transport/spread/OutConnector.cpp:147-162 | Each header with its data that a connector sends is within the limit, and together the fragments are a proper packet if and only if nothing wraps; all but the last then use the limit up exactly. |
| Reassembly.PoolAddKeepsInv | src/rsb/transport/spread/Assembly.cpp:167-206 | Adding keeps every pooled assembly non-empty, incomplete, with a counter equal to its filled slots and parts of its own key only; it completes exactly when all slots are filled. |
| Reassembly.ReceiveInOrder | src/rsb/transport/spread/DeserializingHandler.cpp:89-99 | A series of fragments in part order is kept and then joined into one record, in the pool or past it. |
| Reassembly.JoinRestores | src/rsb/transport/spread/Assembly.cpp:55-70 | Joining the slots filled with the pieces of a packet gives the complete record of its event. |
| Reassembly.SecondJoinDiffers | src/rsb/transport/spread/Assembly.cpp:59-69 | A second join returns the later parts twice, so it agrees with the first if and only if they are all empty. |
| AssemblyPools.Assembly.constructor | src/rsb/transport/spread/Assembly.cpp:44-50 | A new assembly holds exactly its first fragment, at the time of its creation. |
| AssemblyPools.Assembly.Add | src/rsb/transport/spread/Assembly.cpp:72-92 | A filled slot is rejected without any change; otherwise the fragment goes to its slot and the result says whether the assembly is complete. |
| AssemblyPools.Assembly.GetCompleteNotification | src/rsb/transport/spread/Assembly.cpp:55-70 | The in-place join returns slot 0's object with the data of all slots in order, and leaves that data in slot 0. |
| AssemblyPools.AssemblyPool.Create | src/rsb/transport/spread/Assembly.cpp:128-138 | Zero settings are refused, others give an empty pool with these settings. |
| AssemblyPools.AssemblyPool.MakeKey | src/rsb/transport/spread/Assembly.cpp:171-177 | The key is the sender id followed by the four lowest bytes of the sequence number, lowest first. |
| AssemblyPools.AssemblyPool.Add | src/rsb/transport/spread/Assembly.cpp:167-206 | On the objects, adding has the effect and result that the value-level pool has, with assemblies kept disjoint. |
| AssemblyPools.AssemblyPool.Prune | src/rsb/transport/spread/Assembly.cpp:111-126 | The erase-while-walking loop terminates and keeps exactly the assemblies that are not too old. |
| Pruning.ExpiredExact | src/rsb/transport/spread/Assembly.cpp:98-100 | The age test is true exactly from one second after the limit on, or when the clock has gone back by at least one second. |
| Pruning.ClockSetBackExample | src/rsb/transport/spread/Assembly.cpp:98-100 | A fresh assembly is too old for a clock that was set back by one second. |
| Pruning.PruningBounds | src/rsb/transport/spread/Assembly.cpp:102-126 | With a monotone clock and ticks at most one interval apart, an assembly is pruned by a tick exactly from its age limit on, and none is older than limit plus interval, in every run. |
| Pruning.BirthStays | src/rsb/transport/spread/Assembly.cpp:44-50 | An assembly is born when its first fragment arrives, and later fragments do not make it younger. |
| Pruning.TickIsPruneRun | src/rsb/transport/spread/Assembly.cpp:111-126 | What a tick does to the pool is a run of single prune steps of the channel, in any order. |
| Channel.NeverMalformed | src/rsb/transport/spread/Assembly.cpp:77-80 | With distinct keys, no sent fragment ever violates what the pool asserts or assumes about its input, whatever the channel does. |
| Channel.RunKeepsInv | src/rsb/transport/spread/Assembly.cpp:167-206 | Conservation, soundness of the pool, genuineness of deliveries and whole consumption hold in every state of every run. |
| RoundTrip.Conservation | src/rsb/transport/spread/Assembly.cpp:111-206 | Every copy of a fragment is under way, lost, rejected, consumed, pruned or pooled, and in exactly one of these. |
| RoundTrip.NoCorruption | src/rsb/transport/spread/DeserializingHandler.cpp:52-99 | Under any losses, reorderings, duplications and prunings, every delivered record is that of a sent event, never a part or a mix. |
| RoundTrip.DeliveryBound | src/rsb/transport/spread/Assembly.cpp:178-201 | An event is delivered at most once more than any one of its fragments was copied; without copies at most once, even with pruning. |
| Duplication.DeliveriesReached | src/rsb/transport/spread/DeserializingHandler.cpp:52-99 | For every event and every number m, if each fragment is copied at least m times, some run with these copies delivers the event m + 1 times, without ever rejecting a fragment. |
| Duplication.DeliveryBoundIff | src/rsb/transport/spread/Assembly.cpp:178-201 | For given numbers of copies of the fragments of an event, no run delivers it more than m times if and only if some fragment is copied less than m times, whether or not runs with rejected fragments are counted. |
| RoundTrip.DuplicateExample | src/rsb/transport/spread/DeserializingHandler.cpp:89-99 | Copying the only fragment of an event delivers it twice, so the bound is reached. |
| RoundTrip.FateDecides | src/rsb/transport/spread/Assembly.cpp:167-206 | An event without copied fragments is delivered exactly once if nothing of it is under way, lost or pruned, and never otherwise, whatever happens to other events. |
| RoundTrip.LossIsFinal | src/rsb/transport/spread/Assembly.cpp:178-201 | Losing a fragment that was never copied takes it out of the network and keeps its event from being delivered. |
| RoundTrip.ExactlyOnce | src/rsb/transport/spread/Assembly.cpp:167-206 | At every moment of a lossless run, an event has been delivered exactly once if all of it has arrived, and not at all otherwise. |
| RoundTrip.LastFragmentDelivers | src/rsb/transport/spread/Assembly.cpp:198-201 | The arrival of a fragment delivers its event if it is the last one, and nothing otherwise. |
| RoundTrip.RoundTripComplete | src/rsb/transport/spread/DeserializingHandler.cpp:52-99 | When everything has arrived, the delivered records are exactly those of the sent events, with multiplicity, and the pool is empty. |
| RoundTrip.AnyPermutation | src/rsb/transport/spread/Assembly.cpp:167-206 | Feeding a receiver any permutation of all pieces of events with distinct keys delivers each event once and empties the pool. |
| Collisions.KeyCollisionMixes | src/rsb/transport/spread/Assembly.cpp:171-201 | Any mix of the parts of two events with the same key and number of parts comes out as one record, under the identity of the one that the first part is from. |
| Collisions.MixesAlienIff | src/rsb/transport/spread/Assembly.cpp:55-70 | Some mix is neither of the two events if and only if they differ in two parts, where identity and header count with the first one. |
| Collisions.MultiPartsSuffice | src/rsb/transport/spread/DeserializingHandler.cpp:89-99 | The round trip over any permutation only needs distinct keys of events with several parts; single-part events may share keys with each other and with those. |
| Collisions.RestoredIff | src/rsb/transport/spread/Assembly.cpp:167-206 | Every permutation of all pieces restores each event once and empties the pool if and only if no two events with several parts share a key. |
| Corruption.NoCorruptionOfHarmless | src/rsb/transport/spread/DeserializingHandler.cpp:52-99 | In every run, with keys as they may be, only sent events come out and every fragment meets an assembly of its own part count, if the sent events with several parts that share a key differ in one place at most. |
| Corruption.CleanIff | src/rsb/transport/spread/Assembly.cpp:72-92 | For any collection of events, all runs that send some of them are free of corruption and missing slots if and only if any two with several parts and one key have the same number of parts and differ in one place at most. |
| Corruption.ClosedFamilyExample | src/rsb/transport/spread/Assembly.cpp:55-70 | Four events whose mixes are all among them, although two of them differ in two places. |
| Fifo.PerConnectionOrder | src/rsb/transport/spread/DeserializingHandler.cpp:52-99 | For every merge of connections that are FIFO each, the deliveries from a connection are at any time exactly its completely arrived events in sending order, although single-part events bypass the pool. |
| Fifo.PositionExact | src/rsb/transport/spread/BusImpl.cpp:260-274 | An event counts as completely arrived exactly when as many fragments have come from its connection as it and its predecessors have. |
| Fifo.CanArrive | src/rsb/transport/spread/BusImpl.cpp:260-274 | As long as fragments of a connection are missing, its next one can arrive. |
| Fifo.OneOpenAssemblyEach | src/rsb/transport/spread/Assembly.cpp:178-201 | The pool holds an assembly exactly for each connection that is in the middle of an event, and one at most. |
| GroupNames.NamesExact | src/rsb/transport/spread/GroupNameCache.cpp:62-75 | The names of a scope are exactly those of its super-scopes and itself, and all fit the limit of a message group. |
| GroupNames.ScopeToGroupExact | src/rsb/transport/spread/GroupNameCache.cpp:73-75 | A group name is the digest of its scope, cut to 31 characters, which is what a message group can have. |
| GroupNames.GroupNameCache.ScopeToGroups | src/rsb/transport/spread/GroupNameCache.cpp:40-71 | Hit, miss and flush return the uncached names; entries stay correct and never exceed 301. |
| Membership.MirrorKeptIff | src/rsb/transport/spread/MembershipManager.cpp:41-58 | A step of any connector, failing joins included, keeps counts, daemon memberships and registrations in agreement if and only if it is not a refused leave. |
| Membership.ActivateExact | src/rsb/transport/spread/InConnector.cpp:54-62 | Activating an inactive connector works if and only if its group is counted already or the connection lets it join; then it is active, its sink registered, its group joined and counted once more, and otherwise nothing has changed. |
| Membership.DeactivateExact | src/rsb/transport/spread/InConnector.cpp:64-70 | Deactivating unregisters the sink in any case; the last one of a group makes the connection leave it and its count vanish, and it fails exactly if the daemon refuses that. |
| Membership.StepTouches | src/rsb/transport/spread/InConnector.cpp:72-76 | A call concerns its own connector only, and setting the scope of an inactive one changes nothing else. |
| Membership.RunMirrors | src/rsb/transport/spread/InConnector.cpp:54-76 | Over every run without a refused leave, each group is counted as often as there are active connectors in it, the connection is in exactly the counted groups, and the sinks are the active connectors. |
| Membership.NeverAsserts | src/rsb/transport/spread/MembershipManager.cpp:51-53 | While counts mirror reality, the assertion in leaving never fires. |
| Membership.RefusedLeave | src/rsb/transport/spread/MembershipManager.cpp:54-57 | After a refused leave the mirror is broken and the next deactivation of the connector violates the assertion. |
| Membership.JoinedGroupsOfSinks | src/rsb/transport/spread/BusImpl.cpp:138-164 | The groups a connection has joined are exactly the groups of its registered sinks' scopes. |
| Connection.WakeUpComesBack | src/rsb/transport/spread/SpreadConnection.cpp:283-294 | The wake-up message reaches its own sender and interrupts it, which it would not with the discard flag. |
| Connection.InterpretExact | src/rsb/transport/spread/SpreadConnection.cpp:194-220 | Only a regular message to the private group alone interrupts; any other is handed on as it is. |
| Connection.SpreadConnection.Receive | src/rsb/transport/spread/SpreadConnection.cpp:175-233 | Takes the first message of the mailbox and hands it on unchanged, unless it is a regular one to the private group alone, which interrupts; an inactive connection or a daemon error takes nothing. |
| Connection.SpreadConnection.Send | src/rsb/transport/spread/SpreadConnection.cpp:235-281 | Posts to the groups with the discard flag, unless inactive, without groups or refused. |
| Connection.SpreadConnection.InterruptReceive | src/rsb/transport/spread/SpreadConnection.cpp:283-294 | Posts the wake-up message to the private group, without the discard flag, unless the daemon refuses it, which goes unnoticed. |
| Connection.MembershipManager.Join | src/rsb/transport/spread/MembershipManager.cpp:41-49 | Counts of known groups grow; a new group is counted exactly if the daemon lets the connection join. |
| Connection.MembershipManager.Leave | src/rsb/transport/spread/MembershipManager.cpp:51-58 | Counts shrink; the last one is dropped before the daemon is asked to leave, whatever it answers. |
| Bus.BusImpl.AddSink | src/rsb/transport/spread/BusImpl.cpp:138-150 | The sink is registered only if joining its group has worked. |
| Bus.BusImpl.RemoveSink | src/rsb/transport/spread/BusImpl.cpp:152-164 | The sink is removed even if leaving the group throws. |
| Bus.BusImpl.SendNotification | src/rsb/transport/spread/BusImpl.cpp:247-275 | All names are checked before anything is sent. Sending then succeeds if and only if there is nothing to send, or the connection is up, there is a group and no multicast is refused; then every fragment has been posted in order with the final count, and after a refusal exactly those before it. |
| Bus.BusImpl.SendFragments | src/rsb/transport/spread/BusImpl.cpp:260-274 | The same for the loop over the fragments. |
| Bus.BusImpl.HandleOutgoingNotification | src/rsb/transport/spread/BusImpl.cpp:181-194 | Sinks in super-scopes are called once each, with the complete payload, and only after all fragments were sent; with a group name that is too long nothing is sent and none is called. |
| Bus.BusImpl.HandleIncomingNotification | src/rsb/transport/spread/BusImpl.cpp:211-222 | For every sink and event: the number of calls grows by one if it is the event of the notification and the sink is registered in a super-scope or the scope itself, and stays the same otherwise. |
| Bus.BusImpl.HandleError | src/rsb/transport/spread/BusImpl.cpp:239-243 | Every sink is told of the error once more, and nothing else is reported. |
| Bus.LocalAndRemoteAgree | src/rsb/transport/spread/OutConnector.cpp:118-169 | Local and remote sinks see the same scope, schema, payload, identity and meta data; the records differ in their data exactly when later parts are not all empty. |
| Bus.DispatchCount | src/rsb/transport/spread/Bus.h:47-49 | A dispatch calls each sink in a super-scope once and no other. |
| Connectors.InConnector.Activate | src/rsb/transport/spread/InConnector.cpp:54-62 | Active only after registering has worked; a second activation changes nothing. |
| Connectors.InConnector.Deactivate | src/rsb/transport/spread/InConnector.cpp:64-70 | Inactive only after unregistering has not thrown; the connector, its bus and the memberships change as the life-cycle model says. |
| Receiver.DeserializingHandler.HandleMessage | src/rsb/transport/spread/DeserializingHandler.cpp:52-99 | Ignores other messages, reports garbage, and passes fragments through the pool or, if single, past it. |
| Receiver.DeserializingHandler.constructor | src/rsb/transport/spread/Assembly.h:121-122 | The pool prunes after 20 seconds, every 4000 milliseconds. |
| Receiver.QuietRounds | src/rsb/transport/spread/ReceiverTask.cpp:59-61 | The wake-up message, or a membership message, ends a round without any change, cancellation or exception. |
| Receiver.AbortedRounds | src/rsb/transport/spread/ReceiverTask.cpp:56-58 | An error of the daemon, or a message that does not parse, is told to every sink once and cancels, and nothing else changes. |
| Receiver.RoundCases | src/rsb/transport/spread/ReceiverTask.cpp:45-62 | What a round without a fragment leaves behind, by what the connection returned or threw; a closed connection makes the exception escape. |
| Receiver.ErrorIsReceiveFails | src/rsb/transport/spread/ReceiverTask.cpp:56-58 | An error of the daemon is the failing receive of the shutdown protocol: both cancel. |
| Receiver.WakeUpIsReceive | src/rsb/transport/spread/ReceiverTask.cpp:59-61 | The wake-up message is a receive of the shutdown protocol that only takes it from the mailbox. |
| Receiver.RoundIsShutdownStep | src/rsb/transport/spread/ReceiverTask.cpp:45-62 | Handling any message ends in the shutdown protocol as in the round: normally, cancelled or left by an exception, with the same cancellation. |
| Receiver.HandledIsDelivery | src/rsb/transport/spread/DeserializingHandler.cpp:52-99 | Handling a fragment that is under way is a delivery step of the channel: same pool, and a result exactly when the step lets an event out. |
| Receiver.ReceiverTask.Execute | src/rsb/transport/spread/ReceiverTask.cpp:45-62 | One round changes pool, sinks, reported errors and cancellation as the result of receiving and handling demands; spelled out for a closed connection, a daemon error, the wake-up message, membership messages and garbage. |
| Receiver.RoundIsDelivery | src/rsb/transport/spread/ReceiverTask.cpp:45-62 | A round with a fragment under way at the head of the mailbox leaves the pool of the delivery step of the channel and calls the sinks for exactly the event that the step lets out; a fragment that is pooled already makes it report to the sinks and cancel, or lets the exception escape. |
| Receiver.GoesOnIff | src/rsb/transport/spread/ReceiverTask.cpp:57-61 | The receiver survives a round if and only if the delivery step rejects nothing. |
| Receiver.LosslessGoesOn | src/rsb/transport/spread/Assembly.cpp:80-88 | In runs without copies nothing is rejected and nothing under way is in the pool, so the receiver survives all of their rounds. |
| Routing.AddressedIsReached | src/rsb/transport/spread/SpreadConnection.cpp:256-276 | Which buses a publication goes to in the routing model is the daemon's rule for messages that discard themselves. |
| Routing.PublishIsHandled | src/rsb/transport/spread/BusImpl.cpp:181-194 | What a successful `handle` posts and calls is a publication of the routing model: the daemon takes exactly the pieces of the event to the addressed other buses, and the own sinks are called. |
| Routing.PostsPublish | src/rsb/transport/spread/BusImpl.cpp:181-194 | The multicasts and calls of a successful `handle` are the publication for the publishing bus and for every other one, whatever it has joined. |
| Routing.StepExact | src/rsb/transport/spread/BusImpl.cpp:138-222 | A publication is recorded with the sinks of all buses, added sinks are there, removed ones are gone, and arrivals are deliveries of the channel; other buses are untouched. |
| Routing.GoesOnWithAnyStep | src/rsb/transport/spread/BusImpl.cpp:138-222 | Every run can go on with any fresh event, any fragment under way and any change of sinks. |
| Routing.ExactRouting | src/rsb/transport/spread/BusImpl.cpp:138-222 | For any hash, in every state of every run in which sinks come and go, a published event has reached a sink on any bus exactly once if the sink is in a super-scope and was registered when its bus published or received the event, and otherwise never; exactly the other buses that had a sink in one of the groups when it was published receive it, once all of it has arrived. |
| Routing.StableSink | src/rsb/transport/spread/BusImpl.cpp:138-222 | A sink that is not added or removed from some time on gets every event published since exactly once if it is registered in a super-scope and nothing of the event is under way to its bus, and otherwise never. |
| Routing.NothingElse | src/rsb/transport/spread/BusImpl.cpp:211-222 | Sinks are never called with an event that has not been published. |
| Shutdown.Safe | src/rsb/transport/spread/BusImpl.cpp:124-136 | In every reachable state the receiver is never inside `receive` on a closed connection, at most one message was handled after cancelling, and waiting is stuck exactly for a receiver that has died of an exception or is blocked with nothing to receive after the wake-up message was refused. |
| Shutdown.AtMostOneHandled | src/rsb/transport/spread/BusImpl.cpp:124-136 | From the cancellation on, a run handles at most one more message, and none if the receiver has none in hand and is not receiving. |
| Shutdown.DeadIffEscaped | src/rsb/transport/spread/ReceiverTask.cpp:45-62 | The receiver is dead if and only if an exception has escaped from `execute` and the task does not count as done then. |
| Shutdown.AbandonedOnlyIf | src/rsb/transport/spread/BusImpl.cpp:124-136 | Waiting is only stuck in runs in which an exception has escaped without ending the task, or the wake-up message was refused. |
| Shutdown.RefusedWakeUpHangs | src/rsb/transport/spread/SpreadConnection.cpp:293 | If the wake-up message can be refused, a run of the source leads to a receiver that is blocked while `deactivate` waits for it. |
| Shutdown.ForeignMessageFrees | src/rsb/transport/spread/SpreadConnection.cpp:188-205 | A message of somebody else lets such a receiver and `deactivate` finish. |
| Shutdown.Terminates | src/rsb/transport/spread/BusImpl.cpp:124-136 | Once begun, deactivating takes at most 9 steps besides arrivals of foreign messages; one that needs no message or error from elsewhere is possible if and only if it has not finished and does not wait for a dead receiver or for one blocked after a refused wake-up. |
| Shutdown.NeverHangsIff | src/rsb/transport/spread/BusImpl.cpp:129-131 | Of the two orders of cancelling and waking up, with or without the discard flag, with escaped exceptions ending the task or not, and with a wake-up message that can be refused or not, exactly the order and flag of the source with exceptions that end the task and no refusal cannot hang. |
| Factory.OneLiveBusEach | src/rsb/transport/spread/Factory.cpp:47-78 | Over any run of calls, failing activations and dying buses, the same options have at most one live bus, which is returned while it lives; otherwise a new one is, unless activating it fails, and a bus is only returned for its own options. |
| Factory.DroppedIsReplaced | src/rsb/transport/spread/Factory.cpp:53-76 | When a bus dies the others live on, and obtaining its options again gives a new one. |
| Factory.Factory.ObtainBus | src/rsb/transport/spread/Factory.cpp:47-78 | Returns the living bus or a new one; a dead entry is erased even if activating the new bus throws. |

## Left out

- Spread C calls, sockets, error strings, logging, transport addresses, plugin registration and build files: input, output or text only.
- Converters and the contents of notification records beyond identity, scope, schema, meta data and payload.
- A bound on whole serialized messages: the source measures the header before data, part index and count are set, so only header plus data is bounded.
- Quality of service, which only selects a flag of the multicast.
- Connection.SpreadConnection.Send: has no fixed array of 100 group names, nor has receiving; the model sets no limit to the depth of a scope.
- AssemblyPools.AssemblyPool.Add: excludes fragments whose index is beyond the slots of their assembly, as do the receiver's methods on top of it, because the source is undefined for them; `Channel.NeverMalformed` and `Corruption.CleanIff` say when they never come up.
- Restarting pruning after it has been stopped, and the threads that run it; a tick is one step.
- Routing.ExactRouting: joins and leaves take effect at once, because the source gives no guarantee for events that are published while one is in progress.
- Partial publications, after a refused multicast, in `Routing`: `Connectors.OutConnector.Handle` says what has been posted then.
- Memberships across deactivating and reactivating a bus; runs of `Membership` stay within one session.
- `BusImpl::activate` and `deactivate` as methods of an object: they are the initial state and the steps of `Shutdown`, which has two threads.
- Deactivating on the receiver thread itself, sinks that call back into the bus, and cached references used after the lock is released.
- What sinks do with reported errors, and what in-connectors do after a failed deserialization.
