# Verified model of the bonding encryptor's data path

The program moves packets between LAN ports and several WANs through AF_XDP
sockets: packets cross lock-protected rings, get a sticky crypto worker and TX
slot, are sprayed over the WANs by weight, and UDP traffic is put back in order
at the far end. This project models the in-memory algorithms of that data path
in Dafny and proves what they promise, for every input, every run and every
interleaving of steps. `dafny verify dfyconfig.toml` checks everything.

How the files fit together:

- `Serial` is 32-bit serial-number arithmetic over unwrapped positions (section
  3.2 of RFC 1982); everything that wraps in the program is tied to it.
- `Helpers` holds the notions several modules share.
- `ReorderModel`, `ReorderTable` define the UDP reorder buffer on values;
  `UdpReorder` is the buffer as the program keeps it, a class over arrays with
  32-bit counters, each method proved equal to the model. `ReorderEntry` and
  `ReorderRuns` prove conservation and order for all runs, `ReorderFlows` when a
  flow keeps one entry and what follows for its order, `ReorderStamps` what
  stamps mean and whom a takeover evicts, `ReorderGaps` how far an arrival moves
  `next` and when the gap clock moves, `ReorderWindow` the window invariant and
  exactly when it is lost, `ReorderHang`, `ReorderLoop`, `ReorderRange` and
  `ReorderStrand` exactly when a call then never returns, `ReorderHash` and
  `ReorderCases` runs of the program's own configuration that show it,
  `ReorderProgress` and `ReorderDrain` draining by the garbage collector in a
  busy worker, `ReorderEndToEnd` and `UdpPath` delivery from sender to receiver.
- `Swrr`, `FlowTable`, `WanPool`, `WanShare`: smooth weighted round robin, the
  per-flow scheduler cache, where weights and the picked WAN come from, and the
  share of traffic each live WAN carries.
- `Ring`, `RingSteps`, `FramePool`, `Frames`, `LocalEgress`: rings as FIFO queues,
  rings under interleaving, the frame pool, and ownership of frames.
- `RouteTable`, `Routes`, `RouteSteps`: the sticky route table on values, as the
  program keeps it, and under concurrency.
- `PolicyGate`, `KeySnapshots`, `MacIndex`, `LinkDebounce`: the compiled inbound
  policy table, per-worker key snapshots, the MAC hash index, link debounce.

Modelling decisions:

- What the program does not control is a parameter: hash functions, clocks, the
  answers of the `emit` callback, the decisions of parser, policy and cipher, the
  moments at which threads interleave. Theorems hold for all of them.
- Concurrency is interleaving of single loads and stores (a sequentially
  consistent memory); the acquire/release orders are taken to give that.
- Where the program's counters wrap at 32 bits the model wraps too. Recency
  stamps and generation histories are counted without wrap-around.
- Statistics counters and logging are not modelled.

Promises that turned out not to hold in general, each with its exact condition and
an input:

- The window invariant of the reorder buffer, and with it termination. The held-cap
  branch skips a gap and then stores the arriving datagram without looking at its
  distance again (`src/core/dataplane/udp_reorder.c:347-354`). `SubmitWindowIff`
  says exactly when the invariant is lost, `SubmitStrandsIff` when some next call
  can hang, `SubmitHangsIff` when a call hangs, `RunReturns` which runs return from
  every call. `ThreeDatagramsHang` hangs every worker that is one below its cap;
  `RealCapHangs` reaches one with the program's cap of 8192, its hash and any hold
  time.
- A flow owning one entry of the reorder table. `SubmitOneEntryIff`: a submit gives a
  flow a second entry exactly when its own one is behind a free way of its set, which
  collection can free. `RunFlowOrdered` is the order per flow where that does not
  happen, `RunOrdered` the order per entry in every run; `RealTwins` is a run of four
  calls that gives a flow two entries.
- The pair push on a ring of one slot (`PairGuardIff`).
- A compiled port range equals the policy's except for reversed ranges and ranges
  that start beyond 65535 (`RangeIff`, `ReversedRangeAdmits`). This concerns the
  compile function: the loader never builds such a range (`src/db/db_config.c:20-37`).
- Freshness of a worker's keys, when a multiple of 2^32 publications passes between
  two of its calls (`StaleIff`, `LeftBehind`).
- Eligibility of the picked WAN while a drain is in progress (`PickSlot`,
  `DrainingPick`).
- One MAC per LAN port across learning steps (`UpsertOnePerIfIff`,
  `MoveDoublesPort`), against the comment at `src/core/flow/mac_learn.c:390`.

## Model

| member | source | states |
|---|---|---|
| Serial.SeqDeltaExact | src/core/dataplane/udp_reorder.c:56-59 | the signed 32-bit difference is the true distance for positions less than 2^31 apart, across wrap-around |
| Serial.SeqDeltaShift | src/core/dataplane/udp_reorder.c:56-59 | advancing the base by k lowers every difference by k |
| ReorderModel.SkipGapReleases | src/core/dataplane/udp_reorder.c:229-248 | a gap skip that finds something ahead releases at least one held datagram, in any state |
| ReorderModel.SkipTargetHeld | src/core/dataplane/udp_reorder.c:204-248 | the number a skip jumps to sits in the slot the flush looks at first |
| ReorderModel.FlushShrinks | src/core/dataplane/udp_reorder.c:181-202 | a flush never adds to the window and empties a slot whenever the next number is held |
| ReorderTable.ScanIff | src/core/dataplane/udp_reorder.c:148-179 | which way a lookup returns, both directions: first own entry before any free way, else first free way, else the one with the least stamp of a full set (ReorderStamps says what stamps mean) |
| ReorderTable.FindHitIff | src/core/dataplane/udp_reorder.c:156-171 | a flow's entry is found exactly when every way before it is in use by other flows |
| ReorderStamps.RunStamped | src/core/dataplane/udp_reorder.c:127-179 | every run: an entry in use belongs to the flow and epoch of the last submit that arrived at it and carries its time, and stamps order the entries in use by those submits |
| ReorderStamps.EvictsLongestAgo | src/core/dataplane/udp_reorder.c:148-179 | every run: a takeover of a way in use happens only in a set full of other flows and takes, of the four entries, the one at which a submit last arrived longest ago |
| ReorderStamps.MetIsSubmitted | src/core/dataplane/udp_reorder.c:148-179 | every run in which no submit meets a hidden entry: the last submit that arrived at an entry is the last submit of its flow |
| ReorderStamps.EvictsFlowLongestAgo | src/core/dataplane/udp_reorder.c:148-179 | in terms of the calls alone: such a takeover evicts the flow whose last submit is longest ago |
| ReorderFlows.LookupOneEntryIff | src/core/dataplane/udp_reorder.c:148-179 | a lookup keeps one entry per flow exactly when the flow owns none behind a free way of its set |
| ReorderFlows.SubmitOneEntryIff | src/core/dataplane/udp_reorder.c:297-315 | submit keeps one entry per flow exactly under that condition on the table before the call |
| ReorderFlows.OtherCallsKeep | src/core/dataplane/udp_reorder.c:378-415 | collection and worker reset give no flow an entry |
| ReorderFlows.RunFlows | src/core/dataplane/udp_reorder.c:148-179 | every run in which no submit meets a hidden entry: one entry per flow throughout, in its set |
| ReorderFlows.RunFlowOrdered | src/core/dataplane/udp_reorder.c:181-248 | every such run: what a flow emits between two of its lives comes from one entry, in one epoch, at strictly increasing positions |
| ReorderCases.TwinEntries | src/core/dataplane/udp_reorder.c:168-171 | a run of four calls after which a flow has two entries and has emitted one number twice |
| ReorderCases.RealTwins | src/core/dataplane/udp_reorder.c:395-396 | the same with the program's own hash |
| ReorderEntry.LivesOrdered | src/core/dataplane/udp_reorder.c:181-248 | between two resets of an entry, positions handed to emit strictly increase, within one flow and epoch |
| ReorderEntry.FlushKeeps | src/core/dataplane/udp_reorder.c:181-202 | flush keeps order, counters and every datagram |
| ReorderEntry.SkipGapKeeps | src/core/dataplane/udp_reorder.c:229-248 | gap skip keeps order, counters and every datagram |
| ReorderEntry.MakeRoomKeeps | src/core/dataplane/udp_reorder.c:250-266 | the room loop keeps order, counters and every datagram whenever it exits |
| ReorderEntry.StoreKeeps | src/core/dataplane/udp_reorder.c:356-376 | storing accounts for the new and any overwritten datagram exactly once |
| ReorderEntry.PlaceKeeps | src/core/dataplane/udp_reorder.c:347-376 | the same with the held-cap branch; the cap is never exceeded |
| ReorderEntry.ArriveKeeps | src/core/dataplane/udp_reorder.c:317-376 | one arrival in any state: emitted, dropped or held exactly once, entry well-formed and ordered, other entries untouched |
| ReorderRuns.ResetEntryKeeps | src/core/dataplane/udp_reorder.c:127-146 | takeover or epoch reset drops every held datagram once and starts an empty life |
| ReorderRuns.SubmitKeeps | src/core/dataplane/udp_reorder.c:297-376 | submit keeps the worker invariant, accounts for exactly one more datagram and respects the cap |
| ReorderRuns.GcKeeps | src/core/dataplane/udp_reorder.c:378-400 | collection keeps the worker invariant and loses nothing |
| ReorderRuns.ResetWorkerKeeps | src/core/dataplane/udp_reorder.c:402-415 | worker reset empties every window through drop and loses nothing |
| ReorderRuns.RunSafe | src/core/dataplane/udp_reorder.c:80-125 | every run: delivered + dropped + held = submitted for every class of datagrams; per-flow and worker counters exact; free entries own no slot; held at most the cap |
| ReorderRuns.RunOrdered | src/core/dataplane/udp_reorder.c:181-248 | every run: emits of one entry between resets are strictly increasing in position and of one flow and epoch, also across 2^32, timeouts and the held-cap branch |
| ReorderWindow.FlushExact | src/core/dataplane/udp_reorder.c:181-202 | flush releases exactly the held run starting at the next number and nothing else |
| ReorderWindow.SkipGapExact | src/core/dataplane/udp_reorder.c:229-248 | under the invariant a skip jumps to the smallest held position, releases the run there, keeps the rest |
| ReorderWindow.MakeRoomReturns | src/core/dataplane/udp_reorder.c:250-266 | under the invariant the room loop exits, never passes the arriving number and leaves it inside the window, so the second late test cannot fire |
| ReorderGaps.RoomExact | src/core/dataplane/udp_reorder.c:250-266 | how far the room loop moves `next` for an arrival too far ahead: to the first end of a held run that brings it into the window, or, if there is none, exactly so far that the arrival is the last number of the window |
| ReorderGaps.ArriveMoves | src/core/dataplane/udp_reorder.c:297-376 | `next` never goes back, and stays exactly for late, repeated and waiting datagrams; a gap open for the hold time is given up at once; while the flow waits for the same number its gap clock is not touched, and a clock started or restarted shows the time of the arrival |
| ReorderWindow.SlotFreeOrSame | src/core/dataplane/udp_reorder.c:356-364 | under the invariant the slot is free or holds the same number: the overwrite branch is unreachable |
| ReorderWindow.OvertakenIff | src/core/dataplane/udp_reorder.c:347-354 | a skip passes the arriving number exactly when everything from the smallest held position up to it is held |
| ReorderWindow.PlaceKeepsWindowIff | src/core/dataplane/udp_reorder.c:347-376 | the tail of submit keeps the invariant if and only if the held-cap skip does not overtake |
| ReorderWindow.ArriveWindowIff | src/core/dataplane/udp_reorder.c:317-376 | an arrival under the invariant returns, and keeps it exactly when it is not overtaken |
| ReorderWindow.SubmitWindowIff | src/core/dataplane/udp_reorder.c:297-376 | the same for a whole worker and any lookup outcome |
| ReorderWindow.RunWindows | src/core/dataplane/udp_reorder.c:297-415 | every run without an overtaking skip returns from every call and satisfies the invariant throughout |
| ReorderHang.RoomLoopForever | src/core/dataplane/udp_reorder.c:250-266 | once the guard holds and nothing held is ahead, it holds after any number of iterations |
| ReorderRange.RunRanged | src/core/dataplane/udp_reorder.c:250-266 | every run, held-cap branch included: an entry holds only what was numbered in its present life and less than a window ahead of `next` |
| ReorderLoop.RoomHangsIff | src/core/dataplane/udp_reorder.c:250-266 | for every entry, whatever it holds and however long its life: the room loop never exits if and only if it comes to a stop a window or more before the arrival with something left that it cannot see, INT32_MAX counted as not seen |
| ReorderLoop.ArrivalHangsIff | src/core/dataplane/udp_reorder.c:317-346 | the same for the whole arrival, an expired gap included |
| ReorderLoop.SubmitHangsIff | src/core/dataplane/udp_reorder.c:297-376 | for every worker with the invariant of all runs: submit never returns if and only if that holds of the entry the datagram meets |
| ReorderRange.RunStranded | src/core/dataplane/udp_reorder.c:250-266 | in every run, for an entry whose life is shorter than 2^31 numbers less a window, that condition is the simple one: a stale datagram is held and the arrival is too far beyond everything held ahead |
| ReorderHang.PassedIff | src/core/dataplane/udp_reorder.c:347-354 | a skip goes beyond the arrival exactly when everything from the smallest held position up to and including it is held |
| ReorderHang.HangPossibleIff | src/core/dataplane/udp_reorder.c:347-376 | with nothing held behind `next`, a store makes it possible that the next arrival hangs the room loop exactly when the worker is at its cap, the flow holds something and the skip passes the arrival |
| ReorderStrand.SubmitStrandsIff | src/core/dataplane/udp_reorder.c:297-376 | for every worker with nothing held behind any `next`: submit returns; it leaves something behind, and some next call of submit never returns, if and only if it is passed by its held-cap skip or emits a number of which a copy is held at `next` |
| ReorderStrand.RunReturns | src/core/dataplane/udp_reorder.c:297-415 | every call of a run free of such submits returns, and so does whatever is submitted next; after such a submit some next call does not |
| ReorderCases.ThreeDatagramsHang | src/core/dataplane/udp_reorder.c:297-376 | the numbers 2, 1, 259 of a new flow hang every worker that is one below its cap, whatever the cap |
| ReorderCases.CapHangs | src/core/dataplane/udp_reorder.c:347-354 | such a worker is reached from the empty one by sending numbers 1 to 255 of flows in different sets, whatever the cap |
| ReorderHash.SourceHash | src/core/dataplane/udp_reorder.c:61-71 | the program's hash sends 34 listed source addresses to 34 sets |
| ReorderCases.RealCapHangs | src/core/dataplane/udp_reorder.c:11-19 | with the program's hash, cap of 8192 and any hold time there is a run of 8194 calls the last of which never returns |
| ReorderProgress.GcVisitEntry | src/core/dataplane/udp_reorder.c:386-397 | a visit to a flow with an expired gap strictly lowers its held count and touches no other entry |
| ReorderProgress.GcFromExact | src/core/dataplane/udp_reorder.c:386-397 | one collector call visits exactly the sixteen entries from the cursor on |
| ReorderGaps.FreedIff | src/core/dataplane/udp_reorder.c:386-397 | every run: a collector call frees an entry in use if and only if it is one of the sixteen visited, the last submit that arrived at it is over a minute ago, and nothing is left held |
| ReorderDrain.GcVisitsOnce | src/core/dataplane/udp_reorder.c:378-400 | amid any submits, of any 32 consecutive collector calls exactly one visits an entry; the others leave it as it is |
| ReorderProgress.RunClocks | src/core/dataplane/udp_reorder.c:317-319 | every such run at positive times: a flow's gap clock runs if and only if it holds something |
| ReorderDrain.GcStep | src/core/dataplane/udp_reorder.c:378-400 | every collector call after the hold time brings a silent flow strictly closer to empty, whatever other entries look like |
| ReorderDrain.SilentFlowDrains | src/core/dataplane/udp_reorder.c:378-400 | in a worker that goes on serving other flows, resets included, a silent flow whose own entry keeps the window invariant holds nothing any more within 32 collector calls per held datagram |
| ReorderEndToEnd.FirstArrival | src/core/dataplane/udp_reorder.c:127-179 | a datagram of a flow without an entry, or with one of another epoch, opens the stream at its first position: any of the first 33 numbers from 0, or 32 after the first of a later stream |
| ReorderEndToEnd.ArriveTracks | src/core/dataplane/udp_reorder.c:317-376 | an undisturbed arrival, new or repeated, leaves exactly the contiguous prefix emitted and the rest held; only what has to be held needs room |
| ReorderEndToEnd.EndToEnd | src/core/dataplane/udp_reorder.c:297-376 | n items numbered from any position, 0 after a start, arriving in any order within the window, repetitions included, amid any other calls that do not disturb the entry, also over an entry of an earlier epoch, are emitted exactly in sending order; n unbounded; room is needed only when a datagram has to be held |
| ReorderEndToEnd.SwappedPair | src/core/dataplane/udp_reorder.c:297-376 | two datagrams that overtake each other at an empty worker, with any positive hold time, meet the theorem's conditions and are emitted in sending order |
| UdpPath.SenderNumbersStream | src/core/dataplane/crypto_route.c:350-384 | the sender's k-th packet of a direction from now on carries the number of the k-th position of the receiver's stream |
| UdpPath.WireIsStream | src/core/dataplane/crypto_route.c:350-384 | amid any other calls of any thread, what the sender labels is exactly the receiver's stream |
| UdpPath.SentOrderRestored | src/core/dataplane/udp_reorder.c:297-376 | sender to receiver: the entry's emits are exactly the datagrams the sender put on the wire, in that order |
| UdpPath.SwappedOnWire | src/core/dataplane/crypto_route.c:370-384 | from the empty route table to an empty receiver: two packets of a new flow overtake each other and are emitted as they were sent |
| UdpReorder.Buffer.constructor | src/core/dataplane/udp_reorder.c:402-415 | the cleared arrays are the model's empty worker |
| UdpReorder.Buffer.FlowFlushContiguous | src/core/dataplane/udp_reorder.c:181-202 | the loop on 32-bit numbers equals the model's flush |
| UdpReorder.Buffer.FlowSmallestAhead | src/core/dataplane/udp_reorder.c:204-227 | least non-negative distance to a held number and that number, or -1 |
| UdpReorder.Buffer.FlowSkipGap | src/core/dataplane/udp_reorder.c:229-248 | equals the model's gap skip |
| UdpReorder.Buffer.FlowMakeWindowRoom | src/core/dataplane/udp_reorder.c:250-266 | equals the model's room loop, and reports exactly the non-terminating case |
| UdpReorder.Buffer.FlowDropSlots | src/core/dataplane/udp_reorder.c:108-125 | equals dropping all held datagrams in slot order |
| UdpReorder.Buffer.FlowReset | src/core/dataplane/udp_reorder.c:127-146 | equals the model's new life of an entry |
| UdpReorder.Buffer.FindEntry | src/core/dataplane/udp_reorder.c:153-178 | equals the model's scan of a set |
| UdpReorder.Buffer.FlowLookup | src/core/dataplane/udp_reorder.c:148-179 | equals the model's lookup, renewal or takeover |
| UdpReorder.Buffer.StoreInSlot | src/core/dataplane/udp_reorder.c:356-376 | equals the model's store |
| UdpReorder.Buffer.Place | src/core/dataplane/udp_reorder.c:335-376 | equals the model's tail of submit |
| UdpReorder.Buffer.Submit | src/core/dataplane/udp_reorder.c:297-376 | equals the model's submit, for every state |
| UdpReorder.Buffer.GcEntry | src/core/dataplane/udp_reorder.c:386-397 | equals one collector visit |
| UdpReorder.Buffer.Gc | src/core/dataplane/udp_reorder.c:378-400 | equals the sliced collection |
| UdpReorder.Buffer.ResetWorker | src/core/dataplane/udp_reorder.c:402-415 | equals the worker reset |
| Swrr.AddCredits | src/core/flow/flow_table.c:117-124 | credits every positive weight and totals them |
| Swrr.FindBest | src/core/flow/flow_table.c:128-140 | the cyclic scan equals the specification |
| Swrr.Pick | src/core/flow/flow_table.c:103-144 | equals the specified pick, including one-WAN, zero-weight and empty pools |
| Swrr.WinnerMax | src/core/flow/flow_table.c:128-138 | the winner has a positive weight and the largest credit |
| Swrr.TieFirst | src/core/flow/flow_table.c:128-138 | of several largest credits the first one cyclically from the tie index wins |
| Swrr.NextKeepsCredit | src/core/flow/flow_table.c:117-143 | credits sum to zero and stay above minus the total weight; only weighted WANs win |
| Swrr.CreditLaw | src/core/flow/flow_table.c:103-144 | after n picks a credit is n times the weight minus total weight times picks |
| Swrr.ExactFairness | src/core/flow/flow_table.c:103-144 | after k rounds of total-weight packets each WAN was picked exactly k times its weight and all credits are zero |
| Swrr.AlwaysClose | src/core/flow/flow_table.c:103-144 | after any n packets picks are below share plus one, and bounded from below |
| Swrr.EqualWeightsRotate | src/core/flow/flow_table.c:103-144 | with equal weights the k-th pick of a fresh flow is the k-th WAN cyclically from its tie index |
| Swrr.ZeroWeightsRotate | src/core/flow/flow_table.c:125-126 | with no weight at all the picks go round the same way as long as the 8-bit index does not wrap |
| FlowTable.SameConversation | src/core/flow/flow_table.c:41-60 | two tuples share a canonical form exactly when equal or reversed |
| FlowTable.FindIff | src/core/flow/flow_table.c:190-201 | a lookup hits exactly when the flow is in the table |
| FlowTable.ServeKeeps | src/core/flow/flow_table.c:159-210 | each key at most once, in its set, stamps distinct |
| FlowTable.ServeStates | src/core/flow/flow_table.c:159-210 | a packet moves its own flow like a private scheduler and leaves every other unevicted flow alone |
| FlowTable.CacheRefinesSolo | src/core/flow/flow_table.c:159-210 | while a flow is not evicted, the shared table picks what a private scheduler would, over any traffic |
| FlowTable.FirstPick | src/core/flow/flow_table.c:89-144 | the first packet of a flow that is not in the table, or whose pool has changed, takes the WAN with the largest weight, of several the first one cyclically from the index its hash selects |
| FlowTable.StampIsLastUse | src/core/flow/flow_table.c:190-208 | every run: an entry's stamp is the moment of its flow's last packet |
| FlowTable.EvictsLeastRecentlyUsed | src/core/flow/flow_table.c:190-208 | every run: an eviction takes the flow of the set whose last packet is longest ago, and only from a full set |
| FlowTable.FlowFairness | src/core/flow/flow_table.c:103-210 | a resident flow's packets split exactly by weight over whole rounds, amid any other traffic and both directions |
| FlowTable.NewFlowFairness | src/core/flow/flow_table.c:89-210 | the same from a flow's first packet |
| FlowTable.Table.FindWay | src/core/flow/flow_table.c:190-201 | the scan equals the specified hit or victim |
| FlowTable.Table.PickWan | src/core/flow/flow_table.c:159-210 | the whole new table and the picked WAN |
| WanPool.FindLiveDp | src/core/forwarder/wan_scheduler.c:421-440 | the first slot of the configured WAN, if eligible |
| WanPool.LiveDpIff | src/core/forwarder/wan_scheduler.c:421-440 | a slot is found live if and only if it is the first configured with that WAN, below wanCount or pairCount, active, and neither stopped, held, draining nor excluded; -1 exactly when there is none |
| WanPool.BlendBetween | src/core/forwarder/wan_scheduler.c:263-291 | a blended weight is at least one, otherwise between the two weights, and goes from the old to the new one; zero counts as one |
| WanPool.BlendExact | src/core/forwarder/wan_scheduler.c:263-291 | a blended weight is the mixture of the two weights in hundredths, rounded down, at least one, and moves one way as the blend proceeds |
| WanPool.ProgressRange | src/core/forwarder/wan_scheduler.c:249-261 | progress is 0..100 and below 100 until the end |
| WanPool.ProgressExact | src/core/forwarder/wan_scheduler.c:249-261 | progress is the elapsed part of the interval in percent, rounded down, and 100 from its end on |
| WanPool.RampExact | src/core/forwarder/wan_scheduler.c:473-485 | a join ramp leaves its percentage of the weight, rounded down, between one and the whole, and never less for a higher percentage |
| WanPool.TaperExact | src/core/forwarder/wan_scheduler.c:507-518 | a drain leaves its percentage of the seed weight, rounded down, between one and the whole, and never more for a lower taper |
| WanPool.BuildPool | src/core/forwarder/wan_scheduler.c:442-522 | live WANs in order with ramped weight plus share of the dead weight, then the draining slots that fit, in slot order, with tapered weight at least one |
| WanPool.CollectLive | src/core/forwarder/wan_scheduler.c:454-487 | which WANs are live with which ramped weight, and the total weight of the rest |
| WanPool.PoolIff | src/core/forwarder/wan_scheduler.c:454-487 | a WAN is in the live part of the pool with a weight if and only if a member of the profile has it, a positive weight, a ramp that has begun or none, and a live slot, with that ramped weight |
| WanPool.Redistribute | src/core/forwarder/wan_scheduler.c:489-495 | every live weight grows by its share of the dead weight |
| WanPool.AddDrains | src/core/forwarder/wan_scheduler.c:503-520 | exactly the draining slots that fit are appended, in slot order |
| WanPool.DrainSlotsIff | src/core/forwarder/wan_scheduler.c:503-513 | exactly the active drains of running slots with some taper left take part, in slot order |
| WanPool.SharesExact | src/core/forwarder/wan_scheduler.c:489-495 | shares sum to the dead weight and differ by at most one |
| WanPool.SharesFirst | src/core/forwarder/wan_scheduler.c:489-495 | the remainder of the dead weight goes to the first entries |
| WanPool.WeightConserved | src/core/forwarder/wan_scheduler.c:454-495 | with a live WAN and no partial ramp, live weights sum to all positive blended weights, each at least one |
| WanPool.LeastLoaded | src/core/forwarder/wan_scheduler.c:542-585 | keeps the selected slot if it has room, else the shallowest candidate with room, else the selected |
| WanPool.CandidateIff | src/core/forwarder/wan_scheduler.c:542-585 | the slots traffic may be diverted to: the live slots of the profile's weighted members, or without a profile every eligible slot |
| WanPool.LegacyDp | src/core/forwarder/wan_scheduler.c:524-540 | the first slot draining that WAN, or -1 exactly when there is none |
| WanPool.PickSlot | src/core/forwarder/wan_scheduler.c:612-622 | the chosen WAN's live slot, or slot 0, is used if it has room, else a shallowest candidate with room; the slot used is eligible if and only if the chosen WAN is live, or slot 0 is eligible, or slot 0 has no room and a candidate has |
| WanPool.PickForLocal | src/core/forwarder/wan_scheduler.c:587-622 | a live choice always ends on an eligible slot, its own if it has room; with no active drain every choice does |
| WanPool.DrainingPick | src/core/forwarder/wan_scheduler.c:94-95 | a concrete view, a slot draining the WAN it is configured for and slot 0 stopped, in which the chosen WAN is in the pool and no slot is eligible |
| WanShare.LiveShare | src/core/forwarder/wan_scheduler.c:454-501 | over whole rounds a resident flow sends over each live WAN exactly its weight plus its share of the dead weight |
| Ring.SlotOfWire | src/core/iface/xdp_interface.c:228-246 | masking the wrapped counter selects the slot of the unwrapped position |
| Ring.InitRing | src/core/iface/xdp_interface.c:191-214 | refused exactly for a capacity that is no power of two, else an empty queue |
| Ring.BitTest | src/core/iface/xdp_interface.c:193-194 | the bit test accepts exactly the 32 powers of two |
| Ring.Queue.Count | src/core/iface/xdp_interface.c:296-301 | the number of queued packets, across wrap-around |
| Ring.Queue.TryPush | src/core/iface/xdp_interface.c:228-246 | appends, failing exactly when full |
| Ring.Queue.TryPushPair | src/core/iface/xdp_interface.c:248-271 | appends both or nothing, failing exactly when fewer than two slots are free; what a one-slot ring does instead |
| Ring.Queue.TryPop | src/core/iface/xdp_interface.c:273-294 | removes the oldest, failing exactly when empty |
| Ring.PairGuardIff | src/core/iface/xdp_interface.c:248-271 | the pair guard is right exactly for rings of at least two slots |
| RingSteps.GuardSafe | src/core/iface/xdp_interface.c:228-271 | a fullness test on a stale tail is safe |
| RingSteps.StepOk | src/core/iface/xdp_interface.c:228-294 | every load, write and store of producer and consumer keeps the ring invariant |
| RingSteps.RingIsFifo | src/core/iface/xdp_interface.c:228-301 | every interleaving: popped is a prefix of pushed, unread slots intact, counter difference is the queue length and at most the capacity |
| RingSteps.PairsVisibleTogether | src/core/iface/xdp_interface.c:248-271 | whatever head the consumer loaded covers whole batches, so a pair appears at once |
| FramePool.Pool.Push | src/core/iface/xdp_interface.c:330-341 | appends the longest prefix that fits and says how long |
| FramePool.Pool.Pop | src/core/iface/xdp_interface.c:343-354 | removes up to n oldest frames in order |
| FramePool.Pool.ResetFull | src/core/iface/xdp_interface.c:656-670 | every frame once, failing exactly when none or too many |
| Frames.ProcessLocalKeeps | src/core/dataplane/local_egress.c:207-246 | one egress call puts its frame into exactly one place and loses or doubles no other, whatever policy, scheduler and cipher decide |
| Frames.ProcessLocalSends | src/core/dataplane/local_egress.c:207-246 | what an egress call appends to which ring, both directions: a bypass packet as it is; with crypto on, the key ready, a number drawn for UDP and a successful cipher the encrypted packet, in one piece or head before tail, to the ring of that WAN and slot only; nothing in any other case |
| Frames.EncryptKeeps | src/core/dataplane/local_egress.c:79-120 | a split tail is queued or freed exactly once on every exit |
| Frames.TakeTailKeeps | src/core/dataplane/local_egress.c:59-77 | refilling and taking a split tail conserves frames |
| Frames.TakeTailIff | src/core/dataplane/local_egress.c:59-77 | a tail frame is found exactly when the worker's cache or the pool has one, the newest of the cache first, and no ring changes |
| Frames.PushSplitKeeps | src/core/dataplane/local_egress.c:30-57 | head and tail are queued together, or the tail is freed and the head stays with the caller |
| Frames.RingPushKeeps | src/core/dataplane/packet_util.c:124-133 | push or free: the frame ends in one place |
| Frames.ForwardPlainKeeps | src/core/dataplane/wan_ingress.c:388-419 | a decrypted packet without a number is queued or freed exactly once |
| Frames.ForwardPlainSends | src/core/dataplane/wan_ingress.c:388-419 | such a packet reaches a local ring if and only if the gates let it in, a port is found and it fits; no other ring changes |
| Frames.DisposeSends | src/core/dataplane/wan_ingress.c:421-452 | a callback of the reorder buffer reaches a local ring if and only if it emits, the port takes it and it fits; no other ring changes |
| Frames.NodeStepKeeps | src/core/dataplane/wan_ingress.c:421-482 | a reorder call of any worker with all its callbacks disposes of each frame exactly once |
| Frames.MoveKeeps | src/core/iface/xdp_interface.c:330-374 | every move of a frame between kernel, pool, split caches, rings and the six reorder buffers conserves frames |
| Frames.FramesConserved | src/core/iface/xdp_interface.c:330-374 | every run: each frame stays in exactly one place and the pool never truncates |
| LocalEgress.Forwarder.FrameFree | src/core/iface/xdp_interface.c:370-374 | equals giving the frame back |
| LocalEgress.Forwarder.QueueOrFree | src/core/dataplane/packet_util.c:124-133 | equals push-or-free, with the exact success condition |
| LocalEgress.Forwarder.SplitTailTake | src/core/dataplane/local_egress.c:59-77 | equals the specified cache refill and take |
| LocalEgress.Forwarder.PushSplitToWan | src/core/dataplane/local_egress.c:30-57 | equals the specified pair push |
| LocalEgress.Forwarder.Encrypt | src/core/dataplane/local_egress.c:79-120 | equals the specified encryption outcome |
| LocalEgress.Forwarder.Process | src/core/dataplane/local_egress.c:182-246 | equals the specified egress, disposes of the job's frame exactly once, and leaves every ring alone unless the packet may be sent in the sense of Frames.ProcessLocalSends |
| RouteTable.CanonicalKey | src/core/dataplane/crypto_route.c:155-194 | one key exactly for both directions of a conversation, told apart by the direction |
| RouteTable.PickLeastLoaded | src/core/dataplane/crypto_route.c:231-248 | the scan equals the specified choice |
| RouteTable.LeastLoadedMin | src/core/dataplane/crypto_route.c:231-248 | the chosen counter is a minimum as long as the cursor does not wrap during the scan |
| RouteTable.AddKeepsEven | src/core/dataplane/crypto_route.c:231-248 | loads that differ by at most one still do after an insertion |
| RouteTable.GetKeeps | src/core/dataplane/crypto_route.c:250-325 | one entry per key, counters equal entries, even TX loads, cursor never wraps |
| RouteTable.GetMonotone | src/core/dataplane/crypto_route.c:295-302 | no lookup moves or changes an entry |
| RouteTable.GetSticky | src/core/dataplane/crypto_route.c:250-325 | a second lookup in either direction with any hint gives the same route and changes nothing |
| RouteTable.NewFlowChoice | src/core/dataplane/crypto_route.c:250-325 | a new flow gets the hinted worker if the hint is valid, else a least loaded one, and a least loaded active TX slot, in a vacant way of its set with no number sent, and both counters go up; with a full set it goes by its hash and nothing changes |
| RouteTable.NextSeqKeeps | src/core/dataplane/crypto_route.c:350-384 | numbering keeps the table invariant |
| RouteTable.OnlyUdpNumbered | src/core/dataplane/crypto_route.c:356-359 | a packet is refused a number if and only if it is not UDP, and then nothing changes |
| RouteTable.NumbersCount | src/core/dataplane/crypto_route.c:350-384 | over every order of whole calls the n-th number of a direction is n modulo 2^32 |
| RouteTable.FullStaysFull | src/core/dataplane/crypto_route.c:295-302 | a flow kept out by a full set is kept out forever and always numbered by the fallback |
| Routes.SpillNumbersCount | src/core/dataplane/crypto_route.c:386-415 | at the fallback, numbers of a direction count up modulo 2^32 as long as the flow's way is not taken over |
| Routes.SpillKeeps | src/core/dataplane/crypto_route.c:386-415 | one way per flow, in its set |
| Routes.SpillStamps | src/core/dataplane/crypto_route.c:394-412 | every run from unused counters: the stamp of a way in use is the moment of its flow's last request |
| Routes.SpillEvictsOldest | src/core/dataplane/crypto_route.c:394-412 | every run: a request that takes over a way in use meets a full set and evicts the flow whose last request is longest ago |
| Routes.Router.Find | src/core/dataplane/crypto_route.c:269-277 | the way of the key, or -1 |
| Routes.Router.RouteGet | src/core/dataplane/crypto_route.c:250-325 | equals the specified lookup or insertion |
| Routes.Router.NextTxSeq | src/core/dataplane/crypto_route.c:350-416 | refused for anything but UDP, else the table's or the fallback's number, with the whole new state |
| Routes.Router.DrawSpill | src/core/dataplane/crypto_route.c:386-415 | the fallback's number and new counters |
| RouteSteps.StepOk | src/core/dataplane/crypto_route.c:269-324 | every step of every thread keeps the invariant and never changes a published entry |
| RouteSteps.RunOk | src/core/dataplane/crypto_route.c:250-325 | every interleaving: at most one valid entry per key, in its set; the lock excludes |
| RouteSteps.StickyRoute | src/core/dataplane/crypto_route.c:250-325 | any two completed lookups of a key, from the table or from the hash, got the same worker and slot |
| RouteSteps.EstablishedIsLockFree | src/core/dataplane/crypto_route.c:269-279 | a lookup that begins when the flow is present is, until it ends, scanning or done with that entry's route, whatever the other threads do |
| RouteSteps.LoadsEven | src/core/dataplane/crypto_route.c:304-324 | counters equal entries when no insertion is in progress; TX loads never differ by more than one |
| RouteSteps.ChooseLeast | src/core/dataplane/crypto_route.c:304-311 | in every reachable state an insertion chooses the hinted worker or else a least loaded one, and a least loaded active TX slot |
| RouteSteps.TakeNumbers | src/core/dataplane/crypto_route.c:366-370 | the fetch-and-add hands out the next number of its flow and direction and of no other |
| RouteSteps.NumbersInOrder | src/core/dataplane/crypto_route.c:350-384 | every interleaving of scans, insertions and fetch-and-adds: each direction of a flow gets 0, 1, 2, ... with no gap and no repeat |
| RouteSteps.TableOrFallback | src/core/dataplane/crypto_route.c:363-384 | every interleaving, scans and insertions step by step: a flow sent to the fallback never had and never gets a number from the table, for its set is full of other flows |
| PolicyGate.RangeIff | src/db/config.c:284-308 | a compiled range agrees with the policy on every port exactly for open or ordered ranges |
| PolicyGate.FillFaithful | src/db/config.c:310-334 | a compiled rule hits exactly what the policy matches in reverse |
| PolicyGate.CatchAllMatches | src/db/config.c:237-260 | a catch-all policy matches every packet |
| PolicyGate.ProtocolMeaning | src/db/config.c:418-429 | protocol 254 matches what 6 or 17 matches, 0 leaves the protocol open, any other number matches only itself, the rest of the policy unchanged |
| PolicyGate.PrefixDecides | src/db/config.c:229-235 | under a prefix mask two addresses compare equal exactly when their leading bits agree |
| PolicyGate.AddressMeaning | src/db/config.c:431-434 | an address field means everything, the addresses that share the network's leading bits, or all others |
| PolicyGate.PortMeaning | src/db/config.c:437-444 | a negative bound leaves the port open, otherwise both bounds are included; a policy with all fields open matches everything |
| PolicyGate.ListedIff | src/db/config.c:462-465 | a policy is listed exactly when a valid index of the profile names it |
| PolicyGate.ListedInOrder | src/db/config.c:462-465 | the list follows the order of the indices, one policy for each valid one |
| PolicyGate.Gate.Refresh | src/db/config.c:336-373 | the flag is set exactly for a listed catch-all; otherwise the rules are the compiled listed policies in order, up to the limit |
| PolicyGate.Gate.RuleHits | src/db/config.c:375-416 | true exactly when some rule hits |
| PolicyGate.GateIff | src/core/dataplane/wan_ingress.c:552-556 | flag or hit exactly when some policy matches with source and destination exchanged |
| PolicyGate.Gate.AdmitsIff | src/core/dataplane/wan_ingress.c:552-556 | the same for a refreshed gate object |
| PolicyGate.Gate.RefreshAndAsk | src/db/config.c:336-416 | compiling the listed policies and asking answers by the policies in reverse |
| PolicyGate.ReversedRangeAdmits | src/db/config.c:284-308 | a concrete packet that the compiled form of a reversed range hits though the policy does not match |
| PolicyGate.Select | src/db/config.c:450-482 | none exactly when nothing matches; else a match such that every other has a larger priority, or the same and a larger id, or both the same and a later position |
| KeySnapshots.StepOk | src/core/forwarder/crypto_runtime.c:46-92 | every step of writers and workers keeps the invariant |
| KeySnapshots.SnapshotAtomic | src/core/forwarder/crypto_runtime.c:57-92 | a worker in use of its table sees one published master, at least as new as the generation it loaded unless the counter came round |
| KeySnapshots.StaleIff | src/core/forwarder/crypto_runtime.c:64-78 | over every interleaving, a worker that loads the counter ends with older keys if and only if it had recorded another generation at a distance divisible by 2^32 |
| KeySnapshots.LeftBehind | src/core/forwarder/crypto_runtime.c:64-67 | a run, each publication under its own lock, in which a worker goes on with a replaced key |
| MacIndex.Table.Rebuild | src/core/flow/mac_learn.c:333-343 | every chain is exactly its bucket's positions in decreasing order |
| MacIndex.Table.Find | src/core/flow/mac_learn.c:345-354 | the chain finds what a linear scan finds |
| MacIndex.Table.Upsert | src/core/flow/mac_learn.c:359-411 | the specified refresh, move, replacement or append; index and uniqueness kept |
| MacIndex.UpsertedUnique | src/core/flow/mac_learn.c:359-411 | MACs stay unique and the learned pair is present unless the table is full |
| MacIndex.UpsertOnePerIfIff | src/core/flow/mac_learn.c:377-395 | learning keeps one MAC per port exactly unless a known MAC moves onto an occupied one |
| MacIndex.MoveDoublesPort | src/core/flow/mac_learn.c:377-388 | a concrete move that leaves two MACs on a port |
| MacIndex.Table.Purge | src/core/flow/mac_learn.c:928-963 | the entries passing the test, in order; index and uniqueness kept; the number removed |
| MacIndex.Table.Compact | src/core/flow/mac_learn.c:611-628 | the in-place compaction loop keeps exactly the passing entries |
| MacIndex.KeptExactly | src/core/flow/mac_learn.c:611-628 | an entry survives exactly when it was there and passes |
| MacIndex.Table.EnforceOnePerIf | src/core/flow/mac_learn.c:631-657 | the list becomes its collapse; index and uniqueness kept |
| MacIndex.CollapsedOnePerIf | src/core/flow/mac_learn.c:631-657 | afterwards no port has two entries |
| MacIndex.CollapsedIff | src/core/flow/mac_learn.c:630-657 | an entry survives exactly when it stands somewhere with no later entry of its port |
| LinkDebounce.Monitor.Receive | src/core/failover/cfm_diag.c:445-508 | the whole new link state for a message: first peer, changed peer, same peer, wrong MEP |
| LinkDebounce.Monitor.Evaluate | src/core/failover/cfm_diag.c:523-547 | the whole new link state for an evaluation, learned or not |
| LinkDebounce.CountersAreHistory | src/core/failover/cfm_diag.c:445-547 | every history: the counters are the trailing misses and the good signs since the last miss |
| LinkDebounce.HeardIsHistory | src/core/failover/cfm_diag.c:451-505 | every history: a link has a peer exactly when a message counted, and then knows the peer, the MEP and the time of the last message that counted |
| LinkDebounce.Debounced | src/core/failover/cfm_diag.c:445-547 | every history: down exactly at the second miss in a row, up again only on a new peer or the third good sign |
| LinkDebounce.MissesAreConsecutive | src/core/failover/cfm_diag.c:526-532 | counted misses are expired evaluations with no accepted message in between |
| LinkDebounce.GoesDownOnSilence | src/core/failover/cfm_diag.c:526-532 | every history in time order: a learned link goes down only if at this evaluation and at the miss before it every message ever accepted was over 350 ms old, and none was accepted in between |
| LinkDebounce.StartupWindow | src/core/failover/cfm_diag.c:539-546 | before any message counted, an evaluation finds the link up exactly within a second of its set-up |

## Left out

- Encryption, fragment split and reassembly bodies, the PQC handshake and header parsing: their outcomes are parameters.
- Kernel sockets, BPF programs, database, vault, signals, command line, logging and statistics.
- ARP frames and reassembled fragments: frame ownership is stated for IPv4 egress and decrypted ingress without reassembly.
- A second consumer of a ring (queue flush by the WAN administrator): one consumer at a time is assumed.
- Memory orders weaker than interleaving, the reload handshake and the idle/wake path.
- ReorderEndToEnd.EndToEnd: a stream that begins later than position 0 is covered when its first arrival is 32 after its first position, for the entry opens 32 before what arrives first; with any other first arrival it waits for numbers sent before, or drops those it opened beyond.
- RouteSteps.StepOk: one step reads all fields of a way, because a published entry never changes.
- RouteTable.LeastLoadedMin: only for a cursor that does not wrap during the scan; the TX cursor counts insertions and never wraps, the worker cursor likewise.
- Packets that are neither TCP nor UDP, which the route table sends by a hash of the packet, and changes of the number of active TX slots during a run.
- Routes.SpillNumbersCount: fallback stamps are counted without wrap-around.
- UdpReorder.Buffer.Submit: a window is one sequence value per entry rather than 256 cells; a null callback, item or key and a worker index out of range are not modelled.
- FlowTable.Table.PickWan: the per-packet scheduler without a flow and the failed allocation of the thread's table are not modelled; credits are unbounded integers, which the bounds of Swrr.AlwaysClose justify.
- WanPool.PickForLocal: a profile index out of range and an empty pool, which fall back to slot 0, are covered only by the contract of LeastLoaded; the timers that start, taper and end drains, blends and ramps are read as values.
- PolicyGate.GateIff: for no more than the maximal number of listed policies; beyond it Refresh states which rules are kept.
- KeySnapshots.StepOk: a key table is a sequence of opaque values; lifetime clocks and threads that read the master directly are not modelled.
- MacIndex.Table.Upsert: the truncation of interface names, the reported old name, and loading and saving the table are not modelled.
- Link monitoring: frame format, sending and notifications.
