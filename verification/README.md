# The MHI host driver, modelled and verified

The PCIe modem driver under `boards/rk3588-muse/pcie-mhi-driver` talks to the
device through rings in shared memory: a transfer ring and a host-side buffer
ring per channel, event rings, one command ring, and doorbell registers. This
project models that protocol, the power states that guard it, and the drivers
on top of it, and proves what they rely on. `dafny verify dfyconfig.toml` checks
everything.

| module | what it is about |
|---|---|
| `Basics`, `Rings`, `RingPair` | byte-pointer rings; the pair of a channel, filled and released at the same time: why checking one is enough, and one FIFO under every interleaving |
| `Channels`, `Doorbells` | a channel as one FIFO queue: queueing, completion, reset, one call after the other |
| `Announcements`, `Power` | work queued outside M0 is announced on M0 entry; the power-state table |
| `Votes` | the runtime-PM vote behind uplink traffic |
| `EventRing`, `EventLoop`, `Incarnations` | the event ring as a two-party protocol, its processing loop, and stale events |
| `CommandRing` | answers reach the issuers of commands |
| `UciReceive`, `UciRotation`, `UciUnlocked`, `UciWrite` | the byte-stream device: its two directions, the rotation of its receive buffers from the first filling on, and what breaks it |
| `Skbs`, `Qmap`, `Mbim`, `MbimTables`, `TxQueue` | framing, parsing, blocks of any shape, and stopping and waking the transmit queue |
| `Firmware`, `Pieces`, `PagePool` | the firmware scatter table and the recycled receive pages |

Code that changes state in place is a class whose methods are proved against
functions on values; promises over whole runs are lemmas about those functions.
Code that runs on several CPUs is a state machine whose steps interleave freely;
a lock makes its section one step. Allocation, completion, user copies and waits
that may fail are parameters. The device keeps its side of the protocol: it
completes only outstanding elements, produces events only up to the published
write pointer, and reports nothing for a channel whose reset it has acknowledged.
`RingPair.StrayCompletion` says what the completion loop does for a device that
names another element.

Promises that hold only under a condition are proved as an if-and-only-if, with a
run or an input that breaks them otherwise:

- an event ring primed a second time is safe only while its read pointer has not passed the write pointer that the device has noticed (`EventRing.PrimedSafelyIffNotWrapped`), with a device that keeps up only at the base of the ring (`EventRing.PrimedSafelyIffAtBase`): elsewhere, six more events on a ring of four, and one is taken for another (`EventRing.SecondPrimingLosesEvents`). The ready transition primes the software rings (mhi_pm.c:277-294) and the mission-mode transition the hardware rings (mhi_pm.c:463-480), so a hardware ring is primed twice by two mission-mode transitions: the WFW and the AMSS event each queue one (mhi_main.c:1452-1455);
- a burst channel's doorbell is rung with work in the ring each time it is armed, unless `mhi_queue_buf`, which takes no lock while it fills the ring, rings it late, for a buffer already completed (`Announcements.RungForWorkIffNeverLate`, by the run of `Announcements.LateDoorbell`);
- a request to `mhi_tryset_pm_state` for several states at once, one of them allowed, is stored whole, and no request changes the power state again (`Power.RequestStrandsIffManyBits`);
- a channel restarted while the device still works for it can see a completion of its former life (`Incarnations.NeverCrossesIffAcked`, by the run of `Incarnations.Crossing`; `Incarnations.RestartSafeIffStopped` for one channel). The driver cleans up and restarts without an acknowledgement when the reset command times out, when it was never sent in an error state (mhi_main.c:2187-2190), and when the command ring was full (mhi_main.c:2196-2200);
- the QMAP receive loop pulls a frame for an absent device before checking its length and then may never end: five bytes do it (`Qmap.EndsIffDevices`);
- the MBIM loop over the tables never ends once the chain comes back to a table with nothing allocated in between (`Mbim.NeverEndsIffComesBack`): 28 bytes do it in every configuration (`Mbim.EndlessBlock`);
- the MBIM receiver indexes its device table outside its bounds (mhi_netdev_quectel.c:1311-1316) for a block of the session just below the first, if there are several muxes (`Mbim.IndexesOutsideIffSeveralMuxes`);
- a transmit ring of 32 elements or fewer, once stopped, is never woken (`TxQueue.DrainingWakesIffLarge`);
- the byte-stream device starts its channel before it fills the ring (mhi_uci.c:631, 176-201); on a channel that copies, a transfer completed during the filling breaks the buffer rotation for good, though it is in range and its requeueing accepted (`UciUnlocked.NeverFailsIffFilledFirst`, by the run of `UciUnlocked.FillingRace`). So does an out-of-range transfer or a refused requeueing in the callback (`UciUnlocked.NeverFailsIffInRange`), and a read that finishes a buffer whose predecessor is refused (`UciUnlocked.NeverFailsAfterReadIff`);
- a write that fails half way can leave a transfer open for the next one (`UciWrite.FailedWriteLeavesOpen`);
- a firmware table whose segments cannot all be allocated gives back its coherent memory but not the array of its entries (`Firmware.Controller.AllocBhieTable`);
- the votes and the packet counter behind them are exact only once nothing is half done (`Votes.VotesMayReachTwo`, `Votes.CounterMayGoNegative`).

Where comment and code differ the code is followed: `enum MHI_FLAGS` reads as bit
flags, but `MHI_EOB` is 0 and sets none. Both mux and length comparisons of the
QMAP receiver are unsigned, so its later `abs()` has no effect.

## Model

| member | source | states |
|---|---|---|
| `Rings.Ring.AddElement` | boards/rk3588-muse/pcie-mhi-driver/core/mhi_main.c:237-247 | The byte pointer wp moves to the next slot and wraps at the end of the ring, whatever the element size; rp and the ring are untouched. |
| `Rings.Ring.DelElement` | boards/rk3588-muse/pcie-mhi-driver/core/mhi_main.c:249-259 | The same for rp. |
| `Rings.Ring.NrAvail` | boards/rk3588-muse/pcie-mhi-driver/core/mhi_main.c:261-274 | The two-case byte arithmetic gives exactly the free slots, one being always kept empty, for every position of the two pointers. |
| `Rings.Ring.IsFull` | boards/rk3588-muse/pcie-mhi-driver/core/mhi_main.c:325-334 | True exactly when no slot is free. |
| `Rings.CountersAreSlots` | boards/rk3588-muse/pcie-mhi-driver/core/mhi_main.c:237-274 | Pointers seen as counts of advances: the slot arithmetic between two of them is the difference of the counts, as long as they are less than a turn apart. |
| `RingPair.RoomFollowsIffOrdered` | boards/rk3588-muse/pcie-mhi-driver/core/mhi_internal.h:950-956 | Room in tre_ring means room in buf_ring at every point of every interleaving of filling and releasing, exactly if both sides move their pointers in the prescribed order; for any other order a run is given that breaks it. |
| `RingPair.FillHitsNothing` | boards/rk3588-muse/pcie-mhi-driver/core/mhi_main.c:685-687 | After the one check of tre_ring, the slots about to be written in both rings belong to nothing outstanding, nor to anything less than a lap old, whatever the consumer does meanwhile. |
| `RingPair.FifoInterleaved` | boards/rk3588-muse/pcie-mhi-driver/core/mhi_main.c:638-687 | With a client's thread filling while the tasklet or a reset releases, slot by slot and pointer by pointer in any interleaving: the k-th buffer handed back is the k-th queued, the device finds every outstanding element in its slot, and mappings are undone in the order they were made, each at most once. |
| `RingPair.DrainedReturnsAll` | boards/rk3588-muse/pcie-mhi-driver/core/mhi_main.c:2079-2112 | Whenever the rings are drained and neither side is half way, every buffer queued has been handed back exactly once, in order, and every mapping undone. |
| `RingPair.ResetDrains` | boards/rk3588-muse/pcie-mhi-driver/core/mhi_main.c:2079-2112 | From any point at which nothing is half done, the steps of a reset alone drain the rings. |
| `RingPair.FillsIffRoom` | boards/rk3588-muse/pcie-mhi-driver/core/mhi_main.c:679-687 | Where the transfer ring has room the four steps of a queueing put the buffer at the end of the queue and into both rings; where it has none the check refuses. |
| `RingPair.Refusals` | boards/rk3588-muse/pcie-mhi-driver/core/mhi_main.c:654-663 | A refusal after the check queues nothing, but one for want of a mapping leaves the buffer in its slot. |
| `RingPair.StrayCompletion` | boards/rk3588-muse/pcie-mhi-driver/core/mhi_main.c:1120-1172 | The completion loop never asks whether the element an event names is outstanding: up to the newest outstanding element it hands back the oldest buffers, and for any other event, first, what stands in the next slot to fill: a buffer refused, one handed back a lap before, or a slot never filled. |
| `Channels.Channel.constructor` | boards/rk3588-muse/pcie-mhi-driver/core/mhi_init.c:1168-1260 | Preparing a channel leaves two empty rings of equal size, nothing announced and burst doorbells armed. |
| `Channels.Channel.RingChanDb` | boards/rk3588-muse/pcie-mhi-driver/core/mhi_main.c:139-200 | The context gets the physical write pointer; the doorbell register gets it too, in burst mode only while armed, which disarms it. |
| `Channels.Channel.QueueSkbOrDma` | boards/rk3588-muse/pcie-mhi-driver/core/mhi_main.c:428-636 | Refuses when full, then in an error state; then asks a suspended link to resume, and refuses a buffer that cannot be mapped, with nothing else changed; otherwise the buffer joins the end of the one FIFO queue, is counted, and is announced if the power state allows. |
| `Channels.Channel.QueueBuf` | boards/rk3588-muse/pcie-mhi-driver/core/mhi_main.c:638-762 | The same for mhi_queue_buf, which looks at the error state first, fills both rings and moves their pointers, and only then looks at the power state again to resume the link and ring the doorbell. |
| `Channels.Channel.CompleteUpTo` | boards/rk3588-muse/pcie-mhi-driver/core/mhi_main.c:1120-1208 | The completion loop takes exactly the outstanding elements up to the one the event names, oldest first, each with one unmap and one callback, even if callbacks refill the ring meanwhile. |
| `Channels.Channel.ParseXferEvent` | boards/rk3588-muse/pcie-mhi-driver/core/mhi_main.c:1090-1248 | Events of a disabled channel do nothing; completions and overflows complete up to the named element; out-of-buffer and doorbell-mode events re-arm the doorbell and ring it if work waits. |
| `Channels.Channel.ResetDataChan` | boards/rk3588-muse/pcie-mhi-driver/core/mhi_main.c:2079-2112 | Every outstanding buffer is handed back as disconnected and both rings end empty. |
| `Channels.CompleteReturns` | boards/rk3588-muse/pcie-mhi-driver/core/mhi_main.c:1120-1208 | What k completions hand back are the k oldest buffers with the length of the event, in order, independent of what the callbacks queue. |
| `Channels.RunSound` | boards/rk3588-muse/pcie-mhi-driver/core/mhi_main.c:428-762 | Over any run of queueing, events with re-entrant queueing, resets and state changes the books balance: accepted = returned + outstanding, mapped = unmapped + outstanding mappings, and the runtime vote is held exactly while packets are counted. |
| `Channels.OneFifo` | boards/rk3588-muse/pcie-mhi-driver/core/mhi_main.c:428-762 | The paired rings are one FIFO: the i-th buffer handed back is the i-th accepted, none is handed back twice; when a reset ends the run all have been handed back and every mapping the driver made is undone once, in order. |
| `Channels.OwnBuffersBack` | boards/rk3588-muse/pcie-mhi-driver/core/mhi_main.c:646-687 | Over any run, seen from the requests that found a slot, a controller not in error and a mapping, those made by callbacks included: the buffers handed back are those of the first requests, in order; the driver's mappings are theirs; and each outstanding descriptor sends the device to its own request's mapping for its length, with its interrupt and chain flags. |
| `Channels.VerdictMeans` | boards/rk3588-muse/pcie-mhi-driver/core/mhi_main.c:443-451 | Each refusal has its own cause, looked for in the order of the routine; anything else is let in. |
| `Channels.QueueTells` | boards/rk3588-muse/pcie-mhi-driver/core/mhi_main.c:724-757 | A request let in moves the write pointer by one and, if the doorbell may be rung when the routine looks, leaves the context, and a register that counts, at it; a suspended link is asked to resume exactly by calls that get as far as looking. |
| `Channels.EventTells` | boards/rk3588-muse/pcie-mhi-driver/core/mhi_main.c:1102-1160 | A completion of an enabled channel hands back the oldest buffers with the length of the event, an overflow the same marked as such; no other event hands anything back, and unknown ones change nothing. |
| `Channels.DoorbellEventRings` | boards/rk3588-muse/pcie-mhi-driver/core/mhi_main.c:1209-1232 | An out-of-buffer or doorbell-mode event arms the doorbell; if work waits and it may be rung the register is written. |
| `Channels.ResetTells` | boards/rk3588-muse/pcie-mhi-driver/core/mhi_main.c:2079-2112 | A reset reports every outstanding buffer as not connected, with no bytes, oldest first, and rings nothing. |
| `Channels.EventInWindow` | boards/rk3588-muse/pcie-mhi-driver/core/mhi_main.c:1120-1180 | An event takes only outstanding elements off the ring exactly if it names one of them or the slot just behind them; a repeated last completion is harmless. |
| `Channels.FlagBits` | boards/rk3588-muse/pcie-mhi-driver/core/mhi.h:222-226 | MHI_EOT and MHI_CHAIN reach their descriptor bits; MHI_EOB is 0 and marks nothing. |
| `Channels.DescriptorLength` | boards/rk3588-muse/pcie-mhi-driver/core/mhi_internal.h:653 | The descriptor carries the length exactly if it fits 16 bits. |
| `Doorbells.Announce` | boards/rk3588-muse/pcie-mhi-driver/core/mhi_main.c:139-200 | The context always gets the write pointer; the register gets it exactly if the channel does not burst or is armed, and a burst channel is disarmed by that. |
| `Announcements.NothingLeftUnannounced` | boards/rk3588-muse/pcie-mhi-driver/core/mhi_pm.c:308-375 | In every reachable state in M0, with no hand-off under way, every started channel with work and no half-done mhi_queue_buf has its write pointer in the context; outside burst mode it is the last value in the doorbell register, and a burst channel has no armed doorbell; for any interleaving of queueing, completion, events and power transitions. |
| `Announcements.RungForWorkIffNeverLate` | boards/rk3588-muse/pcie-mhi-driver/core/mhi_main.c:743-755 | At every point of a run every disarmed burst channel has had its register written, with work in its ring, since it was last armed, exactly if no mhi_queue_buf of the run rang an armed doorbell for a ring that the device had emptied already. |
| `Announcements.BurstIsRung` | boards/rk3588-muse/pcie-mhi-driver/core/mhi_pm.c:352-366 | So in M0, without such a late doorbell, a started burst channel with work has been rung for it. |
| `Announcements.LateDoorbell` | boards/rk3588-muse/pcie-mhi-driver/core/mhi_main.c:743-755 | The run with a late doorbell, after which work is announced in the context alone. |
| `Announcements.M0CanBeEntered` | boards/rk3588-muse/pcie-mhi-driver/core/mhi_pm.c:308-375 | The transition to M0 can always be completed; every started channel with work has then been announced, and one with reset_req has had its register written. |
| `Announcements.WorkMoves` | boards/rk3588-muse/pcie-mhi-driver/core/mhi_main.c:505-518 | One element more in the ring for every queueing let in, one fewer for every completion, none after a channel is prepared or taken down, and nothing else moves work. |
| `Announcements.StateMoves` | boards/rk3588-muse/pcie-mhi-driver/core/mhi_pm.c:107-141 | Channels are started and taken down by their own steps alone; the power state moves as the table allows, never while the hand-off holds the lock. |
| `Announcements.RungInM0` | boards/rk3588-muse/pcie-mhi-driver/core/mhi_main.c:515-518 | Outside M0 no doorbell register is written, but by a hand-off that the link has left M0 before. |
| `Announcements.PublishSettles` | boards/rk3588-muse/pcie-mhi-driver/core/mhi_main.c:743-755 | A mhi_queue_buf call that has filled the ring is done with its next step, and announced if in M0. |
| `Announcements.Arms` | boards/rk3588-muse/pcie-mhi-driver/core/mhi_main.c:1209-1232 | Preparing a channel empties and arms it; a doorbell event arms it too, and rings it if there is work and the link is in M0. |
| `Announcements.InvAlways` | boards/rk3588-muse/pcie-mhi-driver/core/mhi_main.c:505-518 | What every step of that interleaving keeps: channels already passed by the hand-off are up to date. |
| `Announcements.RingChannels` | boards/rk3588-muse/pcie-mhi-driver/core/mhi_pm.c:352-366 | The loop over the channel table re-arms and rings exactly the channels it should, in place. |
| `Announcements.HandOffIsLoop` | boards/rk3588-muse/pcie-mhi-driver/core/mhi_pm.c:352-366 | Taken without interruption the hand-off steps are that loop. |
| `Votes.AlwaysConserved` | boards/rk3588-muse/pcie-mhi-driver/core/mhi_main.c:500-503 | Under any interleaving of counting, queueing, completing, resetting and voting, the counter is the outstanding total up to what is in flight, and votes held plus due are 1 exactly while it is positive. |
| `Votes.VotedIffOutstanding` | boards/rk3588-muse/pcie-mhi-driver/core/mhi_main.c:1181-1184 | Once nothing is half done, pending_pkts is the total outstanding over all uplink channels and one vote is held exactly if it is positive. |
| `Votes.PacketComes` | boards/rk3588-muse/pcie-mhi-driver/core/mhi_main.c:500-513 | A packet queued on any channel, counted before or after the ring shows it, comes to the same: one more outstanding and counted, and a vote held. |
| `Votes.PacketGoes` | boards/rk3588-muse/pcie-mhi-driver/core/mhi_main.c:1181-1184 | A packet completed, or handed back by a reset, comes to the same: one fewer, and the vote given back with the last. |
| `Votes.VotesMayReachTwo` | boards/rk3588-muse/pcie-mhi-driver/core/mhi_main.c:1181-1184 | Between steps the votes themselves are not confined to 0 and 1: a run that holds two for one packet. |
| `Votes.CounterMayGoNegative` | boards/rk3588-muse/pcie-mhi-driver/core/mhi_main.c:743-746 | mhi_queue_buf counts after the ring shows the packet, so the counter can be -1: the run. |
| `Power.RowMeaning` | boards/rk3588-muse/pcie-mhi-driver/core/mhi_pm.c:41-105 | Each row of the table belongs to its own state and lists exactly the documented successors. |
| `Power.Controller.TrySetPmState` | boards/rk3588-muse/pcie-mhi-driver/core/mhi_pm.c:107-141 | From a named state the request is stored exactly if it offers an allowed successor; any other state word is never left; the result is the state afterwards. |
| `Power.NamedRequest` | boards/rk3588-muse/pcie-mhi-driver/core/mhi_pm.c:107-141 | A request for one state offers an allowed successor exactly if the transition to it is allowed. |
| `Power.OneHotAlways` | boards/rk3588-muse/pcie-mhi-driver/core/mhi_pm.c:107-141 | Over any sequence of requests for single states the word stays one bit, that of the state last entered, and its highest bit selects that state's own row. |
| `Power.RequestStrandsIffManyBits` | boards/rk3588-muse/pcie-mhi-driver/core/mhi_pm.c:120-140 | A request leaves a word from which no sequence of requests leads to M0 exactly if it offers an allowed successor without being a single state: the table is asked for any common bit, then the whole word is stored. |
| `Power.FindLastBit` | boards/rk3588-muse/pcie-mhi-driver/core/mhi_pm.c:111-112 | The highest bit set, or 32. |
| `Power.RunIsHistory` | boards/rk3588-muse/pcie-mhi-driver/core/mhi_pm.c:107-141 | The runs reasoned about are exactly the histories of sequences of requests. |
| `Power.ErrorExit` | boards/rk3588-muse/pcie-mhi-driver/core/mhi_pm.c:84-105 | The first state after an error that is no error is POR, from SYS_ERR_PROCESS, or DISABLE, from SHUTDOWN_PROCESS. |
| `Power.PorBeforeM0` | boards/rk3588-muse/pcie-mhi-driver/core/mhi_pm.c:41-105 | Between a down state and a later M0 the run passes POR. |
| `Power.M3Bracketed` | boards/rk3588-muse/pcie-mhi-driver/core/mhi_pm.c:64-78 | M3 is preceded by M0 and M3_ENTER and followed by M3_EXIT and M0, errors aside. |
| `Power.LevelDescends` | boards/rk3588-muse/pcie-mhi-driver/core/mhi_pm.c:19-105 | The level drops in exactly three transitions. |
| `Power.LinkStates` | boards/rk3588-muse/pcie-mhi-driver/core/mhi_pm.c:41-105 | The link goes to M2 and to M3 and back as listed; any link state can be interrupted by an error or a shutdown, from which there are two ways back; three states may be entered again from themselves. |
| `Power.Groups` | boards/rk3588-muse/pcie-mhi-driver/core/mhi_internal.h:776-786 | Doorbells may be rung in M0 only; suspended means M3 or about to enter it; the five last states are those of error. |
| `EventRing.Safe` | boards/rk3588-muse/pcie-mhi-driver/core/mhi_main.c:299-323 | In every reachable state of the two-party protocol the host has consumed exactly the first events produced, once each and in order; fewer than a ring of them wait, each still in its slot; a primed wp is one slot behind rp and published; equal read pointers mean empty. |
| `EventRing.ProduceOverwritesNothing` | boards/rk3588-muse/pcie-mhi-driver/core/mhi_main.c:299-323 | The slot the device writes holds no unconsumed event. |
| `EventRing.QuickTest` | boards/rk3588-muse/pcie-mhi-driver/core/mhi_main.c:1725-1749 | The one situation besides an empty ring in which the quick test sees equal pointers. |
| `EventRing.PrimedSafelyIffNotWrapped` | boards/rk3588-muse/pcie-mhi-driver/core/mhi_pm.c:463-480 | A ring primed anew is safe in every run from then on (no unconsumed event is overwritten, and equal pointers mean an empty ring) exactly if rp has not passed the wp the device has noticed last. |
| `EventRing.PrimedSafelyIffAtBase` | boards/rk3588-muse/pcie-mhi-driver/core/mhi_pm.c:463-480 | The same in terms of the host: with a device that has noticed every wp published, priming again is safe exactly if rp is at the base. |
| `EventRing.SecondPrimingLosesEvents` | boards/rk3588-muse/pcie-mhi-driver/core/mhi_pm.c:463-480 | The run that is not: with four slots, one event handled and a device that keeps up, the second priming lets it overwrite three events, and the host takes the fifth for the first. |
| `EventRing.PrimedRingShrinks` | boards/rk3588-muse/pcie-mhi-driver/core/mhi_pm.c:463-480 | Where a second priming is safe, the ring holds from then on only as many events as there are slots after rp. |
| `EventLoop.EventQueue.Recycle` | boards/rk3588-muse/pcie-mhi-driver/core/mhi_main.c:299-323 | One event is given back: wp, its published copy and rp move on together. |
| `EventLoop.EventQueue.ProcessDataEvents` | boards/rk3588-muse/pcie-mhi-driver/core/mhi_main.c:1520-1591 | With the device appending meanwhile, a pass consumes the events in production order up to the quota, parses exactly the transfers among them and returns how many events it consumed. |
| `EventLoop.QuotaBounds` | boards/rk3588-muse/pcie-mhi-driver/core/mhi_main.c:1559-1575 | Only parsed transfers are charged to the quota; stale events are counted in the result but not charged. |
| `EventLoop.XfersAre` | boards/rk3588-muse/pcie-mhi-driver/core/mhi_main.c:1559-1575 | What is parsed are exactly the events of the two transfer types. |
| `EventLoop.EventQueue.MarkStaleEvents` | boards/rk3588-muse/pcie-mhi-driver/core/mhi_main.c:2045-2077 | Exactly the waiting transfer events of the channel are rewritten in place. |
| `EventLoop.MarkedAsRemoved` | boards/rk3588-muse/pcie-mhi-driver/core/mhi_main.c:2045-2077 | Processing the marked ring parses exactly the transfers that processing the ring without the channel's events would, for every quota. |
| `Incarnations.NeverCrossesIffAcked` | boards/rk3588-muse/pcie-mhi-driver/core/mhi_main.c:2138-2220 | No completion crosses from one life of a channel to the next, over every run, exactly if every stop is acknowledged; a stop that is not is followed by clean-up and restart all the same, and a run that crosses is given. |
| `Incarnations.RestartSafeIffStopped` | boards/rk3588-muse/pcie-mhi-driver/core/mhi_main.c:2187-2215 | For a channel that is down after any run: no later completion on it crosses, in any run that restarts it, exactly if the device no longer has it live. |
| `Incarnations.Crossing` | boards/rk3588-muse/pcie-mhi-driver/core/mhi_main.c:1906-2043 | That run. |
| `Incarnations.StopAndStart` | boards/rk3588-muse/pcie-mhi-driver/core/mhi_main.c:2138-2220 | A stop that is acknowledged, the clean-up and a new start leave the device working for the next life, the old events marked and nothing delivered. |
| `Incarnations.HostDelivers` | boards/rk3588-muse/pcie-mhi-driver/core/mhi_main.c:1559-1575 | The host takes events in order and delivers a transfer exactly if its channel is up. |
| `CommandRing.DecodeEncode` | boards/rk3588-muse/pcie-mhi-driver/core/mhi_internal.h:604-633 | The type of a command survives its encoding, its target exactly if it fits 8 bits; so the addressee decoded is the issuer exactly then. |
| `CommandRing.WireFormat` | boards/rk3588-muse/pcie-mhi-driver/core/mhi_internal.h:596-633 | The types on the wire are 16, 18 and 24, below the target in the top byte. |
| `CommandRing.CmdRing.SendCmd` | boards/rk3588-muse/pcie-mhi-driver/core/mhi_main.c:1842-1904 | Refuses when full; otherwise the command is appended to what is queued and to what was ever sent, its slot holds its type and target, nothing outstanding is overwritten, and if the power state allows context and doorbell are at the new write pointer. |
| `CommandRing.CmdRing.ProcessCompletion` | boards/rk3588-muse/pcie-mhi-driver/core/mhi_main.c:1312-1345 | Whoever the named element addresses is told the code and the oldest element leaves the ring; out of order is noticed and handled all the same. |
| `CommandRing.SentIsAsked` | boards/rk3588-muse/pcie-mhi-driver/core/mhi_main.c:1842-1904 | Over any run what was sent are exactly the commands whose sending found room, the notices given are exactly those of the answers with their codes, and the ring holds what was sent but for as many as have been answered. |
| `CommandRing.AnswersReachIssuers` | boards/rk3588-muse/pcie-mhi-driver/core/mhi_main.c:1312-1345 | With a device that answers in order, over any run the k-th answer goes to the issuer of the k-th command, and the ring holds the unanswered rest. |
| `CommandRing.AnswerMatched` | boards/rk3588-muse/pcie-mhi-driver/core/mhi_main.c:1324-1344 | One answer keeps that exactly if it goes to the issuer of the command that leaves the ring. |
| `CommandRing.WaitersHear` | boards/rk3588-muse/pcie-mhi-driver/core/mhi_main.c:1328-1344 | Every waiter has heard exactly the answers meant for it, whatever their order, and fewer commands than slots are outstanding. |
| `UciReceive.UciNode.QueueInbound` | boards/rk3588-muse/pcie-mhi-driver/devices/mhi_uci.c:147-204 | All buffers but the last are queued in order, or the first refusal ends the opening; between the turns any transfers complete and are called back, since the channel is started already. The state is what the turns and those completions make of it. |
| `UciReceive.UciNode.DlXferCb` | boards/rk3588-muse/pcie-mhi-driver/devices/mhi_uci.c:820-914 | The callback checks the counted buffer by number and address, counts on, and keeps, copies or ignores the transfer with its requeueing. |
| `UciReceive.UciNode.DeviceCompletes` | boards/rk3588-muse/pcie-mhi-driver/devices/mhi_uci.c:820-914 | A completion as a whole, from the bytes the device writes into the oldest buffer of the ring to what the callback leaves: the step of which the runs below are made. |
| `UciReceive.UciNode.UciRead` | boards/rk3588-muse/pcie-mhi-driver/devices/mhi_uci.c:434-563 | Refusals in order; otherwise the next bytes of the oldest entry, and at its end the requeueing of the buffer before it. |
| `UciRotation.ReadRefusals` | boards/rk3588-muse/pcie-mhi-driver/devices/mhi_uci.c:434-515 | Each refusal of a read has its own cause, in this order, and leaves everything as it was but for the entry picked. |
| `UciRotation.StreamInOrder` | boards/rk3588-muse/pcie-mhi-driver/devices/mhi_uci.c:829-906 | From the empty ring on, over any run of filling, in-range transfers and reads: slot k holds buffer k, the check has never failed, no waiting buffer is in the ring, and bytes read plus bytes owed are the payloads that arrived, in order (on copying channels those that were kept). A copying channel must be spared transfers during the filling; the next rows say exactly when. |
| `UciRotation.FillingIsRun` | boards/rk3588-muse/pcie-mhi-driver/devices/mhi_uci.c:176-201 | The filling with the transfers it meets, as QueueInbound makes it, is one of those runs. |
| `UciUnlocked.NeverFailsIffFilledFirst` | boards/rk3588-muse/pcie-mhi-driver/devices/mhi_uci.c:176-201 | From the empty ring on, no ordinary traffic ever meets a failed check exactly if the channel does not copy, or has only two buffers, or all buffers but the last have been queued and no transfer completed before that. |
| `UciUnlocked.FillingRace` | boards/rk3588-muse/pcie-mhi-driver/devices/mhi_uci.c:886-899 | The run that fails, with four buffers: a transfer completed after the first is queued puts buffer 3 where buffer 1 belongs, and the next transfer after the opening meets it. Every transfer is in range and every requeueing accepted. |
| `UciRotation.ReadLocked` | boards/rk3588-muse/pcie-mhi-driver/devices/mhi_uci.c:484-553 | A read hands over the next bytes owed, as many as asked for up to the end of the entry, and keeps the rotation locked. |
| `UciUnlocked.NeverFailsIffInRange` | boards/rk3588-muse/pcie-mhi-driver/devices/mhi_uci.c:820-899 | From any locked state, during the filling or after it, on every kind of channel: no ordinary traffic after a transfer meets a failed check exactly if the transfer was in range and, where the callback requeues, was requeued after the filling was over; or if there are only two buffers. |
| `UciUnlocked.NeverFailsAfterReadIff` | boards/rk3588-muse/pcie-mhi-driver/devices/mhi_uci.c:520-545 | The same after a read: exactly unless it finishes one of the node's own buffers and the requeueing of the buffer before it is refused, or if there are only two buffers. |
| `UciRotation.FailureStays` | boards/rk3588-muse/pcie-mhi-driver/devices/mhi_uci.c:448-449 | One failed check refuses every read from then on. |
| `UciRotation.OutOfRangeDropped` | boards/rk3588-muse/pcie-mhi-driver/devices/mhi_uci.c:844-857 | A transfer that is a disconnect, empty or longer than the buffer is counted and dropped: nothing is kept of it and nothing requeued. |
| `UciRotation.DisconnectPasses` | boards/rk3588-muse/pcie-mhi-driver/devices/mhi_uci.c:834-848 | A channel reset hands back all buffers without failing the check and without touching what waits to be read. |
| `UciWrite.Node.WaitForRoom` | boards/rk3588-muse/pcie-mhi-driver/devices/mhi_uci.c:371-384 | A writer that finds the ring full is refused or waits; if it waits, the newest element ends a chain. |
| `UciWrite.FateMeans` | boards/rk3588-muse/pcie-mhi-driver/devices/mhi_uci.c:364-418 | A turn queues its piece exactly if the node is enabled, nothing goes wrong in it and it finds room, at once or, for a writer that may wait, by what completes meanwhile. |
| `UciWrite.Node.QueuePiece` | boards/rk3588-muse/pcie-mhi-driver/devices/mhi_uci.c:364-418 | One piece is queued, chained on exactly if more than one descriptor was seen free and more follows; or nothing is queued and the outcome has its cause, each errno its own, all that is tried before it having gone well. |
| `UciWrite.Node.Write` | boards/rk3588-muse/pcie-mhi-driver/devices/mhi_uci.c:341-432 | Success queues the pieces of the whole buffer, and then no turn was refused, out of memory, uncopied or disabled; failure queues those of its first bytes and has its cause in the turn after them. If nothing goes wrong and every turn makes room the write succeeds. A full ring always ends in an end of transfer, with completions at any point. |
| `UciWrite.ProgressMeans` | boards/rk3588-muse/pcie-mhi-driver/devices/mhi_uci.c:364-421 | The pieces put together are the bytes queued so far, each between 1 and mtu long; the last of a complete write carries EOT. |
| `UciWrite.OneTransferIffRoom` | boards/rk3588-muse/pcie-mhi-driver/devices/mhi_uci.c:401-405 | A write is one transfer for the device exactly if more than one descriptor was free at every piece but the last. |
| `UciWrite.FailedWriteLeavesOpen` | boards/rk3588-muse/pcie-mhi-driver/devices/mhi_uci.c:401-431 | A failed write leaves a transfer open exactly if its last element was chained on. |
| `UciWrite.SeenKeepsBytes` | boards/rk3588-muse/pcie-mhi-driver/core/mhi_main.c:665-687 | Grouping elements into transfers by their flags loses and moves no byte. |
| `Qmap.AddQhdr` | boards/rk3588-muse/pcie-mhi-driver/devices/mhi_netdev_quectel.c:712-771 | The packet in the buffer becomes header, packet, padding in place; padded to a multiple of four if there is room, else not at all. |
| `Qmap.PaddedIfRoom` | boards/rk3588-muse/pcie-mhi-driver/devices/mhi_netdev_quectel.c:716-725 | A packet is padded to a multiple of four exactly if some padding that fits the buffer does that, and otherwise not at all. |
| `Qmap.Receive` | boards/rk3588-muse/pcie-mhi-driver/devices/mhi_netdev_quectel.c:1405-1549 | The loop over the socket buffer delivers, stops or hangs exactly as the parse of its bytes says. |
| `Qmap.RoundTrip` | boards/rk3588-muse/pcie-mhi-driver/devices/mhi_netdev_quectel.c:1418-1549 | Any list of IP packets on registered muxes, framed by either version with or without padding, with whatever the modem always adds, concatenated and mixed with commands, is delivered whole, in order and to the devices that sent it; the commands are passed over. |
| `Qmap.SentFrame` | boards/rk3588-muse/pcie-mhi-driver/devices/mhi_netdev_quectel.c:712-771 | What the framing routines send are such frames. |
| `Qmap.GivesUpIffWrong` | boards/rk3588-muse/pcie-mhi-driver/devices/mhi_netdev_quectel.c:1443-1491 | A frame whose mux, length or packet is wrong ends the reception and delivers nothing; no other does: commands and frames for absent devices that are all there are passed over, and any other is delivered and the loop goes on behind it. |
| `Skbs.IpVersion` | boards/rk3588-muse/pcie-mhi-driver/devices/mhi_netdev_quectel.c:1472-1491 | A packet counts as IP by the upper half of its first byte, 4 or 6. |
| `Qmap.RoundTripIffReceivable` | boards/rk3588-muse/pcie-mhi-driver/devices/mhi_netdev_quectel.c:1426-1491 | A packet on its own comes back exactly if its device exists and takes its length, the length fits the header and it is IP. |
| `Qmap.DeliversSlices` | boards/rk3588-muse/pcie-mhi-driver/devices/mhi_netdev_quectel.c:1418-1549 | For any bytes, what is delivered are disjoint, increasing parts of the input fit for their devices, no frame reaches past the end, and no more is delivered than could be allocated. |
| `Qmap.LaidMeans` | boards/rk3588-muse/pcie-mhi-driver/devices/mhi_netdev_quectel.c:1503-1507 | What disjoint and increasing means for two delivered packets. |
| `Qmap.HungIffNeverEnds` | boards/rk3588-muse/pcie-mhi-driver/devices/mhi_netdev_quectel.c:1418-1456 | The parse is marked as hung exactly if no number of turns of the loop, the pull that removes nothing included, brings it to its end. |
| `Qmap.EndsIffDevices` | boards/rk3588-muse/pcie-mhi-driver/devices/mhi_netdev_quectel.c:1451-1455 | The loop ends on every input exactly if every mux below qmap_mode has a device; five bytes are given that otherwise keep it going for ever. |
| `Mbim.AddMbimHdr` | boards/rk3588-muse/pcie-mhi-driver/devices/mhi_netdev_quectel.c:654-710 | The datagram gets the 28-byte header in place, or is refused for want of headroom. |
| `Mbim.Link.Number` | boards/rk3588-muse/pcie-mhi-driver/devices/mhi_netdev_quectel.c:2422-2425 | The sequence number is written and counts on in 16 bits. |
| `Mbim.Link.Receive` | boards/rk3588-muse/pcie-mhi-driver/devices/mhi_netdev_quectel.c:1227-1403 | The receiver follows the chain of tables exactly as specified for any bytes, including refusals, absent devices, an index outside the device table and endless chains, and takes the sequence number over. |
| `Mbim.RoundTripIffReceivable` | boards/rk3588-muse/pcie-mhi-driver/devices/mhi_netdev_quectel.c:1241-1397 | A built block comes back as its datagram on its device, in both modes, exactly if the device exists, the datagram is IP and the block is no longer than the receiver takes. |
| `Mbim.RunDelivers` | boards/rk3588-muse/pcie-mhi-driver/devices/mhi_netdev_quectel.c:1259-1263 | Over runs of any length with any losses, arrivals are delivered in order and the receiver is behind by the blocks lost, counted in 16 bits. |
| `Mbim.GlitchIffLost` | boards/rk3588-muse/pcie-mhi-driver/devices/mhi_netdev_quectel.c:1259-1263 | An arrival is reported out of sequence exactly if the number of blocks lost just before it is not a multiple of 65536; so never without losses. |
| `Mbim.WalkDelivers` | boards/rk3588-muse/pcie-mhi-driver/devices/mhi_netdev_quectel.c:1320-1393 | For any bytes, only non-empty IP parts of the block are delivered, to devices that exist. |
| `MbimTables.EntriesByIndex` | boards/rk3588-muse/pcie-mhi-driver/devices/mhi_netdev_quectel.c:1320-1393 | For any bytes, what a table delivers are its entries from the first on, each the bytes its entry gives, up to the first that is zero or no datagram; the loop goes on behind the table exactly unless that one is no datagram. |
| `MbimTables.BlockDelivers` | boards/rk3588-muse/pcie-mhi-driver/devices/mhi_netdev_quectel.c:1241-1397 | A block that holds any list of datagrams for any of the devices, in one table or a chain of tables, is delivered whole and in order. |
| `MbimTables.BothDelivered` | boards/rk3588-muse/pcie-mhi-driver/devices/mhi_netdev_quectel.c:1320-1393 | Two datagrams in one table, as bytes. |
| `MbimTables.TableRefused` | boards/rk3588-muse/pcie-mhi-driver/devices/mhi_netdev_quectel.c:1271-1313 | A table that is cut off, too short, of unknown form or for no session of the receiver's range ends the reception and delivers nothing. |
| `MbimTables.BlockRefused` | boards/rk3588-muse/pcie-mhi-driver/devices/mhi_netdev_quectel.c:1241-1257 | A transfer that is too short, of another form or too long is turned down whole and leaves the sequence number alone. |
| `Mbim.NeverEndsIffComesBack` | boards/rk3588-muse/pcie-mhi-driver/devices/mhi_netdev_quectel.c:1267-1396 | The loop over the tables takes turns for ever exactly if the chain comes back to a table with no packet allocated in between. |
| `Mbim.ForwardEnds` | boards/rk3588-muse/pcie-mhi-driver/devices/mhi_netdev_quectel.c:1267-1396 | The loop ends on every block in which each table that is met names a later one or none. |
| `Mbim.EndlessBlock` | boards/rk3588-muse/pcie-mhi-driver/devices/mhi_netdev_quectel.c:1267-1396 | Twenty-eight bytes, a header and one empty table that names itself, keep it going for ever in every configuration. |
| `Mbim.IndexesOutsideIffSeveralMuxes` | boards/rk3588-muse/pcie-mhi-driver/devices/mhi_netdev_quectel.c:1311-1316 | Some block makes the receiver index its device table outside its bounds exactly if there is more than one mux; a block for the session just below the first does. |
| `TxQueue.NeverStalls` | boards/rk3588-muse/pcie-mhi-driver/devices/mhi_netdev_quectel.c:2427-2446 | With more than 32 descriptors, in every interleaving a sender finds room and a stopped queue has an element outstanding, a sender about to add one, or a callback still to look. |
| `TxQueue.DrainingWakesIffLarge` | boards/rk3588-muse/pcie-mhi-driver/devices/mhi_netdev_quectel.c:2795-2811 | Draining the ring always leaves the queue awake exactly if the ring takes more than 32 elements; for smaller ones a run that stalls is given. |
| `TxQueue.DrainsAwake` | boards/rk3588-muse/pcie-mhi-driver/devices/mhi_netdev_quectel.c:2795-2811 | From every reachable state the ring can be drained, and on a large ring the queue is then awake. |
| `TxQueue.Thresholds` | boards/rk3588-muse/pcie-mhi-driver/devices/mhi_netdev_quectel.c:2427-2446 | A sender stops an awake queue exactly below 16 free descriptors, a callback wakes a stopped one exactly above 32. |
| `Firmware.Controller.AllocBhieTable` | boards/rk3588-muse/pcie-mhi-driver/core/mhi_boot.c:497-558 | Success allocates the segments and the vector entry and accounts for them; failure at any point restores the coherent memory and alloc_size, but from the third allocation on the array of entries stays allocated. |
| `Firmware.Controller.ReleaseSegments` | boards/rk3588-muse/pcie-mhi-driver/core/mhi_boot.c:549-552 | The failure path gives back exactly what was allocated. |
| `Firmware.Controller.FreeBhieTable` | boards/rk3588-muse/pcie-mhi-driver/core/mhi_boot.c:483-495 | Every buffer of the table is given back and unaccounted. |
| `Firmware.WithoutAll` | boards/rk3588-muse/pcie-mhi-driver/core/mhi_boot.c:483-554 | Freeing a table undoes its allocation. |
| `Firmware.Controller.FirmwareCopy` | boards/rk3588-muse/pcie-mhi-driver/core/mhi_boot.c:560-587 | Segment i holds piece i and vector entry i its address and length, nothing else is written; the copy comes to the vector's own segment exactly if the image is larger than the others together. |
| `Firmware.Controller.LoadImage` | boards/rk3588-muse/pcie-mhi-driver/core/mhi_boot.c:668-679 | A table allocated for the size of an image and the image copied into it: the copy stays clear of the vector, and what the device fetches by the vector is the image. |
| `Firmware.FetchedIsImage` | boards/rk3588-muse/pcie-mhi-driver/core/mhi_boot.c:560-587 | Following the vector gives the image back. |
| `Firmware.ClearOfVectorIffFits` | boards/rk3588-muse/pcie-mhi-driver/core/mhi_boot.c:502-503 | The copy stays clear of the vector's entry exactly if the image fits the other segments; in a table for its own size it fills exactly ceil(size/seg). |
| `Firmware.VectorHoldsPieces` | boards/rk3588-muse/pcie-mhi-driver/core/mhi_boot.c:526-528 | The vector's own buffer takes exactly one 16-byte entry per piece of the image, and each segment its piece. |
| `PagePool.PoolSize` | boards/rk3588-muse/pcie-mhi-driver/devices/mhi_netdev.c:983-988 | A power of two, at least 2n and less than 4n for n descriptors. |
| `PagePool.MaskIsModulo` | boards/rk3588-muse/pcie-mhi-driver/devices/mhi_netdev.c:270 | Masking with a power of two less one is the remainder. |
| `PagePool.Netdev.Peek` | boards/rk3588-muse/pcie-mhi-driver/devices/mhi_netdev.c:261-277 | The first idle one of the next four pages, with the masked index. |
| `PagePool.Netdev.Queue` | boards/rk3588-muse/pcie-mhi-driver/devices/mhi_netdev.c:242-304 | The ring is refilled from idle pool pages, then with temporary ones, until it is full or the channel or the allocator refuses. |
| `PagePool.FindIdleIsFirst` | boards/rk3588-muse/pcie-mhi-driver/devices/mhi_netdev.c:261-277 | The page found is the first idle one of those looked at, and one is found if there is any. |
| `PagePool.PoolFirst` | boards/rk3588-muse/pcie-mhi-driver/devices/mhi_netdev.c:256-304 | A refill posts idle pages of the pool first, each once, and looks on behind the last; it goes on to temporary ones only where none of the next four is idle, as many as ring, channel and allocator allow, and to none after a refusal. |
| `PagePool.RefillSound` | boards/rk3588-muse/pcie-mhi-driver/devices/mhi_netdev.c:242-304 | Refilling keeps reference counts right and fills the ring unless something is refused. |
| `PagePool.IdleIsUnheld` | boards/rk3588-muse/pcie-mhi-driver/devices/mhi_netdev.c:272-276 | A page about to be posted is held by neither ring nor stack. |
| `PagePool.ComesBack` | boards/rk3588-muse/pcie-mhi-driver/devices/mhi_netdev.c:270-282 | A page delivered and given back by the stack, or dropped, is idle again; every reference taken is counted. |
| `PagePool.NeverPostedWhileHeld` | boards/rk3588-muse/pcie-mhi-driver/devices/mhi_netdev.c:257-304 | Over any run of refills, completions and the stack's taking and giving of references, a page in the ring is there once and has no other holder, and count 1 means exactly that nobody holds it. |

## Left out

- PCI probe, MSI set-up, IOMMU, register plumbing, debugfs, sysfs, tracing and statistics: no effect on the protocol.
- Build scripts, container files, board configuration and smoke test: process orchestration.
- Coalescing (RSC) channels, time synchronisation beyond its command, satellite and DTR clients: not used on this board or only simple messages.
- `mhi_process_ctrl_ev_ring`: its loop has the form of the data event loop; it takes no event lock, and only warns about an event it does not expect.
- Wake counting after the early returns in `mhi_assert_dev_wake` and `mhi_deassert_dev_wake`: never reached.
- Memory barriers, caches and the internals of locks and allocators: lock sections are single steps, allocation is a parameter.
- Panic and RDDM paths, and direct assignments to the power state: left out; power-up is the step from DISABLE.
- Event and command doorbells of the M0 hand-off: only the channel table is modelled there; both rings publish their pointers elsewhere.
- Channels.OneFifo: calls on the channel run one after the other, with power states, callbacks and doorbells but without interleaving; the order of what comes back under every interleaving of queueing and completion is `RingPair.FifoInterleaved`.
- Channels.RunSound: the same; counters and votes under interleaving are in `Votes`, doorbells in `Announcements`.
- Channels.Channel.QueueSkbOrDma: one step of its own, though a completion may run meanwhile on another CPU; see `RingPair`. The same holds of `Channels.Channel.QueueBuf`, which takes no lock while it fills the rings.
- Two senders on one channel at the same time: mhi_queue_buf leaves that to its clients, which hold a lock of their own or queue from one place, but for the first filling of the byte-stream device. There a turn of the filling and a completion are steps that do not overlap.
- Callbacks of a disconnect: they queue nothing, as in the clients of this driver.
- Channels.Channel.CompleteUpTo: does not follow an event that names no outstanding element, which the device does not send, through the callbacks; `Channels.EventInWindow` says which those are and `RingPair.StrayCompletion` what they hand back.
- Channels.Channel.ParseXferEvent: the same.
- CommandRing.CmdRing.ProcessCompletion: does not cover an answer to no outstanding command, which the device does not send; the source would wake whoever the stale element names and drop the oldest command.
- `buf_info->wp` and `pre_alloc`: the former is never read, the latter is always false.
- `mhi_uci_release` and reopening: the node is kept open for good; a freed `uci_buf` array is not modelled.
- The race of disabling a byte-stream node during a read: it counts as a refused requeueing.
- A failed copy to user space returns the bytes not copied, which a reader cannot tell from bytes read; `Outcome.NotTaken` keeps them apart.
- `mtu` 0 of the byte-stream device: every entry of the match table is larger.
- `rmnet_data_map_command`: what a QMAP command does; only that it is passed over.
- Checksum fields, NSS hints, bridge mode and Ethernet headers of received packets: they do not change which bytes go where.
- An MBIM packet allocated before its first byte is found not to be IP stays allocated; only the count of allocations shows it.
- Array bounds behind a received block: reads past its end give arbitrary bytes.
- Firmware download over BHI registers: register sequences and time-outs.
- DMA mapping of pool pages and `skb_linearize`: a page whose packet is lost stays held.
- Mbim.ForwardEnds: one direction only, since a chain that turns back still ends if it runs out of memory or meets a bad entry; `Mbim.NeverEndsIffComesBack` is exact.
- Firmware.Controller.FirmwareCopy: stops at the vector's own segment, which the source would go on to fill; `Firmware.Controller.LoadImage` shows that the driver's only use does not come there.
