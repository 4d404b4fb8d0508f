# A verified model of moka's cache internals

Moka keeps a concurrent hash table that is changed at once and policy state (access-order deque,
timer wheel, frequency sketch, counters) that follows through logged operations. This project
models the parts where that is hard to get right and proves what they promise.

| part | files |
|---|---|
| Write log and maintenance, all interleavings of clients, cancellations and one maintenance run | `WriteLog.dfy`, `WriteLogInvariant.dfy`, `WriteLogSteps.dfy`, `WriteLogTheorems.dfy`, `WriteLogEffects.dfy`, `WriteLogRecency.dfy`, `EntryGeneration.dfy` |
| Weight accounting, without and with a weigher | `WriteLogRuns.dfy`, `WriteLogAccounting.dfy`, `WriteLogWeights.dfy`, `WriteLogOrder.dfy`, `WriteLogUndercount.dfy` |
| What the protocol hands to the policy | `PolicyRecord.dfy`, `WriteLogPolicy.dfy`, `WriteLogQuiet.dfy`, `WriteLogStale.dfy` |
| Hierarchical timer wheel, its sweep, and dropped sweeps | `TimerWheelSpec.dfy`, `TimerWheel.dfy` |
| Single-flight initialization and per-key compute | `SingleFlight.dfy`, `SingleFlightProof.dfy`, `SingleFlightTermination.dfy`, `SingleFlightAnswers.dfy` |
| TinyLFU admission, LRU eviction, draining an upsert | `Admission.dfy`, `EvictionState.dfy`, `Eviction.dfy`, `LruEviction.dfy`, `EvictionStalls.dfy`, `EvictionStallRuns.dfy`, `Upsert.dfy` |
| Packed 4-bit count-min sketch | `FrequencySketch.dfy`, `Modular.dfy`, `SketchUnderflow.dfy` |
| Intrusive deque with a live cursor | `DequeSpec.dfy`, `Deque.dfy` |
| Iteration over a cache that changes meanwhile | `Iteration.dfy` |
| Shared vocabulary | `Common.dfy` |

`dafny verify dfyconfig.toml` verifies everything.

## How the parts are modelled

- *Protocols* (write log, single flight) are transition systems. A state is a value, a step is
  anything one participant can do without being observed half-way, `Run` chains enabled steps, and
  every theorem is about all reachable states. A future can be dropped at each of its await points.
  The maintenance run's `handle_admit` is two steps, so a client can retire the entry in between.
- *Structures updated in place* (deque, timer wheel and its event iterator, sketch, key iterator)
  are classes whose methods are proved against functions and invariants on values.
- *Policy loops* (`admit`, `evict_lru_entries`, `handle_upsert`, the maintenance loop) take and
  return the state the source passes as `&mut`. `admit` is proved for any changes clients make
  between its visits to nodes; the others for a maintenance run during which no client acts, with
  operations of clients possibly still pending.
- Clock readings, expiration times read from shared records, hash values, frequencies, the cache
  contents met by an iterator, and user closures' results are parameters, quantified over.
- Integer widths are explicit where they matter: 16-bit generations, 32-bit sketch size, saturating
  64-bit weights, 64-bit counter words (`bv64`).

## Findings

- `set_policy_gen` never moves `policy_gen` past 65535: from its 65536th change on, an entry is dirty
  although every operation has been drained, except where its generation is back at 65535
  (`EntryGeneration.CleanAfterDrainIff`).
- A candidate that loses its contest is settled only if its operation is still the latest
  (src/future/base_cache.rs:1808-1823), and `set_policy_gen` refuses to move by more than 32767. An entry
  that is updated faster than its operations are drained, and is admitted in the end, is therefore dirty
  although everything is drained if and only if it was changed more than 32767 times
  (`WriteLogStale.LaggingEntryIsDirtyIff`). Up to that number a drained cache without a weigher is quiet
  (`WriteLogQuiet.DrainedIsQuiet`).
- LRU eviction never takes a dirty node (`LruEviction.SweptSparesBlocked`), and the maintenance loop
  stops with the batch in which it meets the first one. It ends within the capacity if and only if the
  clean nodes among the first `Reach(st, batch)` yield enough (`LruEviction.RunEvictions`); that is
  so whenever every node is clean (`EvictionState.Quiet`), but being fully drained is not enough: a
  drained cache holding one wrapped entry stays over its capacity for every batch size
  (`EvictionStalls.WrappedEntryStays`), and 65536 writes to one key lead there
  (`EvictionStallRuns.WrappedCacheIsReached`).
- A retired node at the front of the deque whose key has been inserted again keeps the front:
  skipping it moves the new entry's node instead (src/future/base_cache.rs:2335-2341), so the rest of
  the batch is spent in vain until the removal is drained (`EvictionStalls.ShadowedNodeStalls`). A cache
  of capacity 2 with the LRU policy gets there (`EvictionStallRuns.ShadowedCacheIsReached`).
- Without a weigher, `weighted_size` exceeds `entry_count` by exactly the number of insert operations
  drained after their entry was already admitted; a concrete run in which an update overtakes the
  insert ends with one entry of counted weight 2 (`WriteLogAccounting.OvertakingBreaksAccounting`).
- With a weigher, `weighted_size` is what has been counted for the entries in the deque plus what removals
  left behind, since a removal takes out the current weight and not the counted one
  (`WriteLogWeights.WeightedSizeIsCounted`). Nothing is left behind if operations are drained in table order
  and entries leave the table only with nothing pending (`WriteLogOrder.OrderlyRunIsExact`). Table order
  alone is not enough: an update that raises a weight and is still queued when its entry is removed loses the
  difference for good (`WriteLogUndercount.PendingUpdateUndercounts`).
- A timer whose expiration lies in a level-0 tick before the wheel's current one is filed in the bucket
  of that tick. A full advance can miss it (`TimerWheel.PastDueIsReportedLate`); it is reported once its
  bucket comes up again, at the latest 64 ticks after it was filed (`TimerWheel.FiresWithin64Ticks`).
- The subtraction in the sketch's `reset` goes below zero in some run of increments on a new table exactly
  when `8 * table length > sample size` (`SketchUnderflow.UnderflowIff`). A cache asks for a capacity of at
  least 128; the first ones that fail are 129 to 204 (`SketchUnderflow.FirstCapacitiesThatUnderflow`). The
  reason is that the hashes `r + k * 2^32` share all counters out among them, four each
  (`SketchUnderflow.HitsOwn`), so that all can be made odd within one sampling period.
- The comment at src/future/base_cache.rs:2055-2057 asks callers of the removal helpers to have
  retired the entry; that holds in every reachable state (`WriteLogTheorems.DebugAssertionsHold`).

## Model

| member | source | states |
|---|---|---|
| WriteLogSteps.StepInv | src/future/base_cache.rs:1640-1828 | Every client, cancellation, retry, drain, admission, rejection and eviction step keeps the whole protocol invariant (places of operations, table, deque, counters, orphans, forgotten entries). |
| WriteLogSteps.ReachableInv | src/future/base_cache.rs:1314-1466 | The invariant holds in every reachable state of every interleaving. |
| WriteLogEffects.TableChanges | src/future/base_cache.rs:1700-1705 | In every state satisfying the invariant, for every step and key: the key leaves the table exactly by a client's removal, an eviction, or the rejection by the operation that carries its entry's present generation; the record is then retired; otherwise it stays, and only an insert adds a key. |
| WriteLogEffects.NewerChangeSurvives | src/future/base_cache.rs:1808-1813 | Over every run without wrap-around, a rejection never takes out a key whose entry has been changed after the operation being rejected. |
| WriteLogEffects.ContentsChange | src/future/base_cache.rs:512-537 | The cache is a map of last writes: each step writes one key, takes one out, or leaves all weights and access times as they are. |
| WriteLogEffects.RecordChanges | src/future/base_cache.rs:1660-1663 | For every step and record, exactly when it is retired, admitted, dismissed or settled, and by which operation. |
| WriteLogEffects.VerdictsPossible | src/future/base_cache.rs:1679-1735 | In numbers: a candidate that fits is only admitted, one that never can is only rejected, any other is admitted under LRU and contested under TinyLFU. |
| WriteLogEffects.InsertIssues | src/future/base_cache.rs:515-522 | An insert makes a record of generation 1 and hands its client the operation with that generation and weight 0 to take out. |
| WriteLogEffects.UpdateIssues | src/future/base_cache.rs:523-537 | An update bumps the shared record's generation, modulo 65536, and its operation carries that generation, the weight before and the new one. |
| WriteLogEffects.RemovalIssues | src/future/cache.rs:1959-1976 | A removal retires the record, bumps its generation and hands its client the `Remove` that carries it. |
| WriteLogEffects.ChannelIsFifo | src/future/base_cache.rs:633-667 | Operations enter the write channel at its end, as clients send what they owe, and leave it at its front into the maintenance run. |
| WriteLogEffects.ResumesWhereDropped | src/future/base_cache.rs:701-740 | A dropped call parks exactly the operation it owes, and the call that takes it up goes on where it was, notifying again or sending. |
| WriteLogEffects.PolicyChanges | src/future/base_cache.rs:1668-1676 | For every step, the exact deque and counters: an update moves its node to the back and exchanges the weights, an admission appends, a removal takes out one node and its weight. |
| WriteLogRecency.DequeIsByLastUse | src/future/base_cache.rs:1668-1676 | Over every run the deque lists its nodes in the order of their last admission, update or move to the back: its front is the least recently used. |
| WriteLogTheorems.NoPermanentOrphan | src/future/base_cache.rs:1917-1966 | A record that is both admitted and retired is in the hands of the maintenance step that retired it, or its `Remove` is with a client, parked or queued. |
| WriteLogTheorems.DeliveredExactlyOnce | src/future.rs:105-150 | With futures dropped at any await point, the operation of every table change is in exactly one of client call or guard, interrupted channel, write channel, maintenance, drained; nothing else is in any of them. |
| WriteLogTheorems.ConsistentWhenQuiescent | src/future/base_cache.rs:2033-2108 | Once all logs are drained, table keys and deque nodes are in bijection, all nodes alive, and `entry_count` is their number. |
| WriteLogTheorems.EntryCountNeverUnderflows | src/future/base_cache.rs:941-952 | In every reachable state the counter is the deque length, is positive when an admitted record is removed, and drops by exactly one then. |
| WriteLogTheorems.DebugAssertionsHold | src/future/base_cache.rs:1944-1950 | An entry about to be admitted is not admitted; a queued `Remove` and an entry being evicted are retired; a table entry is not. |
| WriteLogTheorems.SettlingLowersWork | src/future/base_cache.rs:1640-1828 | Every step that finishes a call or drains an op, in whatever order they come, strictly lowers `Work`. |
| WriteLogTheorems.SettlingRunsAreBounded | src/future/base_cache.rs:701-740 | Every run of such steps has at most `Work(s)` steps. |
| WriteLogTheorems.NothingToSettleIsQuiescent | src/future/base_cache.rs:1340-1370 | A state in which no such step is enabled is fully drained. |
| WriteLogTheorems.EverySettlingRunHeals | src/future/base_cache.rs:1925-1943 | From every reachable state every run of such steps is bounded, and every one that cannot be continued ends with admitted records exactly the live ones and the count right: orphans and forgotten entries are transient. |
| WriteLogTheorems.Settles | src/future/base_cache.rs:701-740 | Such a run to the end exists from every state satisfying the invariant. |
| WriteLogTheorems.EveryRunCanSettle | src/future/base_cache.rs:1925-1943 | Every reachable state has a continuation that drains everything and leaves admitted records exactly the live ones. |
| WriteLogAccounting.UnitWeightAccounting | src/future/base_cache.rs:1665-1684 | Over every run without a weigher, `weighted_size` is `entry_count` plus the number of late inserts, so they are equal if and only if there was none; in particular when operations of each entry are drained in table order. |
| WriteLogAccounting.OvertakingBreaksAccounting | src/future/base_cache.rs:1668-1676 | A concrete run with unit weights ends with one entry and weighted size 2. |
| WriteLogWeights.WeightedSizeIsCounted | src/future/base_cache.rs:1668-1676 | Over every run with any weigher in which no addition or subtraction saturates: `weighted_size` is the sum of what was counted for the entries in the deque, plus exactly the differences between counted and current weight at the removals so far. |
| WriteLogOrder.OrderlyRunIsExact | src/future/base_cache.rs:2063-2066 | If also each entry's operations are drained in table order and entries leave the table only with nothing pending, removals leave no difference: the counter is the sum of the weights last drained and, once all is drained, of the current weights. |
| WriteLogUndercount.PendingUpdateUndercounts | src/future/base_cache.rs:1660-1663 | A run drained in table order, with a weight-raising update still queued when its entry is removed, that ends drained with one entry of weight 5 and 3 counted. |
| EntryGeneration.PolicyGenSticks | src/common/concurrent/entry_info.rs:195-224 | Draining n changes in order leaves `policy_gen` at n, but never beyond 65535. |
| EntryGeneration.MovesForwardOnly | src/common/concurrent/entry_info.rs:204-224 | `set_policy_gen` takes exactly the values from 1 to 32767 ahead of the current one. |
| EntryGeneration.CleanAfterDrainIff | src/common/concurrent/entry_info.rs:181-224 | A fully drained entry is clean if and only if it had fewer than 65536 changes or its generation is back at 65535. |
| EntryGeneration.WrapLeavesEntryDirty | src/common/concurrent/entry_info.rs:204-224 | From the 65536th change up to the 131070th the drained entry is dirty. |
| WriteLogPolicy.RemovePendingIsDirty | src/future/cache.rs:1959-1976 | While the removal of a record is pending the record is dirty, and no upsert carries its generation, unless it has been changed 65536 times. |
| WriteLogPolicy.ReachableIsConsistent | src/future/base_cache.rs:1640-1686 | In every reachable state without a weigher in which no record has wrapped and none is half removed, the policy state is consistent, the op being drained is one the upsert handler takes, and exchanging its weights leaves the counter enough, so the handler keeps the state consistent. |
| WriteLogQuiet.DrainedIsQuiet | src/common/concurrent/entry_info.rs:181-224 | Over every run without a weigher, drained in table order, with at most 32767 changes of each entry: the drained cache is quiet, so the reference results on eviction and admission apply to it. |
| WriteLogStale.LaggingEntryIsDirtyIff | src/future/base_cache.rs:1797-1824 | For every n below 65536 a run, drained in table order, that ends drained with an entry of n changes in the deque; it is dirty if and only if n is above 32767. |
| TimerWheelSpec.SpansAreAligned | src/common/timer_wheel.rs:24-60 | Each level's span is the next power of two of its nominal duration, and a level's buckets cover the next level's span. |
| TimerWheelSpec.PlacedIff | src/common/timer_wheel.rs:439-480 | Each expiration has exactly one right place, and it is the one the code computes: the finest level that reaches so far, the last one reaching any distance, and there the bucket of its tick. |
| TimerWheelSpec.LevelFollowsDistance | src/common/timer_wheel.rs:439-450 | Level 0 holds exactly the nodes less than 2^36 ns ahead, and a node on a higher level is at least one of its buckets away. |
| TimerWheelSpec.RefilingDescends | src/common/timer_wheel.rs:597-621 | A node above level 0 whose tick has come, and which is not due, is filed again on a lower level. |
| TimerWheelSpec.InSweepIff | src/common/timer_wheel.rs:553-596 | An advance visits exactly the buckets of the ticks from the previous time to the new one. |
| TimerWheelSpec.PlacedAheadIff | src/common/timer_wheel.rs:439-480 | A filed node lies ahead of the wheel (tick not smaller at level 0, strictly greater above) if and only if its expiration is not in a past level-0 tick. |
| TimerWheelSpec.FiledForAhead | src/common/timer_wheel.rs:439-459 | Filing puts every node ahead of the wheel for the time it is filed for, which is the expiration if and only if that is not in a past tick, and otherwise at most 63 ticks after the current time. |
| TimerWheelSpec.UnvisitedIsAhead | src/common/timer_wheel.rs:553-596 | A node in a bucket of the swept level that the sweep does not visit is ahead of the new time, at every level and for every pair of times. |
| TimerWheelSpec.UnmovedTickIsAhead | src/common/timer_wheel.rs:565-585 | If a level's tick has not moved, stopping the sweep there leaves every node of this and all higher levels ahead. |
| TimerWheel.TimerWheel.Enable | src/common/timer_wheel.rs:197-216 | Every bucket gets exactly one sentinel. |
| TimerWheel.TimerWheel.Schedule | src/common/timer_wheel.rs:220-251 | Files one node in the one right place for its expiration, under the given generation, and moves no other; stale or unset expirations file nothing; a timely wheel stays timely for every expiration, by the time the node is filed for. |
| TimerWheel.TimerWheel.Reschedule | src/common/timer_wheel.rs:290-317 | Stale handle, unset expiration and refiling told apart; the node goes to the one right place and keeps its generation; no other moves; a timely wheel stays timely. |
| TimerWheel.TimerWheel.Deschedule | src/common/timer_wheel.rs:327-385 | Removes exactly the node of a handle that is not stale; placements of all others and timeliness are kept. |
| TimerWheel.TimerWheel.ResetTimerNodePositions | src/common/timer_wheel.rs:423-435 | The bucket is rotated until its sentinel is at the back; every other bucket stays. |
| TimerWheel.TimerEventsIter.constructor | src/common/timer_wheel.rs:393-402 | `advance` starts a sweep at the new time with the sweep invariant. |
| TimerWheel.TimerEventsIter.Next | src/common/timer_wheel.rs:553-649 | Terminates by (levels left, buckets left, nodes before the sentinel) although nodes are pushed into the bucket under sweep; bucket indices stay below 128, within 8 bits; reports what the reads of the node's expiration call for; takes out exactly the nodes reported expired or descheduled and those without expiration; leaves nodes outside the swept buckets alone, and refiles only nodes read as not due; the second read of an expiration may be any time, earlier ones included; a refiled node is where that read belongs, and generations stay. |
| TimerWheel.TimerEventsIter.Drop | src/common/timer_wheel.rs:537-546 | Dropping the iterator at any point leaves a well-formed, timely wheel at the previous or the new time. |
| TimerWheel.AdvanceFully | src/common/timer_wheel.rs:393-402 | With clients changing expirations at any time: after a fully consumed advance each starting node was reported expired once, dropped for having no expiration, or is left in one bucket; whatever is left is filed for a time after `now` or in the 2^30 ns tick of `now`. |
| TimerWheel.AdvancePartly | src/common/timer_wheel.rs:537-546 | The same conservation for a sweep dropped after any number of events, with the wheel timely at the time it fell back to. |
| TimerWheel.RunThenAdvance | src/common/timer_wheel.rs:553-649 | After any sequence of schedule, reschedule (to any time, past ones included), deschedule and partly consumed advances, and any changes of expirations meanwhile, a full advance leaves nothing overdue, by the times the nodes are filed for. |
| TimerWheel.FiresWithin64Ticks | src/common/timer_wheel.rs:452-459 | A node filed for a past tick is not left by a full advance to 64 or more ticks after its filing. |
| TimerWheel.PastDueIsReportedLate | src/common/timer_wheel.rs:439-459 | A run in which a full advance misses an expired timer and a later one reports it. |
| TimerWheel.LaterIsNotOverdue | src/common/timer_wheel.rs:597-621 | The bound carries over to expirations that moved later since the node was filed. |
| SingleFlightProof.StepInv | src/future/value_initializer.rs:150-262 | Every step of initializer and compute calls, panics, aborts and foreign writes keeps the waiter-map invariant. |
| SingleFlightProof.AtMostOneInFlight | src/future/value_initializer.rs:176-221 | Of the compute calls of a key, and of its initializers with one error type, at most one is between inserting and removing its waiter. |
| SingleFlightProof.RemovesOwnWaiter | src/future/value_initializer.rs:89-112 | A call about to remove a waiter removes its own. |
| SingleFlightProof.JoinersGetTheOwnersAnswer | src/future/value_initializer.rs:188-213 | A call that did not compute its answer returns exactly that of one finished owner of the same key and kind; the "unexpected state" panics do not happen. |
| SingleFlightProof.NoWaiterLeaks | src/future/value_initializer.rs:628-649 | When all calls have completed, panicked or been aborted, the waiter map is empty. |
| SingleFlightProof.NoDeadlock | src/future/value_initializer.rs:297-311 | While a call is unfinished, some call can take a step without an abort. |
| SingleFlightTermination.CallStepLowersDistance | src/future/value_initializer.rs:150-262 | Every step of a call, a joiner's second attempt included, lowers a measure of what all calls have left to do. |
| SingleFlightTermination.EveryCallFinishes | src/future/value_initializer.rs:266-406 | From every reachable state the number of call steps in any run is bounded, whatever foreign writes come between; and where only foreign writes and aborts could follow, every call is done and the waiter map empty. |
| SingleFlightProof.NoLostUpdate | src/future/value_initializer.rs:266-406 | Over every run, from any initial table, for a key written only by compute calls: each closure was given exactly the value left by the previous write, the first one the initial value, and the table holds the fold of the writes. |
| SingleFlightAnswers.CellsChange | src/future/value_initializer.rs:372-398 | For every step and key: only foreign writes, an initializer's insertion and a compute call's write change the value; after a `Put` the table holds it, after a `Remove` the key is gone. |
| SingleFlightAnswers.CachedIsNotComputed | src/future/value_initializer.rs:223-239 | A value in the table that is not to be ignored is the answer; the initializer runs exactly if there is none. |
| SingleFlightAnswers.OwnsIfAlone | src/future/value_initializer.rs:176-183 | A call becomes an owner exactly if no call of the same key and kind is in flight; otherwise it waits for that one, or leaves if it wanted to be alone. |
| SingleFlightAnswers.WokenTakesTheAnswer | src/future/value_initializer.rs:186-213 | A woken call finds its owner finished; an initializer takes its value or error, and tries again after a panic or abort, giving up at 200; a compute call tries again. |
| SingleFlightAnswers.AnswersAreJustified | src/future/value_initializer.rs:170-261 | Over every run each call resolves at most one future; an initialized value is the one its initializer resolved to, and was inserted; an error is the initializer's; a compute call writes what its closure yielded; a call gives up after 200 failed owners. |
| Admission.Admit | src/future/base_cache.rs:1848-1915 | For any deque and any changes by clients between visits: terminates by (nodes ahead, retries left); victims are distinct nodes, clean when taken, now the front of a merely reordered deque; the verdict is that of their totals, none could be spared, and an undecided walk had reached the end or skipped six in a row, which it had not before; exactly the skipped nodes have moved to the back, in order. |
| Admission.CleanWalkIsReference | src/future/base_cache.rs:1865-1914 | With every node clean, the deque is unchanged and the candidate wins if and only if the shortest LRU prefix covering its weight exists and is strictly less popular; that prefix is the victim list. |
| EvictionState.LoadRearranged | src/future/base_cache.rs:1882-1900 | Reordering the deque changes no accounted weight. |
| EvictionState.EvictConsistent | src/future/base_cache.rs:2077-2108 | Removing an entry with nothing pending keeps table, deque and counters consistent and takes exactly its weight. |
| Eviction.FrontThenFront | src/future/base_cache.rs:2536-2618 | Removing n and then m least recently used entries is removing n + m. |
| Eviction.SkipMovesOne | src/future/base_cache.rs:2327-2349 | Skipping moves one node to the back, that of the entry the table now holds under the key, or the front one if it holds none; nothing else changes. |
| Eviction.UsedSinceIsSpared | src/future/base_cache.rs:2583-2594 | An entry is evicted if and only if its access time is still the one read; otherwise it is skipped. |
| LruEviction.EvictLruEntries | src/future/base_cache.rs:2521-2623 | From any consistent state: consistent, what was counted is what left table and weight, and exactly the clean nodes of a known prefix of the deque are gone: the shortest that yields enough, or all the batch could visit; `more` is asked for only after a full batch of evictions. |
| LruEviction.RunEvictions | src/future/base_cache.rs:1340-1452 | From any consistent state, for every positive batch size: terminates having evicted exactly the clean nodes of the shortest prefix that yields enough, or of all it can reach; ends within the capacity if and only if the nodes within reach yield enough. |
| LruEviction.SweptSparesBlocked | src/future/base_cache.rs:2552-2568 | Whatever is pending, only clean live nodes are evicted; every dirty node stays in the deque with its record unchanged, and its table entry too. |
| LruEviction.CleanPrefixGoes | src/future/base_cache.rs:2536-2612 | If no node of the shortest prefix that is heavy enough is blocked, exactly that prefix goes, whatever lies behind it. |
| LruEviction.QuietIsBroughtUnder | src/future/base_cache.rs:1416-1437 | A cache of clean nodes is brought back to its capacity by evicting exactly the shortest LRU prefix, and stays clean and exactly accounted. |
| EvictionStalls.WrappedEntryStays | src/future/base_cache.rs:2557-2568 | A fully drained cache over its capacity of 1 that the loop leaves so, for every batch size. |
| EvictionStallRuns.WrappedCacheIsReached | src/common/concurrent/entry_info.rs:204-224 | A run of the write-log protocol, 65536 writes to one key and all drained, that ends in that cache. |
| EvictionStalls.ShadowedNodeStalls | src/future/base_cache.rs:2335-2341 | A cache over its capacity of 2 that the loop leaves so, for every batch size, although a clean node is in the deque. |
| EvictionStallRuns.ShadowedCacheIsReached | src/future/base_cache.rs:1688-1735 | A run of the write-log protocol with capacity 2 and the LRU policy that ends in that cache: the new entry is admitted while the removal of the old one is pending. |
| Upsert.RemoveVictims | src/future/base_cache.rs:1739-1785 | The named victims, and only they, leave table, deque and counters. |
| Upsert.ChangedVictimIsSpared | src/future/base_cache.rs:1752-1783 | A victim used, replaced or removed since it was chosen is not evicted; only its node, if still first, goes to the back. |
| Upsert.UpdateConsistentIff | src/future/base_cache.rs:1668-1677 | An update, stale ones included, keeps the state consistent if and only if exchanging its weights leaves the counter enough for all nodes. |
| Upsert.Contend | src/future/base_cache.rs:1725-1827 | Whether the candidate wins or loses, the state stays consistent and the weighted size does not grow; it wins exactly if the victims weigh enough and are less popular than it, and field by field what happens to it is as the row below says. |
| Upsert.HandleUpsert | src/future/base_cache.rs:1640-1828 | In any consistent state: consistency is kept if and only if an update leaves the counter enough; a new entry that fits is admitted; one too big, or beaten, is retired and its key leaves the table if the operation is its latest change, and otherwise both stay; a TinyLFU cache within its capacity stays within it; in a quiet cache the contest goes as the reference says; retired and admitted records take their own paths, given field by field. |
| Upsert.DecidedIsQuiet | src/future/base_cache.rs:1679-1826 | Deciding a new entry leaves a quiet cache clean, consistent and exactly accounted. |
| FrequencySketch.AddBumpsOne | src/common/frequency_sketch.rs:158-167 | Adding at a counter below 15 bumps it and carries into no neighbour. |
| FrequencySketch.ShiftHalvesAll | src/common/frequency_sketch.rs:170-178 | Shift and mask halve each of the sixteen counters. |
| FrequencySketch.MaskCountsOdd | src/common/frequency_sketch.rs:174-174 | The population count under the mask is the number of odd counters. |
| FrequencySketch.IncrementOverestimates | src/common/frequency_sketch.rs:135-153 | If all counters bound the exact saturating counts before an increment, they do after. |
| FrequencySketch.HalvingOverestimates | src/common/frequency_sketch.rs:170-178 | Halving everything keeps the bound. |
| FrequencySketch.AgedSizeIsExact | src/common/frequency_sketch.rs:170-178 | Under `8 * len <= sample` and `len <= 2^27` the 32-bit subtraction is exact and at most half the sample. |
| FrequencySketch.ResetSafeIff | src/common/frequency_sketch.rs:177-177 | The subtraction is non-negative for every table content of a length if and only if `8 * len <= sample`; that runs reach the failing contents is `SketchUnderflow.UnderflowIff`. |
| FrequencySketch.CapacitySafeIff | src/common/frequency_sketch.rs:84-109 | For every capacity that condition holds if and only if the table is at most 5/4 of the capacity and at most 2^27 long. |
| FrequencySketch.PowerOfTwoCapacitySafeIff | src/common/frequency_sketch.rs:84-109 | A power-of-two capacity satisfies it if and only if it is at most 2^27. |
| FrequencySketch.CapacitiesFrom129AreUnsafe | src/common.rs:116-119 | Among the first capacities a cache asks for, exactly 129 to 204 have `8 * len > sample`. |
| SketchUnderflow.IndexShift | src/common/frequency_sketch.rs:180-186 | Adding `k * 2^32` to a hash moves its index at a depth by `k` times that depth's seed, modulo every table length dividing 2^32. |
| SketchUnderflow.HitsOwn | src/common/frequency_sketch.rs:135-167 | Among the `4 * len` hashes `r + k * 2^32`, each counter of the table is bumped by exactly one. |
| SketchUnderflow.UnderflowIff | src/common/frequency_sketch.rs:75-178 | For every capacity from 1 to 214748364, some run of increments on a new table whose last one completes the sampling period makes the aging subtract more than it has, if and only if `8 * len > sample`. |
| SketchUnderflow.FirstCapacitiesThatUnderflow | src/common.rs:116-119 | From 128, the least a cache asks for, to 256, some run underflows if and only if the capacity is 129 to 204. |
| SketchUnderflow.Replay | src/common/frequency_sketch.rs:135-178 | The sketch itself, given any such run, ends with what the subtraction leaves in 32 bits. |
| FrequencySketch.Sketch.EnsureCapacity | src/common/frequency_sketch.rs:75-110 | Grows to a zeroed power-of-two table that fits, or changes nothing. |
| FrequencySketch.Sketch.Frequency | src/common/frequency_sketch.rs:114-128 | Returns the least of the four counters, never below the exact saturating and halving count. |
| FrequencySketch.Sketch.Reset | src/common/frequency_sketch.rs:170-178 | Halves every counter of the table and ages the size by the odd-counter total. |
| FrequencySketch.Sketch.Increment | src/common/frequency_sketch.rs:135-153 | Bumps exactly the four counters of the hash, counts the event if one was below 15, ages exactly at the sampling period, keeps the over-estimate and the size below the period. |
| DequeSpec.UntouchedReturned | src/common/deque.rs:284-301 | Under any interleaving of pushes, pops, moves and unlinks with cursor steps, an element left alone is returned once if it was still to come, otherwise not at all. |
| DequeSpec.PassReturnsEachOnce | src/common/deque.rs:329-343 | In a whole pass every element that stays and is not moved is returned exactly once. |
| DequeSpec.NextPassReturnsEachOnce | src/common/deque.rs:287-300 | The call that ends a pass is followed by a pass from the front, which again returns every element left alone exactly once. |
| Deque.Deque.Contains | src/common/deque.rs:123-125 | The two-field test is exact for nodes that are in this deque or unlinked. |
| Deque.Deque.PushBack | src/common/deque.rs:166-184 | Refines appending to the sequence; links, ends, length and cursor stay consistent. |
| Deque.Deque.PopFront | src/common/deque.rs:136-159 | Refines removing the first element, with the cursor stepping off it first. |
| Deque.Deque.MoveToBack | src/common/deque.rs:186-226 | Refines moving one element to the end, the operation the policy loops use; the cursor stays on an element of the list. |
| Deque.Deque.Unlink | src/common/deque.rs:242-266 | Refines removing one element anywhere; the node is left unlinked. |
| Deque.Deque.Next | src/common/deque.rs:287-300 | Returns and advances exactly as the index cursor does. |
| Iteration.SegmentIsRange | src/cht/segment.rs:594-600 | For every hash the segment index is in range, and each segment is a contiguous range of hashes. |
| Iteration.SegmentBits | src/cht/segment.rs:165-168 | The number of segments is the least power of two that is at least the requested one. |
| Iteration.Iter.CurrentKeys | src/common/iter.rs:103-124 | Terminates at a segment with keys or at the end, passing over no key that stays. |
| Iteration.Iter.TakeKey | src/common/iter.rs:69-79 | Takes the last key listed, not returned before, and returns it, with the value found, exactly if a lookup in its own cache still finds it. |
| Iteration.Iter.Next | src/common/iter.rs:69-82 | Whatever happens to the cache between accesses, never returns a key twice; a returned key had been listed, and comes with the value a lookup of this call found for it; `None` is final, and by then every key that stayed present and valid has been returned. |
| Iteration.Collect | src/common/iter.rs:62-101 | A whole iteration terminates, repeats no key, misses none that stayed, and returns each with a value found for it after it was listed. |

## Left out

- Bucket arrays, compare-and-swap retries, rehashing and epoch reclamation of the concurrent hash table: its operations are single steps, and listing a segment yields distinct keys.
- Objects of the protocols: client calls, cancel guards, waiters and the maintenance run are steps on state values, since the claims are about all interleavings; sharing of records is kept through their identities.
- In-place update inside the policy loops: deque, table and records are values passed in and out; the pointer-level deque operations they use are the ones proved in `Deque.dfy`.
- Key locks, memory orderings, spinning, event listeners, logging and debug counters.
- The write-order deque, and the window and protected regions of the access-order deque, which no path modelled here uses differently from the probation region.
- Expiration by time-to-live and time-to-idle deques, and invalidation predicates: in the write-log model they are evictions of arbitrary entries; that they find every expired or invalidated entry is not claimed, since the deques are not sorted by time.
- When the housekeeper starts maintenance: one maintenance run at a time, at arbitrary moments.
- Panics of user listeners, and a disconnected write channel.
- The read log: reads appear only as moves of arbitrary nodes to the back of the deque.
- The moment between a client's unlinking an entry and its bumping the entry's generation (src/future/cache.rs:1959-1971) is one step in the write-log model, and the policy loops take a retired deque node to be dirty accordingly.
- WriteLogWeights.WeightedSizeIsCounted: runs in which a saturating operation does saturate are not covered; without a weigher they are bounded away by the number of drained operations.
- WriteLogQuiet.DrainedIsQuiet: without a weigher, and with operations of each entry drained in table order; what holds with a weigher is in `WriteLogOrder.dfy`.
- SketchUnderflow.UnderflowIff: capacities above 214748364, where the sampling period is capped at 2^31 - 1, are not covered; aging is not shown exact there either (`FrequencySketch.CapacitySafeIff`).
- Upsert.HandleUpsert: models the operation while no client acts between `admit` and the removal of the victims; a victim changed in that window is let go to the back and the candidate is admitted all the same.
- WriteLogPolicy.ReachableIsConsistent: without a weigher only, since with one the counter need not cover the deque; and at the points where no evicted entry is still being unlinked.
- Upsert.HandleUpsert: assumes the total weight plus the candidate's stays below 2^64, the sum the source computes without saturation.
- LruEviction.RunEvictions: models the loop with empty logs, nothing to expire or invalidate and no listener timeout.
- Deque.Deque.PopFront: reuses the general removal, which at the head assigns the same fields in the same way.
- Deque.Deque.MoveToBack: a node is named together with its index in the abstract sequence; which deque a node belongs to is the caller's knowledge, as in the source.
- TimerWheel.TimerEventsIter.Next: buckets are sequences here, not linked deques; the linked deque is proved separately.
- TimerWheelSpec.PlacedAheadIff: times are unbounded; the source saturates at 2^64 ns (584 years) after the wheel's creation.
- TimerWheel.AdvanceFully: requires the clock not to go back before the wheel's current time.
- FrequencySketch.Sketch.Reset: wraps where a debug build would panic; when that cannot happen is stated separately.
- FrequencySketch.Sketch.EnsureCapacity: the limits of 64-bit platforms.
- Builders, `Policy`, `Entry`, `CompResult`, entry selectors, and the blocking (`sync`) variants.
