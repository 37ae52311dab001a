# xprobe: capture, transport, correlation

xprobe measures where time goes in CUDA programs. An agent inside the target records CUDA activity
through CUPTI and NVTX callbacks; a command-line client drains the agent's buffers, merges captures
and pairs start events with end events; a kernel program aggregates system calls.

This project models the parts of xprobe whose correctness is not visible from one function, and
proves what they promise for every input, every interleaving and every run.

| module | models |
|---|---|
| `CaptureStore`, `CaptureLog` | the lock-free record buffer: reserve, copy, publish, help to advance the committed prefix |
| `AggregateTable`, `AggregateHistory`, `LinearProbing` | the lock-free aggregate table, in which racing threads may insert one key twice |
| `NvtxRanges`, `RangeRecords` | the open-addressed table of open NVTX ranges, with tombstones, and the records of a range |
| `Utf8` | UTF-8 (section 3 of RFC 3629) and the bounded copies of names |
| `SnapshotProtocol`, `SnapshotHistory`, `SnapshotClient` | agent, control thread and client over one capture: snapshot, stop, decode, append |
| `AggregateInventory` | decoding and merging aggregate slots, and the totals check |
| `Events`, `Grouping`, `Timeline`, `Sorting`, `Lex` | shared parts of the correlator |
| `FirstAfter`, `StreamOrder`, `Lifecycle`, `StackNested`, `Exact`, `Nearest`, `Correlator`, `PolicyLaws` | the matching policies, their choice, and the duration window |
| `AgentNames`, `NameFilter`, `StoredNames` | lowering a regular expression to a bounded name filter, the agent's matcher, its two passes over full and stored names, and selector hints |
| `SyscallAggregate`, `SyscallHistory` | the kernel-side aggregation of system calls and its per-CPU sum |
| `CompletedMerge` | merging completed captures |
| `IntervalUnion` | the length of a union of intervals |

Concurrent code is a state machine whose steps are single atomic accesses, and the theorems are about
every legal sequence of steps. Code that loops over mutable state is a method proved against a
specification function, and objects with updated fields are classes. The correlator's results are
stated against references that do not follow the code: maximum matchings, balanced parentheses,
adjacent items, a list scan.

What an operation leaves behind is also stated in terms of its inputs alone, so that no result rests on a
history that the operation itself writes: which activities a capture reserves (`CaptureLog`) or a table counts
(`AggregateHistory`), which calls were sampled and how long they took (`SyscallHistory`), and which state the
client is told (`SnapshotHistory`) are read off the list of steps.

Six results are about what the code does not do. Each has an input on which it fails and the exact
condition under which it holds:

- A stop tests the capture state and stores the new one in two accesses. A record limit reached in
  between is overwritten, and a capture that lost records is accepted as complete
  (`SnapshotProtocol.StopHidesLimit`). A limit stored before an answered request is reported unless
  a later action stores another state (`SnapshotHistory.LimitReported`). If no producer is in flight when the
  stop is stored, the client then holds every reserved record if and only if the observed count is at most the capacity, both of which are in
  the header (`SnapshotProtocol.StopCompleteIff`). With a producer in flight no count tells
  (`SnapshotProtocol.LateProducerMissed`).
- The kernel program takes a stored minimum of zero for "none yet" (`SyscallAggregate.ZeroForgotten`). The
  reported minimum is right if and only if no duration is zero or the last duration on some CPU is
  (`SyscallAggregate.RunReports`).
- The duration window does not commute with the exact policy (`Exact.ExactWindowLoses`). It does if and only
  if for every key the cut does not change whether the counts agree, or no pair is at stake
  (`Exact.ExactWindowIff`).
- Nor does it commute with the nearest policy (`Nearest.NearestWindowDiffers`). If every start prefers the ends
  on its own side of the window's edge, which the timestamps alone tell, it does if and only if the ends
  outside suffice for the starts outside or the starts inside use up the ends inside
  (`Nearest.NearestWindowSides`). Without that the condition depends on the greedy choices: for distinct starts
  it does if and only if the pairs that end inside the window are those of the first starts, as many as the
  starts and ends inside allow, and this reads the pairs of the uncut capture (`Nearest.NearestWindowIff`).
- The agent's matcher sees only the first 128 bytes of a name (`NameFilter.LongNamesRefused`). Its answer is the
  pattern's if and only if, for a suffix, the name is shorter or does not end in the literal, and for
  containment, the literal is absent or ends within those bytes (`NameFilter.LoweredIff`). This decides which
  activities an aggregate capture counts.
- An exact capture filters twice: the full name against the filters of both records of an activity, then the
  at most 127 bytes that a record stores against its own (`StoredNames.StoredNamesMisjudged`). A record is
  enqueued exactly when its pattern matches if and only if, for containment, the literal is absent or ends
  within the stored bytes; for a suffix, the name is shorter than 128 bytes, or it ends in the literal
  just when another filter admitted it and the stored part ends in the literal; and for an exact filter, the
  name is not a longer one that another filter admitted and whose stored part is the literal
  (`StoredNames.KernelLoweredIff`, `StoredNames.RangeLoweredIff`).

`dafny verify dfyconfig.toml` checks the project with Dafny 4.11.

## Model

| member | source | states |
|---|---|---|
| CaptureStore.InBounds | cupti/src/cupti_agent.c:587-620 | in every reachable state a producer that copies or publishes has an index inside the buffer, and the helping loop never looks past it |
| CaptureStore.StepInv | cupti/src/cupti_agent.c:587-620 | every atomic step of every producer keeps: ready slots hold their reservation's record, unready reserved slots have exactly one owner, the committed prefix is ready, and a ready slot just past it has a helper |
| CaptureStore.RunInv | cupti/src/cupti_agent.c:587-620 | the invariant holds after every interleaving |
| CaptureStore.StepWrites | cupti/src/cupti_agent.c:595-609 | a record changes only by its one owner's copy, before it is ready or committed |
| CaptureStore.StepExtends | cupti/src/cupti_agent.c:587-620 | no step lowers the committed count or the reservation count, or changes a committed record |
| CaptureStore.RunExtends | cupti/src/cupti_agent.c:587-620 | over any run the committed count never decreases, never exceeds min(reservations, capacity), and the committed records are the first reservations' records and never change |
| CaptureStore.QuiescentCommitted | cupti/src/cupti_agent.c:587-620 | with no producer in flight everything that fits is committed, and the record limit was stored if and only if more was reserved |
| CaptureStore.QuiescentComplete | cupti/src/cupti_agent.c:587-620 | from the initial state, at quiescence: committed = min(reservations, capacity), the buffer holds exactly the first reservations, limit stored iff reservations exceed capacity |
| CaptureStore.StepRank | cupti/src/cupti_agent.c:611-619 | each own step brings a call one step closer to its return, except that a spurious failure of the weak compare-exchange sets it back by one and a partial copy leaves it; other threads never set it back |
| CaptureStore.CallBounded | cupti/src/cupti_agent.c:587-620 | whatever the others do, a call takes at most 2·capacity + 6 steps, plus two for each spurious failure of its compare-exchange, plus the partial steps of its copy |
| CaptureLog.LogIsReservations | cupti/src/cupti_agent.c:587-600 | in every run the log holds one record per reservation, in order: that of the reserving thread's last call, which the filter let through |
| CaptureLog.OnlyMatching | cupti/src/cupti_agent.c:596-598 | a record that the filter refused is never reserved |
| AggregateTable.StepKeeps | cupti/src/cupti_agent.c:622-762 | every atomic step keeps, until a counter overflows: slot sums equal the contributions of the calls attached to the slot, keys never change once published, probe sequences skip only occupied slots; a badly timed activity changes nothing of this |
| AggregateTable.RunKeeps | cupti/src/cupti_agent.c:622-762 | the same after every interleaving |
| AggregateTable.RacingInsertsDuplicate | cupti/src/cupti_agent.c:715-762 | whatever the hash, two racing calls of one key can publish two slots for it, so slots must be merged again |
| AggregateTable.QuiescentSums | cupti/src/cupti_agent.c:692-762 | at quiescence without overflow, for any set of keys, the summed count, duration and bytes of the published slots equal the sums over the calls with those keys that were not dropped, although one key may own several slots |
| AggregateTable.QuiescentCounts | cupti/src/cupti_agent.c:704-762 | at quiescence without overflow slot counts plus drops equal the accepted calls, and the committed count is the number of published slots |
| AggregateTable.QuiescentExtremes | cupti/src/cupti_agent.c:670-702 | at quiescence without overflow a bound is below all least values of a set of keys iff it is below all their durations, and above all greatest values iff above all durations |
| AggregateTable.SlotBounds | cupti/src/cupti_agent.c:670-702 | at quiescence a slot's least and greatest values are durations of calls with its key, and bound all of its calls |
| AggregateTable.DropMeansFull | cupti/src/cupti_agent.c:715-762 | unless a counter overflowed, a call is dropped only when every slot of the table is occupied |
| AggregateTable.WrittenSlots | cupti/src/cupti_agent.c:692-702 | at quiescence a published slot has a positive count, least ≤ greatest, and its total lies between count·least and count·greatest |
| AggregateTable.ObservedRecords | cupti/src/cupti_agent.c:1532-1560 | the loop over the slots returns the sum of the published counts and the drops, or reports overflow |
| AggregateTable.SameKey | cupti/src/cupti_agent.c:646-656 | two activities share a key if and only if they agree in kind, device, direction and stored name |
| AggregateHistory.CallsAreBegun | cupti/src/cupti_agent.c:704-718 | in every run the counted activities are those whose times are in order and that came while the capture was active, each once, in order |
| AggregateHistory.ActiveLostNothing | cupti/src/cupti_agent.c:704-763 | in every run a capture that is still active has dropped nothing, overflowed nowhere and has no output error, and an overflow is never forgotten |
| NvtxRanges.SearchComplete | cupti/src/cupti_agent.c:812-906 | a search that meets an empty slot or has seen all slots proves the key absent, whatever tombstones it passed |
| NvtxRanges.InsertKeeps | cupti/src/cupti_agent.c:838-862 | storing at the first reusable slot, a tombstone or an empty one, hides no live key |
| NvtxRanges.RemoveKeeps | cupti/src/cupti_agent.c:864-906 | leaving a tombstone removes exactly the key and keeps every other key reachable |
| NvtxRanges.FullIff | cupti/src/cupti_agent.c:803-862 | the represented map is as large as the table if and only if every slot is live |
| NvtxRanges.RangeTable.constructor | cupti/src/cupti_agent.c:782-801 | an empty table represents the empty map |
| NvtxRanges.RangeTable.Remember | cupti/src/cupti_agent.c:812-862 | refines insertion into a finite map: a new key is stored with its thread and name, a present key is refused, and the capacity path is taken exactly when the map has as many keys as the table has slots |
| NvtxRanges.RangeTable.Take | cupti/src/cupti_agent.c:864-906 | refines removal from a finite map: returns exactly what was remembered under the key and removes it |
| NvtxRanges.RangeTable.Replay | cupti/src/cupti_agent.c:812-906 | any list of starts and ends leaves the table with the map, and gives each end the answer, that the same operations on a finite map do |
| NvtxRanges.RangeTable.Lifetime | cupti/src/cupti_agent.c:812-906 | on the table: a range that is accepted gets its own thread and name back at its end, whatever is remembered and taken in between |
| NvtxRanges.EndGetsItsStart | cupti/src/cupti_agent.c:812-906 | on the represented map, whatever other operations come between, an end gets the thread and name of its own start, and a second start of an open range is refused |
| NvtxRanges.RememberedTells | cupti/src/cupti_agent.c:851-852 | what a start leaves: its thread; without a message an empty complete name; otherwise the longest prefix of whole characters that fits, complete if and only if it is all of the name |
| RangeRecords.RangeDecodes | xprobe/collector/src/cupti.rs:855-907 | both records of a range pass the decoder, which gets back the 64-bit identifier, the scope, the starting thread and the stored name |
| RangeRecords.ThreadRangesDiffer | cupti/src/cupti_agent.c:1066-1072 | ranges of different threads or levels have different identifiers |
| Utf8.ValidIff | xprobe/collector/src/cupti.rs:685-688 | the byte-level decoder accepts exactly the encodings of sequences of Unicode scalar values |
| Utf8.CopyNvtxName | cupti/src/cupti_agent.c:404-445 | copies the source's first bytes up to the cut, NUL-terminates, and reports complete if and only if the whole source fits |
| Utf8.CopyName | cupti/src/cupti_agent.c:388-402 | stores the source's first 127 bytes at most and terminates them; a missing source is empty |
| Utf8.StoresLongestPrefix | cupti/src/cupti_agent.c:404-445 | for every valid source the cut is the longest prefix of whole characters of at most 127 bytes |
| SnapshotProtocol.FirstError | xprobe/collector/src/cupti.rs:614-643 | decoding fails if and only if some record is malformed |
| SnapshotProtocol.DecodePayload | xprobe/collector/src/cupti.rs:614-643 | returns the first error, or the records stably sorted by time and numbered from the offset |
| SnapshotProtocol.BatchExact | xprobe/collector/src/cupti.rs:614-643 | a decoded batch holds each record once, in time order, numbered consecutively from the offset |
| SnapshotProtocol.LiveCollection.constructor | xprobe/cli/src/main.rs:2923-2987 | a new collection has drained nothing |
| SnapshotProtocol.LiveCollection.AppendCudaCapture | xprobe/cli/src/main.rs:2923-2987 | accepts a capture exactly when the specification does, then extends the collection; on an error nothing changes |
| SnapshotProtocol.RejectIncomplete | xprobe/cli/src/main.rs:3494-3540 | a stopped capture passes, an active one only if completeness is not required, and no other |
| SnapshotProtocol.AcceptHonest | xprobe/collector/src/cupti.rs:544-612 | counters that only grew and well-formed records pass every check of decoder and client |
| SnapshotProtocol.DeliverKeeps | xprobe/cli/src/main.rs:2923-2987 | a response of the agent is accepted and adds exactly the next stretch of reservations |
| SnapshotProtocol.ActionKeeps | cupti/src/cupti_agent.c:1632-1660 | every action of producers, control thread and client keeps the protocol's invariant |
| SnapshotProtocol.DrainedExact | xprobe/cli/src/main.rs:2923-2987 | batches drained one after another hold each record of a prefix of the log once, numbered 0, 1, 2, … |
| SnapshotProtocol.HonestAgentAccepted | cupti/src/cupti_agent.c:1632-1660 | in every run the client never rejects the agent, and holds the first reserved records with no gap or duplicate, numbered from 0 |
| SnapshotHistory.StoredLast | cupti/src/cupti_agent.c:587-606 | in every run the agent's state, stop reason and drop counts are those that the actions stored last and counted |
| SnapshotHistory.AnswerIsPast | cupti/src/cupti_agent.c:1562-1602 | in every run the client's capture is what one request loaded: committed and reserved records at two of its loads, and the state, reason and drop counts that the actions before its last load stored |
| SnapshotHistory.StoppedWasStored | cupti/src/cupti_agent.c:1809-1815 | a capture that the client accepts as complete was stopped by some action |
| SnapshotHistory.LimitReported | xprobe/cli/src/main.rs:3511-3530 | a record limit stored before an answered request is reported to the client and refused, unless some action stores another state |
| SnapshotClient.AcceptedIff | xprobe/collector/src/cupti.rs:510-612 | for any response: it is decoded and appended if and only if it continues where the client is, its counters fit and have not moved backwards, and all its records are well formed |
| SnapshotClient.WellFormedMeans | xprobe/collector/src/cupti.rs:731-903 | a record is well formed if and only if its kind is known, it has a timestamp and a UTF-8 name, and a range has a scope, an identifier, a thread and a flag |
| SnapshotClient.AcceptedSound | xprobe/collector/src/cupti.rs:510-612 | whatever response is accepted, the client holds well-formed records numbered from 0 within capacity and observed count, and reports the response's state |
| SnapshotClient.CollectedSound | xprobe/collector/src/cupti.rs:510-612 | whatever an agent sends, the same holds after any list of responses |
| SnapshotProtocol.QuietStopComplete | cupti/src/cupti_agent.c:1797-1817 | if no producer is in flight from the stop's test of the capture state to its store, the capture then delivered holds every reserved record |
| SnapshotProtocol.StopCompleteIff | cupti/src/cupti_agent.c:1797-1817 | if no producer is in flight when the stop is stored, then from the next answer on the observed count is the number of reserved records, the client holds the first of them up to the capacity, and it holds all of them if and only if the observed count is at most the capacity |
| SnapshotProtocol.StopHidesLimit | cupti/src/cupti_agent.c:1797-1817 | a run in which the stop overwrites a reached record limit and the client accepts the capture as complete, although a reserved record is missing |
| SnapshotProtocol.LateProducerMissed | cupti/src/cupti_agent.c:587-600 | a run in which a producer that saw the capture active reserves after the stop was answered: the capture is accepted as complete with all counts equal, and a record is missing |
| AggregateInventory.KeyOrder | xprobe/cli/src/main.rs:3108-3173 | the comparison of group keys is a total order |
| AggregateInventory.GroupOrderMeans | xprobe/cli/src/main.rs:3108-3122 | kernels come before copies and copies before sets; then names decide byte by byte, then an unknown device before the known ones |
| AggregateInventory.DecodedMeans | xprobe/collector/src/cupti.rs:645-707 | which activity, direction and device the numbers of a stored key stand for |
| AggregateInventory.DecodeIff | xprobe/collector/src/cupti.rs:645-707 | a slot decodes if and only if it has a count, its mean lies between its bounds, its kind is known, its name is UTF-8 and a kernel has one; the group carries its numbers |
| AggregateInventory.WholeNames | xprobe/collector/src/cupti.rs:645-707 | a kernel's name is reported complete if and only if it is shorter than 127 bytes |
| AggregateInventory.MergeAggregateGroups | xprobe/cli/src/main.rs:3108-3173 | sorts the groups and merges neighbours with equal keys |
| AggregateInventory.MergeKeepsTotals | xprobe/cli/src/main.rs:3108-3173 | for any set of keys, merging keeps the count, total, bytes, minimum and maximum |
| AggregateInventory.MergeStrict | xprobe/cli/src/main.rs:3108-3173 | the merged groups have one group per key, in key order |
| AggregateInventory.MergeOkIff | xprobe/cli/src/main.rs:3108-3173 | merging fails if and only if some key's totals overflow |
| AggregateInventory.MergeOrderIndependent | xprobe/cli/src/main.rs:3108-3173 | success and result do not depend on the order of the slots |
| AggregateInventory.SlotDecodes | xprobe/collector/src/cupti.rs:645-707 | every published slot of a quiescent table passes the decoder's checks, also that its mean lies between minimum and maximum |
| AggregateInventory.CleanDecodes | xprobe/collector/src/cupti.rs:645-707 | for a clean run all written records decode |
| AggregateInventory.InventoryFolds | xprobe/cli/src/main.rs:2989-3055 | for a clean run the merged groups' counts, totals, bytes and extremes are those of the activities themselves, for any set of keys |
| AggregateInventory.GroupedActivities | xprobe/cli/src/main.rs:3002-3010 | the loop returns the sum of the groups' counts, or reports that it does not fit 64 bits |
| AggregateInventory.InventoryChecksPass | xprobe/cli/src/main.rs:2989-3055 | for a clean run the slot-count checks pass, merging succeeds unless a key overflows, and the grouped count equals the number of activities and the observed count, so the last check fails only by the overflow that both counts report |
| Events.WindowIsPrefix | xprobe/correlator/src/lib.rs:1091-1092 | in a time-sorted list the events inside a window are a prefix |
| Events.WindowMeans | xprobe/correlator/src/lib.rs:1069-1094 | for lists in time order the window ends the duration after the earliest event, and each of the two errors has its exact condition |
| Events.SameStack | xprobe/correlator/src/lib.rs:1313 | two events share a stack if and only if process and thread agree |
| Events.SameThread | xprobe/correlator/src/lib.rs:925 | two events share a thread's key if and only if process, thread and process start agree |
| Events.SameStream | xprobe/correlator/src/lib.rs:1386-1410 | two events share a stream's key if and only if process, device, context and stream are known and agree |
| Events.SameCorrelation | xprobe/correlator/src/lib.rs:1425-1439 | two events share a correlation key if and only if they name one range of one process, or no range and one context and correlation |
| Grouping.GroupBy | xprobe/correlator/src/lib.rs:1387-1409 | one loop yields, per key, exactly that key's events in order, the keys in map order, and the number of events without a key |
| Grouping.OrderedKeysExact | xprobe/correlator/src/lib.rs:1347-1351 | an ordered map visits every key once, in ascending order |
| Lex.OrderMeans | xprobe/correlator/src/lib.rs:1134-1155 | one key comes before another if and only if it is smaller at the first position where they differ |
| Grouping.ThroughKey | xprobe/correlator/src/lib.rs:1338-1385 | seen through one key, the sorted outcome of a group-by-group pairing is the pairing of that key's events alone |
| Grouping.WindowCommutes | xprobe/correlator/src/lib.rs:1338-1385 | if a pairing commutes with the window, so does its group-by-group form, order included |
| Grouping.WindowIffKeys | xprobe/correlator/src/lib.rs:1338-1385 | a group-by-group pairing commutes with the window if and only if the pairing of every key does |
| Grouping.GroupedUsesOnce | xprobe/correlator/src/lib.rs:1338-1385 | if a pairing uses each event at most once, so does its group-by-group form |
| FirstAfter.ServesInOrder | xprobe/correlator/src/lib.rs:1190-1229 | the starts are served in order by ends in increasing order that are not before them: pairs never cross |
| FirstAfter.GetsFirst | xprobe/correlator/src/lib.rs:1200-1216 | each start gets the first end that is neither before it nor taken |
| FirstAfter.LeavesNone | xprobe/correlator/src/lib.rs:1217-1220 | a start is left unpaired only if no untaken end is late enough |
| FirstAfter.Maximum | xprobe/correlator/src/lib.rs:1190-1229 | no one-to-one pairing with end ≥ start has more pairs |
| FirstAfter.Attained | xprobe/correlator/src/lib.rs:1190-1229 | the policy's own pairs are such a pairing |
| FirstAfter.Correlate | xprobe/correlator/src/lib.rs:1190-1229 | the two-cursor loop returns the first pairs up to the limit; below the limit matched plus unmatched is the input on both sides, at the limit no start counts as unmatched and only the ends skipped before the last pair do, none for a limit of zero |
| FirstAfter.WindowCommutes | xprobe/correlator/src/lib.rs:1069-1094 | cutting both inputs at the window keeps exactly the pairs that end inside it |
| FirstAfter.PairStream | xprobe/correlator/src/lib.rs:1352-1371 | the walk of one stream gives first-after's pairs and conserves both counts |
| StreamOrder.ThroughStream | xprobe/correlator/src/lib.rs:1338-1385 | seen through one stream, the outcome is first-after on that stream's events |
| StreamOrder.OneStream | xprobe/correlator/src/lib.rs:1338-1409 | no pair joins two streams or uses an event whose stream is unknown |
| StreamOrder.EventsUsedOnce | xprobe/correlator/src/lib.rs:1338-1385 | no event is in two pairs |
| StreamOrder.StreamWindow | xprobe/correlator/src/lib.rs:1069-1094 | the window commutes with stream order |
| StreamOrder.Correlate | xprobe/correlator/src/lib.rs:1338-1385 | returns the pairs sorted by start and cut at the limit; the unmatched counts complete the uncut pairs to the inputs |
| Timeline.ThroughLane | xprobe/correlator/src/lib.rs:921-947 | seen through one key, the pairs of a merged timeline are those of that key's items alone |
| Timeline.WindowCommutes | xprobe/correlator/src/lib.rs:1069-1094 | every policy that replays a merged timeline commutes with the window, order included |
| Timeline.OrdersMean | xprobe/correlator/src/lib.rs:917 | the two orders of a timeline: by time, then starts before ends, then, for lifecycles, by sequence number |
| Timeline.MergedHolds | xprobe/correlator/src/lib.rs:913-919 | the timeline is in order and made of the given starts and ends, each once |
| Lifecycle.AloneIsAdjacent | xprobe/correlator/src/lib.rs:925-947 | under one key the replay pairs exactly the starts directly followed by an end, with that end |
| Lifecycle.PairsAreAdjacent | xprobe/correlator/src/lib.rs:908-1011 | seen through one key, the sorted outcome is every start directly followed by an end of that key |
| Lifecycle.LifecycleWindow | xprobe/correlator/src/lib.rs:1069-1094 | the window commutes with both lifecycle matchers |
| Lifecycle.Replay | xprobe/correlator/src/lib.rs:921-947 | the loop over the timeline emits those pairs and its negative-latency branch is unreachable; ambiguous counts the starts that directly follow a start of their key, unmatched ends those that do not follow a start, unmatched starts those without a key and the keys whose last item is a start |
| Lifecycle.Correlate | xprobe/correlator/src/lib.rs:908-1011 | pairs sorted by start and cut at the limit; the three counts are those of the replay, and with the uncut pairs they add up to the inputs |
| StackNested.OpenIffUnclosed | xprobe/correlator/src/lib.rs:1310-1314 | the stack holds exactly the calls that nothing after them closes |
| StackNested.ClosesEnclosing | xprobe/correlator/src/lib.rs:1314-1324 | a return closes a call if and only if everything between them is balanced |
| StackNested.NestedOrDisjoint | xprobe/correlator/src/lib.rs:1296-1334 | two pairs of a thread are nested or disjoint |
| StackNested.PairedOnce | xprobe/correlator/src/lib.rs:1296-1334 | a call is closed at most once and a return closes at most one call |
| StackNested.LinksEnclose | xprobe/correlator/src/lib.rs:1310-1325 | the positions paired in a thread's timeline are exactly the balanced ones |
| StackNested.PairsAtLinks | xprobe/correlator/src/lib.rs:1296-1334 | seen through one thread, the outcome is one pair for each balanced pair of positions, with its two events, sorted by start |
| StackNested.PairsAreBalanced | xprobe/correlator/src/lib.rs:1296-1334 | seen through one thread, the outcome holds the balanced pairs of its timeline and no others |
| StackNested.Unbalanced | xprobe/correlator/src/lib.rs:1326-1333 | all pairs and the calls that nothing closes, summed over the threads, are the starts; all pairs and the returns that enclose no call are the ends |
| StackNested.StackWindow | xprobe/correlator/src/lib.rs:1069-1094 | the window commutes with stack nesting |
| StackNested.Replay | xprobe/correlator/src/lib.rs:1308-1325 | the loop keeps the first pairs up to the limit, never subtracts below zero, and its counts do not depend on the limit |
| StackNested.Correlate | xprobe/correlator/src/lib.rs:1296-1334 | pairs cut at the limit in the order of their ends and sorted by start; whatever the limit, unmatched starts are the unclosed calls of all threads and unmatched ends their stray returns |
| Exact.ThroughCorrelation | xprobe/correlator/src/lib.rs:1154-1176 | seen through one key, the outcome is the zip of its starts and ends, or nothing when their numbers differ |
| Exact.OneCorrelation | xprobe/correlator/src/lib.rs:1129-1188 | every pair joins a start and an end of one correlation key |
| Exact.EventsUsedOnce | xprobe/correlator/src/lib.rs:1129-1188 | no event is in two pairs: counted with multiplicity, the pairs' starts are among the starts and their ends among the ends |
| Exact.ZipPerfect | xprobe/correlator/src/lib.rs:1163-1175 | if any one-to-one pairing of a key's starts and ends runs forward in time, the zip pairs all of them |
| Exact.ZipAll | xprobe/correlator/src/lib.rs:1163-1175 | the zip pairs everything if and only if every start is not after the end at its position |
| Exact.ZipWindowIff | xprobe/correlator/src/lib.rs:1158-1175 | for one key, cutting its events keeps exactly the pairs ending inside the window if and only if the cut does not change whether the counts agree, or no pair is at stake |
| Exact.ExactWindowIff | xprobe/correlator/src/lib.rs:1069-1094 | correlating the windowed events gives exactly the pairs ending inside the window if and only if that condition holds for every key |
| Exact.ExactWindowLoses | xprobe/correlator/src/lib.rs:1158-1162 | for events of any correlation key, an outcome that loses a pair whose events are both inside the window |
| Exact.PairKey | xprobe/correlator/src/lib.rs:1163-1175 | the zip loop yields the forward pairs and counts the backward ones |
| Exact.Correlate | xprobe/correlator/src/lib.rs:1129-1188 | pairs sorted by start and cut at the limit; uncut pairs, unmatched events and the events of unequal keys add up to the inputs, and ambiguous sums the larger side of each unequal key |
| Exact.AmbiguousBetween | xprobe/correlator/src/lib.rs:1160-1163 | the ambiguous count is no less than the starts and the ends of the unequal keys, less than both together, and zero if and only if no key is unequal |
| Nearest.BestUnique | xprobe/correlator/src/lib.rs:1249-1267 | the preferred end, closest, then later, then last, is unique |
| Nearest.PairsBest | xprobe/correlator/src/lib.rs:1243-1283 | pair k joins start k with the preferred end among those the earlier starts left |
| Nearest.EndsUsedOnce | xprobe/correlator/src/lib.rs:1272-1283 | the ends of the pairs and the remaining ends are the given ends, each once |
| Nearest.Select | xprobe/correlator/src/lib.rs:1249-1270 | the two range queries find the preferred time, or report that no end is left |
| Nearest.PopKeeps | xprobe/correlator/src/lib.rs:1271-1283 | popping the bucket, and dropping it when empty, takes the last end of that time off the list |
| Nearest.ChoiceSides | xprobe/correlator/src/lib.rs:1243-1283 | when every start prefers the ends on its own side of a time, which choices fall before that time follows from three counts: starts inside, ends inside, ends outside |
| Nearest.NearestWindowSides | xprobe/correlator/src/lib.rs:1069-1094 | in terms of the events alone: when every start inside the window is strictly closer to the ends inside and every start outside at least as close to the ends outside, correlating the windowed events gives exactly the pairs ending inside the window if and only if the starts inside are no fewer than the ends inside or the starts outside no more than the ends outside |
| Nearest.NearestWindowIff | xprobe/correlator/src/lib.rs:1069-1094 | for distinct starts, correlating the windowed events gives exactly the pairs ending inside the window if and only if those are the pairs of the first starts, as many as the starts and ends inside allow, a condition on the pairs of the uncut events |
| Nearest.NearestWindowDiffers | xprobe/correlator/src/lib.rs:1258-1264 | a start between two equally close ends takes the later one, which the window cuts off |
| Nearest.Correlate | xprobe/correlator/src/lib.rs:1231-1294 | the bucket loop returns the reference's pairs up to the limit; both counts are conserved unless the limit cut the run, and then both unmatched counts are zero |
| Correlator.CorrelateSelected | xprobe/correlator/src/lib.rs:842-860 | the chosen policy's pairs, cut at the limit by start, or for stack nesting by end; all of them if the limit does not bind; and the three counts of each policy |
| Correlator.ApplyDurationWindow | xprobe/correlator/src/lib.rs:1069-1094 | for lists in time order keeps exactly the events that are at most the duration later than every event; reports a duration or a sum beyond 64 bits; no duration or no events changes nothing |
| Correlator.WindowCommutes | xprobe/correlator/src/lib.rs:1069-1094 | for first-after, stream-order, stack-nested and both lifecycles, correlating the windowed events gives exactly the pairs of the whole capture that end inside the window, in the same order |
| PolicyLaws.PairsLawful | xprobe/correlator/src/lib.rs:842-860 | under every policy each pair joins two given events that share what the policy requires, field by field, and its latency is the time between them |
| PolicyLaws.PairsByStart | xprobe/correlator/src/lib.rs:948 | under every policy the pairs come in the order of their starts |
| PolicyLaws.SameInstant | xprobe/correlator/src/lib.rs:1308 | a call and a return of one thread at one instant are a pair of latency 0 for stack nesting and lifecycles |
| PolicyLaws.PreferenceMeans | xprobe/correlator/src/lib.rs:1249-1267 | the nearest policy prefers the smaller distance, then the later end |
| AgentNames.BoundedNameLength | cupti/src/cupti_agent.c:447-458 | the length of a C string, at most 128 |
| AgentNames.NameMatches | cupti/src/cupti_agent.c:460-504 | accepts exactly the names that equal, start with, end with or contain the filter's text, within the first 128 bytes |
| NameFilter.RegexLiteral | xprobe/cli/src/main.rs:2504-2521 | the loop returns the literal text of an operator-free pattern, or nothing |
| NameFilter.EscapeSelectorRegex | xprobe/cli/src/main.rs:3261-3270 | the loop puts a backslash before every operator character |
| NameFilter.OperatorsMean | xprobe/cli/src/main.rs:2515 | the operator characters are those of the lowering and of the hints |
| NameFilter.EscapeReads | xprobe/cli/src/main.rs:3261-3270 | reading an escaped name as a literal gives the name back |
| NameFilter.LowerMeaning | xprobe/cli/src/main.rs:2466-2502 | a named filter accepts a name if and only if the pattern matches it somewhere |
| NameFilter.LowerNamedIff | xprobe/cli/src/main.rs:2466-2502 | lowering yields a named filter if and only if the pattern is a literal, not empty and short enough, in one of eight frames of anchors and `.*` |
| NameFilter.AgentAgreesIff | cupti/src/cupti_agent.c:460-504 | for names of every length the byte matcher agrees with the filter's meaning on characters if and only if, for a suffix, the name is shorter than 128 bytes or does not end in the literal, and for containment, the literal is absent or ends within the first 128 bytes |
| NameFilter.LongNamesRefused | cupti/src/cupti_agent.c:486-503 | a name of 128 letters that ends in the literal and one of 129 that contains it are refused |
| NameFilter.LoweredFilterAgrees | xprobe/cli/src/main.rs:2466-2521 | end to end: the agent accepts a NUL-free name shorter than 128 bytes under the lowered filter if and only if the pattern matches the name |
| NameFilter.LoweredLongNames | xprobe/cli/src/main.rs:2466-2521 | for exact and prefix filters the same holds for names of any length |
| NameFilter.LoweredIff | xprobe/cli/src/main.rs:2466-2521 | for every name one pass of the agent's matcher under the lowered filter answers as the pattern does if and only if the condition of AgentAgreesIff holds; an aggregate capture makes this one pass |
| StoredNames.AnyMatches | cupti/src/cupti_agent.c:553-585 | the loop over the filters finds one that accepts the name, or among the record's own |
| StoredNames.EnqueuesKernel | cupti/src/cupti_agent.c:1149-1197 | a kernel's record is kept if and only if some filter of either record accepts the full name and some filter of its own accepts its first 127 bytes |
| StoredNames.EnqueuesRange | cupti/src/cupti_agent.c:908-926 | the same for a range record with the part of the name that it stores |
| StoredNames.KeptIff | cupti/src/cupti_agent.c:553-600 | for one own filter, both passes together agree with its meaning on characters if and only if, for containment, the literal is absent or ends within the stored bytes, for a suffix or exact filter, the name is shorter than 128 bytes or its stored part, if another filter admitted it, is judged alike; prefixes always agree |
| StoredNames.EnqueuedIff | cupti/src/cupti_agent.c:553-600 | for any list of filters a record is enqueued exactly when one of its own means its name, if and only if some own filter keeps a meant name or all rightly refuse another |
| StoredNames.ShortNamesJudged | cupti/src/cupti_agent.c:553-600 | a name shorter than 128 bytes is enqueued if and only if some own filter means it, whatever the filters |
| StoredNames.KernelLoweredIff | cupti/src/cupti_agent.c:388-402 | end to end for kernel names of every length: the record is enqueued exactly when the pattern matches, if and only if that condition holds of the first 127 bytes |
| StoredNames.RangeLoweredIff | cupti/src/cupti_agent.c:404-445 | the same for range names with the whole characters that fit in 127 bytes |
| StoredNames.StoredNamesMisjudged | cupti/src/cupti_agent.c:574-600 | a name of 128 letters whose last is the literal passes containment in full and fails as stored; an exact filter for its first 127 letters keeps it if another filter admits it |
| NameFilter.CompleteHint | xprobe/cli/src/main.rs:3221-3237 | the hint for a completely stored kernel name lowers to exactly that name |
| NameFilter.CutHint | xprobe/cli/src/main.rs:3221-3237 | the hint for a cut kernel name lowers to that name as a prefix |
| SyscallAggregate.Probe.constructor | bpf/xprobe.bpf.c:185-204 | the maps start empty |
| SyscallAggregate.Probe.AggregateEntry | bpf/xprobe.bpf.c:431-459 | stores the start under its thread and counts the entry, or counts a drop |
| SyscallAggregate.Probe.AggregateExit | bpf/xprobe.bpf.c:461-524 | takes the thread's start out, counts the exit, and adds the duration to the CPU's slot of the group, or counts a drop or an unmatched exit |
| SyscallAggregate.Run | bpf/xprobe.bpf.c:431-524 | after every run each slot is the fold of the samples of its system call on its CPU, and entries and exits are conserved |
| SyscallAggregate.RunConserves | bpf/xprobe.bpf.c:431-524 | in every run group counts plus group drops equal the matched exits, and entries equal exits plus calls in flight plus overwritten and evicted starts |
| SyscallAggregate.RunSums | bpf/xprobe.bpf.c:431-524 | in every run the sum over a group's CPUs is the CPU-blind fold of its samples |
| SyscallAggregate.RunReports | xprobe/collector/src/syscall_aggregate.rs:301-368 | what is reported of any run: count, errors and total of a group are those of its samples up to saturation, the maximum is theirs, and the minimum is theirs if and only if no duration is zero or the last one on some CPU is |
| SyscallAggregate.FoldMeans | bpf/xprobe.bpf.c:505-522 | a slot counts its samples and the failed ones, adds up their durations and holds the longest |
| SyscallHistory.SamplesAreCalls | bpf/xprobe.bpf.c:431-524 | in every run the samples are the calls in its steps, in the order of the exits: an exit with the last stored entry of its thread, no entry, exit or eviction of the thread between, the difference of their clocks as duration; a call is sampled if and only if its group was admitted or known |
| SyscallHistory.InflightIsOpen | bpf/xprobe.bpf.c:431-459 | the starts in flight are those that the steps left open |
| SyscallHistory.CountersTell | bpf/xprobe.bpf.c:431-524 | entries, exits, unmatched exits and drops are those of the steps |
| SyscallAggregate.SumGroup | xprobe/collector/src/syscall_aggregate.rs:341-368 | the loop returns the saturated sums, the least minimum and the greatest maximum of the slots in use |
| SyscallAggregate.SumIsCpuBlind | xprobe/collector/src/syscall_aggregate.rs:341-368 | count, errors, total and maximum summed over the CPUs are those of all samples in any distribution over CPUs |
| SyscallAggregate.SlotMinimumIff | bpf/xprobe.bpf.c:518-520 | a slot's minimum is right if and only if no duration is zero or the last one is |
| SyscallAggregate.GroupMinimumIff | xprobe/collector/src/syscall_aggregate.rs:341-368 | across CPUs the minimum is right if and only if no duration is zero or some CPU's last one is |
| SyscallAggregate.ZeroForgotten | bpf/xprobe.bpf.c:518-520 | a zero duration followed by a longer one is forgotten |
| CompletedMerge.Merge | xprobe/collector/src/completed.rs:164-231 | succeeds if and only if all counter sums fit 64 bits and all events belong to one process; returns the specified merge, or the error of the first capture that cannot be added: overflow if its counters overflow a sum, else the first event of another process |
| CompletedMerge.MergedEvents | xprobe/collector/src/completed.rs:220-230 | the merged events are in time order, a stable permutation of the inputs up to identifiers, and the event at each position has that sequence number, its identifier and the session |
| CompletedMerge.MergedCounters | xprobe/collector/src/completed.rs:176-204 | the merged counters are the sums over the captures; it failed if one did, its limit is the largest one reached, and its statistics are complete if all are |
| CompletedMerge.MergeInStages | xprobe/collector/src/completed.rs:164-231 | merging any grouping in two stages succeeds if and only if merging at once does, and gives the same capture |
| IntervalUnion.IntervalUnionNs | skills/xprobe-measure-latency/scripts/analyze_trace.py:51-63 | the sweep returns the number of instants that at least one interval covers, for intervals in any order |
| IntervalUnion.CoveredIff | skills/xprobe-measure-latency/scripts/analyze_trace.py:51-63 | the counted instants are exactly those inside some interval |
| IntervalUnion.AtMostDurations | skills/xprobe-measure-latency/scripts/analyze_trace.py:51-63 | the union is at most the sum of the durations |
| IntervalUnion.AtMostStretch | skills/xprobe-measure-latency/scripts/analyze_trace.py:51-63 | the union is at most any stretch of time that holds all intervals |

## Left out

- Weak memory: atomics are sequentially consistent, while the agent uses release and acquire orders (section 7.17.3 of C11); completeness at quiescence relies on this between the ready store and the committed load.
- Re-arming: one armed epoch, with no reset while producers run.
- Counter widths in the record buffer: the reservation count is unbounded; the aggregate table models 64-bit overflow and its failure path.
- The header's state, stop reason and drop counters are read in one step, after the two counts, which are separate steps.
- Hash functions: uninterpreted but for their range, at least 2 for aggregate slots and 3 for NVTX slots.
- Concurrent starts of one NVTX range: the table's operations run one after another, as range ids are unique while open.
- Callbacks, sockets, files, flushing and the quiet period before a stop: each callback is a producer step, each request a client step.
- The byte layout of headers and records, and the clock-alignment flag of a capture.
- The live baseline timestamp filter, which depends on when arming returned: the drained records are those before it.
- Kernel names are cut without regard to character boundaries; a name cut inside a character is rejected by the decoder, so a clean run is one whose stored kernel names are nonempty and valid UTF-8, with no drop and no overflow.
- NameFilter.LoweredFilterAgrees: covers patterns of anchors, `.*`, literal characters and escapes of ASCII punctuation; a backslash before `<` or `>` is a word boundary to the regular-expression engine but a literal to the lowering, and is outside.
- The fields of a filter beside the name: filters of another activity, API domain or copy direction are not in the list that is searched, a capture armed without filters keeps everything, and API callbacks that no filter can accept are not subscribed to.
- Selector parsing, option validation, clock domains, latency statistics, scores and warnings.
- SyscallAggregate.Run: handlers are single steps, so a group created on two CPUs at the same moment is not modelled; slot counters are unbounded, and only the 64-bit clock difference wraps.
- Whether the kernel's maps accept an update and which starts they evict: parameters of each step.
- IntervalUnion.IntervalUnionNs: intervals have start ≤ end; the script builds them from paired events and does not check.
- Injection, discovery, symbol lookup, CPU stacks, export formats and the command line.
