# nanosig, modelled and proved in Dafny

nanosig is a C11 signal/slot library: emitting a signal queues one slot call per connection on the ring of the
connection's event loop, a broker thread waits for watched handles and fires timers, and a few intrusive containers
carry all of this. This project models the parts whose correctness is not visible from any single function body and
proves what they promise over all inputs, all interleavings and all runs.

`dafny verify dfyconfig.toml` checks the whole project.

## The modules

| files | what they hold |
|---|---|
| `RecordWords`, `RecordFormat`, `RecordRing`, `RecordRingInvariant`, `RecordRingSteps`, `RecordRingTheorems`, `RecordRingOutcome` | the multi-producer, single-consumer record ring: raw bytes of storage, header words in both layouts, one step per atomic access or copied part, any number of producers |
| `RecordRingWrapped`, `RecordRingStale` | the same ring on counters that wrap at `SIZE_MAX + 1`, tied step by step to the one above; and what a producer does whose position is a full wrap old |
| `RbTree` | the intrusive red-black tree as heap objects, rebalanced in place |
| `Buckets`, `HashTable` | the hash table with doubling growth and lazy rehashing over an array of bucket lists |
| `WrappedTime`, `Timer` | wrapped 64-bit time and the timer manager, built on the tree of `RbTree` |
| `BrokerOps`, `TimerWakeup` | the broker thread against threads that add or remove watchers, and the whole broker: the same machine with threads that arm timers, around its one event |
| `LoopWakeup` | a loop thread, its record ring and its emitters: the machine of `RecordRing` composed with a sticky wakeup |
| `SignalEmit`, `SignalOrder` | connections and emission: one emit as its caller sees it, and any number of emits interleaved |
| `ByteRing`, `ByteRingShared` | the byte ring of any size by the mirror method, in place and with one writer and one reader interleaved |
| `OutStream`, `Format`, `FormatStandard` | output streams; the integer, character, string and array conversions; and where the integer ones meet the C standard |
| `Arithmetic` | remainders and powers of two |

Two shapes occur. Code that one thread runs on its own data is a class or a method over arrays, sequences and objects,
proved against a specification of its contents. Code whose point is the interaction of threads is a state machine:
a `State`, a `Step` for every atomic action and mutex section, a `Run` over any list of actions, an invariant every
step keeps, and theorems about every run. The record ring is the second kind, because its loads, stores and
compare-and-swaps are its whole content; the tree, the tables and the timer manager are the first.

## How the model reads the C code

- Atomic accesses are sequentially consistent. A mutex section is one step. A wakeup or an event is a flag that stays
  set until a wait or a drain consumes it. A wait may return any registered watchers, at most the sixteen that the
  completion array holds.
- Ring positions are unbounded in `RecordRing`. `RecordRingWrapped` is the ring on the words the code has;
  `RecordRingWrapped.StepOnWords` says exactly which of its steps differ, those of a producer whose position is a full
  wrap old, and `RecordRingStale` follows what these do.
- `x & mask` with a mask one below a power of two is the remainder by `mask + 1`.
- `parent_and_color` is two fields; an unlinked node is its own parent. Each rotation that the C code spells out inside
  a case is one method that performs the same link writes. The comparison function of a tree is passed with the call,
  as the timer's comparison depends on the clock sample of the moment; it has to be a total preorder on the keys in
  the tree, which the C file demands of its callers. `order`, `idx`, `lo`, `hi` and `bh` only observe:
  `RbTree.Tree.WalkIsOrder` and `RbTree.Tree.PathsAgree` tie them to the links and colours alone.
- The bucket of a node, `at`, stands for its list links. `Unmade` is a bucket head whose `next` is NULL.
- Timer deadlines and clock samples are 64-bit words; `due` and `clock` are the true times behind them. Operations
  require every armed deadline to be less than 2^63 microseconds from the sample (`InTime`), which is exactly where the
  signed difference is the true one.
- Results of the platform (allocation, clock, pushes, waits, drains, wakeup and event signals, the broker's locks) are
  parameters, and a result that the code discards is followed to where it leads.

## Where the code falls short of its promise

Where code and comments differ, the code is modelled. Each of these has a lemma with a failing input and one that says
exactly when the promise holds.

- A broker wakeup can be lost: the broker discards the result of computing its timeout and of a notification's event
  signal, and gives up its drain when a lock fails (`TimerWakeup.FailedComputeSleepsForever`,
  `TimerWakeup.NotifyIsNeeded`, `BrokerOps.FailedLockLosesRequest`). `TimerWakeup.NoLostWakeup` names the harmful cases:
  no wakeup is lost if and only if none of them occurs.
- A caller of the broker can wait for ever: the result of signalling it is discarded
  (`BrokerOps.FailedSignalBlocksCaller`, `BrokerOps.DeafForEver`). `BrokerOps.ReturnsExactly`: once its request was
  executed it can return if and only if that signal succeeded.
- A loop wakeup can be lost in the same way: an emit discards the result of its wakeup signal, and a quit whose signal
  fails tells its caller but leaves the flag set (`LoopWakeup.FailedSignalLosesRecord`,
  `LoopWakeup.FailedSignalLosesQuit`, `LoopWakeup.NoLostLoopWakeup`).
- A quit request that comes between the loop's look at the flag and its reset is overwritten, as the comment at
  `src/nanosig.c:374-383` admits: `LoopWakeup.LateQuitIsLost` is such a run, and `LoopWakeup.OverwrittenQuit` says that
  no other request is.
- A watcher that is added again stays registered but loses its user data, so its handler is no longer called, although
  its caller was told that it exists: `BrokerOps.DuplicateAddMutes` is such a run, and `BrokerOps.StepAddressed` says
  that nothing else does this.
- `QUEUE_FULL` does not mean full: an empty ring can give it (`RecordRingTheorems.FullOnEmptyRing`), and
  `RecordRingTheorems.QueueFullExactly` says when it is wrong.
- A producer that sleeps through a full wrap of the counters between planning and its swap can win the swap by its old
  word, while another producer has not published or although no room is left
  (`RecordRingStale.LappedSwapBreaksRing` is such a run). `RecordRingStale.SoundExactly`: the ring on words keeps its
  invariant over a run if and only if no step was such a swap; all other stale plans and swaps are harmless.
- The comment at `src/ns_timer.c:454-457` argues from a restarted deadline never lying before the old one. It lies there
  exactly if the interval is shorter than the remaining time (`TimerWakeup.RestartMayComeEarlier`);
  `TimerWakeup.NoLostWakeup` does not need it.
- Integer conversions deviate from section 7.19.6.1 of ISO/IEC 9899:1999 for zero with precision zero, zero with `#`, an
  octal precision with `#`, and a sign on an unsigned conversion (`FormatStandard.ZeroPrintsADigit`,
  `FormatStandard.ZeroGetsAPrefix`, `FormatStandard.OctalPrefixAddsToPrecision`, `FormatStandard.UnsignedGetsASign`);
  `FormatStandard.StandardExactly` says exactly when they do not.

## Model

| member | source | states |
|---|---|---|
| RecordFormat.MetaRoundTrip | src/ds/ns_mpsc_record_ring.c:59-97 | decoding a header word gives back validity, kind, stride and padding, in both word-size layouts |
| RecordFormat.CapacityFacts | src/ds/ns_mpsc_record_ring.c:115-130 | an admitted capacity is a multiple of the alignment, so is half of it, and it divides the counter range |
| RecordFormat.PlanPushFits | src/ds/ns_mpsc_record_ring.c:197-240 | a plan claims aligned bytes inside the free space, the record contiguous, behind a marker up to the end of storage exactly if it does not fit before it, every stride within its field |
| RecordFormat.EmptyRingAcceptsMaxRecord | src/ds/ns_mpsc_record_ring.c:324-334 | an empty ring accepts a record at every aligned offset if and only if it is no larger than the maximum record size |
| RecordFormat.WrappedPlanAgrees | src/ds/ns_mpsc_record_ring.c:160-240 | planning on wrapped counters is planning on the true positions, also for a pair in which the reader has overtaken |
| RecordFormat.AddPartSizes | src/ds/ns_mpsc_record_ring.c:364-371 | the overflow check on the sum of the part sizes accepts exactly the lists whose true sum fits size_t |
| RecordWords.WordRoundTrip | src/ds/ns_mpsc_record_ring.c:149-157 | a header word stored as bytes loads as the same word |
| RecordRingSteps.ReserveKeeps | src/ds/ns_mpsc_record_ring.c:386-398 | the winning compare-and-swap appends one record to the history and keeps the invariant |
| RecordRingSteps.FillMarkerKeeps | src/ds/ns_mpsc_record_ring.c:406-409 | storing the wrap marker touches no other record |
| RecordRingSteps.FillClearKeeps | src/ds/ns_mpsc_record_ring.c:411 | clearing the header, over whatever stale payload lies there, keeps the invariant |
| RecordRingSteps.FillPublishKeeps | src/ds/ns_mpsc_record_ring.c:414 | storing write_pos publishes whole records only |
| RecordRingSteps.FillCopyKeeps | src/ds/ns_mpsc_record_ring.c:167-182 | copying one part extends the stored payload by exactly that part and touches no other record |
| RecordRingSteps.FillCommitKeeps | src/ds/ns_mpsc_record_ring.c:419-421 | the committing header store makes a completely written record readable |
| RecordRingSteps.AcquireKeeps | src/ds/ns_mpsc_record_ring.c:428-475 | the loads of an acquire keep the invariant and lead to the head record, the marker ahead of it, or nothing |
| RecordRingSteps.ReleaseKeeps | src/ds/ns_mpsc_record_ring.c:492-538 | the checks of a release pass for the loaned record |
| RecordRingSteps.StepKeeps | src/ds/ns_mpsc_record_ring.c:350-543 | every step of every thread keeps the ring invariant |
| RecordRingTheorems.DeliveredIsPrefix | src/ds/ns_mpsc_record_ring.c:350-543 | in every run the released records are a prefix of the pushed payloads in winning order, each once, byte for byte |
| RecordRingTheorems.HistoryGrowsByWinners | src/ds/ns_mpsc_record_ring.c:386-398 | the history grows by exactly the payload of the winner, the concatenation of its parts, and by nothing else |
| RecordRingTheorems.PositionsOrdered | src/ds/ns_mpsc_record_ring.c:374-421 | read_pos <= write_pos <= reserve_pos <= read_pos + capacity, and at most one producer is between its swap and its publication |
| RecordRingTheorems.NeverCorrupt | src/ds/ns_mpsc_record_ring.c:450-469 | no acquire or release ever takes a corruption, stride or decoding exit |
| RecordRingTheorems.LoanIsIntact | src/ds/ns_mpsc_record_ring.c:471-473 | whatever producers do, the loaned bytes are the oldest unreleased payload |
| RecordRingTheorems.FillersAreDisjoint | src/ds/ns_mpsc_record_ring.c:165-240 | two unreleased reservations never share a byte of storage: not their records, not an unread marker |
| RecordRingTheorems.WritesStayInside | src/ds/ns_mpsc_record_ring.c:401-423 | a producer's step changes only bytes of its own reservation |
| RecordRingTheorems.OthersUntouched | src/ds/ns_mpsc_record_ring.c:401-423 | so it never changes another unreleased record or unread marker, nor the record on loan |
| RecordRingTheorems.ConsumerProgress | src/ds/ns_mpsc_record_ring.c:438-542 | with the head record committed every consumer step comes closer to releasing it |
| RecordRingTheorems.DrainDeliversAll | src/ds/ns_mpsc_record_ring.c:428-543 | with no push in flight the consumer alone delivers every record ever pushed |
| RecordRingTheorems.PushAloneReturnsOk | src/ds/ns_mpsc_record_ring.c:350-425 | a push of any admitted record into an empty ring, with no other producer running, returns NS_OK; RecordRingOutcome.PushAnswers is the answer among competing producers |
| RecordRingOutcome.PushAnswers | src/ds/ns_mpsc_record_ring.c:350-425 | in every run, from the start of a push to its first return, whatever others do meanwhile: NS_OK if and only if exactly one record of it with its payload joined the history and is committed; QUEUE_FULL or INVALID if and only if none joined; INVALID exactly for a payload above the maximum, QUEUE_FULL only from a planning step that was refused; no parts count as an empty one |
| RecordRingOutcome.PushReturns | src/ds/ns_mpsc_record_ring.c:374-398 | once its competitors have published and rest, a push returns by its own steps, whatever it has lost before: NS_OK if it will swap at the end of the ring or there is room for its record, QUEUE_FULL otherwise |
| RecordRingOutcome.SwapAnswers | src/ds/ns_mpsc_record_ring.c:386-398 | a swap adds one record of this push, or the push plans again |
| RecordRingOutcome.AcquireAnswers | src/ds/ns_mpsc_record_ring.c:428-478 | an acquire ends with NS_OK if and only if a record is on loan then, with EMPTY if and only if none is |
| RecordRingTheorems.PushThenDrain | src/ds/ns_mpsc_record_ring.c:350-543 | round trip: what is pushed into an empty ring comes out next |
| RecordRingTheorems.ClaimGrows | src/ds/ns_mpsc_record_ring.c:218-227 | an equal record planned at a later write position never ends earlier, although the marker before it may vanish |
| RecordRingTheorems.QueueFullExactly | src/ds/ns_mpsc_record_ring.c:379-384 | QUEUE_FULL comes exactly when the reader has overtaken the loaded write position or the room is too small; in the second case there is no room now either, so it is wrong exactly when the reader has overtaken the loaded position and there is room |
| RecordRingTheorems.FullOnEmptyRing | src/ds/ns_mpsc_record_ring.c:379-384 | a run in which a push into an empty ring reports QUEUE_FULL |
| RecordRingWrapped.OvertakenPlan | src/ds/ns_mpsc_record_ring.c:160-240 | planning on words with a pair in which the reader has overtaken finds room exactly when the wrapped difference leaves some |
| RecordRingWrapped.ChecksOnWords | src/ds/ns_mpsc_record_ring.c:446-454 | the `used` checks of acquire and release on words decide as on positions and pass on the same value |
| RecordRingWrapped.DecodesOnWords | src/ds/ns_mpsc_record_ring.c:456-475 | so do the header and stride checks |
| RecordRingWrapped.StepOnWords | src/ds/ns_mpsc_record_ring.c:350-543 | a step on wrapping counters is the step on positions seen through the words, unless its producer plans or swaps with a position a full wrap old that finds room, or its own word again: exactly then it differs |
| RecordRingWrapped.RecentIsEnough | src/ds/ns_mpsc_record_ring.c:374-398 | a producer whose position is less than SIZE_MAX + 1 less one capacity old is not deceived |
| RecordRingWrapped.RunsOnWords | src/ds/ns_mpsc_record_ring.c:350-543 | every run in which no producer is deceived is the run on positions seen through the words |
| RecordRingStale.FollowsPlan | src/ds/ns_mpsc_record_ring.c:379-384 | a plan made on words with a pair in which the reader has overtaken claims only storage that is free: the ring is still in one of its states |
| RecordRingStale.FollowsSwap | src/ds/ns_mpsc_record_ring.c:386-398 | so is it after a swap won by an old word, if the record has room where the ring ends now and no other producer is unpublished |
| RecordRingStale.WordStepKeeps | src/ds/ns_mpsc_record_ring.c:350-543 | a step on wrapping counters leads to the words of a state of the ring if and only if it is not a stale swap that claims more than the room left or overtakes an unpublished record |
| RecordRingStale.SoundExactly | src/ds/ns_mpsc_record_ring.c:350-543 | the same over runs: all states on words are words of states of the ring if and only if no step was such a swap |
| RecordRingStale.WordsDeliverPrefix | src/ds/ns_mpsc_record_ring.c:350-543 | without such a swap, over the wrapping counters too, the consumer sees a prefix of the pushed payloads and never an error, one producer at most is unpublished, and no more than the capacity is reserved |
| RecordRingStale.LappedSwapBreaksRing | src/ds/ns_mpsc_record_ring.c:374-398 | for every capacity a run in which a producer sleeps through a wrap before its swap, and after it two producers are between swap and publication |
| RbTree.Tree.RotateLeft | src/ds/ns_rbtree.c:80-88 | a left rotation keeps every link and every subtree's stretch of the sequence, and changes only the three links around x |
| RbTree.Tree.RotateRight | src/ds/ns_rbtree.c:80-88 | the mirror image |
| RbTree.Tree.ChangeChild | src/ds/ns_rbtree.c:31-41 | the one link that led to the old node leads to the new one |
| RbTree.Tree.InsertFixup | src/ds/ns_rbtree.c:90-221 | from a tree whose only fault is a red node below a red parent, all red-black rules hold again; every case terminates |
| RbTree.Tree.FlipColors | src/ds/ns_rbtree.c:122-142 | case 1 moves the only fault two levels up |
| RbTree.Tree.InnerRotateLeft | src/ds/ns_rbtree.c:144-168 | case 2 turns an inner red grandchild into an outer one |
| RbTree.Tree.OuterRotateRight | src/ds/ns_rbtree.c:180-185 | case 3 removes the fault |
| RbTree.Tree.Link | src/ds/ns_rbtree.c:65-72 | a node hung at an empty link enters the sequence at that place and breaks at most the red rule at itself |
| RbTree.Tree.Descend | src/ds/ns_rbtree.c:595-609 | the search ends at the empty link of the stable place and knows whether it is the first |
| RbTree.Tree.Add | src/ds/ns_rbtree.c:595-617 | the node goes behind every node that does not compare greater; order, rules and leftmost hold; returns the node exactly if it became the first |
| RbTree.Tree.FindAdd | src/ds/ns_rbtree.c:620-645 | returns an equal node if there is one and changes nothing, otherwise adds the node in its stable place |
| RbTree.Tree.SpliceOut | src/ds/ns_rbtree.c:411-434 | unlinking a node with at most one child; says exactly where one black node is missing |
| RbTree.Tree.ReplaceBySuccessor | src/ds/ns_rbtree.c:435-494 | unlinking a node with two children: the successor takes its place and colour; says where a black node is missing |
| RbTree.Tree.Unlink | src/ds/ns_rbtree.c:403-497 | exactly that node leaves the sequence |
| RbTree.Tree.LiftRedRight | src/ds/ns_rbtree.c:242-259 | erase case 1: the short side gets a black sibling under a red parent |
| RbTree.Tree.RecolourSibling | src/ds/ns_rbtree.c:263-290 | erase case 2, both sides: the fault is repaired or moves one level up |
| RbTree.Tree.LiftInnerLeft | src/ds/ns_rbtree.c:318-326 | erase case 3 prepares case 4 |
| RbTree.Tree.FillLeft | src/ds/ns_rbtree.c:340-348 | erase case 4 restores all rules |
| RbTree.Tree.EraseFixup | src/ds/ns_rbtree.c:227-401 | from a tree one black node short on one side, all red-black rules hold again; every case terminates |
| RbTree.Tree.Del | src/ds/ns_rbtree.c:510-522 | exactly the node leaves the sequence, all rules and the order hold, and the result is the new first node if the removed one was first |
| RbTree.Tree.Next | src/ds/ns_rbtree.c:536-565 | the next node of the sequence; null at the end and for an unlinked node |
| RbTree.Tree.Prev | src/ds/ns_rbtree.c:567-593 | the previous node of the sequence |
| RbTree.Tree.Last | src/ds/ns_rbtree.c:524-534 | the last node of the sequence |
| RbTree.Tree.FindFirst | src/ds/ns_rbtree.c:702-721 | the first matching node of the sequence, or null exactly if none matches |
| RbTree.Tree.NextMatch | src/ds/ns_rbtree.c:749-756 | the next node exactly if it still matches |
| RbTree.Tree.WalkIsOrder | src/ds/ns_rbtree.c:536-565 | the in-order walk over the links alone is the abstract sequence |
| RbTree.Tree.PathsAgree | src/ds/ns_rbtree.c:227-401 | all paths down from a node carry the same number of black nodes |
| RbTree.Tree.HeightBound | src/ds/ns_rbtree.c:90-221 | height at most 2 * log2(size + 1) |
| Buckets.NearestIsAncestor | src/ds/ns_hashtbl.c:115-122 | the search over smaller masks ends at the longest initialised suffix of the index |
| Buckets.NearestStable | src/ds/ns_hashtbl.c:123-136 | initialising buckets that all waited on one ancestor moves no hash that was filed elsewhere |
| Buckets.NearestDouble | src/ds/ns_hashtbl.c:69-106 | doubling with an uninitialised upper half leaves every hash where it was |
| HashTable.HashOf | src/ds/ns_hashtbl.c:31-42 | the FNV-1a loop is the fold of its step over the key |
| HashTable.FnvVectors | src/ds/ns_hashtbl.c:28-42 | the published test vectors of FNV-1a for the empty string, "a" and "foobar" |
| HashTable.Table.Create | src/ds/ns_hashtbl.c:350-383 | for every configured minimum size: null exactly for a load factor that is not a positive number or a failed allocation; the threshold is the clamped share of the minimum size |
| HashTable.Table.FindAncestor | src/ds/ns_hashtbl.c:115-122 | the loop finds the nearest initialised ancestor |
| HashTable.Table.TryRemake | src/ds/ns_hashtbl.c:108-138 | afterwards the bucket is initialised, every node lies in its nearest initialised ancestor, and no node was lost or gained; also right after one node's hash changed |
| HashTable.Table.Resize | src/ds/ns_hashtbl.c:69-106 | doubles size and threshold keeping every node placed, refuses at 2^31 buckets, and changes nothing on failure |
| HashTable.Table.Insert | src/ds/ns_hashtbl.c:244-265 | EXISTS for a linked node, NOMEM exactly when growth is due and impossible, otherwise the node is added; failures change nothing |
| HashTable.Table.Remove | src/ds/ns_hashtbl.c:233-275 | exactly this node leaves |
| HashTable.Table.FindListHead | src/ds/ns_hashtbl.c:277-286 | the list holds every linked node with the key's hash |
| HashTable.Table.Find | src/ds/ns_hashtbl.c:300-321 | OK with such a node exactly if a linked node has this key, although the search moves nodes |
| HashTable.Table.KeyRefresh | src/ds/ns_hashtbl.c:215-231 | a node whose key changed gets its hash and its place back |
| HashTable.Table.Renew | src/ds/ns_hashtbl.c:192-213 | the new node stands in the very place of the old one with its key and hash; nothing changes on failure |
| HashTable.Table.RoomToDouble | src/ds/ns_hashtbl.c:77-80 | below the limit a doubled size is a power of two that still fits |
| WrappedTime.RemainingIsTrue | src/ns_timer.c:50-53 | the signed wrapped difference is the true one if and only if the two times are less than 2^63 apart |
| WrappedTime.CompareIsTrueOrder | src/ns_timer.c:55-65 | within that reach the comparison is the order of true deadlines, whatever the clock sample |
| WrappedTime.SortedStaysSorted | src/ns_timer.c:55-65 | a queue sorted at one sample is sorted at every later one, across the wrap of the counter |
| WrappedTime.GridKept | src/ns_timer.c:335-341 | a repeating timer stays on start + k * interval if and only if it is never fired a whole interval late |
| Timer.NextExpireIsNextDue | src/ns_timer.c:332-342 | the reload arithmetic on wrapped words gives the true next deadline, which lies in the future and within reach |
| Timer.DuesAfterPass | src/ns_timer.c:332-342 | the queue a firing pass leaves gives each timer of the old one its place and deadline by the reload policy, in terms of its own fields |
| Timer.Manager.Enqueue | src/ns_timer.c:153-158 | the timer stands behind everything not due later, and the result says whether it became the leftmost |
| Timer.Manager.Start | src/ns_timer.c:141-160 | result codes, deadline one interval from the sample, place, and notification exactly for a new first timer |
| Timer.Manager.Cancel | src/ns_timer.c:162-176 | the timer leaves; notification exactly if another timer moved to the front |
| Timer.Manager.Restart | src/ns_timer.c:424-460 | the old deadline goes first, then as for start; a failing clock leaves the timer stopped; the new deadline is no earlier than the old one exactly if the interval covers the remaining time |
| Timer.Manager.NextTimeout | src/ns_timer.c:256-285 | NO_TIMER exactly for an empty queue, otherwise the larger of zero and earliest deadline minus now |
| Timer.Manager.FireExpired | src/ns_timer.c:303-355 | fires exactly the timers due at the sample, each once, in queue order; afterwards a timer is queued if and only if it was and was not due or repeats; one that was fired is due one interval from the sample if it reloads from now or its old deadline plus interval is not after the sample, otherwise at its old deadline plus interval, and the others keep theirs; nothing is due; reports the first emit error |
| Timer.Manager.FireFirst | src/ns_timer.c:315-347 | one round of the firing loop |
| Timer.Manager.SortedAt | src/ns_timer.c:55-65 | the tree is sorted for the comparison at every sample all deadlines are in reach of |
| Timer.Round | src/ns_timer.c:314-348 | one firing moves the head from the due part to its place among the later timers |
| TimerWakeup.NoLostWakeup | src/ns_broker.c:403-459 | in every run no wakeup is ever lost if and only if no step was harmful: while none is lost, a sleeping broker's event is set if a request waits, and the deadline its sleep was computed from is no later than every armed one, or the event is set, or a thread is between unlock and notify |
| TimerWakeup.StepLoses | src/ns_broker.c:198-205 | one step loses a wakeup exactly if it computes the timeout in vain with a timer armed, event clear and nobody notifying, or is the failing signal of the last notifier before too long a sleep, or gives up the drain with a request waiting and the event clear |
| TimerWakeup.NoFailureNoLoss | src/ns_broker.c:403-459 | a run in which no computing failed with a timer armed, no notification and no drain failed loses nothing |
| TimerWakeup.RunsTheProtocol | src/ns_broker.c:403-464 | every run of the broker with its timers is a run of the request protocol, so its theorems hold there too |
| TimerWakeup.FailedComputeSleepsForever | src/ns_broker.c:409-416 | a reachable broker that sleeps for ever with a timer armed after one failing computation |
| TimerWakeup.RestartMayComeEarlier | src/ns_timer.c:454-457 | a restarted deadline lies before the old one exactly if the interval is shorter than the remaining time, and it can |
| TimerWakeup.NotifyIsNeeded | src/ns_broker.c:198-205 | a run in which one failing notification of a new leftmost timer leaves the broker asleep past its deadline |
| TimerWakeup.NotifiesExactly | src/ns_timer.c:153-176 | a thread comes to notify exactly by arming a timer before all others, or by cancelling the first of several |
| TimerWakeup.ArmsExactly | src/ns_timer.c:153-176 | a step arms or disarms only the timer it is about, and moves no other deadline |
| TimerWakeup.FirstPlaceIsBecomesFirst | src/ns_timer.c:154-158 | the first place in the queue means that everything else is due later |
| BrokerOps.RequestsAreServed | src/ns_broker.c:217-397 | every accepted request has its result, is in hand or waits; they are executed once each in queue order; the one in hand is live and its caller waits |
| BrokerOps.BrokerServesAll | src/ns_broker.c:358-464 | from every reachable state that has not lost a wakeup the broker's own steps execute all accepted requests and signal their callers, in a bounded number of steps |
| BrokerOps.FailedLockLosesRequest | src/ns_broker.c:365 | a reachable broker that sleeps with its event clear while a request waits, after one failing lock |
| BrokerOps.StepAwakened | src/ns_broker.c:365 | a waiting request loses its wakeup exactly if the drain gives up on a failing lock after the event was cleared |
| BrokerOps.OwnResult | src/ns_broker.c:476-506 | a caller returns only after its own request was executed, with its result, and the broker never touches the request again |
| BrokerOps.ReturnsExactly | src/ns_broker.c:250-266 | a caller whose request was executed can return if and only if the signal to it succeeded |
| BrokerOps.SubmitAsks | src/ns_broker.c:217-234 | a submit that got through asks for its very operation on its very watcher and its caller waits for just that request, unchanged in every later state; one that failed returns its own code and leaves no trace |
| BrokerOps.DeafForEver | src/ns_broker.c:395 | a caller whose signal failed waits for ever, whatever happens after |
| BrokerOps.FailedSignalBlocksCaller | src/ns_broker.c:395 | a reachable caller whose request succeeded and that waits for ever |
| BrokerOps.NoCallAfterRemove | src/ns_broker.c:299-351 | every handler call is for a watcher registered since its event was collected and not removed in between |
| BrokerOps.AddedBetween | src/ns_broker.c:299-351 | between a removal and a call of the same watcher lies an addition |
| BrokerOps.DispatchDelivers | src/ns_broker.c:335-351 | a dispatch pass calls exactly the collected watchers that were not nulled or stripped, in order |
| BrokerOps.SubmitKeeps | src/ns_broker.c:217-234 | enqueueing and signalling under the lock, or leaving no request behind, keeps the invariant |
| BrokerOps.ExecuteKeepsLog | src/ns_broker.c:274-323 | executing a request appends exactly its own effect, and a removal leaves no completion of its watcher |
| BrokerOps.ExecuteAnswers | src/ns_broker.c:274-323 | in every run an executed addition succeeds if and only if its watcher is initialised, not registered by the log and accepted by the platform, a removal if and only if it is initialised, registered and accepted, each failure with its code; success leaves the watcher registered or not, as asked, failure and other watchers leave all as it was |
| BrokerOps.StepAddressed | src/ns_broker.c:280-290 | a step keeps that exactly the registered watchers have their user data set if and only if it executes no duplicate addition |
| BrokerOps.CollectedIsCalled | src/ns_broker.c:335-351 | in every run without a duplicate addition each collected completion that no removal nulled is dispatched to its handler |
| BrokerOps.DuplicateAddMutes | src/ns_broker.c:280-290 | a reachable broker with a registered watcher that has no user data, after a duplicate addition |
| BrokerOps.EventExactly | src/ns_broker.c:217-234 | the event is set by a submit or notification that got through, and cleared only by draining it after a wait returned it |
| BrokerOps.StepKeeps | src/ns_broker.c:403-464 | every step of the broker and its callers keeps the invariant |
| LoopWakeup.EmptyMeansUncommitted | src/ds/ns_mpsc_record_ring.c:455-459 | an acquire returns without a record only when the head record is not committed |
| LoopWakeup.NoLostLoopWakeup | src/nanosig.c:327-371 | in every run no wakeup is lost if and only if no signal failure was harmful; then a loop blocked with a committed head record has an emitter between commit and signal, whatever order records were committed in, and a quit request is not lost on a blocked loop |
| LoopWakeup.PushKeeps | src/nanosig.c:663-682 | pushing, then signalling after success only, keeps the wakeup coming |
| LoopWakeup.LoopKeeps | src/nanosig.c:351-371 | dispatch, quit check and wait keep it too; what becomes of a quit request is LoopWakeup.QuitStops |
| LoopWakeup.NextKeeps | src/nanosig.c:351-407 | every event, the failing wait and the failing signals included, keeps the machine sound, and exactly the harmful signal failures lose a wakeup |
| LoopWakeup.FailedSignalLosesRecord | src/nanosig.c:679-681 | a reachable loop that is blocked before a committed record with no emitter left to wake it, after one failing signal |
| LoopWakeup.FailedSignalLosesQuit | src/nanosig.c:400-407 | a reachable loop that is blocked although it was asked to quit, after a failing signal |
| LoopWakeup.SignalWakes | src/nanosig.c:679-681 | that emitter's next step lets the loop leave its wait |
| LoopWakeup.LoopDelivers | src/nanosig.c:327-349 | a loop that is not blocked delivers its committed head record by its own steps alone |
| LoopWakeup.BlockedLoopDelivers | src/nanosig.c:327-371 | no committed record is stuck: after one step of one emitter a blocked loop delivers its head by its own steps |
| LoopWakeup.QuitStops | src/nanosig.c:351-407 | a quit request stops the loop: in every run without a harmful signal failure, a loop that has not stopped while the flag is set stops by its own steps, after the quitter's signal if it is blocked, takes the flag back, and leaves no committed record unless it was past its dispatching already |
| LoopWakeup.QuittingStops | src/nanosig.c:362-386 | a loop with the flag set that is not blocked delivers what is committed and stops, by its own steps alone |
| LoopWakeup.StopsExactly | src/nanosig.c:362-390 | the loop stops exactly by a failed wait or by taking the flag back, which it comes to exactly by finding it set; nothing else clears the flag |
| LoopWakeup.QuitStays | src/nanosig.c:362-407 | over every run the flag stays set until the loop stops for it; without a failed wait a loop that stops was asked to |
| LoopWakeup.OverwrittenQuit | src/nanosig.c:374-385 | a request is overwritten exactly if it comes between the loop's look at the flag and its reset |
| LoopWakeup.LateQuitIsLost | src/nanosig.c:374-385 | a run in which a loop stops and takes back the flag that was set anew just before |
| LoopWakeup.MustSignalExactly | src/nanosig.c:673-682 | an emitter signals exactly after a push that returned success |
| LoopWakeup.StaysBlocked | src/nanosig.c:368-371 | a blocked loop stays blocked until its wakeup is signalled or its wait fails |
| SignalEmit.Signal.Emit | src/nanosig.c:646-686 | calls are queued for exactly the first connections up to the first refused push, one each, holding the slot function and user data of its connection and the emitted bytes; a loop is woken exactly if one of their signals to it did not fail; success means that all calls are queued |
| SignalEmit.CallsOnCount | src/nanosig.c:663-682 | each connection gets exactly one call, on its own loop |
| SignalEmit.Signal.Connect | src/nanosig.c:576-600 | an emit's calls on every loop are those from before, followed on the connection's own loop by its call |
| SignalEmit.Signal.Disconnect | src/nanosig.c:602-615 | only this connection leaves |
| SignalOrder.EmitsArePrefixes | src/nanosig.c:646-686 | with emits of any signals interleaved, a successful one queues one call per connection found under the lock, a failed one a proper prefix |
| SignalOrder.EmitsKeepOrder | src/nanosig.c:657-685 | all calls of an earlier emit of a signal are queued before all of a later one, even on different loops |
| SignalOrder.EmitFindsConnected | src/nanosig.c:576-615 | the next emit finds a new connection behind all others, and does not find one that has left |
| SignalOrder.LoopsRunInOrder | src/nanosig.c:327-349 | a loop whose ring holds the pushes to it has run a prefix of these calls, each with its own bytes, those of one signal in the order of its emits |
| SignalOrder.StepKeeps | src/nanosig.c:576-686 | every step keeps the invariant behind these |
| ByteRing.DataSize | src/ds/ns_ringbuf.c:59-63 | the mirrored difference is how far w is ahead of r, and no sum wraps |
| ByteRing.Ring.Create | src/ds/ns_ringbuf.c:27-42 | rejects an empty buffer and one above a third of the counter range |
| ByteRing.Ring.Sizes | src/ds/ns_ringbuf.c:65-75 | readable and free bytes add up to the size |
| ByteRing.Ring.Write | src/ds/ns_ringbuf.c:77-107 | appends as much as fits and returns how much |
| ByteRing.Ring.DraftWrite | src/ds/ns_ringbuf.c:109-139 | overwrites exactly the drafted window of the free space and publishes nothing; RANGE exactly behind its end |
| ByteRing.Ring.WriteSkip | src/ds/ns_ringbuf.c:141-156 | publishes the drafted bytes |
| ByteRing.Ring.DraftThenSkip | src/ds/ns_ringbuf.c:109-156 | drafting at zero and skipping is writing |
| ByteRing.Ring.Read | src/ds/ns_ringbuf.c:158-188 | takes the oldest bytes |
| ByteRing.Ring.ReadSkip | src/ds/ns_ringbuf.c:190-205 | drops the oldest bytes |
| ByteRing.Ring.Peek | src/ds/ns_ringbuf.c:207-239 | a window of the readable bytes: where the asked length does not wrap, the whole contiguous stretch of them; where it wraps, a copy of exactly that length |
| ByteRing.Ring.PeekCopy | src/ds/ns_ringbuf.c:241-271 | exactly the asked window or nothing |
| ByteRing.Ring.Clear | src/ds/ns_ringbuf.c:273-279 | nothing is left to read |
| ByteRingShared.ReadsArePrefix | src/ds/ns_ringbuf.c:77-188 | for every size and every interleaving of one writer and one reader the bytes read are a prefix of the bytes written |
| ByteRingShared.WriteWritesPrefix | src/ds/ns_ringbuf.c:77-107 | a write that the reader interrupts anywhere publishes, all at once, a prefix of its data: all of it or at least the room at its start, and no more than the room there is at its end |
| ByteRingShared.ReadReadsAll | src/ds/ns_ringbuf.c:158-188 | a read that the writer interrupts anywhere takes all it asked for or at least what was readable at its start, and no more than is readable at its end |
| ByteRingShared.SumsStayBelow | src/ds/ns_ringbuf.c:30-35 | no position sum reaches three times the size |
| ByteRingShared.StepKeeps | src/ds/ns_ringbuf.c:77-188 | every load, byte copy and store keeps the invariant |
| OutStream.Stream.PutByte | src/ns_formatio.c:214-253 | the character is emitted; with a cache, a newline leaves nothing in it |
| OutStream.Stream.Finish | src/ns_formatio.c:256-292 | the write function has received everything if there is a cache cell; a memory buffer ends with NUL behind its first size - 1 characters at most |
| Format.SkipAtoi | src/ns_formatio.c:295-307 | the smaller of the decimal value and 2^20, without overflow |
| Format.NumBitCount | src/ns_formatio.c:200-207 | the number of digits, at most 64 |
| Format.FillDigits | src/ns_formatio.c:889-890 | the buffer filled from the back holds the digits |
| Format.DigitsRoundTrip | src/ns_formatio.c:192-207 | the digits denote the number and none is superfluous |
| Format.VprintfNumber | src/ns_formatio.c:838-953 | emits the text of the number and returns its length; no output exactly when memory is needed and missing |
| Format.NumberLength | src/ns_formatio.c:905-920 | the text is as long as the larger of field width and natural length |
| FormatStandard.StandardExactly | src/ns_formatio.c:838-953 | the text is the C standard's if and only if the call conforms: no sign on an unsigned conversion unless it falls into padding, no zero with precision zero or with # in bases two and sixteen, in base eight with # no precision above the digits and no zero outside padding zeros, no zero padding left-justified |
| FormatStandard.ZeroPrintsADigit | src/ns_formatio.c:889-890 | zero with precision zero prints a digit, the standard none |
| FormatStandard.ZeroGetsAPrefix | src/ns_formatio.c:892-903 | zero with # prints "00" in base eight and "0x0" in base sixteen, the standard "0" |
| FormatStandard.OctalPrefixAddsToPrecision | src/ns_formatio.c:892-912 | eight with # and precision five prints six octal digits, the standard five |
| FormatStandard.UnsignedGetsASign | src/ns_formatio.c:865-871 | the plus flag prints a sign on an unsigned conversion, the standard none |
| Format.NumberRoundTrip | src/ns_formatio.c:859-953 | reading the text back gives the signed or unsigned value in bases 2, 8, 10 and 16, the most negative value included |
| Format.SnprintfNumber | src/ns_formatio.c:1190-1199 | the count is the full length of the text, nothing when memory is needed and missing, and the buffer holds the first size - 1 characters and NUL |
| Format.VprintfChar | src/ns_formatio.c:313-325 | the character, padded to the width |
| Format.VprintfString | src/ns_formatio.c:327-362 | the string, or "(null)" for a null one, cut to the precision, padded to the width, with its length as count |
| Format.VprintfArray | src/ns_formatio.c:766-832 | the elements in hexadecimal, padded to the width, with the length as count |
| Format.HexItemValue | src/ns_formatio.c:811-825 | the digits of an element denote its value |
| Format.HexDumpLayout | src/ns_formatio.c:800-828 | the elements stand in order, two digits a byte, and one space follows each but the last |
| Format.DigitTable | src/ns_formatio.c:78-79 | the digits of both letter cases |

## Left out

- `ns_loop_poll` (`src/nanosig.c:464-504`): its rounds run user callbacks that may change any timer, and its parts, firing and dispatching, are modelled on their own.
- The record ring, the broker, the loop and interleaved emission are states stepped by functions, not objects with methods: what they do in place is in the steps, and no single-threaded class repeats it.
- Weak memory: the acquire and release orders of the atomics are not modelled.
- Platform ports: every platform call is abstracted as described above.
- Floating-point conversions and the conversion loop of `streamout_vprintf`: only the converters are modelled, and `ns_vsnprintf` around one integer conversion.
- `ns_vsprintf` and its unbounded stream: the caller guarantees the room.
- Start-up, shutdown, thread creation and their error unwinding, and the checks for NULL arguments and for an initialised runtime.
- Tree functions `ns_rbtree_find_new_add`, `ns_rbtree_match_find` and the post-order walk, hash table functions with string keys and `ns_hashtbl_destroy`: they would only repeat modelled ones.
- Timer `ns_timer_deinit` and the shutdown of the timer manager: repeated removals.
- Termination of the broker's recheck loop after firing: a callback may always arm another timer that is due.
- HashTable.Table.TryRemake: does not state the order in which moved nodes stand in their new lists, because nothing depends on it.
- HashTable.Table.Find: does not say which of several nodes with an equal key is found, as the library does not.
- HashTable.Table.Renew: does not model the value bytes, which the library leaves undefined in the new node.
- TimerWakeup.NoLostWakeup: the armed timers are a map of deadlines, not the tree; the rule for a new leftmost is tied to the tree's by TimerWakeup.FirstPlaceIsBecomesFirst.
- The relative timeout of the broker's wait: `TimerWakeup.NoLostWakeup` bounds the deadline a sleep was computed from; the wait gets a relative timeout, so the time between computing it and starting to wait comes on top.
- Locks that fail before anything was touched, in timer and signal operations: they only return the code.
- A configured minimum hash table size above 2^31, whose size arithmetic would wrap.
- SignalEmit.Signal.Emit: the ring is a queue whose refusals are a parameter; LoopWakeup composes the wakeup with the real ring.
