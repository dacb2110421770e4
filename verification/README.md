# Verification of DRace

DRace finds data races in running programs. Its client records memory references and reports
races; a second process resolves symbols for it over shared memory; further tools record and
replay detector calls and turn reports into HTML. This project models the stateful parts of
these programs in Dafny and proves what they keep, over every input and every run. Verify it
with `dafny verify dfyconfig.toml`.

| file | part of DRace |
|---|---|
| Arithmetic, RingIndex, Ringbuffer, RingConcurrent | the lock-free ring buffer: its index arithmetic for any index width and size, the class in place, and all interleavings of single and bulk calls of many producers behind the spinlock and one consumer |
| MsrProtocol, ShmDriver | the protocol between client and symbol resolver: all interleavings as a transition system, and the mailbox driver and both sides' operations in place |
| Wildcard, AddrIndex, Races, RaceFilter | the race filter: wildcard patterns rewritten to expressions, the index of suppressed addresses, the verdict on a race |
| Words, RaceCollector, CollectorThreads | the race collector in streaming and delayed mode, in place and with any number of threads |
| MemoryTracker, Sampling, HotPages, LossyCounting | the memory-reference buffer with exclusion scopes and sampling, the random sampling period, the set of frequent pages and the lossy count behind it |
| Trace | recording detector calls to a binary trace and replaying it |
| SnippetCache | the source snippets of the HTML report |
| MutexTable | the linear-search mutex table against a hash map |

Concurrent parts are transition systems over single shared-memory accesses, under sequential
consistency; a run is any sequence of actions of any length. Parts that change state step by
step are classes whose methods are tied to functions on values, and the theorems are about
those functions.

## Where the code does not do what it promises

Each of these is stated with the exact condition under which the code is right.

- The mask of the ring buffer is itself an index, so its compile-time assertions see the size
  only as far as the index type holds it: sizes beyond the index range pass that are no powers
  of two (`RingIndex.AcceptedShapes`, `RingIndex.OversizeAccepted`), only `size % range` slots
  are in use, and no full buffer is recognised. For index types narrower than `int`, `(tmp_head -
  tail) == buffer_size` is computed in `int`, and a full buffer is not recognised once head has
  wrapped. In both cases an element is overwritten: of all accepted shapes the buffer is a queue
  in every run if and only if the index type is at least as wide as `int` and the size is one of
  its values (`RingConcurrent.QueueExact`). With bulk writes only, every accepted shape is a
  queue of as many slots as the mask leaves (`RingConcurrent.BulkIsQueue`).
- `readBuff(T*, size_t)` starts reading at head: it drops what is in the buffer and delivers
  what arrives meanwhile; it reads as documented if and only if the buffer was empty
  (`Ringbuffer.Ringbuffer.ReadBuff`).
- `get_next_write_slot` hands out the slot behind the one `commit_write` publishes
  (`Ringbuffer.Ringbuffer.WriteInPlace` says exactly when the pair appends the value anyway).
- A symbol search that fails is never answered (`MsrProtocol.SearchFails` is a run from the
  start). Until its client's wait of 100 s ends nobody gets past it
  (`MsrProtocol.UnansweredWaits`); then it returns an empty response, and later calls are
  answered as before (`MsrProtocol.UnansweredEnds`, `MsrProtocol.RepliesMatch`). The copy of the
  matches stays in the response if and only if there are at most 64 (`MsrProtocol.CopyFitsIff`).
- A pattern that begins with a lone `.` gets no wildcard in front. The rewriting keeps the
  meaning of exactly the patterns that are `Faithful` (`Wildcard.NormalizationExact`).
- An address range inside another one, or an empty one, hides the addresses behind it, and a
  range that reaches the end of the address space suppresses nothing. The index answers like a
  scan if and only if no range is shadowed by another or by its own end (`AddrIndex.ScanExact`).
- In streaming mode a suppressed race stays in the list, because the early return skips the
  removal; resolving takes it off a count it was never added to, and the unsigned count wraps
  around (`RaceCollector.StreamingLeftovers`). The stored count stays within `MAX` + N in every
  run if and only if the mode is delayed or nothing that is collected is suppressed, where
  there are threads and room for a larger count (`CollectorThreads.BoundIff`). After the wrap
  no report is ever taken again (`CollectorThreads.WrapCloses`). The client resolves in
  delayed mode only (drace-client/src/drace-client.cpp:281-282).
- A scope or a sampled-out function that begins inside another one ends recording for the rest
  of the thread's life (`MemoryTracker.RecordingExact`); a sampled function call replays what
  was pending when the last scope began (`MemoryTracker.CallConserves`,
  `MemoryTracker.CallReplays`). Delayed initialisation arms the buffer whatever the counter
  says: recording is on only at counter 0 in every later balanced run if and only if the
  counter was 0 at the initialisation (`MemoryTracker.InitialisationExact`); otherwise an
  excluded thread goes on recording (`MemoryTracker.ExcludedStillRecords`).
- `on_func_call` consults `pc_in_freq` only when the lossy flush is off, but its list is only
  kept when the lossy flush is on, so there no page is ever found and the detector is never
  disabled for it (`HotPages.Pages.PcInFreq`).
- The decoder keeps the slot of a thread that is forked again while live, so the new token is
  lost, and every finish entry erases the thread whose id happens to stand behind the finishing
  thread's (`Trace.ReplayExact`, `Trace.FinishErases`).
- The first-line label of a large file's snippet is wrong if and only if the snippet was made
  for a line up to 200 (`SnippetCache.LabelExact`).
- The mutex table has one pair less than there are keys: for every range some load runs past
  the array (`MutexTable.RangeOverflows`).

## Model

| member | source | states |
|---|---|---|
| RingIndex.MaskIsRemainder | common/ipc/ringbuffer.hpp:345-346 | masking with one less than a power of two is the remainder by it, for all indices |
| RingIndex.PowerOfTwoCheck | common/ipc/ringbuffer.hpp:356-357 | a number and one less have no common bits exactly for the powers of two |
| RingIndex.AcceptedShapes | common/ipc/ringbuffer.hpp:345-368 | with the mask truncated to the index type, the compile-time assertions accept exactly the sizes whose remainder by the index range is a power of two and at most half of it |
| RingIndex.OversizeAccepted | common/ipc/ringbuffer.hpp:354-368 | for every width below that of size_t they accept sizes beyond the index range that are no powers of two |
| RingIndex.ValidShape | common/ipc/ringbuffer.hpp:345-368 | for every accepted shape the number of slots in use is the remainder of the size, a power of two dividing the index range at least twice, and it is the size if and only if the size lies in the index range |
| RingIndex.WrappedRefines | common/ipc/ringbuffer.hpp:96-108 | for every accepted shape and counters no further apart than there are slots: comparing, subtracting, incrementing and masking the wrapped indices gives what the unbounded counters give |
| RingIndex.FreeWraps | common/ipc/ringbuffer.hpp:105-108 | the truncated free count is the number of slots in use less the elements outstanding, for every accepted shape |
| RingIndex.FullTestExact | common/ipc/ringbuffer.hpp:121 | the full test answers right except for a narrow index type after head has wrapped, and for a size beyond the index range, where it never says full |
| RingIndex.SlotsDistinct | common/ipc/ringbuffer.hpp:124 | different positions closer than the number of slots have different slots |
| Ringbuffer.Ringbuffer.constructor | common/ipc/ringbuffer.hpp:49 | an empty queue |
| Ringbuffer.Ringbuffer.ReadAvailable | common/ipc/ringbuffer.hpp:96-99 | the number of elements in the queue |
| Ringbuffer.Ringbuffer.WriteAvailable | common/ipc/ringbuffer.hpp:105-108 | the number of free places |
| Ringbuffer.Ringbuffer.Insert | common/ipc/ringbuffer.hpp:116-133 | for every accepted shape: appends, or refuses leaving the queue unchanged; refused exactly when full and the full test can tell; otherwise the oldest element is overwritten |
| Ringbuffer.Ringbuffer.Remove | common/ipc/ringbuffer.hpp:241-258 | takes the oldest element, or answers that there is none |
| Ringbuffer.Ringbuffer.StoreRun | common/ipc/ringbuffer.hpp:387-388 | the copy loop puts a slice of the input behind the queue without publishing it |
| Ringbuffer.Ringbuffer.LoadRun | common/ipc/ringbuffer.hpp:458-459 | the copy loop puts consecutive elements of the queue into a slice of the output and touches nothing else |
| Ringbuffer.Ringbuffer.WriteBuff | common/ipc/ringbuffer.hpp:371-397 | appends the longest beginning of the request that fits and returns its length |
| Ringbuffer.Ringbuffer.WriteTurn | common/ipc/ringbuffer.hpp:416-434 | one round appends the next part of the request; the callback's consumer takes a beginning of the queue |
| Ringbuffer.Ringbuffer.WriteBuffCallback | common/ipc/ringbuffer.hpp:399-440 | whatever the consumer takes in the callbacks: a beginning of the request is written in order, nothing is lost, it stops early only at a full buffer, and the first callback comes after the requested number |
| Ringbuffer.Ringbuffer.ReadRound | common/ipc/ringbuffer.hpp:487-501 | one round moves the oldest elements to the output, in order |
| Ringbuffer.Ringbuffer.ReadBuffCallback | common/ipc/ringbuffer.hpp:470-511 | whatever the producer adds in the callbacks: output and queue together are the old queue and what was added, in order; it stops early only at an empty buffer; the rest of the output is untouched |
| Ringbuffer.Ringbuffer.ReadBuff | common/ipc/ringbuffer.hpp:442-468 | drops the old queue and reads from what arrives during the call; reads as documented if and only if the old queue was empty |
| Ringbuffer.Ringbuffer.GetNextWriteSlot | common/ipc/ringbuffer.hpp:185-191 | the slot after the one at head, or none, with the condition of the full test |
| Ringbuffer.Ringbuffer.CommitWrite | common/ipc/ringbuffer.hpp:196-202 | publishes whatever the slot at head holds; the buffer stays within its size exactly if it was not full |
| Ringbuffer.Ringbuffer.WriteInPlace | common/ipc/ringbuffer.hpp:181-202 | for every accepted shape: refused exactly when full and the full test can tell; below that, filling the slot and committing appends the value if and only if there is one slot or the stale slot held that value and the oldest element is not spoiled; an unrecognised full buffer is overrun |
| RingConcurrent.ExclusiveKept | common/ipc/spinlock.h:40-65 | every producer step keeps at most one producer in the critical section and the lock taken exactly then |
| RingConcurrent.TestFits | common/ipc/ringbuffer.hpp:121 | a job that passes its test fits behind what is published: a single insert exactly if the buffer is not full, a bulk write with exactly what is free of what is asked |
| RingConcurrent.StoreKeeps | common/ipc/ringbuffer.hpp:387-388 | storing one more element behind the published ones spoils neither these nor the ones stored before |
| RingConcurrent.PublishKeeps | common/ipc/ringbuffer.hpp:392 | publishing makes the stored elements the end of the queue and leaves its beginning |
| RingConcurrent.StoredKept | common/ipc/ringbuffer.hpp:116-133 | every producer step of a single or bulk call keeps the slots between tail and head holding what was published |
| RingConcurrent.RecordedKept | common/ipc/ringbuffer.hpp:116-133 | and keeps every producer's accepted elements, in its order, equal to what it published |
| RingConcurrent.MeasureFits | common/ipc/ringbuffer.hpp:484-493 | a consumer sets out to copy exactly what is there of what is asked |
| RingConcurrent.FetchKeeps | common/ipc/ringbuffer.hpp:495-497 | copying one more element continues the beginning of what is not yet taken |
| RingConcurrent.ConsumerStepKeeps | common/ipc/ringbuffer.hpp:241-258 | every consumer step of a remove or bulk read keeps the invariant: what it took is a beginning of what was published |
| RingConcurrent.PerformKeeps | common/ipc/ringbuffer.hpp:116-133 | every step of every participant keeps the invariant, for a shape that always tells that it is full, or without single inserts |
| RingConcurrent.RunKeeps | common/ipc/ringbuffer.hpp:116-133 | so does every run |
| RingConcurrent.InvIsQueue | common/ipc/ringbuffer.hpp:241-258 | the invariant gives the queue property: no loss, duplication or reordering, no more outstanding than there are slots, every producer's accepted values published in its order, one producer at a time, no slot touched from both sides |
| RingConcurrent.AnswersAreExact | common/ipc/ringbuffer.hpp:121 | at the instant of its comparison an insert is refused just when every slot is taken, a bulk write takes the beginning of the request that fits, a remove is refused just when nothing is outstanding, a bulk read takes what is there of what is asked |
| RingConcurrent.TestSettles | common/ipc/ringbuffer.hpp:371-397 | when a call's test is passed its answers are settled: the first elements are accepted, as many as slots are free, and the others refused |
| RingConcurrent.ProducerAccounts | common/ipc/ringbuffer.hpp:371-397 | every producer step keeps, for every producer, that what it answered and what is settled is what its tested calls are meant to answer, and that its calls are the tested ones and the one it is in |
| RingConcurrent.ConsumerAccounts | common/ipc/ringbuffer.hpp:470-511 | every consumer step keeps that what was taken and what is under way is what the reads asked for and found |
| RingConcurrent.MeantAccepts | common/ipc/ringbuffer.hpp:371-397 | a call whose test found so many free slots accepts exactly its first elements, as many as that or all |
| RingConcurrent.CallsAnswered | common/ipc/ringbuffer.hpp:371-511 | in every run: a producer's finished calls answered, element by element and in order, true for the first elements as far as slots were free at the call's test and false for the rest; what it published is exactly the accepted ones; and the consumer took, from the beginning of everything published, exactly what its finished reads asked for as far as it was there |
| RingConcurrent.FillRun | common/ipc/ringbuffer.hpp:121 | for every accepted shape that does not always tell that it is full there is a run to any fill level up to one above the slots |
| RingConcurrent.BulkIsQueue | common/ipc/ringbuffer.hpp:371-440 | with bulk writes only, the queue property holds in every run for every accepted shape |
| RingConcurrent.QueueExact | common/ipc/ringbuffer.hpp:36-133 | for every accepted shape the queue property holds in every run of single and bulk calls of any number of producers and one consumer if and only if the index type is at least as wide as int and the size is one of its values |
| MsrProtocol.ServerKeepsExchange | ManagedResolver/src/ProtocolHandler.cpp:358-396 | every server step keeps the exchange in one of its stages, through any number of heartbeats, with the payload intact until the answer |
| MsrProtocol.MoveKeepsJoint | drace-client/src/MSR.cpp:21-28 | so does every access of the client side |
| MsrProtocol.PerformKeeps | drace-client/src/MSR.cpp:103-166 | every step of the booting client, any thread or the server keeps the invariant |
| MsrProtocol.RepliesMatch | drace-client/src/MSR.cpp:103-166 | in every run of any number of threads: for the i-th completed call the server asked the libraries for just what the call says, address, module, path, pattern and scope, and the call returned what they knew of it at that step, a failed search nothing; an attached client's process, of a known runtime, is the one the server is attached to; every thread's calls complete in order |
| MsrProtocol.TableAnswers | drace-client/src/MSR.cpp:136-166 | if the libraries know the same throughout, every completed lookup in every run has the symbol of its address and every search the matches of its pattern in its module |
| MsrProtocol.FileNameExact | ManagedResolver/src/ProtocolHandler.cpp:83 | the name of the runtime is what follows the last separator of either kind |
| MsrProtocol.FileNameBare | ManagedResolver/src/ProtocolHandler.cpp:83 | or the whole path if there is none |
| MsrProtocol.InvOneOwner | common/ipc/SharedMemory.h:101-127 | at most one event is signalled, and server, booting client and threads never have the mailbox together |
| MsrProtocol.ClientOwnership | drace-client/src/MSR.cpp:21-166 | the booting client and every thread come by the mailbox only by consuming the server's signal, by taking the free mutex while it is at rest or by a search wait ending while it is at rest, and give it up only by signalling, by releasing the mutex while it is at rest or by ending the boot |
| MsrProtocol.OwnershipMoves | common/ipc/SharedMemory.h:101-127 | in every run there is one owner, only the owner writes id or buffer, and ownership moves in those ways for clients, and for the server by consuming the client's signal and by signalling, a failed search or a stop, with the causes of a stop |
| MsrProtocol.ServerStops | ManagedResolver/src/ProtocolHandler.cpp:342-396 | the dispatcher never meets an unknown message and heartbeats are always confirmed: the server stops only where attaching fails or the matches overflow |
| MsrProtocol.StuckOnlyUnanswered | ManagedResolver/src/ProtocolHandler.cpp:317-340 | a waiting client or the server can move, if and only if the wait is not for a failed search and the server has not stopped |
| MsrProtocol.SearchFails | ManagedResolver/src/ProtocolHandler.cpp:326-339 | for any number of threads, process of a known runtime and request some run from the start leads to a search waiting for an answer that never comes |
| MsrProtocol.UnansweredWaits | ManagedResolver/src/ProtocolHandler.cpp:326-339 | until the wait of a failed search ends no run of any length completes a call or changes the mailbox |
| MsrProtocol.UnansweredEnds | drace-client/src/MSR.cpp:161-165 | when it ends the search completes without an answer, the mutex is free and the mailbox at rest |
| MsrProtocol.CopyFitsIff | ManagedResolver/src/ProtocolHandler.cpp:330-337 | the copied range stays in the response if and only if there are at most 64 matches |
| ShmDriver.SharedMemory.Notify | common/ipc/SharedMemory.h:101-107 | sets the event of the caller's direction only |
| ShmDriver.SharedMemory.Wait | common/ipc/SharedMemory.h:109-127 | answers whether the other direction's event was set, and resets it |
| ShmDriver.SyncShmDriver.SetId | common/ipc/SyncSHMDriver.h:60 | writes the id and leaves payload and events |
| ShmDriver.SyncShmDriver.Emplace | common/ipc/SyncSHMDriver.h:62-74 | writes id and payload and leaves the events |
| ShmDriver.SyncShmDriver.Commit | common/ipc/SyncSHMDriver.h:52 | signals the other side |
| ShmDriver.SyncShmDriver.WaitReceive | common/ipc/SyncSHMDriver.h:54-57 | consumes the other side's signal |
| ShmDriver.ProtocolHandler.constructor | ManagedResolver/src/ProtocolHandler.cpp:33-55 | leaves the mailbox as the protocol's server does in its first two steps |
| ShmDriver.ProtocolHandler.ResolveIP | ManagedResolver/src/ProtocolHandler.cpp:196-227 | the symbol of the address that was in the mailbox takes its place, and the client is signalled |
| ShmDriver.ProtocolHandler.LoadSymbols | ManagedResolver/src/ProtocolHandler.cpp:248-307 | the module in the mailbox is loaded with its base, size and path; after any heartbeats the client is told CONFIRM with its payload as it was; the server goes on exactly if none was late |
| ShmDriver.ProtocolHandler.UnloadSymbols | ManagedResolver/src/ProtocolHandler.cpp:309-315 | the module at the base in the mailbox is unloaded and the client told CONFIRM |
| ShmDriver.ProtocolHandler.AttachProcess | ManagedResolver/src/ProtocolHandler.cpp:66-116 | the process is the one in the mailbox; attached, refused, or ended without an answer, by the runtime's name, the resolver's outcome and the heartbeats; a late heartbeat's WAIT is what a failed resolver leaves |
| ShmDriver.ProtocolHandler.SearchSymbols | ManagedResolver/src/ProtocolHandler.cpp:317-340 | the pattern in the mailbox is searched in the module in the mailbox; answers with all matches; touches nothing when the search failed; fails exactly when the copy would leave the response |
| ShmDriver.ProtocolHandler.WaitHeartbeat | ManagedResolver/src/ProtocolHandler.cpp:342-356 | with the real client answering in time or not: the server gives up exactly if a wait ends unanswered, and the payload is not touched |
| ShmDriver.RoundBeats | ManagedResolver/src/ProtocolHandler.cpp:342-356 | eight steps of server and client are a heartbeat that leaves everything but the id as it was |
| ShmDriver.RoundsBeat | ManagedResolver/src/ProtocolHandler.cpp:342-356 | so do any number of heartbeats |
| ShmDriver.TurnAnswers | ManagedResolver/src/ProtocolHandler.cpp:358-396 | for every number of heartbeats the protocol's steps from a received signal give the answer of the message's kind, or none |
| ShmDriver.ProtocolHandler.ProcessMsg | ManagedResolver/src/ProtocolHandler.cpp:358-396 | a turn of the dispatch loop with heartbeats confirmed in time leaves mailbox, events and running state as the protocol's steps do; with late ones the answer is the same and the server stops |
| ShmDriver.Msr.Send | drace-client/src/MSR.cpp:103-166 | id and payload of the exchange are in the mailbox and the server is signalled |
| ShmDriver.Msr.Beat | drace-client/src/MSR.cpp:22-27 | a signalled WAIT is confirmed and signalled back, anything else ends the loop |
| ShmDriver.Msr.WaitHeartBeat | drace-client/src/MSR.cpp:21-28 | confirms exactly the WAITs before the first other message, leaving the payload |
| ShmDriver.Msr.Receive | drace-client/src/MSR.cpp:136-146 | the mailbox read as the call's reply if the client was signalled |
| ShmDriver.AnswerIsMeant | drace-client/src/MSR.cpp:103-166 | read by the client, the answer of a turn is what the resolver has for the request's own arguments, and the libraries are asked for just these |
| ShmDriver.RoundTrip | drace-client/src/MSR.cpp:103-166 | for any heartbeats, in time or late, a request goes through mailbox and handler and comes back: a lookup with the symbol the table has for its address, a search with the matches of its pattern, loading and unloading confirmed for its module; only a failed or overflowing search gets no answer |
| ShmDriver.AttachTrip | drace-client/src/MSR.cpp:67-101 | for any heartbeats, in time or late, the client is attached if and only if its runtime's file name is one of the two known and the resolver initialised; the process tried is the client's |
| Wildcard.DotStars | drace-client/src/race-filter.cpp:87-92 | the insertion loop terminates and puts one dot before every star |
| Wildcard.NormalizeString | drace-client/src/race-filter.cpp:84-111 | the rewriting in place gives the specified expression |
| Wildcard.AnchorIsWildcards | drace-client/src/race-filter.cpp:94-110 | replacing absent anchors after inserting dots is inserting dots after putting stars in place of the anchors |
| Wildcard.MatchesConcat | drace-client/src/race-filter.cpp:131-132 | an expression in two parts matches exactly the strings that split so that both parts match |
| Wildcard.OccursByItems | drace-client/src/race-filter.cpp:94-110 | occurring in a symbol, anchored where asked, is matching after skipping something, or nothing when anchored |
| Wildcard.AbsorbsGap | drace-client/src/race-filter.cpp:95-98 | patterns with a loose start match with any text in front |
| Wildcard.TightCounterexample | drace-client/src/race-filter.cpp:95-98 | every other one has a text that it matches but not with a character in front |
| Wildcard.NormalizationExact | drace-client/src/race-filter.cpp:84-111 | full-matching the rewritten expression is finding the pattern in the symbol, anchored where anchors stood, for all symbols, if and only if the pattern does not begin with a lone single-character wildcard |
| Wildcard.PiecesExact | drace-client/src/race-filter.cpp:131-132 | a pattern without anchors matches exactly the texts that are pieces for its characters in order: any text on one line for a star, one character for a dot, else the character |
| Wildcard.PatternMeaning | drace-client/src/race-filter.cpp:84-111 | by the characters alone: the rewritten expression matches a symbol exactly if some part of it is in pieces for the pattern, with one line of text before it unless `^` stood and behind it unless `$` did |
| AddrIndex.EmplaceOrdered | drace-client/src/race-filter.cpp:202-205 | inserting keeps the order, adds the range if its start is new and changes nothing else |
| AddrIndex.IndexOrdered | drace-client/include/race-filter.h:38 | after any calls the index is ordered, holds only given ranges, and every given start |
| AddrIndex.Sound | drace-client/src/race-filter.cpp:161-170 | a suppressed address lies in a given range, whatever the ranges: overlapping, empty or wrapping |
| AddrIndex.ScanExact | drace-client/src/race-filter.cpp:161-170 | for any addresses and unsigned sizes the index answers like a scan of all ranges, for every address, if and only if no range is shadowed by another or reaches the end of the address space |
| AddrIndex.DisjointExact | drace-client/src/race-filter.cpp:161-205 | for pairwise disjoint non-empty ranges that do not wrap it does |
| RaceFilter.HitsAreFound | drace-client/src/race-filter.cpp:182-198 | for understood patterns a rewritten pattern matches a name exactly if the pattern occurs in it |
| RaceFilter.SuppressionMeaning | drace-client/src/race-filter.cpp:113-200 | with understood patterns and unshadowed ranges a race is suppressed exactly if an address lies in a range, a race pattern occurs in a name, or a race_tos pattern in a top name |
| RaceFilter.ParseExact | drace-client/src/race-filter.cpp:60-80 | a line is a subject with a pattern exactly if it is the two with a colon between |
| RaceFilter.PatternsExact | drace-client/src/race-filter.cpp:60-80 | a pattern is among those of a subject exactly if the file has that line |
| RaceFilter.FileMeaning | drace-client/src/race-filter.cpp:113-200 | the verdict by the lines of the file and the resolved names: an address in a range, a `race:` pattern found in a name of either stack, or a `race_tos:` pattern in the last name of either, if both have one |
| RaceFilter.RaceFilter.constructor | drace-client/src/race-filter.cpp:58-82 | reading the file gives the filter of its lines |
| RaceFilter.RaceFilter.Line | drace-client/src/race-filter.cpp:60-80 | one line adds its rewritten pattern to the right list, comments and other lines none |
| RaceFilter.RaceFilter.SuppressAddr | drace-client/src/race-filter.cpp:202-205 | adds one range |
| RaceFilter.RaceFilter.AddrIsSuppressed | drace-client/src/race-filter.cpp:161-170 | the verdict of the index of all ranges given |
| RaceFilter.RaceFilter.CheckRtos | drace-client/src/race-filter.cpp:120-137 | true exactly if a race_tos pattern of the file hits a top name |
| RaceFilter.RaceFilter.CheckRace | drace-client/src/race-filter.cpp:172-200 | true exactly if an address is suppressed or a race pattern of the file hits a name of either stack |
| RaceFilter.RaceFilter.CheckSuppress | drace-client/src/race-filter.cpp:113-118 | the filter's verdict on a resolved race |
| RaceCollector.AddInStep | drace-client/src/race-collector.cpp:41-59 | one report keeps both modes in step: what streaming forwarded is what the delayed list would keep |
| RaceCollector.DelayedIsStreaming | drace-client/src/race-collector.cpp:27-75 | if the delayed collector refuses nothing, its list after resolving is, in order, what the streaming collector forwarded, and the counts agree |
| RaceCollector.DelayedIsPrefix | drace-client/src/race-collector.cpp:27-75 | for any reports it is a beginning of that |
| RaceCollector.TakenExact | drace-client/src/race-collector.cpp:27-60 | in both modes: of the reports taken, a delayed collector lists and forwards all, a streaming one forwards those not suppressed and is left with the suppressed ones, resolved, in order; the count is the number forwarded |
| RaceCollector.StreamingLeftovers | drace-client/src/race-collector.cpp:46-75 | for any reports the streaming list holds exactly the suppressed reports that were taken, empty iff there was none; resolving empties it and counts them down; with more of them than counted races the count wraps around and every report is refused |
| Races.ResolveNames | drace-client/src/race-collector.cpp:102-126 | resolving leaves a resolved race as it was and gives another the table's name of its address and of every frame of both stacks |
| RaceCollector.KeptExact | drace-client/src/race-collector.cpp:62-75 | what is kept are exactly the resolved races that the filter does not suppress |
| RaceCollector.KeptNamed | drace-client/src/race-collector.cpp:62-75 | every race kept is one of the list, with the right names |
| RaceCollector.NamesExact | drace-client/src/race-collector.cpp:46-75 | whatever was reported: after a resolution, and of every race forwarded in streaming mode, address and every frame of both stacks carry the table's names |
| Words.HashesAlike | drace-client/src/race-collector.cpp:93 | two hashes are equal if and only if the same bits change in the first word as in the second, doubled |
| Words.HashesOfOne | drace-client/src/race-collector.cpp:93 | where one word alone differs, if and only if that is the second and it differs in its top bit alone |
| RaceCollector.TakenMeaning | drace-client/src/race-collector.cpp:27-60 | by the stack words: of any reports the next one is taken if and only if no more than 200 are counted, no report looked at before is alike in the words at the starts of both stacks, no stack has a null address on top and its memory is not silent |
| RaceCollector.TwoReports | drace-client/src/race-collector.cpp:89-100 | of two plausible reports that differ in one of the two words alone both are taken, unless that is the top bit of the second |
| RaceCollector.AddKeepsDistinct | drace-client/src/race-collector.cpp:89-100 | with suppression on, no two races that are admitted share a key |
| RaceCollector.EraseStep | drace-client/src/race-collector.cpp:65-73 | one round of the erase loop keeps: done part filtered, rest untouched |
| RaceCollector.RaceCollector.FilterDuplicates | drace-client/src/race-collector.cpp:89-100 | answers whether the key was seen, and notes it; which reports share a key is RaceCollector.TakenMeaning |
| RaceCollector.RaceCollector.AddRace | drace-client/src/race-collector.cpp:27-60 | list, count, keys and sinks afterwards are those of the specification; a race forwarded in streaming mode has the table's names |
| RaceCollector.RaceCollector.ResolveAllRaces | drace-client/src/race-collector.cpp:62-75 | the erase loop leaves the kept races, resolved, in order, and counts the others down; every race left is one of the list, with the table's names of its address and frames |
| CollectorThreads.PerformKeeps | drace-client/src/race-collector.cpp:27-75 | every step of any thread, also inside the erase loop and in either mode, keeps lock, width of the count, bound, list length and keys |
| CollectorThreads.ReportingBound | drace-client/src/race-collector.cpp:27-75 | in every run of N threads, delayed or with nothing collected suppressed, the stored count is at most MAX + N; in delayed mode it is the list's length even inside the erase loop; with suppression on no two races share a key |
| CollectorThreads.MidwayGoesOn | drace-client/src/race-collector.cpp:65-73 | one round of the erase loop of any thread keeps: done part filtered, rest as found, count less what was erased |
| CollectorThreads.OneAfterTheOther | drace-client/src/race-collector.cpp:27-75 | in every run of any number of threads: while nobody has the lock the collector is what one thread alone would have made of the same reports and resolutions in the order of the lock, every thread's calls being done once each and in order; the step that ends a resolution leaves exactly the resolution of the list it found |
| CollectorThreads.ClosedForever | drace-client/src/race-collector.cpp:28 | with nobody past the check, an empty list and a count above the limit no run changes the collector |
| CollectorThreads.WrapCloses | drace-client/src/race-collector.cpp:62-75 | in streaming mode one suppressed report and one resolution wrap the count to the largest value, and in every continuation nothing is counted or forwarded |
| CollectorThreads.BoundIff | drace-client/src/race-collector.cpp:27-75 | the stored count stays within MAX + N in every run if and only if the collector is delayed or suppresses nothing it collects, or there is no thread or no larger count |
| CollectorThreads.BoundReached | drace-client/src/race-collector.cpp:28-41 | for every N that the count can hold some run counts exactly MAX + N |
| MemoryTracker.ExactStep | drace-client/include/memory-tracker.h:188-230 | one operation changes depth, sampling flag, recording and stored pointer together |
| MemoryTracker.RecordingExact | drace-client/include/memory-tracker.h:188-230 | in every balanced run of scopes and sampling switches the low bits are the depth, the top bit is sampled out, and recording is on exactly if neither forbids it and no exclusion ever began inside another |
| MemoryTracker.StepConserves | drace-client/include/memory-tracker.h:188-230 | an operation neither loses, repeats nor reorders references if and only if it is harmless: it disables an enabled or empty buffer, or enables from a current pointer |
| MemoryTracker.RunConserves | drace-client/src/memory-tracker.cpp:133-170 | runs of harmless operations conserve the references |
| MemoryTracker.SimpleRunsConserve | drace-client/src/memory-tracker.cpp:133-170 | for any mix of recording, flushing and non-nested scopes: what the detector got, then the unfiltered pending references, is what was recorded and unfiltered, in order; the totals count every flushed and every delivered reference |
| MemoryTracker.AccessDelivered | drace-client/src/memory-tracker.cpp:152-166 | recorded at any fill of the buffer and analysed, an access of n bytes adds one call of the detector, a write for a write and a read for a read, with its pc, address and size as recorded, for a write with the tag; it adds nothing if and only if the address is beyond user space or strictly inside the excluded stack |
| MemoryTracker.FlushesWhenFull | drace-client/include/memory-tracker.h:56-58 | a thread that only records flushes after every 64 references, the others being pending |
| MemoryTracker.CallConserves | drace-client/src/function-wrapper/event.cpp:438-443 | a flushed and sampled function call conserves the references if and only if the stored pointer is null or the buffer's start |
| MemoryTracker.CallReplays | drace-client/src/function-wrapper/event.cpp:438-443 | for every unfiltered reference there is a run that delivers it twice |
| MemoryTracker.OnlyAtZeroRun | drace-client/include/memory-tracker.h:188-230 | from any state with recording on only at counter 0, every balanced run keeps that, and the low bits stay the depth |
| MemoryTracker.InitialisationExact | drace-client/src/memory-tracker.cpp:367-375 | for a thread in any state at its delayed initialisation: recording is on only at counter 0 in every later balanced run if and only if the counter was 0 |
| MemoryTracker.ExcludedStillRecords | drace-client/src/memory-tracker.cpp:439-447 | initialised in any state, a thread keeps recording through any recording and flushing with the counter as it was, and every reference is delivered or pending |
| MemoryTracker.Tracker.UpdateSampling | drace-client/src/memory-tracker.cpp:428-437 | the bounds of the period for the rate |
| MemoryTracker.ThreadState.constructor | drace-client/src/memory-tracker.cpp:175-188 | an armed empty buffer, or an open scope for an excluded thread |
| MemoryTracker.ThreadState.Enable | drace-client/include/memory-tracker.h:204-206 | the pointer is the stored one |
| MemoryTracker.ThreadState.Disable | drace-client/include/memory-tracker.h:209-212 | the pointer is stored and null |
| MemoryTracker.ThreadState.EnableScope | drace-client/include/memory-tracker.h:220-224 | the whole new state, with the counter's wrap-around |
| MemoryTracker.ThreadState.DisableScope | drace-client/include/memory-tracker.h:227-230 | the whole new state |
| MemoryTracker.ThreadState.SampleRef | drace-client/include/memory-tracker.h:153-163 | the countdown of the specification, redrawn within the period |
| MemoryTracker.ThreadState.SwitchSampling | drace-client/include/memory-tracker.h:188-201 | the whole new state, by whether the call is sampled |
| MemoryTracker.ThreadState.ClearBuffer | drace-client/src/memory-tracker.cpp:367-375 | drops and counts what is buffered and arms the buffer |
| MemoryTracker.ThreadState.AnalyzeAccess | drace-client/src/memory-tracker.cpp:133-170 | initialises a new thread, then delivers and counts what is buffered if recording is on |
| MemoryTracker.ThreadState.DeliverRefs | drace-client/src/memory-tracker.cpp:152-166 | the loop calls the detector for exactly the unfiltered references, in order, and counts them |
| MemoryTracker.ThreadState.ProcessBufferCtx | drace-client/include/memory-tracker.h:115-118 | an analysis, counted as a flush |
| MemoryTracker.ThreadState.Record | drace-client/include/memory-tracker.h:56-58 | a reference is stored and a full buffer flushed; nothing with recording off |
| Sampling.PeriodExact | drace-client/src/memory-tracker.cpp:428-437 | 1 <= min <= rate <= max if and only if the rate is positive and rate plus a tenth does not wrap |
| Sampling.PeriodBounds | drace-client/src/memory-tracker.cpp:428-437 | by the rate alone: the bounds enclose it if and only if it is between 1 and 3904515723, and then ten times their distance from it is the rate up to the last digit, and 1 below ten, with a lower bound of at least 1 |
| Sampling.DistancesExact | drace-client/include/memory-tracker.h:153-163 | the first sample is the reference with the rate's number, and after a sampled one the next is exactly as many later as was drawn |
| Sampling.NextSample | drace-client/include/memory-tracker.h:153-163 | the next sample is due within its number of longest and not before its number of shortest periods |
| Sampling.SamplingBound | drace-client/include/memory-tracker.h:153-163 | for a rate of at least 2 and any draws, k samples among n references mean k * min <= n < (k + 1) * max |
| Sampling.RateOneSamplesAll | drace-client/include/memory-tracker.h:155 | at rate 1 every reference is sampled |
| LossyCounting.KeptBounds | drace-client/include/lcm/lossyCountingModel.hpp:114-122 | for every stream and item the kept count is never too high and too low by at most the finished windows |
| LossyCounting.FrequentPutOut | drace-client/include/lcm/lossyCountingModel.hpp:139-158 | an item that makes up the frequency share of the stream is put out, if the window is not shorter than 1 / error |
| LossyCounting.PutOutFrequent | drace-client/include/lcm/lossyCountingModel.hpp:139-158 | what is put out makes up the share frequency less error, up to rounding |
| LossyCounting.LossyCountingModel.DecreaseAllFrequencies | drace-client/include/lcm/lossyCountingModel.hpp:184-194 | the loop lowers every count by one and erases exactly the ones |
| LossyCounting.LossyCountingModel.ProcessItem | drace-client/include/lcm/lossyCountingModel.hpp:114-122 | counts the item and lowers all at the end of a window |
| LossyCounting.LossyCountingModel.ComputeOutput | drace-client/include/lcm/lossyCountingModel.hpp:145-158 | exactly the items whose kept count reaches the truncated threshold in an unsigned comparison, each once, with its count |
| HotPages.InFlushedPage | drace-client/src/memory-tracker.cpp:80-86 | an address is in a flushed region exactly if its page is among the flushed pages |
| HotPages.GetPcsFromHist | drace-client/src/memory-tracker.cpp:88-100 | the pages of the histogram, strictly sorted |
| HotPages.SymmetricDifference | drace-client/src/memory-tracker.cpp:115-117 | the merge gives, strictly sorted, exactly what is in one of two sorted sequences |
| HotPages.Pages.UpdateCache | drace-client/src/memory-tracker.cpp:102-125 | the frequent pages become what the count puts out; an address is in a region flushed by this update exactly if its page changed status |
| HotPages.Pages.PcInFreq | drace-client/src/memory-tracker.cpp:127-131 | binary search is membership in the latest frequent set; false without the lossy flush |
| HotPages.FrequentBlock | drace-client/src/memory-tracker.cpp:102-131 | from any references: after an update a block whose page makes up a hundredth of them is found, and a found one makes up nine thousandths, up to one reference |
| Trace.StepOfCall | standalone/binarydecoder/DetectorOutput.h:56-127 | replaying a call's entry makes the same call with the token of the thread's slot, or dereferences an absent slot; slots are added and removed as forks, joins and finishes say |
| Trace.ReplayHolds | standalone/binarydecoder/DetectorOutput.h:56-127 | if every caller is live and was not forked again while live, replay reproduces the calls and its slots are the live threads' |
| Trace.ReplayExact | standalone/binarydecoder/DetectorOutput.h:13-127 | where tokens tell forks apart: the calls are reproduced, with the latest fork's tokens and no absent slot, if and only if that condition holds; finish entries included, whatever word stands behind each |
| Trace.ReplayReproduces | standalone/binarydecoder/DetectorOutput.h:13-113 | well-formed finish-free traces are reproduced, no absent slot is dereferenced, and the live slots are forks less joins |
| Trace.FinishErases | standalone/binarydecoder/DetectorOutput.h:118-123 | a finish removes the finishing thread's slot if and only if the unset word is its id; with the word zero any later call of thread 0 dereferences an absent slot |
| Trace.TraceBinary.Use | drace-client/detectors/traceBinary/TraceBinary.cpp:54-144 | appends the entry of the call |
| Trace.TraceBinary.Fork | drace-client/detectors/traceBinary/TraceBinary.cpp:119-124 | the token is the child's id and the entry is appended |
| Trace.TraceBinary.Join | drace-client/detectors/traceBinary/TraceBinary.cpp:126-130 | appends the entry |
| Trace.TraceBinary.WriteLogSync | drace-client/detectors/traceBinary/TraceBinary.cpp:151-155 | appends one entry to the file |
| Trace.TraceBinary.RecordAll | drace-client/detectors/traceBinary/TraceBinary.cpp:54-144 | the file of any sequence of calls is their encoding |
| Trace.DetectorOutput.Fork | standalone/binarydecoder/DetectorOutput.h:13-23 | allocates, keeps a slot that is there already, forwards the fork |
| Trace.DetectorOutput.MakeOutput | standalone/binarydecoder/DetectorOutput.h:56-127 | table, allocations and forwarded calls after any entry |
| Trace.DetectorOutput.Decode | standalone/binarydecoder/DetectorOutput.h:56-127 | a whole trace, up to the first absent slot |
| Trace.RoundTrip | drace-client/detectors/traceBinary/TraceBinary.cpp:54-155 | recording a well-formed run and decoding the file reproduces the calls |
| SnippetCache.HandleKeeps | tools/ReportConverter/ReportConverter.py:660-679 | every request keeps entries of existing lines, one for a small file, and more than 40 lines apart for a large one; the list only grows |
| SnippetCache.ShownExact | tools/ReportConverter/ReportConverter.py:635-657 | which lines are shown: all of a file of up to 400; else the first 400, or for a line past 200 those up to 200 before and less than 200 after it |
| SnippetCache.AddsExact | tools/ReportConverter/ReportConverter.py:660-679 | a request for an existing line adds its entry if and only if no entry of the file is whole or at most 40 lines away |
| SnippetCache.ReuseShows | tools/ReportConverter/ReportConverter.py:670-671 | a reusable snippet shows the requested line |
| SnippetCache.RequestsShown | tools/ReportConverter/ReportConverter.py:635-690 | whatever is requested in whatever order, a request is answered exactly if the line exists, and in the finished report its snippet shows the line |
| SnippetCache.EntriesDistinct | tools/ReportConverter/ReportConverter.py:598-599 | entries are distinct, so an index by value is a position |
| SnippetCache.LabelExact | tools/ReportConverter/ReportConverter.py:715-723 | the label is the first shown line if and only if the file is shown whole or the line is past 200 |
| SnippetCache.SourceCodeManagement.CreateEntry | tools/ReportConverter/ReportConverter.py:589-599 | appends the entry and returns its position |
| SnippetCache.SourceCodeManagement.HandleSourceCode | tools/ReportConverter/ReportConverter.py:660-679 | list and answer of the specification: the last reusable entry, else a new one |
| SnippetCache.SourceCodeManagement.CreateCodeVars | tools/ReportConverter/ReportConverter.py:681-690 | variable i shows the window of entry i, and always exists |
| MutexTable.CountUp | bench/Containers.cpp:55-59 | counting in place is counting in the map |
| MutexTable.Append | bench/Containers.cpp:61-65 | appending a new key is adding it to the map |
| MutexTable.SwapRemove | bench/Containers.cpp:68-77 | moving the last pair into the gap removes exactly one key from the map |
| MutexTable.LinearSearchTable.Increment | bench/Containers.cpp:54-65 | counts like the hash map; fails exactly when the live keys would outnumber the pairs |
| MutexTable.LinearSearchTable.Erase | bench/Containers.cpp:67-79 | erases the key like the hash map |
| MutexTable.LinearSearchTable.Load | bench/Containers.cpp:47-81 | a load stays in the array if and only if the live keys never outnumber the pairs, and then ends with the hash map's contents |
| MutexTable.FewKeysFit | bench/Containers.cpp:32-45 | loads over no more keys than pairs always fit |
| MutexTable.LoadCounts | bench/Containers.cpp:36-43 | a load holds of every key how often it was counted since it was last dropped |
| MutexTable.KeysSpread | bench/Containers.cpp:27-30 | the keys begin at 0, are the same distance apart and reach the largest up to less than the range |
| MutexTable.RangeOverflows | bench/Containers.cpp:47-53 | for every range there is a load of the drawn keys that does not fit, by one key |

## Left out

- RingIndex.AcceptedShapes: arrays of 2 to the 63 elements or more, which no implementation has, are not considered.
- Weak memory order and the optional fences of the ring buffer and the spinlock: accesses are sequentially consistent.
- The ring buffer's `insertFromCallbackWhenAvailable`, `emplace`, `producerClear` and `consumerClear`: same steps as insert, or resets; a spinlock is only taken through `lock`.
- Ringbuffer.Ringbuffer.WriteBuffCallback: in place the consumer moves in the callbacks only; at every other access it moves in RingConcurrent, where a round is one bulk write.
- Ringbuffer.Ringbuffer.ReadBuffCallback: likewise for the producer, where a round is one bulk read.
- MsrProtocol.RepliesMatch: the wait for a search ends only when nothing is on the way to it; runs in which another wait times out, a side destroys its driver or the resolver detaches are not runs of the model.
- ShmDriver.ProtocolHandler.ProcessMsg: STACK and EXIT messages, which no modelled client sends, end the handler here.
- The payload structures are values, not bytes; strings are not cut to the size of their arrays, and opening the process to attach to always succeeds.
- The client's `getCurrentStack`, which takes no lock, and the server's stack walk.
- The symbol libraries: what they know of addresses and patterns, and whether asynchronous work is done and attaching succeeds, are arbitrary inputs of every step.
- The regular-expression engine: expressions are literals, `.` and stars of these, and `.` matches no line terminator. The patterns "" and "^", for which the rewriting reads past the string, are excluded; patterns with other metacharacters are rewritten but not given a meaning.
- RaceCollector.RaceCollector.AddRace: the check of the limit and the locked part are one step here; CollectorThreads separates them. The read of the count is one step.
- Silent modules are an arbitrary predicate on addresses; times are inputs; the sinks are a list.
- MemoryTracker.ThreadState.Record: the emitted machine code is modelled as store, advance and flush when full; which instructions are instrumented is not modelled.
- `handle_ext_state` and the lossy disabling in `on_func_call` are not operations of the model; the latter never happens by the statement of HotPages.Pages.PcInFreq.
- Sampling.SamplingBound: the tenth of the rate is computed as an integer, which agrees with the rounded product for 32-bit rates; the countdown wraps where the signed decrement of the C++ code would overflow.
- LossyCounting.FrequentPutOut: the threshold is computed over the reals, without floating-point rounding.
- The call that feeds the lossy count from the buffer, which is disabled in the source: streams of pages are inputs.
- Trace.ReplayReproduces: thread ids below 2 to the 32, and threads detach themselves; the recorder truncates larger ids, and a replayed detach names the calling thread. Entries of no known type are not modelled.
- Two trace recorders appending at once: the I/O lock makes each append one step.
- Blacklists, whitelists and unreadable files of the report converter: such a path has no lines in the model. The HTML around the snippets is left out.
- MutexTable.LinearSearchTable.Load: counts are unbounded; a write past the array ends the model instead of corrupting memory.
- Printing, logging, statistics output, the shadow stack, the other detectors and the benchmark timing.
