# Verified model of the go-cluster replication, connection and membership core

This project models the parts of go-cluster whose correctness depends on whole runs, and proves
properties of every run:

- **Leader-side replication** (`Protocol`): concurrent `Publish` calls, the retry loop,
  subscribers, followers and acknowledgements as one step system. Each step is one critical
  section or one call to the server. A schedule is any sequence of steps (a step that is not
  enabled changes nothing), so a statement about `After(c, steps)` is a statement about every
  reachable state under every interleaving. The window check and the numbering are separate
  steps; publishers broadcast without the replication lock, the retry loop with it; counters wrap
  at 2^64 as in Go. Acknowledgements are arbitrary unless a statement says otherwise. A process
  starts from the record `c.boot`, empty or restored from disk; what is asked of it, that each
  topic's buffer is contiguous, is what every restart gives (`CrashRecovers`).
- **The record and the server in place** (`ReplBuffer.Replicator`, `ReplServer.Server`,
  `RetryLoop`): the classes and loops of the source, each proved equal to the functions that the
  step system is made of (`Assign`, `Clean`, `Broadcast`, `RecordAck`, `Cutoff`). Which sends
  fail is a parameter of the server.
- **Disk buffer** (`FileNames`, `DiskRecovery`, `CrashProof`): file names written and parsed back,
  and restart as a refinement of memory. A directory is a map from file name to bytes.
- **At least once** (`DeliveryProof`, `LossProof`, `LossRuns`, `Overtaking`, `NewestProof`,
  `MissedIff`, `RestartProof`): what reaches a node, and exactly when the leader can drop a message
  that the node has not received.
- **Connection cache** (`ConnCache`, `ConnProof`, `ConnTargets`, `IdleProof`): lookups, dials outside the lock,
  lost races, releases and the janitor, interleaved arbitrarily.
- **Membership state machine** (`Membership`), **event bus** (`EventBus`) and **election
  watcher** (`Election`).

`dafny verify dfyconfig.toml` checks the whole project.

Assumptions, as in the source's surroundings: each method of the gRPC server is one atomic step
(its maps have no lock of their own); JSON encoding is lossless; file operations succeed and the
buffer directory is written only by this code; each release function is called at most once; no
topic is given more than 2^64 - 1 numbers where a statement asks for that.

Where the code and its documentation differ, the model follows the code:

- The repository's own README.md (line 277) promises at-least-once delivery. On a live stream it
  holds (`LiveStreamsGetAll`), also when broadcasts of a topic overlap; overlapping only breaks
  the reading of an acknowledgement as covering everything below it (`OverlapSkipsMessage`;
  `AckMeansAllReceived` and `RemovedMeansReceived` say when that reading is right). Across stream
  breaks it fails: a send that failed, or one that was accepted and not read before the stream
  broke, is missed once the node has reconnected and acknowledged a newer message
  (`ReconnectExample`, `UnreadExample`, `MissedForever`). `MissedIff` says exactly when that can
  happen; with honest followers, the one thing that protects a message the node has not received,
  once its stream is off, is the window, kept shut by the node's own acknowledgement
  (`HeldUntilTold`). After a restart, almost every restored entry can be dropped without any stream
  having carried it (`RestoredLostIff`).
- Line 278 of it blocks a publisher when `seq - minAck > window`; the code blocks already when the
  difference equals the window.
- Stable topics are the only ones the disk buffer gives back (`PublishRecoverableIff`), and a
  topic whose number has reached 2^64 - 1 makes the retry loop spin for ever with the lock held
  (`ResendLoopEndsIff`).

## Model

| member | source | states |
|---|---|---|
| `DeliveryProof.AckMeansAllReceived` | pkg/transport/grpc/server.go:252-258 | over every schedule in which at most one publisher of the topic is between numbering and broadcasting, an acknowledgement s recorded from a node that opened one stream, when the topic stood at b, means the node received every number in (b, s] with its original bytes, despite resends, duplicates, delayed and backward acknowledgements and arbitrary acknowledgements from other nodes |
| `DeliveryProof.RemovedMeansReceived` | pkg/cluster/cluster.go:545-563 | whatever a retry tick deletes above the base of such a node's stream had been received by the node, if the node was in the ack map the tick read |
| `DeliveryProof.RunsAreGapless` | pkg/cluster/cluster.go:464-482 | seen from any stream, no number above its base is broadcast before all the numbers in between, and only the newest number can still be waiting for its first broadcast |
| `DeliveryProof.AcknowledgedIsReceived` | pkg/transport/grpc/replication_client.go:26-34 | every entry of the ack map, and of the copy a tick works from, is for a message some stream of that node has received |
| `DeliveryProof.ReceivedDownTo` | pkg/transport/grpc/replication_client.go:26-34 | on a gapless stream, having received n means having received everything between the base and n |
| `DeliveryProof.OpeningRemembered` | pkg/transport/grpc/server.go:242-246 | the base of a stream is where the topics stood when it was opened, in every later state |
| `DeliveryLimits.OverlapSkipsMessage` | pkg/cluster/cluster.go:474-479 | from every reachable state where two publishers overlap between numbering and broadcasting and a live stream lacks the lower number, some honest continuation records the higher acknowledgement without the lower message having been received; the lower one is still about to be sent on that stream |
| `DeliveryLimits.OverlapExample` | pkg/cluster/cluster.go:464-479 | a concrete run in which node "n", subscribed from the start, has acknowledged 2 on topic "t" without having received message 1 |
| `DeliveryLimits.ReconnectExample` | pkg/transport/grpc/server.go:242-258 | a concrete run with honest followers: the first send to node "n" fails, it reconnects, receives and acknowledges message 2, and the next tick drops message 1, which is above the base of the node's first stream and which no stream of it has carried |
| `DeliveryLimits.UnreadExample` | pkg/transport/grpc/server.go:305 | the same with a send that succeeds on a stream that breaks before the node has read it: message 1 is dropped, not received, and on no live stream of the node |
| `DeliveryProof.LiveStreamsGetAll` | pkg/transport/grpc/server.go:300-306 | over every schedule, overlapping broadcasts included, a stream that is still subscribed has accepted, with its original bytes, every number given out since it was opened, except those whose publishers are still about to send |
| `DeliveryProof.RunsAreComplete` | pkg/cluster/cluster.go:464-482 | over every schedule, each number given out after a stream was opened has been broadcast since, or its publisher is still about to |
| `LossProof.GoneForever` | pkg/cluster/cluster.go:552-574 | a message that is neither buffered nor held by a publisher stays so over every continuation and is never broadcast again |
| `LossProof.LostForever` | pkg/cluster/cluster.go:552-574 | if moreover no stream of a node, or of any node, has carried it, none ever will, however often the node reconnects |
| `LossProof.MissedForever` | pkg/transport/grpc/replication_client.go:26-34 | a dropped message that a node has not received and no live stream of it carries is never received, over every continuation in which the node reads nothing more from the streams that are off by then |
| `MissedIff.MissedIff` | pkg/cluster/cluster.go:545-574 | for a node with one stream and a number given out since: some continuation, without a new failure of that stream, ends with the leader having dropped the message, and the node having neither received it nor a live stream that carries it, exactly when the stream is off, the node has not received it and the topic is not empty; with honest followers, exactly when moreover the message is not held: newest, kept by the tick under way, the node having acknowledged something on the topic, no publisher through the window, and no other number within the window that the node has read, can read first, or will be sent |
| `NewestProof.HeldUntilTold` | pkg/cluster/cluster.go:440-457 | from a state in which the newest message is so held, the leader keeps it until the node has received it, over every continuation in which the node is honest, whatever streams break; the same for all nodes together and being carried by a stream |
| `RestartProof.RestoredLostIff` | pkg/cluster/cluster.go:89-92 | with honest followers, some run of a restarted leader drops a restored entry that no stream of any node has ever carried exactly when the server is the gRPC one, the topic is not empty, and the window is open at the start, or a newer entry of the topic was restored, or the window is at least 2 and the entry before it was restored |
| `RestartProof.NeverBroadcastIff` | pkg/cluster/cluster.go:552-575 | ... that was never broadcast, even to nobody, exactly when the window is open at the start and the topic is not empty; otherwise the first tick broadcasts all of them |
| `WindowProof.WindowBound` | pkg/cluster/cluster.go:437-474 | with at most k publishers past the window check at once, none of which ever reads a minimum above m, no number above m + window + k - 1 is given out in any reachable state; a process that starts above it gives out none |
| `WindowProof.HttpTopicStops` | pkg/cluster/cluster.go:438-447 | without acknowledgements no number above window + k - 1 is ever given out on a topic, 1024 being the window when none is configured |
| `WindowProof.HttpNeverAcks` | pkg/cluster/cluster.go:441-447 | without the gRPC server nothing is ever acknowledged, over every run |
| `WindowProof.WaitersPass` | pkg/cluster/cluster.go:440-457 | a waiting publisher that meets an open window passes, whatever minimum it had read before, because a failed check reads again |
| `WindowProof.IntDiffExactIff` | pkg/cluster/cluster.go:451 | the wrapping conversion equals the signed difference exactly when the difference fits in 64 signed bits; it always fits itself and is congruent to the difference modulo 2^64 |
| `WindowTight.WindowBoundReached` | pkg/cluster/cluster.go:440-474 | for every window, every k and every m some run with honest followers reaches m + window + k - 1, so the bound is exact |
| `BufferProof.BufferIsInterval` | pkg/cluster/cluster.go:464-474 | in every reachable state a topic's buffer holds exactly the numbers (lo, seq] for some lo |
| `BufferProof.LowerEndMonotone` | pkg/cluster/cluster.go:553-563 | over every run the lower end of the buffer never moves down |
| `BufferProof.NothingLostUnread` | pkg/cluster/cluster.go:552-574 | every number ever given out, and every restored one, is still buffered with its original bytes or was at or below a minimum read by some retry tick |
| `BufferProof.NumbersAreConsecutive` | pkg/cluster/cluster.go:464-466 | under any number of concurrent publishers the numbers of a topic are 1, 2, 3, ... in order, modulo 2^64, and seq is the last one |
| `BufferProof.NumbersDistinctIff` | pkg/cluster/cluster.go:465 | they are pairwise distinct exactly as long as at most 2^64 were given out |
| `BufferProof.CopiesAreFaithful` | pkg/cluster/cluster.go:464-482 | every broadcast, first send or resend, every pending publisher and every buffered copy carries the bytes of the publish that got its number |
| `BufferProof.NumberedMessagesWerePublished` | pkg/cluster/cluster.go:433-474 | what a number given out by this process stands for is a message that some Publish call was given on that topic |
| `BufferProof.PublishersKeepTheirMessage` | pkg/cluster/cluster.go:433-479 | a publisher under way holds the topic and bytes it was called with |
| `BufferProof.WaitingLeavesNoTrace` | pkg/cluster/cluster.go:440-457 | a publisher that never passes the window check leaves no trace whatever the others do meanwhile: apart from its own place the state is that of the run without it |
| `BufferProof.CancelLeavesNoTrace` | pkg/cluster/cluster.go:453-454 | once such a publish is given up, after any number of failed checks, the state is that of the run without it |
| `StreamProof.StreamsArePrefixes` | pkg/transport/grpc/server.go:300-306 | what a stream has accepted is a prefix of the global broadcast order from its opening on, across topics, and all of it while the stream is subscribed |
| `StreamProof.DroppedStreamsStaySilent` | pkg/transport/grpc/server.go:305 | every stream ever opened keeps its node, base and accepted messages, and one that is no longer subscribed never gets anything more |
| `StreamProof.BrokenStreamsEnd` | pkg/transport/grpc/server.go:286-306 | after a disconnect or one failed send, during a first broadcast or a resend, whatever happens later, nothing is ever sent on the stream again |
| `StreamProof.StreamEndsIff` | pkg/transport/grpc/server.go:286-306 | over every run, a subscribed stream is off later exactly when in between it was disconnected or a send on it failed |
| `SweepProof.SweepSendsWhatIsLeft` | pkg/cluster/cluster.go:552-575 | when a tick has gone through all topics, then on each topic it has itself broadcast exactly the entries its cleanup left of what it found when it took the lock, each once, ascending, with their own bytes, whatever publishers, subscribers and followers did in between, and no number was given out meanwhile |
| `SweepProof.TickEnds` | pkg/cluster/cluster.go:566-575 | below 2^64 - 1 the steps of the retry loop alone take a tick to its end from every reachable state, and of each topic drop just what its ack map covers |
| `RetryLoop.RetryTick` | pkg/cluster/cluster.go:545-575 | one tick cleans every topic with the minimum read at its start and broadcasts what each cleanup left, topic after topic, in whatever map order: subscribers and streams are left as by those broadcasts one after another, the ack map as it was |
| `RetryLoop.TickResendsWhatIsLeft` | pkg/cluster/cluster.go:553-574 | on each topic a tick broadcasts exactly the entries left after cleanup, each once, ascending, with their own bytes; the cutoff is the true minimum over the nodes in the ack map, 0 if there are none |
| `RetryLoop.ResendTopic` | pkg/cluster/cluster.go:564-573 | the resend loop terminates below 2^64 - 1 and broadcasts the entries above the cutoff to the subscribers, in ascending order |
| `RetryLoop.ResendsExactly` | pkg/cluster/cluster.go:568-572 | the list resent for a range holds each buffered number of the range once, ascending, with its own bytes |
| `RetryLoop.ResendLoopEndsIff` | pkg/cluster/cluster.go:568 | the resend loop's wrapping counter ever passes the topic's number exactly when that number is below 2^64 - 1 |
| `ReplServer.MinAckOf` | pkg/transport/grpc/server.go:327-335 | the loop returns the true minimum over the nodes that acked, 0 if none did |
| `ReplServer.MinAckUnique` | pkg/transport/grpc/server.go:327-335 | there is only one such minimum, so map order cannot matter |
| `ReplServer.CutoffCanFall` | pkg/transport/grpc/server.go:258 | because an acknowledgement overwrites, a later smaller one takes the minimum back down |
| `ReplServer.Server.AckedAllNow` | pkg/transport/grpc/server.go:319-325 | the minimum of every topic in the ack map, and no other topic |
| `ReplServer.Server.BroadcastWithSeq` | pkg/transport/grpc/server.go:300-316 | every live subscriber accepts the message, or is dropped if the network fails the send; the count is the number that accepted, the ack map is untouched, and the topic's last number is noted once there has been a subscriber |
| `ReplServer.BroadcastsReach` | pkg/transport/grpc/server.go:300-306 | over any series of broadcasts and network failures, a stream stays subscribed exactly when no send on it fails, and has then taken every message; any other has taken a first part of them, and node, base and receipts are kept |
| `ReplServer.FirstFailureEnds` | pkg/transport/grpc/server.go:305 | a stream on which one of the broadcasts is the first to fail has taken exactly those before it |
| `ReplServer.Server.Ack` | pkg/transport/grpc/server.go:252-258 | overwrites the node's entry, and ignores an empty topic or node |
| `ReplServer.Server.Subscribe` | pkg/transport/grpc/server.go:279-284 | a stream joins at the current end of the broadcast order, or not at all when the server is stopped |
| `ReplServer.Server.Unsubscribe` | pkg/transport/grpc/server.go:286-290 | the stream leaves and nothing else changes |
| `ReplBuffer.Replicator.AssignNext` | pkg/cluster/cluster.go:464-474 | the new record is the old one with the next number, its copy and, with a directory only, the file named for it |
| `DiskRecovery.PublishWrites` | pkg/cluster/cluster.go:464-474 | for every topic: the next number, the copy under it and, with a directory, the bytes in the file named for it; every other number, entry and file is unchanged |
| `DiskRecovery.CleanupRemoves` | pkg/cluster/cluster.go:556-563 | for every topic: exactly the topic's entries up to the cutoff go, with a directory exactly the files named for them, and without one no file |
| `DiskRecovery.SharedFilesGo` | pkg/cluster/cluster.go:614-617 | the files a cleanup removes are also those of other topics with the same sanitised form |
| `ReplBuffer.Replicator.CleanTopic` | pkg/cluster/cluster.go:556-563 | deletes in any order exactly the entries up to the cutoff and their files |
| `ReplBuffer.Replicator.RestoreBufferFromDisk` | pkg/cluster/cluster.go:619-640 | the loop over directory entries computes the restored record, skipping files that do not parse |
| `DiskRecovery.RestoreReadsListing` | pkg/cluster/cluster.go:622-640 | for any directory, stray files included, and any listing: (t, n) is buffered exactly when some listed name parses as that, with the bytes of the last such file, and the topic's number is the largest listed, 0 if none |
| `DiskRecovery.RestartReadsFiles` | pkg/cluster/cluster.go:619-640 | after any history of publishes, cleanups, crashes and restarts on any topics, a restart buffers exactly the files, each under the sanitised topic of its name |
| `DiskRecovery.PublishComesBack` | pkg/cluster/cluster.go:471-473 | whatever the history and the topic, a message published with a directory is buffered after a restart under the sanitised topic and its number, unless the topic is empty |
| `ReplBuffer.CleanRaisesInterval` | pkg/cluster/cluster.go:556-563 | a cleanup turns (lo, seq] into (max(lo, min(a, seq)), seq] and leaves other topics alone |
| `ReplBuffer.AssignKeepsInterval` | pkg/cluster/cluster.go:464-474 | numbering keeps every topic's buffer an interval with the same lower end |
| `FileNames.NameRoundTrip` | pkg/cluster/cluster.go:614-633 | a written name parses back to the sanitised topic and the number, even with underscores and digits in the topic; the files of the empty topic are always skipped |
| `FileNames.NameSpelled` | pkg/cluster/cluster.go:614-617 | a written name is the sanitised topic, an underscore, the decimal digits of the number without leading zeros, and ".bin" |
| `FileNames.NameCollision` | pkg/cluster/cluster.go:614-617 | two names are equal exactly when the sanitised topics and the numbers are |
| `FileNames.ParseNameIff` | pkg/cluster/cluster.go:624-633 | a file is restored as (t, n) exactly when its name is t, an underscore, digits of value n below 2^64 and the suffix, with t non-empty |
| `FileNames.SanitizeIdempotent` | pkg/cluster/cluster.go:608-612 | sanitising is idempotent, replaces only separators and spaces, by underscores, and changes a topic exactly when it contains one |
| `DiskRecovery.RestartRefinesMemory` | pkg/cluster/cluster.go:619-640 | after any history of publishes, cleanups, crashes and restarts, restoring from any listing of the directory gives back exactly the buffered entries, and a topic's number exactly when it still had one, else 0 |
| `DiskRecovery.HistoryKeepsMirror` | pkg/cluster/cluster.go:471-473 | through any such history the files are exactly the buffered entries with the same bytes, and buffers stay contiguous |
| `DiskRecovery.PublishRecoverableIff` | pkg/cluster/cluster.go:636-639 | after a publish the buffer can be restored exactly when the topic is non-empty and unchanged by sanitising |
| `CrashProof.CrashRecovers` | pkg/cluster/cluster.go:89-92 | for processes that publish to stable topics only (non-empty, unchanged by sanitising): a crash in any reachable state of any of a chain of processes, each started from what the one before left on disk, loses no buffered entry, and the restored record is contiguous |
| `ConnProof.HandlesStayOpen` | pkg/transport/grpc/connmgr.go:37-77 | in every reachable state before Close each entry's ref is its number of unreleased handles, handles of a target share one connection, and no connection in use is closed |
| `ConnTargets.GetsServeTheirTarget` | pkg/transport/grpc/connmgr.go:48-68 | over every run, the connection of a handle, or of a Get between dial and install, was dialled by a Get for the same target that this one asked for, whoever won the race; a cached entry's connection was dialled for its own target |
| `ConnTargets.CallsAreAccounted` | pkg/transport/grpc/connmgr.go:37-77 | over every run each Get is in exactly one of dialling, between dial and install, holding a handle, or over, and it is over exactly when its dial failed or its handle was released |
| `ConnTargets.GetsComplete` | pkg/transport/grpc/connmgr.go:37-77 | from every reachable state a Get without interference is served from the cache, or with the connection it dials, which is then cached; its release leaves the entry with the handles it had, and a failed dial leaves everything as it was |
| `ConnTargets.RaceIsLost` | pkg/transport/grpc/connmgr.go:53-61 | of two Gets that both dialled a target, the second to install gets the first one's connection and its own is closed |
| `ConnProof.ConnectionsConserved` | pkg/transport/grpc/connmgr.go:48-68 | every dialled connection is in exactly one of cached, closed, or between dial and install; no connection is closed twice; installs minus evictions equals the active gauge equals the cache size |
| `ConnProof.CloseClosesAllIff` | pkg/transport/grpc/connmgr.go:80-88 | Close empties the cache, closes nothing twice, and leaves every dialled connection closed exactly when no Get is between dial and install |
| `IdleProof.IdleConnectionClosed` | pkg/transport/grpc/connmgr.go:90-107 | with ticks every ttl/2, a connection without handles, not used again, is closed by one particular tick, later than last use + ttl and at most ttl/2 after that, over every continuation with on-time ticks |
| `IdleProof.LastUsedIsLastUse` | pkg/transport/grpc/connmgr.go:70-77 | in every reachable state an entry's time stamp is that of the last step that handed out or took back its connection |
| `ConnCache.ConnManager.LookupConn` | pkg/transport/grpc/connmgr.go:38-46 | a hit counts and stamps the entry and returns its connection; a miss changes nothing |
| `ConnCache.ConnManager.InstallConn` | pkg/transport/grpc/connmgr.go:52-68 | installs the new connection with ref 1, or closes it and uses the existing one; returns the cached connection either way |
| `ConnCache.ConnManager.ReleaseConn` | pkg/transport/grpc/connmgr.go:70-77 | decrements down to 0 and stamps the entry, and ignores a missing one |
| `ConnCache.ConnManager.JanitorTick` | pkg/transport/grpc/connmgr.go:97-108 | evicts and closes, in any order, exactly the entries with ref 0 last used before the cutoff |
| `ConnCache.ConnManager.Close` | pkg/transport/grpc/connmgr.go:80-88 | closes every cached connection and empties the cache |
| `ConnCache.ConnManager.constructor` | pkg/transport/grpc/connmgr.go:29-34 | an empty cache; a non-positive ttl becomes 30 seconds |
| `Membership.CompactionTransparent` | pkg/consensus/raft/fsm.go:42-53 | snapshotting and restoring at any number of points of a log gives the same state as applying the whole log |
| `Membership.LastCommandDecides` | pkg/consensus/raft/fsm.go:23-40 | the state after a log is decided per ID by the last valid command for it; malformed, empty-ID and unknown commands decide nothing |
| `Membership.LogsEquivalentIff` | pkg/consensus/raft/fsm.go:23-40 | two logs lead to the same state exactly when they agree on the last word about every ID |
| `Membership.SwapNeighbours` | pkg/state/membership/state.go:21-33 | neighbouring commands on different IDs commute anywhere in a log |
| `Membership.DropOverridden` | pkg/state/membership/state.go:21-33 | a command followed later by one on the same ID can be dropped anywhere in a log |
| `Membership.LessIff` | pkg/state/membership/state.go:40 | the order of IDs is ascending: equal up to some point, where one ends or has the smaller character |
| `Membership.SnapshotUnique` | pkg/state/membership/state.go:36-45 | a snapshot depends only on the member map, not on iteration order or sorting algorithm |
| `Membership.SnapshotRoundTrip` | pkg/state/membership/state.go:36-63 | restoring a snapshot gives back the state it was taken from |
| `Membership.RestoreCanonicalises` | pkg/state/membership/state.go:36-63 | restoring any list, with duplicates and empty IDs, and snapshotting gives the strictly sorted last-wins list; repeating it changes nothing |
| `Membership.RestoreKeepsLast` | pkg/state/membership/state.go:57-61 | restoring a list keeps the last member listed per non-empty ID |
| `Membership.State.Snapshot` | pkg/state/membership/state.go:36-45 | returns the members, whatever the iteration order, strictly ascending by ID |
| `Membership.State.Restore` | pkg/state/membership/state.go:47-63 | replaces the whole state by the listed members; undecodable input leaves it alone and is an error |
| `Membership.State.ApplyAddNode` | pkg/state/membership/state.go:21-26 | files the member under its ID, or refuses an empty ID |
| `Membership.State.ApplyRemoveNode` | pkg/state/membership/state.go:28-33 | removes the ID, or refuses an empty one |
| `Membership.Fsm.ApplyLog` | pkg/consensus/raft/fsm.go:23-40 | dispatches a decoded command; an error exactly on entries or payloads that do not decode and on empty IDs, and an error or an unknown operation leaves the state alone |
| `EventBus.NeverSendsOnClosed` | pkg/cluster/events.go:37-46 | over every interleaving of subscribe, publish, receive and cancel, no publish finds a closed channel on the bus |
| `EventBus.DeliveryIsOrderedSelection` | pkg/cluster/events.go:54-77 | what a subscriber received plus what is buffered is an ordered subsequence of the events published while it was on the bus, and an event is missing exactly when 64 were unread at its publish |
| `EventBus.PublishOrder` | pkg/cluster/events.go:67-77 | over every run every publish goes through, in order |
| `EventBus.ReadersGetAll` | pkg/cluster/events.go:37-52 | a subscriber that reads on, also after its channel was closed, gets every event it accepted, in publish order |
| `EventBus.SubscriptionLife` | pkg/cluster/events.go:37-65 | from every reachable state a subscription can be made, added, offered an event, removed and closed; it keeps what it was offered and gets nothing published after its removal |
| `EventBus.Bus.Publish` | pkg/cluster/events.go:67-77 | offers the event to every subscribed channel once, in any order, dropping it where the buffer is full |
| `EventBus.Bus.Add` | pkg/cluster/events.go:54-59 | the channel joins the bus |
| `EventBus.Bus.Remove` | pkg/cluster/events.go:61-65 | the channel leaves the bus |
| `Election.StartsNeverOutnumberChanges` | pkg/cluster/cluster.go:112-122 | in every prefix of the publish order of every run, election starts are at most leader changes, although both goroutines update flags and publish in separate steps |
| `Election.StartsNeedLostLeader` | pkg/cluster/cluster.go:589-600 | in every run, election starts are at most the watcher's observations of a missing leader |
| `Election.EventsAreAccounted` | pkg/cluster/cluster.go:112-122 | over every run: leader changes are the flag updates plus one under way, election starts are the ticks that found the leader lost with none under way, a leader has been known exactly when the flags were updated, and an election is under way exactly when such a tick came since the last update |
| `Election.StartsNeedNotAlternate` | pkg/cluster/cluster.go:582-606 | the two kinds of event need not alternate |

## Left out

- AckMeansAllReceived: says nothing about numbers up to the base of the stream, about nodes that opened more than one stream, or about topics whose broadcasts overlap; `ReconnectExample` and `OverlapSkipsMessage` show that it cannot.
- MissedIff: is about nodes that have opened one stream so far, and is stated while no topic has come within two numbers of 2^64, since the continuations it builds publish one more message and end the tick under way, and with honest followers below 2^63, where the source's window test is the signed difference.
- MissedForever: the model lets a node go on reading what was sent on a stream before it broke, so it asks that the node stops doing so.
- RestoredLostIff: is stated while no restored number is within two of 2^64, as `MissedIff` is.
- CrashRecovers: leaves out topics that sanitising changes and the empty topic, which no restart gives back under their own name (`PublishRecoverableIff`); what it does give back for them is in `RestartReadsFiles`.
- ResendTopic: is stated below 2^64 - 1, because the source's loop does not end at that value (`ResendLoopEndsIff`).
- WindowBound: is stated for a process that starts below 2^63, where the source's signed conversion is exact (`IntDiffExactIff`).
- RetryTick: is stated for topics below 2^64 - 1, because the source's resend loop does not end at that value (`ResendLoopEndsIff`).
- HandlesStayOpen: holds until Close; the source lets Get and release go on after Close, and the counts then mean nothing.
- The `PostAppSync` fallback of `Publish` carries no number and no acknowledgement, so nothing is stated about it.
- The leadership test at the start of `Publish` and of a tick only decides whether the steps happen; a schedule may leave them out.
- Follower loop of pkg/transport/grpc/replication_client.go: modelled as receive and acknowledge steps, not as an endless loop.
- Real time in replication, the fixed retry interval (the `ReplRetry` option is not used by the code), and liveness.
- The lag and sequence gauges of the replication server: they are not read back, and the per-node lag can wrap.
- Data races on the server's unlocked maps: each server method is taken as one step.
- JSON encoding, gRPC framing, TLS, tracing, logging, discovery, bootstrap and the command line.
- Raft elections and log replication, gossip membership, `Join`, `Status`, `AppWrite` and leader lookup.
- A second `Close` of the connection manager panics in the source; the model has one Close.
- Event fields other than the type and the leader or member concerned.
