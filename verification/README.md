# Verification of raft-demo

A Dafny 4.11 model of the logic that raft-demo builds on top of Raft, with proofs. Raft itself
(`github.com/hashicorp/raft`) is not part of this model: it appears as an append-only committed
log, of which every replica applies a growing prefix, and as accepted, refused or lost
configuration changes. Verify everything with `dafny verify dfyconfig.toml`.

## The project

- `GoBytes`, `Decimal`, `OsFile`: Go strings and byte slices, `strings.Split`/`Join`,
  `strconv.Itoa`/`Atoi`, and file writes at an offset.
- `Commands`, `KvSpec`: client commands, the serializer (a parameter of every result, with a
  concrete one proved to meet the assumptions), the sequential map and the UDP reply.
- `KvStore`: one kvstore replica as a class over a heap of shared byte slices: apply with deferred
  logging, preload, snapshot, restore.
- `Linearizability`: the whole cluster as a state machine over `Propose`, leadership changes,
  commits (also of proposals given up long ago), applies, answers, crashes, restarts and snapshots.
  Its replicas step by the functions that `KvStore.Store.Apply` is proved to compute. A call is one
  call of `Propose`: a client message that two successive leaders both propose is two calls.
- `Progress`: the continuations of a run, when a call can still be answered, and what happens to a
  message that two leaders accept.
- `ClientMessages`: linearizability of the clients' messages, of which the log may hold copies.
- `ConnectionOrder`: the pipeline and the cluster joined, from the bytes of one connection to the
  order of its commands in the log.
- `CommandLog`, `Recovery`, `CrashRestart`, `Logger`: the length-prefixed log at byte level, its
  recovery from complete and torn files, crashes at any byte, and the decoupled logger.
- `MessageQueue`, `ChatRoom`: the sliding window of the chat client, and what it makes of several
  replicas' copies of one stream.
- `DiskStorage`, `DiskRestart`: the byte-file store as a refinement of the map store, and its file
  over crashes and restarts.
- `Membership`: `JoinRaft` over a stale copy of the configuration.
- `Framing`, `Pipeline`: newline framing, the goroutine pipeline and the throughput counter.
- `WebKvStore`, `LocalReads`: the map with deletes, snapshots, and GETs that bypass the log.

## What the proofs found

- A committed operation other than SET or GET stops the service for as long as the committed log
  survives: it is logged, then panics on every replica, also after every restart. The log is kept
  in memory (kvstore/store.go:179-180): once every process has died, a bootstrap node starts an
  empty log, which this model does not cover. `Progress.ServiceIff` says exactly when a new
  call can still be answered, and `Progress.DeleteEndsService` gives the run. The repository's
  README (line 27) and kvstore/store_test.go:65-80 still offer "delete"; the model follows the code.
- Linearizability holds for calls of `Propose` and not for clients' messages: a message accepted
  by two leaders can undo another client's answered SET (`Progress.MessageMayBeExecutedTwice`).
  `Progress.DuplicateHarmlessIff` and `ClientMessages.OnceIffHarmless` say exactly when a copy goes
  unnoticed, and then the messages are linearizable (`ClientMessages.FirstCopiesLinearizeMessages`).
- Recovery from a torn log can invent a write: a SET cut inside its value is installed with zeros
  for the missing bytes (`Recovery.TornSetIsCorrupted`). `Recovery.TornRecordIgnoredIff` says
  exactly when the torn record leaves no trace.
- A value with a dash reaches the client only up to the dash, and a port with a dash pushes the
  value out of the reply (`KvSpec.ReplyRouting`, `KvSpec.ReplyIntactIff`).
- A join request with a dash or a newline in its ID or address is not understood as meant: it
  names another node, or stops the leader (`Membership.SentRequestIff`,
  `Membership.DashedIdNamesAnother`, `Membership.NewlineInIdStops`).
- An error from `raft.Apply` does not mean that nothing happens: the SET may be committed later and
  be read (`Progress.FailedSetMayTakeEffect`).
- A record of 2^31 bytes or more makes recovery of the whole log panic
  (`Recovery.OverlongRecordPanics`).
- A serialized command containing a newline byte is cut in two (`Framing.FramingIff`).
- The disk store agrees with the map store only on canonical keys and on SETs of its one fixed
  block (`DiskStorage.GetAgreesIffCanonical`, `DiskStorage.SetReadBackIff`, and for whole runs
  `DiskStorage.RunRefinesMapIff`), and keys that differ by a multiple of 2^54 share a slot of the
  deployed store (`DiskStorage.SameSlotIff`, `DiskStorage.DistantKeyHitsSlotZero`).
- The chat client repeats a message exactly when some copy lags by more than the window
  (`ChatRoom.ExactlyOnceIffLagBounded`); configured with a window of 0, it panics at once.
- webkvstore's local GETs are prefix-consistent, but later reads may go back in the log
  (`LocalReads.LocalReadsPrefixConsistent`, `LocalReads.LaterReadMayBeStale`);
  `LocalReads.ReadIsCurrentIff` says exactly when one is current, and `LocalReads.InOrderIff` when
  all of them together make sense.

## Model

| member | source | states |
|---|---|---|
| Linearizability.CommitOrderIsLinearization | kvstore/store.go:121-149 | In every run, with any leader changes, drops, timeouts, late commits, crashes, restarts and snapshot installs, the calls of Propose are linearizable: one order of the calls explains every answer by the sequential map, contains every answered call, no dropped one, none twice, and respects real time |
| Linearizability.RealTimeOrder | kvstore/store.go:121-136 | A call answered before another is made precedes it in the committed log |
| Linearizability.LinearizationOnlyGrows | kvstore/store.go:131-135 | The order that explains a run so far is never revised later, only extended |
| Linearizability.CommittedByLeaderOnly | kvstore/store.go:127-131 | Every committed entry carries the message of a call made on a replica that took itself for the leader at that moment; calls on other replicas never take effect |
| Linearizability.GetReturnsLastCommittedSet | kvstore/store.go:121-149 | In every run, an answered GET is answered with the value of the last SET of its key committed before it, by whichever replica and leader, routed as `KvSpec.ReplyRouting` says |
| Linearizability.GetReturnsPreload | kvstore/store.go:113-117 | An answered GET of a key with no committed SET before it is answered with the preloaded value, or nothing |
| Linearizability.AnswerContents | kvstore/fsm.go:44-52 | Only SET and GET are ever answered, whatever the port: a SET with an empty value, a GET with the key's value at its log index |
| Linearizability.AnswerIsSequential | kvstore/store.go:131-141 | Every answered call is in the log, answered with the response of the sequential map at its index, and nothing up to it panics |
| Linearizability.AnsweredOnlyWhileWaiting | kvstore/store.go:131-141 | In every run, at each moment between a call and its answer the process that took it is running and still waits: what was dropped, refused or given up, or lost its process, is never answered |
| Linearizability.DeadCallsStayUnanswered | kvstore/store.go:131-141 | An unanswered call whose replica is down is never answered, also not after the replica has restarted and executed its entry |
| Linearizability.ProcessDies | kvstore/store.go:131-136 | A death, by a crash or a panic, fails exactly the pending calls of that replica, and touches no other call or replica |
| Linearizability.ProcessStarts | kvstore/store.go:72-119 | A restarted replica starts over from the preloaded map, as a follower, with nothing applied |
| Progress.FailedSetMayTakeEffect | kvstore/store.go:131-135 | A SET whose call has failed with an error may be committed later, and be read by a GET made after the failure |
| Progress.SnapshotTransfer | kvstore/fsm.go:57-77 | After any run a snapshot of one running replica takes another to the same log index and map, without executing an entry |
| Progress.FollowerDrops | kvstore/store.go:127-129 | What a replica that is not the leader is sent is never committed and never answered |
| Progress.UndecodableIsRejected | kvstore/store.go:145-147 | A call with an undecodable message ends with an error, its map unchanged |
| Linearizability.PanickingEntryBlocks | kvstore/fsm.go:44-53 | Once an entry with an operation other than SET and GET is committed, no replica ever applies past it and no call at or behind it is ever answered |
| Progress.ReplicaReachesIff | kvstore/fsm.go:21-54 | After any run, some continuation brings a replica, running or not, through the first k log entries if and only if none of them has an operation other than SET and GET |
| Progress.ServiceIff | kvstore/store.go:121-149 | After any run, a new call of Propose can still be answered if and only if its message decodes to a SET or GET and no log entry has another operation; then every replica can be the one that answers it |
| Progress.PoisonEndsService | kvstore/fsm.go:51-53 | In any run, one such command accepted by a leader and committed ends the service: no call made later is answered in any continuation |
| Progress.DeleteEndsService | kvstore/fsm.go:46-53 | A DELETE is such a command: a run of a fresh cluster in which it is the only entry and after which nothing is ever answered |
| Progress.MessageMayBeExecutedTwice | kvstore/store.go:121-136 | A client's SET reaches both replicas; replica 0 answers it and then another client's SET of the key, made after that answer; replica 1 then leads and proposes its copy of the first; a GET made after all answers returns the first SET's value again |
| Progress.DuplicateHarmlessIff | kvstore/fsm.go:81-84 | A second execution of a SET goes unnoticed, whatever follows it, if and only if the last SET of the key before it set the same value |
| ClientMessages.OnceIffHarmless | kvstore/fsm.go:21-54 | A log with copies of messages acts at every place as the log in which each SET message stands once if and only if every repeated SET finds its own value as the last one set to its key |
| ClientMessages.FirstCopiesLinearizeMessages | kvstore/store.go:121-149 | In every run whose repeated SETs are harmless in that sense, the first copies in commit order linearize the clients' messages: no SET twice, every answer that of the sequential map at the place that stands for its call, and real time respected between messages |
| ConnectionOrder.AnsweredInOrder | kvstore/server.go:95-106 | Of calls that one goroutine makes one after the other, any two that are answered stand in the committed log in that order, in every run of the cluster |
| ConnectionOrder.ConnectionOrderKept | kvstore/server.go:71-106 | From the bytes of a connection to the log: any two answered commands of one client stand in the log in the order in which they were sent, whatever other connections and servers did meanwhile |
| Linearizability.RunKeepsInv | kvstore/fsm.go:21-54 | In every reachable state every replica's map is the sequential state of the log prefix it has applied, also across restarts and snapshot installs |
| KvSpec.LastWriteWins | kvstore/fsm.go:81-84 | After any log, a key set in it holds the value of its last SET |
| KvSpec.UnwrittenKeepsInitial | kvstore/fsm.go:81-84 | A key no entry sets keeps its initial value or absence |
| KvSpec.StateAfterConcat | kvstore/fsm.go:21-54 | Executing a log in two parts is executing it whole |
| KvSpec.ResponseSplits | kvstore/store.go:137-141 | Every string response splits into at least two parts, so the second part exists |
| KvSpec.ReplyRouting | kvstore/store.go:137-143 | For every port and value the reply goes to the port up to its first dash; it carries the value up to its first dash if the port has none, and otherwise a piece of the port and nothing of the value |
| KvSpec.ReplyIntactIff | kvstore/store.go:137-143 | The reply reaches the port with the whole value if and only if neither the port nor the value has a dash |
| KvSpec.ResponseBytes | kvstore/fsm.go:44-53 | The response is the port, a dash, and for a GET the value, empty for an absent key; exactly the other operations panic |
| KvSpec.ReplyBytes | kvstore/store.go:137-143 | Without dashes the datagram is "OK: value" and a newline, to "ip:port" |
| KvStore.Store.constructor | kvstore/store.go:72-119 | The preloaded map has exactly the decimal keys below the limit, all sharing one slice |
| KvStore.PreloadBytes | kvstore/store.go:26-39 | The preload has exactly the decimal keys below the limit, each with 1024 exclamation marks |
| KvStore.Store.Apply | kvstore/fsm.go:21-54 | Map and response are those of the sequential specification; the record is written at the file offset on every path after a successful decode, also before a panic, and nowhere else |
| KvStore.Store.ApplySet | kvstore/fsm.go:81-85 | The key maps to a fresh slice with the value; every other entry is untouched |
| KvStore.Store.ApplyGet | kvstore/fsm.go:110-117 | The key's value, or the empty string |
| KvStore.Store.Snapshot | kvstore/fsm.go:57-64 | The copy has the same keys and the very same slices |
| KvStore.Store.Restore | kvstore/fsm.go:67-77 | The map becomes the decoded snapshot, or stays as it was on a decoding error |
| KvStore.SnapshotIsolation | kvstore/fsm.go:57-64 | No later Apply changes what a snapshot already taken contains, although it shares its slices with the live map |
| KvStore.CatchUp | kvstore/fsm.go:57-77 | A replica restored from a snapshot persisted after the source moved on, and given the rest of the log, has the map of the whole log |
| KvStore.ReapplyAfterRestart | kvstore/store.go:407-426 | Re-applying the log from its first entry over any prefix left in the file ends with exactly the encoding of the log and the live map |
| CommandLog.LengthRoundTrip | kvstore/fsm.go:35-35 | A length survives its 4-byte big-endian header if and only if it is below 2^31 |
| CommandLog.FrameBytes | kvstore/fsm.go:29-41 | Byte by byte, a record is the command with its Id replaced by the entry's index, serialized, behind its length with the most significant byte first |
| CommandLog.EncodingMonotone | kvstore/fsm.go:33-41 | The file after fewer entries is a byte prefix of the file after more |
| CommandLog.CompleteIsMaximal | recovery/state.go:42-65 | The whole records counted in a cut file fit in it, and the next one does not |
| Recovery.MockState.InstallReceivedState | recovery/state.go:38-79 | Installs the SETs of the decoded commands in order and returns their number; a negative length panics and installs nothing |
| Recovery.ReadCommands | recovery/state.go:40-65 | The cursor loop reads exactly the commands of the recursive decoding specification |
| Recovery.DecodeEncoding | recovery/state.go:42-65 | Decoding a complete log file gives exactly the logged commands, in order |
| Recovery.RecoveredAt | recovery/state.go:42-65 | Recovery gives each decodable entry's command back at its place, with the entry's index for Id |
| Recovery.OverlongRecordPanics | recovery/state.go:43-55 | A record of 2^31 bytes or more behind any valid log makes recovery panic |
| Recovery.MakesliceIff | recovery/state.go:43-55 | A turn of the loop panics if and only if the header is whole and its first bit is set |
| Recovery.BreakIff | recovery/state.go:43-63 | It ends the loop if and only if the header is torn, nothing follows it, or the padded body does not decode |
| Recovery.TornPrefixRecovery | recovery/state.go:42-65 | From every byte prefix of a log: no panic, every whole record exactly and in order, and at most one command more, the decoding of the torn body padded with zeros |
| Recovery.TornRecordIgnoredIff | recovery/state.go:51-63 | The torn record leaves no trace if and only if at most its header is there or its padded body does not decode |
| Recovery.TornSetIsCorrupted | recovery/state.go:51-64 | For every serializer that puts a non-empty value last and every log ending in a decodable command, a file cut t bytes inside that command's value recovers all earlier commands and that command with those t bytes zeroed, which is the logged one if and only if they were zeros |
| Recovery.PlainValueLast | recovery/state.go:59-64 | The concrete length-prefixed serializer puts the value last |
| Recovery.SparseValueLast | recovery/state.go:59-64 | So does the one that, as proto3 does, writes no byte for the default command |
| Recovery.RecoverLiveState | recovery/state.go:38-79 | Installing the log file into an empty MockState and laying it over the preloaded map gives the live map, and the count is the number of decodable entries |
| Recovery.ReplayLogged | recovery/state.go:67-75 | Replaying the logged commands acts on any map as executing the entries they came from |
| Recovery.ReplayOverlay | recovery/state.go:67-75 | Replaying over any base map is laying the replay from the empty map over it |
| CrashRestart.LogSafety | kvstore/store.go:407-426 | In every run of writes, crashes at any byte and restarts from offset 0, the file is a byte prefix of the committed log's encoding and never loses or changes a byte |
| CrashRestart.WrittenIsDurable | kvstore/fsm.go:29-42 | A record once completely written is in the file at every later moment |
| CrashRestart.RecoverableAtAnyTime | recovery/state.go:42-65 | Installing the file at any moment of such a run recovers the first k entries, k covering every record ever completely written, plus at most one torn command; without it the result is the map of a replica that executed exactly k entries |
| CrashRestart.ReachableFileIff | kvstore/store.go:407-426 | After any run, and with nothing more committed, the files that can still be left are exactly those between the present file and the whole encoding |
| CrashRestart.EveryPrefixIsLeft | kvstore/fsm.go:29-42 | Every byte prefix of every log is what some crashed process leaves |
| CrashRestart.StepKeepsInv | kvstore/fsm.go:29-42 | Every step keeps the file a prefix of the encoding and the unwritten bytes the next ones |
| Logger.Process.Apply | logger/fsm.go:22-38 | Writes the same record as the store, counts it modulo 2^64, and skips what does not decode |
| Logger.LogsAgree | logger/fsm.go:22-38 | A logger and a store at any progress on one log hold files one of which is a byte prefix of the other, identical at equal progress; decoding neither panics, and what the shorter recovers is a prefix of what the longer recovers |
| MessageQueue.Queue.constructor | chatRoom/client/messageQueue.go:18-24 | A queue starts full of blanks |
| MessageQueue.Queue.Add | chatRoom/client/messageQueue.go:27-43 | Appends if and only if there is room below capacity minus one and the message is not in the queue; history invariant kept |
| MessageQueue.Queue.Consume | chatRoom/client/messageQueue.go:46-57 | Removes and returns the first entry, keeping the history invariant; an empty queue panics and stays as it is |
| MessageQueue.Queue.PushPop | chatRoom/client/messageQueue.go:61-79 | The window slides as specified; everything popped followed by the queue is always the blanks followed by the accepted messages; it panics if and only if the queue is empty and its capacity is below two |
| MessageQueue.SlideWindow | chatRoom/client/messageQueue.go:61-79 | Place by place: a known message changes nothing; a new one goes to the end and drops the first one if and only if fewer than two places were free |
| MessageQueue.Queue.Contains | chatRoom/client/messageQueue.go:82-90 | Finds the message exactly when it is in the queue |
| ChatRoom.Apply | chatRoom/server/fsmServer.go:16-27 | Every client is sent the tagged message after all earlier ones |
| ChatRoom.TagInjective | chatRoom/server/fsmServer.go:19-23 | Equal broadcasts come from entries with equal index and data |
| ChatRoom.TagReadBack | chatRoom/server/fsmServer.go:19-23 | Up to its first dash a broadcast is the index in decimal, digit by digit, and behind it the message |
| ChatRoom.StreamReadBack | chatRoom/client/chatClient.go:87-94 | The reader takes the broadcast lines off the connection exactly as they were sent |
| ChatRoom.ExactlyOnceIffLagBounded | chatRoom/client/chatClient.go:97-111 | For any number of replicas and any interleaving, the client prints exactly the log up to the front, once each and in order, if and only if no copy arrives more than the window size behind the front; with window size 0 it panics at its first message, and never otherwise |
| ChatRoom.LateCopyIsReprinted | chatRoom/client/messageQueue.go:68-76 | The first copy beyond the bound is printed a second time, unless the window size is 0 and nothing is printed at all |
| ChatRoom.ChatDelivery | chatRoom/client/chatClient.go:87-111 | For the streams the chat servers really send, the client prints exactly the tagged log up to the front if and only if the lag stays bounded; it panics exactly on a message into a window of size 0 |
| ChatRoom.Consume | chatRoom/client/chatClient.go:97-111 | The consumer loop over the queue computes the client state of the specification |
| ChatRoom.RunClient | chatRoom/client/chatClient.go:97-111 | The running consumer's output is a prefix of the log if and only if the lag stayed bounded or the window size is 0; it panics exactly on a message into a window of size 0 |
| ChatRoom.RunOnConnections | chatRoom/client/chatClient.go:87-111 | From bytes to printed lines: when each connection has delivered any byte prefix of the broadcast and the readers hand on its lines in any interleaving, the client prints exactly the tagged log up to the front if and only if the lag stays bounded |
| DiskStorage.Store.Apply | diskstorage/fsm.go:17-41 | File and response are those of the specified disk operation; undecodable entries change nothing |
| DiskStorage.Store.ApplySet | diskstorage/fsm.go:55-68 | Writes the fixed block at the 64-bit stride, or panics on a bad key or a negative stride |
| DiskStorage.Store.ApplyGet | diskstorage/fsm.go:86-100 | Reads one block at the stride, or panics when the key is bad or the block is not all in the file |
| DiskStorage.DiskRefinesMap | diskstorage/fsm.go:31-100 | For every sequence of in-range GETs and SETs the file answers, and its slots end, as a map store preloaded with its slots does on the commands' normal forms; nothing panics and the length stays |
| DiskStorage.CanonicalRunRefinesMap | diskstorage/fsm.go:31-100 | With canonical keys and block values the map store runs the very same commands |
| DiskStorage.RunRefinesMapIff | diskstorage/fsm.go:31-100 | For every sequence of in-range commands, the file answers and ends as the map store running the very same commands if and only if every key is canonical and every SET of another value than the block is overwritten by a SET of the block before its key is read and before the end |
| DiskRestart.RunBytes | diskstorage/fsm.go:55-68 | After any in-range run a byte is '@' if some SET covers it, and as it was otherwise |
| DiskRestart.CrashBytes | diskstorage/fsm.go:63-63 | A crash leaves '@' exactly where a finished SET or the first bytes of the cut one fell |
| DiskRestart.RestartReachesLiveFile | diskstorage/storage.go:76-83 | After any number of crashes, each at any byte of any write, executing the whole log again over the file left behind gives the file of a process that never crashed, without a panic |
| DiskStorage.SetChangesOneSlot | diskstorage/fsm.go:61-66 | A SET fills its own slot with the block and changes no other slot and no other byte |
| DiskStorage.GetAgreesIffCanonical | diskstorage/fsm.go:88-99 | Disk and map answer a GET alike if and only if its key is canonical decimal |
| DiskStorage.SetReadBackIff | diskstorage/fsm.go:63-63 | For every in-range key, canonical or not, a SET is read back as the map store would if and only if its value is the fixed block |
| DiskStorage.GetPanicsIff | diskstorage/fsm.go:92-98 | Without overflow, a GET panics if and only if its block is not wholly inside the file |
| DiskStorage.DiskPanicsIff | diskstorage/fsm.go:31-100 | A command panics if and only if it is neither SET nor GET, its key names no slot, or it is a GET whose block is not all in the file |
| DiskStorage.DiskChangesIff | diskstorage/fsm.go:55-68 | Only a SET that does not panic changes the file, and it writes '@' on its own block and nothing else |
| DiskStorage.SameSlotIff | diskstorage/fsm.go:61-92 | Two SETs, or two GETs, with different keys do the same on every file if and only if their keys name the same 64-bit offset or both name none |
| DiskStorage.SlotOffsetIff | diskstorage/fsm.go:61-61 | Two numeric keys name the same offset if and only if their products with the value size agree modulo 2^64, or both are refused as negative |
| DiskStorage.KilobyteSlotsAlias | diskstorage/storage.go:18-24 | In the deployed configuration accepted keys share a slot if and only if they differ by a multiple of 2^54 |
| DiskStorage.DistantKeyHitsSlotZero | diskstorage/fsm.go:55-68 | In the deployed file a SET of key 2^54 succeeds and overwrites slot 0, which the map store leaves alone |
| DiskStorage.DeployedNeverPanics | diskstorage/storage.go:18-25 | A million one-kilobyte keys run without panic in the deployed state file, whose length never changes |
| Membership.JoinRaft | kvstore/store.go:211-254 | A successful join leaves exactly the non-conflicting servers, in order, and the new one, at most two having been removed; IDs and addresses stay unique on every path; the early return happens if and only if the exact pair is a member, and then nothing was removed; no error ever removes a non-conflicting server; an error may nevertheless have added the node |
| Membership.VisitServer | kvstore/store.go:220-238 | The loop body removes the server it stands at if it conflicts, and no other, although the configuration changes under the copied list; after an error it is gone if and only if the change was committed all the same |
| Membership.AtMostTwo | kvstore/store.go:222-224 | At most two servers can conflict with a joining node |
| Membership.JoinRequestIff | kvstore/store.go:277-286 | The first line of a request splits into the three parts that were sent if and only if none of them has a dash or a newline |
| Membership.SentRequestIff | kvstore/main.go:152-168 | A joining node's own request makes the leader call JoinRaft with its ID, its address and the voter flag if and only if neither has a dash or a newline |
| Membership.LoggerRequestIff | logger/main.go:113-118 | A logger's request makes the leader call JoinRaft with its ID and address, without the vote, if and only if both are plain |
| Membership.PlainRequestArguments | kvstore/store.go:284-286 | A plain request asks for a voter if and only if its flag is one of the six texts that ParseBool takes for true |
| Membership.DashedIdNamesAnother | kvstore/store.go:279-286 | With a dash in the ID, what is behind it is taken for the address, and the address for the flag |
| Membership.NewlineInIdStops | kvstore/store.go:277-282 | With a newline in the ID the process exits |
| Membership.ServeJoin | kvstore/store.go:277-290 | A join that succeeds leaves the configuration that the joining node or logger meant, in the role it meant, if and only if its ID and address have no dash and no newline; when the process exits instead, nothing was changed and one of them has |
| Framing.ReadSession | kvstore/sessions.go:48-67 | The reader hands on exactly the complete non-blank lines |
| Framing.RequestsAreLines | kvstore/sessions.go:55-60 | Every request ends in its only newline and is longer than it |
| Framing.PartialLineWaits | kvstore/sessions.go:55-64 | Bytes behind the last newline are not handed on |
| Framing.BlankLineSkipped | kvstore/sessions.go:55-56 | A blank line is not handed on |
| Framing.FramingIff | client/seqClient.go:129-145 | Non-empty payloads, framed and read back, are the same if and only if none contains a newline |
| Pipeline.PipelineOrder | kvstore/server.go:81-112 | In every interleaving the requests sent on a connection are those handled, then the ones held by listener, forwarder and reader, then the unread ones: none lost, doubled or overtaken |
| Pipeline.CommandsProposedInOrder | kvstore/server.go:71-78 | Of a client's newline-free commands a prefix has been proposed, in order, also while a frame is sent only in part; once nothing is on the way, exactly those whose frames are complete |
| Pipeline.EveryLineCanBeProposed | kvstore/server.go:81-106 | Nothing gets stuck: after any run the goroutines can go on, without anything more being sent, until every line a client has sent has been proposed |
| Pipeline.NewClientIsServed | kvstore/server.go:81-112 | At any moment a new client can connect, send its commands, and have exactly them proposed in order |
| Pipeline.HandleOne | kvstore/server.go:71-78 | Handling a request frees the listener, and proposes and counts exactly that request |
| Pipeline.ThroughputConserved | kvstore/server.go:114-127 | Reported counts plus the counter equal the handled requests modulo 2^64 |
| Pipeline.ReportsCatchUp | kvstore/server.go:114-127 | The next report of the monitor accounts for all requests handled so far, modulo 2^64 |
| WebKvStore.Store.Apply | webkvstore/store/store.go:234-248 | Sets or deletes as specified; undecodable or unknown commands panic and change nothing |
| WebKvStore.LastTouchDecides | webkvstore/store/store.go:276-288 | The last entry touching a key decides its value, or its absence after a delete |
| WebKvStore.CatchUp | webkvstore/store/store.go:251-274 | Snapshot, restore and catch-up give the map of the whole log, deletes included |
| LocalReads.LocalReadsPrefixConsistent | webkvstore/store/store.go:135-143 | Every local GET returned the value after some prefix of the committed log, and prefixes never shrink on one replica |
| LocalReads.LaterReadMayBeStale | webkvstore/store/store.go:135-143 | A value read on one replica may be missing from a later read on another; no places in the log, in the order of the reads, explain both |
| LocalReads.ReadIsCurrentIff | webkvstore/store/store.go:135-143 | A local GET of any run returned the newest value of its key if and only if, of the committed executable entries its replica had still to apply, the last that touches the key, if any, leaves the very value read |
| LocalReads.InOrderIff | webkvstore/store/store.go:135-143 | Any sequence of reads has non-decreasing places in the log that explain it if and only if placing each read as early as the ones before it allow never fails |
| LocalReads.CurrentReadsAreInOrder | webkvstore/store/store.go:135-143 | If every read of a run was current, places in the log explain all of them in order |
| LocalReads.OneReplicaIsInOrder | webkvstore/store/store.go:135-143 | The reads of a single replica always have such places |
| LocalReads.ReplicaReachesIff | webkvstore/store/store.go:234-248 | A replica can execute the first k entries if and only if none of them panics |
| LocalReads.SnapshotTransfer | webkvstore/store/store.go:251-274 | A snapshot takes a replica that is behind to where another one is |
| Decimal.AtoiOfItoa | diskstorage/fsm.go:57-60 | Decimal printing and parsing are inverse as far as 64 bits reach |
| Decimal.ItoaDigits | chatRoom/server/fsmServer.go:19-19 | The decimal form digit by digit, most significant first |
| Decimal.AtoiSigned | diskstorage/fsm.go:57-60 | "-n" and "+n" parse as one expects within 64 bits |
| Commands.PlainIsSound | kvstore/fsm.go:23-31 | A concrete serializer meets the assumptions made of proto.Marshal and proto.Unmarshal |
| Commands.SparseIsSound | kvstore/fsm.go:23-31 | So does the one that writes no byte for the default command |

## Left out

- Raft consensus, elections, transport and log storage: library code; only the committed log, the leader check and the configuration changes appear.
- Protobuf and JSON encodings: parameters with a round trip; records longer than an int32 and JSON keys that are not valid UTF-8 are excluded by the parameters' preconditions.
- The errors that the source ignores from `proto.Marshal`, `binary.Write` and `File.Write`: every write succeeds or the process crashes in it.
- Machine crashes that lose the page cache: `CrashRestart` covers process crashes; the file is not synced in the deployed configuration.
- A committed log that differs after the loss of the whole cluster, whose Raft log is in memory: a restarted process re-applies the same log.
- The gzip path of kvstore: switched off by a constant, and its slices share one buffer.
- `Sync = true` in the message queue: PushPop would lock its own mutex twice; the client never uses it.
- The diskstorage command log: its records have no length prefix, so recovery does not apply to it.
- Deletes in kvstore and diskstorage: commented out in the source; they panic here as there.
- Concurrent configuration changes during `JoinRaft`, and the rejection of duplicate addresses inside Raft: one join at a time.
- Streams that start at different log positions on different replicas: the delivery theorem is for streams with a common start.
- Cancellation of the pipeline's contexts, and closing of its channels: the pipeline results hold up to that moment.
- Sockets, HTTP, timers, flags, Kubernetes discovery and deployment files: input and output, or plumbing.
- `validateReq` and the `serializeCommandIn...` functions: nothing calls them.
- Restarts of webkvstore replicas: a restarted process starts from an empty map, so its reads may go back; `LocalReads` covers replicas between restarts.
- KvStore.CatchUp: the replicas' log files must be different files, and the snapshot's keys valid UTF-8 for the JSON round trip.
- Pipeline.PipelineOrder: a connection is accepted only between two requests of the listener, as its select does; waiting in the joins channel is not modelled.
