# PlexPaper verification model

A Dafny 4.11 model of the parts of PlexPaper, a sleeping proxy for Minecraft servers, on which a
client's bytes and a server's life depend, with proofs of what they promise.

- **Wire** (`VarInt.dfy`, `Packet.dfy`, `Cuts.dfy`). VarInt framing, the compressed and uncompressed packet codec,
  and `read_packet`, which rebuilds frames in a mutable buffer from whatever reads the socket delivers. The
  proofs give codec inversion, conservation of bytes, and exactly which ways of cutting up a stream of frames of
  any size the reader copes with.
- **Conversations** (`Lobby.dfy`, `Monitor.dfy`). The lobby's login loop, which changes its compression mode in
  the middle of a stream, and the monitor's wait loops, which skip frames that do not decode.
- **Front-end and hand-over** (`Status.dfy`, `Join.dfy`). One client connection from its first byte, through the
  gates and the chain of join methods, to the bytes the real server receives.
- **Lifecycle** (`Server.dfy`, `Watch.dfy`, `Publish.dfy`, `Atomic.dfy`, `Rcon.dfy`). The four-state server driven by
  concurrent tasks. `Server.dfy` and `Watch.dfy` take one `Server` method call as a step and read kill deadline, idle
  decision and wake-ups off the history of a run; a monitor round is five such calls, with any calls of other tasks
  between them. `Publish.dfy` takes the change of the state and its send on the watch channel as two steps.
  `Atomic.dfy` and `Rcon.dfy` take every atomic operation as a step, with any number of tasks, for the start protocol
  and the RCON cooldown.
- **server.properties** (`Properties.dfy`, `Text.dfy`). The rewriter and the independent reader, and what both mean
  character by character.
- `Base.dfy` holds shared vocabulary.

Where the source updates things in place the model does too: `Client`, `Buffer`, `Socket`, `Connection`,
`Inbound`, `Server` are classes, loops are loops, and each method is proved equal to a specification function
(`Parse`, `DecodeBody`, `Body`, `ReadStep`, `LoginRun`, `WaitRun`, `ServeRun`, `OccupyFrom`, `Apply`, `Rewritten`).
The promises are lemmas about those functions, over every input, run or interleaving; what each branch of them means is
stated once more without them, in ids, bytes, configuration fields or the history of calls. Protocols between tasks are
step systems, and their steps taken without interruption are proved to be the calls of the lifecycle
(`Atomic.UndisturbedIsOneCall`, `Atomic.UndisturbedStop`, `Publish.UndisturbedIsOneCall`).

## Properties that hold only under a condition

- **Chunking independence.** `read_packet` parses the length as soon as two bytes are buffered
  (src/proto/packet.rs:133-157), so a length prefix of three or more bytes of which only two have arrived is an
  error. `ChunkingIndependenceIff`: the packets sent are the packets read iff no read ended inside a length prefix
  after its second byte; `LargeBodiesCanFail` gives a failing cut for every body from 16384 bytes on. The condition is
  carried through the lobby's login (`SwitchIsBufferSafe`, `LobbyResponseLogsIn`), the hand-over
  (`LoginIsHandedOver`, `EndToEnd`) and the wait loops (`WaitResynchronises`).
- **A server can be started again.** Not after a spawn that failed: the state stays Starting with no supervisor, and
  logins lose until a poll finds a server online (`FailedSpawnBlocks`). Nor after a stop by RCON whose write of Stopping
  comes once the supervisor has reported the end: the state stays Stopping for ever (`LateRconStopIsDead`,
  `DeadForGood`).
- **A wait of the monitor ends by its timeout.** Not after such a prefix: the loop then repeats a call that fails
  without reading, so it never waits and its timeout never gets a turn (`SplitPrefixSpins`). `NeverDecidedIff` says
  exactly when a wait comes to no verdict of its own.
- **The relayed bytes are all the client sent.** `RelayIsCompleteIff`: for a client that is handed over, iff its first
  two frames are a login handshake and a login start. Other frames before or between them are dropped
  (`StrayFramesAreDropped`, and `RelayCanBeIncomplete` for one such client).
- **The monitor stops only idle servers and kills only overdue ones.** True at each check; other tasks' calls may come
  between a check and the act. Sleep is still due at the stop iff none of them changed the state (`SleepStaysDue`), a
  server for which it is not due is stopped iff it was started anew meanwhile (`StopIsStaleIff`, `StopsStale`), and a
  kill is early iff one of them changed the state and no new deadline has passed since (`KillIsEarlyIff`,
  `KillsEarly`).
- **One supervisor at a time.** `OneSupervisorIff`: iff no start is won while a supervisor is outstanding. Such a win
  comes only after a failed poll has written Stopped under one (src/server.rs:130-132, `SecondWinNeedsLoudPoll`), and
  after any such write the next login is one (`LoudPollAdmitsSecond`, `LoudRunsStartTwice`).
- **The pid names a living child.** It is cleared one step after the child's exit (`PidCanOutliveItsChild`).
  `StalePidIff`: without such writes the pid names a process that is gone iff the supervisor that owns it has not
  noticed the exit yet, is looking at it, or is about to clear the pid. `SingleChild` says exactly when it is set.
- **A held client is woken when the server leaves Starting.** With the change of the state and its send apart,
  `WakeUpStillComes`: as long as sends keep to the order of the changes. `StrandedIff`: a waiter is stranded iff a
  Starting was sent after a later change (`LateSendStrands`).
- **Rewriting server.properties is idempotent.** `RewriteIsIdempotentIff`: iff every key of the changes is one that can
  be found again and every value is one line; anything else is written anew each time.

Where code and intent differ the model follows the code: `poll_server` never returns `Ok(None)`
(src/monitor.rs:69-80), so the ping fallback's result is not used and a started server whose status fails counts as
offline.

## Model

| member | source | states |
|---|---|---|
| VarInt.ReadVarInt | src/types.rs:1-18 | the scan for the first byte without a continuation bit, at most five, returns exactly what `Parse` says |
| VarInt.EncodeVarInt | src/types.rs:20-24 | the base-128 loop produces the encoding `Encode` |
| VarInt.RoundTrip | src/types.rs:1-24 | decoding inverts encoding for every i32 before any suffix, and encodings have 1 to 5 bytes |
| VarInt.PrefixFree | src/types.rs:1-24 | two encodings that start the same stream are equal, and so is the rest |
| VarInt.Locality | src/types.rs:2-15 | a successful read depends on exactly the bytes it reports: any buffer agreeing on them reads the same, any shorter prefix of them is malformed |
| VarInt.EncodeSize | src/types.rs:20-24 | an encoding takes at most two bytes iff the value is 0 to 16383 |
| VarInt.ProperPrefix | src/types.rs:2-17 | no proper prefix of an encoding can be read |
| VarInt.KnownEncodings | src/types.rs:20-24 | the published examples of the encoding, and the five bytes of minus one |
| VarInt.ReadableIff | src/types.rs:2-17 | a prefix can be read iff one of its first five bytes has no continuation bit; the first such byte is the last one taken |
| Packet.StateIds | src/proto/client.rs:69-85 | 0, 1 and 2 are handshake, status and login, every other id is rejected, and `from_id` inverts `to_id` on these |
| Packet.DecodeWithoutLen | src/proto/packet.rs:47-74 | the decoder, cursor by cursor, computes the meaning of a frame body under the client's threshold |
| Packet.DecodeWithLen | src/proto/packet.rs:39-45 | the same behind a length prefix, required only to be in bounds as the slice is |
| Packet.EncodeCompressed | src/proto/packet.rs:94-117 | the buffer-replacing encoder produces the body of a compressing writer |
| Packet.EncodeWithLen | src/proto/packet.rs:76-92 | the frame a writer with the client's threshold sends |
| Packet.BodyRoundTrip | src/proto/packet.rs:47-124 | a body written under any threshold decodes to its packet under any threshold of the same sign |
| Packet.FrameRoundTrip | src/proto/packet.rs:31-124 | decode_with_len inverts encode_with_len before any suffix; decoding depends only on the sign of the threshold |
| Packet.HeaderTellsCompression | src/proto/packet.rs:94-117 | the size header is zero iff the payload was sent as it is, which is iff it is not longer than the threshold |
| Packet.WireForm | src/proto/packet.rs:76-124 | the wire form of a short packet byte by byte, with and without compression in force |
| Packet.IdsAreTruncated | src/proto/packet.rs:50-74 | a packet id wider than a byte keeps its low eight bits |
| Packet.AcceptedIff | src/proto/packet.rs:52-74 | a compressing reader accepts a body iff its size header is zero and the rest is a packet, or the rest inflates to a packet of exactly that size |
| Packet.CutIsInBounds | src/proto/packet.rs:178-179 | the buffer cut off for decode_with_len never makes its slice panic, whatever length was parsed, negative ones included |
| Packet.ReadPacket | src/proto/packet.rs:127-182 | one call on a mutable buffer and socket, with its result, the bytes it removes and those it leaves |
| Packet.UnreadableLength | src/proto/packet.rs:151-157 | a length that cannot be read is an error that removes and reads nothing |
| Packet.EmptyFrame | src/proto/packet.rs:159-181 | an empty frame is removed and is an error |
| Packet.NegativeLength | src/proto/packet.rs:159-179 | lengths from -5 on cut into their own five bytes and fail; lower ones wait for more bytes than there are, and the call reports how the socket ended |
| Packet.ReadConserves | src/proto/packet.rs:127-182 | bytes removed, then buffered, then still to come are the bytes before the call; a returned raw frame is what was removed, and Closed removes nothing |
| Packet.ReadsOneFrame | src/proto/packet.rs:133-181 | resynchronisation: a frame at the front is removed exactly, however it is cut, and its body alone decides between packet and error |
| Packet.FrameReadIff | src/proto/packet.rs:133-157 | the frame is read iff its length prefix is buffered by the time two bytes are; otherwise an error that removes nothing and repeats |
| Packet.LargeBodiesCanFail | src/proto/packet.rs:133-157 | every body from 16384 bytes on has a cut of its frame on which the read fails |
| Packet.SmallBodiesAreReady | src/proto/packet.rs:133-157 | no cut can split the prefix of a body of 1 to 16383 bytes badly |
| Packet.SessionConserves | src/proto/packet.rs:127-182 | after any number of calls on any input, all frames removed followed by the buffer are the bytes received so far |
| Packet.ChunkingIndependence | src/proto/packet.rs:127-182 | for packets with bodies of at most 16383 bytes and every cut of their frames, the calls return exactly those packets with their raw frames, then the end |
| Cuts.ReadsWholeFrames | src/proto/packet.rs:127-182 | for frames of any size and every cut, the calls remove exactly the frames in front of the first prefix cut after its second byte, each with its packet or decoding error, and fail from there on |
| Cuts.FramesReadIffUncut | src/proto/packet.rs:133-181 | as many calls as frames remove all of them iff no read ends inside a length prefix after its second byte |
| Cuts.ReadsCutOff | src/proto/packet.rs:133-176 | a stream that ends inside a frame: an error if a read ended inside the length prefix after its second byte; otherwise all is buffered, nothing removed, and the call reports an error if reading failed and no packet if the peer closed or reset |
| Cuts.ChunkingIndependenceIff | src/proto/packet.rs:127-182 | for every packet list and every cut, the calls return exactly those packets with their raw frames and then the end iff that condition holds |
| Lobby.Handle | src/lobby.rs:361-441 | one packet of the login loop: what it does, and its effect on compression and state |
| Lobby.ConnectToServer | src/lobby.rs:346-451 | the loop that reads, switches compression and goes on with what is already buffered |
| Lobby.SwitchIsBufferSafe | src/lobby.rs:348-378 | for any packets and any number of announced switches, the byte loop reads exactly the packets the packet-level conversation says, in order, with the sender's threshold, and leaves exactly the bytes of the rest, if those packets come before the first split length prefix; otherwise it reads those in front of it and gives up |
| Lobby.RespondLogin | src/lobby.rs:86-93 | the lobby announces compression uncompressed, adopts it, and sends the login success under it |
| Lobby.LobbyResponseLogsIn | src/lobby.rs:86-93 | a login loop run against the lobby's own response is logged in iff neither length prefix is split, then with the lobby's threshold, the play packets behind it whole |
| Lobby.FirstStopDecides | src/lobby.rs:361-441 | by packet ids: the first packet that is a disconnect, an encryption request, a login success, a bad announcement or an unanswered plugin request decides the login, under the threshold announced last before it |
| Lobby.LogsInIff | src/lobby.rs:348-451 | over the stream the login succeeds iff that first packet is a login success and no length prefix up to there is split, and fails with an error iff it is an announcement or a plugin request |
| Monitor.WaitForStatus | src/monitor.rs:147-169 | the wait loop that passes over read errors and other packets, for as many calls as are looked at |
| Monitor.WaitForPing | src/monitor.rs:181-206 | the same for a ping, which also passes over other tokens |
| Monitor.StatusDecides | src/monitor.rs:161-167 | the first decodable frame of id 0 ends the wait for a status, with that packet or, if it is no status, with an error |
| Monitor.PongDecides | src/monitor.rs:195-203 | the first frame of id 1 that does not decode or has the token ends the wait for a ping; pongs with another token are passed over |
| Monitor.WaitResynchronises | src/monitor.rs:152-203 | over any frames, of any size, decodable or not, then the front of one more, cut in any way, the result is the verdict on the first packet that gets one before the first split length prefix; if none does and the peer closed, the wait is given up |
| Monitor.NeverDecidedIff | src/monitor.rs:147-206 | exactly when no number of calls brings a verdict |
| Monitor.SplitPrefixSpins | src/monitor.rs:152-158 | after a length prefix parsed too early, for every n, n further calls give no verdict, remove nothing and read nothing, so that nothing in the loop ever waits |
| Status.Connection.Serve | src/status.rs:31-179 | the connection loop on its client, buffer, stream and history |
| Status.PacketKeepsCoherence | src/status.rs:57-171 | every packet keeps: in state Login the history is exactly one login handshake frame and the stored handshake is that one, in any other state it is empty |
| Status.ConnectionInvariant | src/status.rs:31-179 | over whole runs: at hand-over the state is Login, next_state is 2, history is the handshake frame followed by the login queue, all gates were passed and `start` was called once; a connection that ends otherwise never called it |
| Status.HandOverConserves | src/status.rs:77-161 | at hand-over the earlier frames, the queue and the unread stream are all bytes ever received |
| Status.RelayIsCompleteIff | src/status.rs:44-176 | for a client that is handed over, history and unread stream are all it sent iff its first two frames are a login handshake and a login start |
| Status.StrayFramesAreDropped | src/status.rs:57-176 | a client with any other packets before its login handshake or between that and its login start is handed over with exactly those frames missing |
| Status.ClosedGatesStartNothing | src/status.rs:115-149 | under a lockout or a ban nothing is started and nobody handed over, whatever the client sends |
| Status.BadHandshakeCloses | src/status.rs:57-78 | a handshake that does not decode or asks for a state other than 0, 1 or 2 ends the connection unanswered |
| Status.RelayCanBeIncomplete | src/status.rs:57-176 | one such client, at a site that admits everyone |
| Status.LoginIsHandedOver | src/status.rs:57-171 | login handshake, login start and any tail, cut in any way: handed over iff there is no lockout, no ban, a readable name is whitelisted, and neither length prefix is split, then complete; else nothing is started, and a client that was read gets only the disconnect packet of the first gate closed to it |
| Status.StatusVisitIsAnswered | src/status.rs:90-106 | a status client, cut in any way, gets the status frame and then its own ping frame, and starts nothing |
| Status.StatusConversation | src/status.rs:90-106 | over any list of frames a status client gets the status for each request and its own frame for each ping, in order, until a write fails, which is an error |
| Join.Inbound.Occupy | src/join/mod.rs:24-94 | the loop over join methods on the owned stream |
| Join.FirstTakerDecides | src/join/mod.rs:40-94 | for any list the chain does what its first non-passing method does to the client as it arrived, or closes the stream |
| Join.OccupyDisposesOnce | src/join/mod.rs:40-94 | for any list the stream is disposed of exactly once, and by a bare drop exactly when an error is returned |
| Join.RelayingTakerRelays | src/join/hold.rs:27-30 | when hold or forward is the first to take the client, exactly the history is relayed, to its own target, nothing having been written |
| Join.KickedClientIsTold | src/join/kick.rs:12-30 | a client that kick is the first to take is sent the one disconnect frame, by whether the server is stopping, and closed |
| Join.LobbyTakes | src/join/lobby.rs:13-39 | when the lobby is the first to take the client: who stays, who is closed, who is dropped, and who is in state Play |
| Join.UntakenClientIsClosed | src/join/mod.rs:88-94 | a client nobody takes is closed without a word |
| Join.Copy | src/proxy.rs:66-69 | copying one direction appends every remaining byte in order |
| Join.ProxyInboundOutboundWithQueue | src/proxy.rs:45-80 | each side receives its queue first, then the other side's stream |
| Join.ProxyWithQueue | src/proxy.rs:21-43 | the target receives header, queue, stream |
| Join.EndToEnd | src/service/server.rs:122-150 | end to end: for an admitted client whose two opening length prefixes are not split, after any passing methods hold or forward deliver the configured header and then exactly the client's bytes, in order |
| Join.LobbyReadsTheLogin | src/status.rs:151-168 | from the login queue and the rest of the stream the lobby reads the client's login start first, and then the tail |
| Server.Server.UpdateStateFrom | src/server.rs:76-122 | compare-exchange or swap, watch, deadline, activity and keep-online, as one call |
| Server.Server.UpdateStatus | src/server.rs:124-144 | the effect of a poll result |
| Server.Server.Start | src/server.rs:146-167 | start, with its thawing variant |
| Server.Server.Stop | src/server.rs:174-193 | freeze, RCON, signal, in that order |
| Server.Server.StopServerRcon | src/server.rs:425-467 | the RCON stop as one call, from any state |
| Server.Server.IsIdle | src/server.rs:202-236 | the sleep test |
| Server.Server.IsOverdue | src/server.rs:238-244 | the kill test |
| Server.Server.MonitorTick | src/monitor.rs:34-61 | one round of the monitor, with any calls of other tasks between its five: update, sleep check, stop, kill check, kill |
| Server.LifecycleRelation | src/server.rs:76-193 | in no run Stopping to Started or Starting, or Stopped to Stopping; Stopping is left only for Stopped |
| Server.StateIsHistory | src/server.rs:124-193 | in every reachable state, state, pid and last RCON stop are those of a table over the calls, which the deadline and idle laws rest on |
| Server.PollDecides | src/server.rs:124-144 | of any reachable server an answered poll makes Started unless it is Stopping, an unanswered one makes Stopped of Started alone, and the end of a supervisor makes Stopped |
| Server.ReachableBookkeeping | src/server.rs:97-144 | in every reachable state the watch shows the state and its version counts the changes, and Started implies a status and an activity stamp |
| Server.KillDeadlineIsHistory | src/server.rs:99-107 | kill_at is set iff Starting or Stopping with a positive timeout, and is then the last change of state plus that timeout |
| Server.KillsExactlyOverdue | src/monitor.rs:55-60 | a kill check fires iff the history is that far past the last change, so never early and never in another state |
| Server.ActivityIsHistory | src/server.rs:115-140 | while Started the activity stamp is the later of the start and the last poll with players |
| Server.SleepsExactlyWhenDue | src/server.rs:202-236 | over every chronological run should_sleep holds iff the history calls for it: Started, last poll empty, past both windows |
| Server.MonitorActsOnHistory | src/monitor.rs:34-61 | on any reachable server, with any calls between its own, a round goes to stop iff the history at that check calls for sleep and to kill iff it is overdue at that check; stop and kill are still due when they come unless another task has changed the state, the kill falling on the pid it then finds |
| Server.SleepStaysDue | src/monitor.rs:50-53 | after any calls of other tasks since the check, sleep is due at the stop iff the server is still Started, iff none of them changed the state |
| Server.StopIsStaleIff | src/monitor.rs:50-53 | the stop changes a server for which sleep is not due iff that server is Starting and has a way to be stopped |
| Server.StopsStale | src/monitor.rs:50-53 | a run in which it stops a server a login has just started |
| Server.KillIsEarlyIff | src/monitor.rs:55-60 | after any calls since the check, the kill falls on a server that is not overdue iff one of them changed the state and no new deadline has passed since; within less than any timeout, iff one of them changed the state |
| Server.KillsEarly | src/monitor.rs:55-60 | a run in which a ctrl-c between check and kill has the child killed as its stopping time begins |
| Watch.Hold | src/join/hold.rs:35-66 | true iff the first look that did not show Starting showed Started, whatever versions were skipped between looks |
| Watch.StartMovesTheChannel | src/server.rs:68-97 | after start returned, either way, a new receiver is behind or the channel shows Starting |
| Watch.NoLostWakeUp | src/join/hold.rs:38-66 | over every later interleaving, coalesced updates included, a waiter is blocked only while the channel shows Starting |
| Watch.HeldClientsAreNeverStranded | src/lobby.rs:242-264 | hence, calls being steps, with the server out of Starting a waiter finishes in two steps, with true iff the server is Started |
| Watch.WaiterIsHold | src/join/hold.rs:38-66 | every run of a waiter among any calls makes looks the loop of `hold` may make, and reports what that loop reports for them |
| Watch.OnlineWasSeen | src/join/hold.rs:51-53 | a waiter that reported online did so in a step at which the state was Started |
| Publish.WakeUpStillComes | src/server.rs:76-97 | with change and send apart, any number of tasks and sends in the order of the changes: a waiter blocked out of Starting is still to be sent a change |
| Publish.StrandedIff | src/server.rs:76-97 | with every change sent, a waiter ends up blocked out of Starting iff a Starting was sent after a later change |
| Publish.LateSendStrands | src/server.rs:76-97 | a run in which that happens to a started server |
| Publish.UndisturbedIsOneCall | src/server.rs:76-97 | a change and its send with nothing in between are one call of update_state_from |
| Atomic.StartsAreBounded | src/server.rs:76-93 | over any interleaving of atomic steps, successful starts number at most one more than entries into Stopped |
| Atomic.StoppedBetweenStarts | src/server.rs:146-167 | between two successful starts Stopped was entered |
| Atomic.TaskEffect | src/server.rs:357-422 | what a single atomic step of any task can do to supervisor, pid and state |
| Atomic.OneSupervisorIff | src/server.rs:76-167 | a run has at most one outstanding supervisor at every point iff in it no start is won under an outstanding one |
| Atomic.SecondWinNeedsLoudPoll | src/server.rs:130-132 | from boot, such a win comes only after a failed poll has written Stopped under an outstanding supervisor |
| Atomic.LoudPollAdmitsSecond | src/server.rs:130-167 | after any such write, in any state, the next login wins and is the second supervisor |
| Atomic.SingleChild | src/server.rs:357-422 | in runs without such writes at most one child lives, Stopped means no supervisor, and the pid is set exactly between storing and clearing |
| Atomic.StalePidIff | src/server.rs:385-410 | in such runs the pid names a process that is gone iff the supervisor that owns it has not noticed the exit, is looking at it or is about to clear the pid |
| Atomic.SupervisorEnds | src/server.rs:385-419 | after its child's exit a supervisor clears the pid, restores Stopped, and restarts iff configured, failed and Started |
| Atomic.FailedSpawnBlocks | src/server.rs:371-377 | a failed spawn leaves the server in Starting with no supervisor, where every login loses |
| Atomic.UndisturbedIsOneCall | src/server.rs:76-167 | the steps of a start, a poll and the end of a supervisor, with nothing in between, have the effect on the state that the lifecycle tells |
| Atomic.UndisturbedStop | src/server.rs:174-193 | so have those of a stop, by RCON or else by a signal, which leave pid and child alone |
| Atomic.SwapsOverwrite | src/server.rs:76-93 | swaps write over any state, exchanges change only the one they name |
| Atomic.DeadForGood | src/server.rs:124-193 | in Stopping with no supervisor and no poll about to write, no task of any kind ever changes the state and no start succeeds |
| Atomic.LateRconStopIsDead | src/server.rs:454-464 | a run from boot without failed polls that ends there |
| Atomic.LoudRunsStartTwice | src/server.rs:130-132 | a run with two living children, when a poll fails under a running child |
| Atomic.PidCanOutliveItsChild | src/server.rs:385-410 | such a run in which the pid names a child that has exited |
| Rcon.RconDiscipline | src/server.rs:425-467 | with any number of concurrent callers one holds the permit, and every command and record respects the cooldown |
| Rcon.StopsAreSpaced | src/server.rs:435-459 | every stop command goes out at least 15 s after the last recorded one, and the k-th later record is 15 k seconds later |
| Rcon.AcceptedAreRecorded | src/server.rs:454-464 | whenever the permit is free, every command the server accepted has been recorded, none before it was sent |
| Rcon.SendsIffCool | src/server.rs:425-467 | a caller alone sends and records its stop iff none was recorded within 15 s, and frees the permit |
| Rcon.FailureIsNotRecorded | src/server.rs:446-457 | a caller that cannot connect or is refused frees the permit with nothing recorded, and only the refused command was sent |
| Properties.RewriteOne | src/mc/server_properties.rs:89-110 | the closure over one line, with the change it consumes |
| Properties.AppendMissing | src/mc/server_properties.rs:114-117 | the loop over the keys left, in whatever order the map yields them |
| Properties.RewriteContents | src/mc/server_properties.rs:80-124 | the whole rewrite equals its specification for the order that occurred |
| Properties.ReaderAgrees | src/mc/server_properties.rs:92-100 | reader and rewriter take a line alike except comments, whose key then starts with a number sign |
| Properties.RawAfter | src/mc/server_properties.rs:89-110 | for any changes, the first assignment of every key after the line pass, and which keys are left |
| Properties.ChangedIffUnsettled | src/mc/server_properties.rs:102-107 | the line pass reports a change iff some assigned key has another value, and otherwise leaves every line |
| Properties.RewriteFramesLines | src/mc/server_properties.rs:87-117 | the result's lines are the original ones, each kept or given its new value, then one line for exactly each missing key, up to one trailing blank line |
| Properties.NoneIffUpToDate | src/mc/server_properties.rs:119-123 | None is returned iff every key already has exactly its new value |
| Properties.AssignedIsCanonical | src/mc/server_properties.rs:92-102 | no line of any file is ever taken as an assignment to a key that is not trimmed, in lower case, on one line, without an assignment sign and no comment, nor with a value of more than one line |
| Properties.RewriteThenRead | src/mc/server_properties.rs:80-152 | for keys of that kind and one-line values, the reader finds the trimmed new value of every changed key, whatever the iteration order and whether or not anything was rewritten |
| Properties.RewriteIsIdempotentIff | src/mc/server_properties.rs:80-124 | for any changes, a second rewrite with them returns None, whatever the two orders, iff every key is of that kind and every value is one line |
| Properties.OthersReadAsBefore | src/mc/server_properties.rs:80-152 | every property outside the changes reads as before |
| Text.LinesOfFile | src/mc/server_properties.rs:87-88 | for files with any mixture of bare and full line ends, exactly the lines come out |
| Text.TrimIs | src/mc/server_properties.rs:92-102 | trimming takes off all the space around a text and no more |
| Text.LettersFold | src/mc/server_properties.rs:102 | folding maps each capital to its small letter and nothing else |
| Text.ReadsAssignment | src/mc/server_properties.rs:148-152 | a first line whose key, trimmed and folded, is the property gives its trimmed value, assignment signs in it included |
| Text.ReadsPast | src/mc/server_properties.rs:148-152 | any other first line is passed over |
| Text.RewritesToCrLf | src/mc/server_properties.rs:112-117 | a rewritten file ends every line with both characters, whatever the original did |

## Left out

- Packet.DecodeWithoutLen: a negative uncompressed size makes the source's allocation fail and abort the process; the model returns a decode error there.
- VarInt.ReadVarInt: the library decoder itself is not part of this model; surplus high bits of a fifth byte are dropped as in 32-bit arithmetic.
- Packet.ReadPacket: a socket read delivers a non-empty chunk of any size rather than at most 8 KiB, and lengths are added in the wrapping 64-bit arithmetic of the release build.
- Packet.ChunkingIndependence: bodies of 16384 bytes and more are the subject of Cuts.ChunkingIndependenceIff.
- Lobby.ConnectToServer: connecting, the two opening packets, the contents of plugin replies and the final close; whether a reply succeeds is a function of the request. The probe's copy of the loop is not modelled separately.
- Lobby.RespondLogin: failing writes, Forge replay, and the packets of the lobby world (join game, respawn, titles, sounds) that follow.
- Monitor.WaitForStatus: the source's loop is unbounded and under a timeout; the method makes a given number of calls, for every such number, and a timeout that fires in a pending read is an end of the stream there. Connecting and the request are not modelled.
- Monitor.WaitForPing: the same bound on the calls looked at in place of the timeout.
- Status.Connection.Serve: the texts of the disconnect packets are opaque, the ban and whitelist lookups are inputs, the status document is opaque.
- Join.Inbound.Occupy: how serving the lobby world ends is an input, and so is whether hold saw the server online; what that answer means is proved in Watch.
- Join.ProxyInboundOutboundWithQueue: failing writes and the shutdown of the write halves; the two directions are copied one after the other, which changes neither byte order.
- Join.ProxyWithQueue: failing connects and writes.
- Server.Server.UpdateStateFrom: all instants within one call are the same, and the call is one step; its separate steps are the subject of Publish and Atomic.
- Watch.HeldClientsAreNeverStranded: the change of the state and its send are one step there; Publish has them apart.
- Server.Server.MonitorTick: one round of an endless loop, whose lemmas start from every reachable server; the effect of the kill signal on the process is not modelled.
- Atomic.SingleChild: freezing is off, because it deliberately keeps a process alive in Stopped.
- Rcon.RconDiscipline: a command that failed after it was sent is not recorded by the source, so spacing is relative to recorded ones.
- Properties.RewriteThenRead: white space and letter case are ASCII; the file access around the rewrite is not modelled.
- Packet ids are those of the 1.14.4 packet definitions the source imports from its protocol library, which is not part of this model.
- The server status is reduced to its number of players; State is a datatype rather than its u8 code.
- Ban and whitelist files, file watching, configuration, command building, favicon, MOTD, UUIDs and logging: straight-line or library code.
