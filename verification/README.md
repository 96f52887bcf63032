# AFK session core: a verified model

AFK keeps a terminal process alive behind a per-session *runner*. A runner owns the PTY, keeps the
end of the output, and talks to short-lived *attachments* over a Unix socket; sessions are found
again through a directory of per-session files. This project models that core and proves what the
two ends, and the commands over the directory, promise each other.

How it is built:

- `Bytes`, `Io`, `Limits` are the ground: bytes, big-endian numbers, the bounds of `src/limits.rs`,
  and the environment. Every system call returns a result that the environment supplies. Loops over
  reads or writes consume a finite script of results, and a script that runs out acts like a call
  that would block. All statements hold for every script, so they cover every partial read or
  write, every interruption and every failure.
- What a step comes to is a function (`Ticks.DrainOf`, `Attachment.NextOutcome`, `Registry.BindOutcome` and
  others) that the method of the source's form is proved to compute. Beside each of them a lemma says what
  it means in terms of the bytes, calls and entries alone, without using it (`Ticks.DrainTakes`,
  `Attachment.NextMeans`, `Registry.BindMeans`).
- `Ipc`, `ByteQueue`, `OutputTail`, `Connection` and `Attachment` follow the source's records,
  classes and loops. `Runner` is the event loop with its state in fields; `Ticks` holds what one
  iteration gets from its environment and what each part of it comes to on values; `Tenures` says what
  the iterations make of one attachment from the tick in which it comes to the one in which it goes.
- `Transcript` says, on values, what has to be true of a session's history: bytes read from the
  PTY, bytes on each connection's wire, and the records of each connection that took effect, in one
  log. `Runner.Run` keeps such a transcript as ghost state; `EndToEnd` draws the conclusions.
- `Identity`, `Registry`, `Session` and `Retention` model the session directory as a map from file
  names to entries that changes one file operation at a time; `Creators` interleaves the file
  operations of any number of processes.
- `Lifecycle` puts a runner's start, loop and completion together over one directory.
- `Cli` and `Startup` are the command line and the handshake that hands a command to a new runner.

A run of the model may end at any tick, so what holds at the end of every run holds at every loop
head of every longer run.

## Main results

1. **Output, end to end** (`Runner.Runner.Run`, `Attachment.AttachLive`, `EndToEnd.ShownIsDue`,
   `EndToEnd.ExitComesLast`). What an attachment shows is a prefix of: the truncation marker if
   output had been lost, the tail at the time it attached, and every byte read since. If it reports
   the exit, it has shown all of that to the last byte. Delivery is exact: what the runner has queued
   for, written to and heard from an attachment is a function of its ticks (`Tenures.TurnedAll`,
   `Tenures.TenureGivesAll`); after a tick in which its socket takes it, all of it is written, and
   whoever has received that has everything due (`EndToEnd.ServedSeesAll`). When the session completes,
   the attachment that the last live record tells of is given the rest of the output and the exit; if
   the last flushes are taken, the exit is on its wire, and the read that brings the last of it reports
   the exit (`EndToEnd.CompletionIsReported`, `EndToEnd.ExitIsReported`).
2. **Input, end to end** (`Runner.Runner.Run`, `EndToEnd.TypedArrives`, `EndToEnd.PtyGetsTheLog`).
   Every run keeps a transcript in which the PTY receives the input log in order and a dropped or
   replaced connection never contributes again. The share of a connection in that log is a prefix of
   what was typed there, and byte by byte the PTY's input is nothing but these shares.
3. **Nothing a peer sends ends a runner** except a stop record (`Runner.Runner.Run`,
   `Lifecycle.HostSession`). An aborted run names a failing call of the runner's own (`Ticks.Breaks`,
   `Ticks.Spoils`: PTY, wait, poll, accept, resize, its own files), so a run in which none of these
   fails is not aborted, whatever its peers send and however their sockets fail; once the child has
   exited it completes. A stop needs a peer whose whole speech was `Stop`.
4. **The record on disk** says `attached` exactly when there is an attachment, and completion is
   crash-ordered: at every intermediate directory state a reader sees the old record or the new one
   with its whole output; over a whole run every state shows a live record of this runner or the
   completed one. From launch to end (`Lifecycle.HostSession`), nobody can connect to a session that
   has been completed, and attaching to it gives the end of all output read and the exit of its process
   until its record expires, whatever attachments did meanwhile; a runner never touches another
   session's files.
5. **The decoder** accepts exactly the canonical encodings, does not depend on how a stream is cut,
   and never runs out of room.
6. **The directory**: retention over whole histories, fail-closed creation, convergence of
   concurrent creators, and the handshake that agrees with the command line's limits.

## Findings

- `Registry::open` fails when any record it scans is unreadable, whoever it belongs to, so a retained
  session can be replayed exactly when all scanned records are readable. `Session.ConnectOrStart`
  states this as an if-and-only-if, `Session.UnreadableNeighbour` exhibits such a directory, and
  `Retention` shows that no history of AFK commands and runners leads from a readable directory to an
  unreadable one.
- The architecture document says that a runner is created when no record exists. The code also asks
  that connecting failed with "not found" or "refused" (`Session.RefusedWithoutRecord` exhibits a session
  without a record that is not launched). An attachment that was live and ended with one of those two
  kinds counts as such a failure (`Session.LaunchedAfterConnecting`). `Session.ConnectOrStart` launches
  exactly under `Session.Launches`.
- A completed session is recorded before its socket is removed. Attaching connects first, so while the
  runner still listens the live end decides: with an exit of 17 on record, an attachment whose socket is
  then closed ends with 0 (`Lifecycle.WindowWitness`). Attaching gives the recorded answer exactly when
  connecting fails (`Lifecycle.ListenerDecides`), which it does for everybody once the run has ended.
- A runner that started but did not complete (a system call failed) removes its socket and lock and
  leaves its live record. By `Lifecycle.HostSession` and `Session.ConnectOrStart` together, every
  later `session` call on that ID is refused, and no runner is ever launched for it again while the
  record stays. Live records never expire.
- A temporary file is named after the process ID of its writer and is created exclusively. A leftover
  of a process with the same ID therefore refuses the write (`Session.LeftoverRefuses` exhibits such a
  launch): `Registry.WriteOutcome` says exactly when, and it is the one way in which a runner none of
  whose calls fails of themselves can be aborted.
- A record that has expired by the time of binding is removed without looking at its socket and lock, so
  if one of these is still there the launch is refused: `Session.ExpiredKeepsSocket` exhibits it and
  `Session.LaunchesUntaken` says exactly when.
- The records of a read that also holds malformed bytes are discarded together with the connection,
  so input sent in the same read as garbage does not take effect. The input statements are prefixes
  for this reason.

## Model

| member | source | states |
|---|---|---|
| `Ipc.NextInvertsEncode` | src/ipc.rs:68-92 | the decoder yields a record and a rest exactly for the canonical encoding of that record followed by that rest |
| `Ipc.WireFormat` | src/ipc.rs:111-160 | the bytes of every kind of record: kind, length and payload, big end first |
| `Ipc.FrontIs` | src/ipc.rs:68-92 | exactly when a buffer is incomplete, too large, of unknown kind or has an invalid payload, from its bytes |
| `Ipc.StrictPrefixIncomplete` | src/ipc.rs:68-92 | no strict prefix of an encoding gives a record or an error |
| `Ipc.ParseSound` | src/ipc.rs:162-202 | what was consumed of any stream is the encoding of the records it gave, all within the decoder's limits |
| `Ipc.ParseComplete` | src/ipc.rs:138-202 | concatenated encodings of any record list parse back to exactly that list, whatever follows |
| `Ipc.ParseOfPrefix` | src/ipc.rs:60-92 | a stream of encodings cut anywhere decodes without error to a prefix of its records |
| `Ipc.UniquelyDecodable` | src/ipc.rs:138-149 | different record lists have different encodings |
| `Ipc.ParseAppend` | src/ipc.rs:68-92 | parsing a stream is parsing its front and going on from what that left over; an error is final |
| `Ipc.ChunkingIndependence` | src/ipc.rs:60-92 | however a stream is cut into pushes, draining after each gives the same records, rest and first error |
| `Ipc.DrainedLeavesRoom` | src/ipc.rs:56-66 | after an error-free drain at least one byte of capacity is free |
| `Ipc.Decoder.Push` | src/ipc.rs:60-66 | bytes beyond the capacity are refused as a whole, others appended |
| `Ipc.Decoder.Next` | src/ipc.rs:68-92 | one step of the parse: a record is removed, an error or an incomplete record leaves the buffer alone |
| `Ipc.Decoder.Drain` | src/runner.rs:449-457 | the draining loop computes the parse of what was buffered and leaves a decoder with room |
| `ByteQueue.ByteQueue.Push` | src/byte_queue.rs:17-23 | all or nothing, refused exactly above the limit |
| `ByteQueue.ByteQueue.Flush` | src/byte_queue.rs:25-46 | first in, first out under partial, blocked, interrupted and failing writes, whichever slice is offered |
| `ByteQueue.FlushEnds` | src/byte_queue.rs:25-46 | what ends a flush, exactly: an empty queue, a writer that would block, or the error of the write that failed or took nothing; interrupted writes do not |
| `ByteQueue.FlushCompletes` | src/byte_queue.rs:25-46 | enough successful writes empty the queue |
| `OutputTail.OutputTail.Extend` | src/output_tail.rs:21-47 | the tail stays the last bytes of everything ever given, and the flag says whether that is all of it |
| `OutputTail.OutputTail.Snapshot` | src/output_tail.rs:49-51 | the snapshot is the end of everything given |
| `Bytes.LastNIs` | src/output_tail.rs:21-47 | the end of a sequence is what follows its beginning, and as long as asked unless it is all there is |
| `Connection.Connection.ReadRecords` | src/runner.rs:422-458 | records continue the parse of the connection's stream; how much is read, to the byte; nothing read and a failing call end it, a blocked or interrupted read does not; the full-decoder branch is dead |
| `Connection.Connection.EnqueueOutput` | src/runner.rs:486-497 | all of the output is queued, in these records, exactly when it fits with its headers, otherwise a prefix |
| `Connection.Connection.EnqueueReplay` | src/runner.rs:479-484 | queues marker and tail in exactly these records; on a fresh connection it always fits |
| `Connection.Connection.SendExit` | src/runner.rs:547-552 | the exit goes behind everything queued, or is left out when the queue is full; the wire grows by exactly what the flush wrote |
| `Transcript.Offered` | src/runner.rs:397-406 | an attachment that took a chunk is up to date again; one that did not keeps a prefix of what it was due |
| `Transcript.Replayed` | src/runner.rs:479-484 | the replay is exactly what an attachment made now is due |
| `Transcript.Heard` | src/runner.rs:422-458 | reading more never takes back a record that took effect |
| `Transcript.Parted` | src/runner.rs:542-554 | announcing the exit adds nothing to the output and stays last |
| `Transcript.TookEffect` | src/runner.rs:460-477 | one record taking effect keeps log, stories and PTY input in agreement |
| `Transcript.Joined` | src/runner.rs:359-381 | an accepted connection starts without any effect |
| `Ticks.ExitOf` | src/runner.rs:602-610 | every exit a runner reports is within what the decoder accepts |
| `Ticks.ExitIs` | src/runner.rs:602-610 | the exit code is the second byte of the status, a signal the lower seven bits of the first; a stopped process counts as exit code 1 |
| `Ticks.StopChild` | src/runner.rs:499-517 | the first check that settles anything decides, otherwise the first signal that cannot be sent, otherwise the last wait; kill follows only if every check found the child running |
| `Ticks.FaultlessGoesOn` | src/runner.rs:188-342 | a tick in which no read, write, wait, poll, accept or resize of the runner's own fails breaks nothing, whatever the peers' reads and writes are |
| `Ticks.BreaksWithOs` | src/runner.rs:188-342 | what can break a tick is the error of a system call |
| `Ticks.PassedIs` | src/runner.rs:188-342 | a tick that the runner survives has had no failing wait, poll, accept or reached read |
| `Ticks.DrainTakes` | src/runner.rs:383-420 | a drain takes all output up to the read that ends it; end of file, a blocked read and the error of a closed terminal end it well, only another failing read fails it |
| `Ticks.AcceptingIs` | src/runner.rs:358-381 | exactly the peers of the same user before the first failing accept are let in, and that call is the error |
| `Runner.Runner.DrainPty` | src/runner.rs:383-420 | reads the tick's share of output up to the read that ends it; only a failing read fails it; the attachment survives exactly when its queue has room for all of it, and then has all of it queued |
| `Runner.Runner.FlushInput` | src/runner.rs:245-250 | queued input goes to the PTY in order; a failing write costs the attachment |
| `Ticks.DecodedDimensionsValid` | src/platform/unix.rs:97-108 | decoded dimensions always pass the range check of the PTY |
| `Runner.Runner.ApplyRecords` | src/runner.rs:460-477 | records take effect in order up to the first that is not for an attachment or does not fit; it fails exactly at the resize call that the environment lets fail |
| `Runner.Runner.FlushActive` | src/runner.rs:259-266 | the wire grows by what was accepted; failure closes the attachment |
| `Runner.Runner.HearActive` | src/runner.rs:267-281 | closed if and only if the stream ended, was malformed, or a record was refused; a peer that has gone is closed, a blocked or interrupted read costs nothing; what is not applied was refused for a reason; it fails only with a resize call |
| `Runner.Runner.ServeActive` | src/runner.rs:251-288 | the attachment's wire and received bytes grow by what the tick's writes and read gave; it is kept exactly if neither failed and all it said took effect; the record on disk says whether it is still there |
| `Runner.Runner.AcceptCandidates` | src/runner.rs:359-381 | the newest peer of the same user becomes the candidate, unheard; every acceptance is counted |
| `Runner.Runner.Admit` | src/runner.rs:298-316 | a peer becomes the attachment exactly when everything it sent along took effect; only a resize call or the record's own write fails it |
| `Runner.Runner.Introduce` | src/runner.rs:296-327 | attach, a lone stop, or rejection, decided by the first records; only a resize call or the record's own write fails it |
| `Runner.Runner.HearCandidate` | src/runner.rs:292-335 | what was read decides, and only that, whether the candidate attaches, stops the session, goes on waiting or is dropped; one that has gone is dropped, a blocked or interrupted read leaves it waiting; bad input never fails the runner |
| `Ticks.HeardFirstMeans` | src/runner.rs:292-335 | a lone stop stops; whoever says attach attaches, unless a later record of the same read is refused: one that no attachment says, or input without room |
| `Ticks.CandidateTurnMeans` | src/runner.rs:292-335 | a candidate that has gone waits no longer, one with nothing to say yet goes on waiting |
| `Ticks.StaysMeans` | src/runner.rs:251-288 | an attachment that has gone does not stay; sockets that take what they are given and a blocked or interrupted read cost no place |
| `Runner.Runner.Dispatch` | src/runner.rs:245-336 | what each part of the loop body did to PTY, attachment, listener and candidate, also one that has just replaced the polled one, and who is kept, exactly; it breaks only with a failing call of the runner's own |
| `Runner.Runner.Iterate` | src/runner.rs:188-342 | one iteration keeps the invariant and the record on disk, queues the drained output behind what was queued and then serves attachment and candidate with the tick's own reads and writes; who is kept, exactly; it breaks only with the error of a failing call of the runner's own in this tick, and not without the calls it needs |
| `Tenures.TurnGives` | src/runner.rs:383-406 | in one tick an attachment that keeps its place is given exactly the output read, and every whole record read from it takes effect |
| `Tenures.TenureGivesAll` | src/runner.rs:188-288 | over all its ticks an attachment is given exactly the output they read, nothing sent either way is taken back, and every whole record read from it has taken effect |
| `Tenures.AmpleTurns` | src/runner.rs:259-266 | after a tick in which its socket takes everything, all that is due to an attachment is on its wire |
| `Tenures.KeepsPlaceMeans` | src/runner.rs:188-288 | over a whole tick: an attachment that has gone loses its place, room in its queue, working sockets and patience keep it |
| `Runner.Runner.Advance` | src/runner.rs:188-342 | a tick as part of a run: after it nobody who has gone is attached or waits, nobody has lost a place for having nothing to say, and the account of the attachment goes on |
| `Runner.Runner.SayGoodbye` | src/runner.rs:542-554 | the whole last story of an attachment: the exit is queued behind everything unless the first flush fails or there is no room, and the wire grows by exactly what the two flushes write |
| `Ticks.ToldIsComplete` | src/runner.rs:547-552 | if the last flushes take everything, the wire is the encoding of all that was queued with the exit at its end |
| `Ticks.FarewellTold` | src/runner.rs:542-554 | if the socket takes what it is given, the exit is announced and written |
| `Runner.Runner.WriteCompletion` | src/runner.rs:528-540 | every directory state shows the old record, or the completed one with exactly the last output; only this session's files change; it succeeds exactly if both writes do |
| `Runner.Runner.CompleteSession` | src/runner.rs:519-556 | on disk first, then to the attachment, whose last story is that of the two flushes with the exit between them; only a failing write prevents it |
| `Runner.Runner.Finish` | src/runner.rs:344-356 | a run that ends is completed with the child's exit, or aborted with the error of a failing call; the live files are gone; an attachment with room for it is given the rest of the output and the exit |
| `Runner.Runner.End` | src/runner.rs:336-356 | however the loop ends, every directory state shows the live record or the completed one, and the attachment that the last live record tells of is the one that is given the rest and the exit |
| `Runner.Runner.Run` | src/runner.rs:171-356 | over every run: transcript in order, output read is what the ticks gave, the attachment is exactly what its ticks have made of it since it came, a socket that takes everything has everything, the record on disk is the live one that says whether there is an attachment, dropped connections are silent, other sessions' files are untouched; an abort has the error of a failing call of the runner's own, so a faultless run is never aborted; a completed run reports the code or the signal its child ended with, and gives its attachment the rest and the exit |
| `Attachment.Show` | src/attach.rs:208-228 | the output at the front of a batch is shown; the batch ends with its end, an exit, an improper record, or a terminal that takes no more or cannot be flushed, exactly |
| `Attachment.Attachment.QueueRecord` | src/attach.rs:324-343 | refused exactly when the payload is above the limit or the queue has no room, otherwise queued at the end |
| `Attachment.Attachment.TakeInput` | src/attach.rs:128-149 | a new size and what was typed are queued in order; it fails exactly when the queue has no room or standard input fails |
| `Attachment.Attachment.Receive` | src/attach.rs:188-235 | how a read ends, exactly: the exit is reported when the batch is output up to an exit and the terminal takes it and is flushed; what is shown is the output received |
| `Attachment.Attachment.Iterate` | src/attach.rs:110-235 | how an iteration ends, exactly: detached on a signal, a closed socket, or the end of input with an empty queue |
| `Attachment.AttachLive` | src/attach.rs:90-237 | sends one attach, then what was typed, all of it once the socket takes it; shows a prefix of the received output; how it ends is decided exactly by the last tick begun: a signal, a runner that has gone or the end of input detach it, and it stays while nothing happens |
| `Attachment.NextMeans` | src/attach.rs:110-235 | how a tick ends, from what happens in it alone: which errors end it, what detaches, and that an interrupted poll ends nothing |
| `Attachment.ReceiveMeans` | src/attach.rs:188-235 | how a read ends: a runner that has gone detaches, other failing reads and improper responses are errors, a blocked or interrupted read is nothing |
| `Attachment.QueueMeans` | src/attach.rs:171-181 | nothing queued is dropped, and a socket that takes everything leaves nothing queued |
| `Attachment.SpeechIs` | src/attach.rs:128-149 | a tick says a new size within the limits, and behind it at most a buffer of what was typed |
| `Attachment.SizesMean` | src/attach.rs:95-109 | sizes within the limits are reported as they are; at first 24 by 80 stands in for any other |
| `EndToEnd.ArrivedIsSpeech` | src/attach.rs:208-228 | any arrived part of a runner's wire decodes without error to records it queued |
| `EndToEnd.ShownIsDue` | src/runner.rs:299-315 | what is shown is a prefix of marker, tail at attaching, and all output since |
| `EndToEnd.ServedSeesAll` | src/runner.rs:259-266 | an attachment whose queue is written out and that has received it has been given everything due, to the last byte read |
| `EndToEnd.ExitComesLast` | src/runner.rs:542-554 | an attachment that reports the exit has shown everything up to the last byte of output |
| `EndToEnd.ExitIsReported` | src/attach.rs:208-219 | the read that brings the last of what a runner announced reports the exit |
| `EndToEnd.CompletionIsReported` | src/runner.rs:519-556 | if the queue of the attachment that a completed run leaves had room and the last flushes were taken, the read that brings the last of it reports the exit |
| `EndToEnd.ExitIsDelivered` | src/runner.rs:519-556 | if its queue has room and its socket takes what it is given, the wire of the attachment that a run leaves ends with all output and the exit |
| `EndToEnd.NeverInvalid` | src/attach.rs:220-226 | an attachment never finds a runner's response invalid |
| `EndToEnd.TypedArrives` | src/runner.rs:460-477 | the effects of a connection are a prefix of what its attachment queued, and decoding it never fails |
| `EndToEnd.PtyGetsTheLog` | src/runner.rs:245-250 | what reached the PTY is a prefix of the input log, and with what is queued it is byte by byte the sum of the connections' shares |
| `EndToEnd.CompletedReplayIsLiveReplay` | src/attach.rs:49-65 | replaying a completed session shows what attaching at its end would have shown, and returns the exit |
| `EndToEnd.CommittedIsReadable` | src/registry.rs:215-244 | a completed record is readable with an output of the recorded size |
| `EndToEnd.CompletedIsRetained` | src/registry.rs:72-79 | a completed record without a socket is retained for every clock before its expiry |
| `Lifecycle.CompletionAnswers` | src/attach.rs:49-65 | from the completed record on, whoever cannot connect is given the replay of all output and the exit; without a socket the record is retained until it expires |
| `Lifecycle.ListenerDecides` | src/attach.rs:44-68 | attaching to a completed session gives the recorded answer exactly when connecting fails, and the live end otherwise |
| `Lifecycle.WindowWitness` | src/runner.rs:538-540 | a directory between commit and removal of the socket in which attaching gives another exit than the recorded one |
| `Lifecycle.HostSession` | src/runner.rs:120-168 | launch to end: hosted exactly if the launch succeeds; a faultless run is completed once the child has exited, with its code or signal on record; after the end nobody can connect, and a completed session answers as it ended; in every directory state there is a live record, or the completed one answers whoever cannot connect; every retained session is kept, also one with the same ID |
| `Identity.ParseInvertsDisplay` | src/identity.rs:11-47 | parsing and displaying are inverse bijections |
| `Identity.AcceptedIds` | src/identity.rs:11-63 | exactly 32 lowercase hexadecimal digits are an ID, two for each byte, the higher one first |
| `Identity.DisplayedDigits` | src/identity.rs:35-47 | an ID is displayed in lowercase digits, the higher one of each byte first |
| `Identity.ParseBytes` | src/identity.rs:11-23 | the parsing loop computes the specification |
| `Identity.Display` | src/identity.rs:35-46 | the formatting loop computes the specification |
| `Identity.NamesIsolated` | src/registry.rs:127-140 | different sessions, and different roles of one session, never share a file |
| `Identity.MetadataNameRecognised` | src/registry.rs:437-443 | the scan recognises exactly the record names of valid IDs |
| `Identity.TemporaryNeverRecognised` | src/registry.rs:415-435 | a temporary file is never taken for a session's file |
| `Identity.TemporariesIsolated` | src/registry.rs:415-419 | different writers, and writers of different files, never share a temporary file |
| `Registry.ExitSurvivesMetadata` | src/registry.rs:47-63 | the recorded exit is the process's exit, a code as a code and a signal as a signal |
| `Registry.ExpiresWhen` | src/registry.rs:72-79 | a completed record expires a day after it was finished, a live one never |
| `Registry.RecordIs` | src/registry.rs:215-233 | a record is read exactly from a whole record file that names its own session |
| `Registry.OutputIs` | src/registry.rs:235-244 | output is read exactly from a file within the limit |
| `Registry.ConnectIs` | src/registry.rs:202-213 | connecting succeeds exactly with a socket that is listened on; which error it is otherwise |
| `Registry.Registry.AtomicWrite` | src/registry.rs:415-435 | until the rename only the temporary file differs; it succeeds exactly if no stage fails and no leftover is in its way, and then installs the whole content; whether a failure leaves the temporary file behind |
| `Registry.Registry.RecordCompletion` | src/runner.rs:528-540 | one commit point: before it the old record, from it on the new record with its output; it succeeds exactly if both writes do |
| `Registry.CompletionSucceeds` | src/runner.rs:528-540 | recording a completion succeeds exactly if the output is within the limit, nothing is in the way of the two writes, and none fails |
| `Registry.Registry.CleanupExpired` | src/registry.rs:293-316 | on success the directory is exactly the old one without the files of the sessions it scanned that were finished a day ago; it fails exactly when a scanned record is unreadable |
| `Registry.SweepIs` | src/registry.rs:293-316 | for every session and file: gone exactly if it is output, trace or record of a scanned session finished a day ago |
| `Registry.Registry.BindSession` | src/registry.rs:142-200 | the outcome as a function of the directory and the failing calls, creating the lock included; a completed session is left alone until it has been finished for a day; a taken session is refused without any change; success leaves a listening socket, the lock and no record |
| `Registry.BindMeans` | src/registry.rs:142-200 | what taking a session comes to in every case, from its entries alone: retained, expired, answering, stale, unreadable, and which failing call prevents it |
| `Session.Attach` | src/attach.rs:27-70 | live, completed or failed attach as the directory decides |
| `Session.AttachMeans` | src/attach.rs:44-68 | how an attach ends, from the entries of the session: the live end, the replay with the recorded exit, or the error of connecting |
| `Session.LaunchesUntaken` | src/registry.rs:142-213 | if no call fails, exactly a taken session, or one whose leftovers cannot be handled, is not launched |
| `Session.UnreadableNeighbour` | src/registry.rs:293-310 | a concrete directory in which a retained session cannot be replayed |
| `Session.RefusedWithoutRecord` | src/session.rs:17-26 | a concrete directory without a record in which nothing is launched |
| `Session.LaunchedAfterConnecting` | src/session.rs:17-26 | a concrete directory in which a runner is launched although connecting succeeded |
| `Session.AbsentIsLaunched` | src/session.rs:28-37 | in a readable directory a session that seems absent and has no record is launched |
| `Session.LeftoverRefuses` | src/registry.rs:415-435 | a concrete directory in which a leftover temporary file refuses a faultless launch |
| `Session.ExpiredKeepsSocket` | src/registry.rs:142-176 | a concrete directory in which the socket of an expired session refuses a faultless launch |
| `Session.StartRunner` | src/runner.rs:120-161 | a runner is ready exactly if the scan is readable, the session can be taken and no call fails; it has a live record and a listening socket; every retained session is kept, also one with the same ID |
| `Session.LaunchMeans` | src/runner.rs:120-161 | a launch succeeds exactly if the session can be taken, no call fails and nothing is in the way of the record |
| `Session.ResumeOrLaunch` | src/session.rs:11-37 | a runner is launched exactly if the scans are readable, the session seems absent, and it has no record; otherwise how the call ends |
| `Session.LaunchesMeans` | src/session.rs:17-37 | without a record a runner is launched exactly if nobody listens on the socket or what came about ended like that; with a live or retained record never |
| `Session.ConnectOrStart` | src/session.rs:11-45 | retained sessions are replayed, unreachable live ones reported and left alone, others launched, exactly; after a launch the second attach or the launch error decides; every retained session survives |
| `Retention.Step` | src/session.rs:11-59 | one command or runner action keeps every retained session, except the one whose own runner acts |
| `Retention.RunHistory` | src/registry.rs:72-79 | over any history before expiry, record and output stay, and a call replays and returns the recorded exit if and only if all records it scans are readable |
| `Creators.RunKeepsInv` | src/registry.rs:142-200 | over any interleaving there is at most one owner and nothing of it is removed |
| `Creators.CreatorsConverge` | src/registry.rs:142-200 | the first binder keeps the session; every other finished creator was told that it exists |
| `Creators.ExactlyOneWinner` | src/registry.rs:142-200 | after enough turns for everybody exactly one creator serves the session |
| `Creators.AloneIsBindSession` | src/registry.rs:142-200 | a creator running alone ends as binding does in a directory that shows the same entries, those of a retained session included |
| `Cli.ValidateBounds` | src/cli.rs:122-133 | the validator is the bound on number and total length, overflow included |
| `Cli.ParseSessionExact` | src/cli.rs:64-88 | a session command parses exactly from its spellings within the limits |
| `Cli.ParseExact` | src/cli.rs:37-120 | the command line means a command exactly if it is one of its spellings within the limits, for all seven commands |
| `Cli.RefusedBecause` | src/cli.rs:37-133 | which command lines are refused as empty, unsupported, with an invalid ID or too large |
| `Cli.ChildAcceptsCommand` | src/cli.rs:108-116 | an accepted program is accepted by the hidden child command as well |
| `Startup.WriteConfig` | src/runner.rs:612-634 | writes the encoding, and fails exactly for counts or lengths that do not fit their fields |
| `Startup.ConfigFormat` | src/runner.rs:612-634 | the bytes of a configuration: size, trace flag, number of arguments, each behind its length |
| `Startup.ReadStartupConfig` | src/runner.rs:636-685 | the reading loop computes the specification, consuming what it says |
| `Startup.HandshakeRoundTrip` | src/runner.rs:612-685 | a written configuration is read back to its last byte if it is within the limits, and refused otherwise |
| `Startup.HandshakeCanonical` | src/runner.rs:636-685 | whatever is accepted are the writer's bytes of an acceptable configuration |
| `Startup.CutConfigRefused` | src/runner.rs:636-685 | a configuration that arrives cut short, wherever it is cut, is refused as incomplete |
| `Startup.AcceptedCommandArrives` | src/cli.rs:64-133 | what the command line accepted arrives at the runner unchanged |

## Left out

- PTY creation, raw terminal mode, sessions and controlling terminals, signal registration and peer credentials are foreign calls; only their results appear.
- The JSON text of a record is an abstract injective encoding of bounded size; a partly written one is unreadable. An output path holds only what an output write put there.
- Trace files, help, version and error texts, the closing summary line and the listing format are not modelled.
- Owners, modes and symbolic links of entries: entries are well formed, and only their kind (file or socket) is checked. Failing to remove an entry is not modelled, except for a temporary file after a failed write.
- A runner's run has the directory to itself; `Retention` interleaves the directory effects of runners with commands.
- The limits on the length of a socket path and on the size of an encoded record, and the choice of a default shell.
- Writing the replay of a completed session to standard output is taken to succeed.
- The clock is a natural number; a clock before the epoch is not modelled.
- `VecDeque` layout: the two slices a queue offers are chosen by the environment at every write.
- The kernel's promise that a socket delivers a prefix of what was written is the hypothesis of the end-to-end lemmas.
- The reader thread and its bounded channel in front of the attach loop: the loop finds at most one chunk per tick.
- Exclusion while stale entries or a finishing runner interleave with creators is not claimed: the checks, removals and the bind are separate steps.
