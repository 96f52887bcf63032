/**
  The session runner's event loop (src/runner.rs, lines 170-556). It owns the PTY, the output
  tail, the input queue, at most one attachment and at most one connection that has not
  introduced itself yet.
 */
module Runner {
  import opened Limits
  import opened Bytes
  import opened Io
  import opened Ipc
  import opened Transcript
  import opened Identity
  import opened Connection
  import opened Ticks
  import opened Tenures
  import R = Registry
  import BQ = ByteQueue
  import OT = OutputTail

  class Runner {
    const id: SessionId
    const runnerPid: nat
    const childPid: nat
    const startedAt: nat
    const initialSize: (int, int)

    const registry: R.Registry
    const tail: OT.OutputTail
    const ptyInput: BQ.ByteQueue
    var active: Connection?
    var candidate: Connection?
    var stopRequested: bool
    var size: (int, int)
    ghost var session: Transcript.Session
    /** The last words have been spoken: no output is read any more. */
    ghost var concluded: bool
    /** The runner's parts, and the connections it has had. */
    ghost var Repr: set<object>
    /** The history of the directory at the start, where it had got to, and what has been completed. */
    ghost const past: seq<R.Disk>
    ghost const origin: R.Disk
    ghost var final: Option<Final>

    // -------------------------------------------------------------- invariants

    ghost function ReprOf(c: Connection?): set<object> {
      if c == null then {} else c.Repr()
    }

    /** All parts of the runner belong to its representation. */
    ghost predicate Within()
      reads this
    {
      && this in Repr && registry in Repr && tail in Repr && ptyInput in Repr
      && (active != null ==> active in Repr && active.decoder in Repr && active.output in Repr)
      && (candidate != null ==> candidate in Repr && candidate.decoder in Repr && candidate.output in Repr)
    }

    ghost function IdOf(c: Connection?): set<nat> {
      if c == null then {} else {c.id}
    }

    ghost function Who(c: Connection?): Option<nat> {
      if c == null then None else Some(c.id)
    }

    /** The attachment, and its story so far. */
    ghost function Attached(): Option<Leaving>
      reads this`active, ReprOf(active)
    {
      if active == null then None else Some(Leaving(active.id, active.story))
    }

    /** The connections that can still do something. */
    ghost function Current(): set<nat>
      reads this
    {
      IdOf(active) + IdOf(candidate)
    }

    /** Nothing is shared between the parts of the runner. */
    ghost predicate Separate()
      reads this
    {
      && (active != null ==> active.output != ptyInput)
      && (candidate != null ==> candidate.output != ptyInput)
      && (active != null && candidate != null ==>
            active != candidate && active.output != candidate.output && active.decoder != candidate.decoder
                && active.id != candidate.id)
    }

    /** The transcript knows the connection as it is. */
    ghost predicate Known(c: Connection)
      reads this, c.Repr()
    {
      c.Sound() && c.id < |session.stories| && session.stories[c.id] == c.story
    }

    ghost predicate Serving()
      reads this, ReprOf(active)
    {
      active != null ==> Known(active) && UpToDate(active.story, session.ptyRead)
    }

    ghost predicate Waiting()
      reads this, ReprOf(candidate)
    {
      candidate != null ==> Known(candidate) && Silent(candidate.story) && candidate.output.bytes == []
    }

    /** The PTY side: tail, input queue and terminal size agree with the transcript. */
    ghost predicate Grounded()
      reads this, tail, ptyInput, registry
    {
      && tail.Valid() && tail.capacity == OUTPUT_TAIL_BYTES && tail.fed == session.ptyRead
      && ptyInput.Valid() && ptyInput.limit == MAX_ATTACHMENT_QUEUE_BYTES
      && Transcript.Ok(session, ptyInput.bytes)
      && size == SizeAfter(session.log, initialSize)
      && registry.Valid() && Owned(registry.trace, final)
      && (stopRequested ==> SomebodyStopped())
      && (concluded || Unfinished(session.stories))
    }

    ghost predicate SomebodyStopped()
      reads this`session
    {
      exists i | 0 <= i < |session.stories| :: AskedToStop(session.stories[i])
    }

    ghost predicate Valid()
      reads this, Repr
    {
      Within() && Grounded() && Separate() && Serving() && Waiting() && !concluded
    }

    function LiveMetadata(attached: bool): R.SessionMetadata {
      R.Live(Hex(id), runnerPid, childPid, startedAt, attached)
    }

    /** The record of the session on disk is a live one that says `attached`. */
    ghost predicate Says(disk: R.Disk, attached: bool) {
      R.Lookup(disk, NameOf(id, METADATA)) == Some(R.File(R.Json(LiveMetadata(attached))))
    }

    ghost predicate SaysLive(disk: R.Disk) {
      Says(disk, true) || Says(disk, false)
    }

    /**
      Since the start only this session's files have changed, and in every state of the directory
      its record was a live one of this runner, or the completed one together with its output.
     */
    ghost predicate Owned(trace: seq<R.Disk>, final: Option<Final>) {
      && past != [] && past <= trace && (final.Some? ==> final.value.commit < |trace|)
      && forall i | |past| - 1 <= i < |trace| ::
           && R.OnlyTouches(origin, trace[i], id)
           && (if final.Some? && final.value.commit <= i
               then R.Committed(trace[i], id, final.value.output, final.value.record) else SaysLive(trace[i]))
    }

    /** There was no temporary file of the session in the way when the runner started. */
    ghost predicate Tidy() {
      R.NoTemporaries(origin, id)
    }

    /** Nothing has been completed yet, and no write has left a temporary file behind. */
    ghost predicate Underway(disk: R.Disk, final: Option<Final>) {
      final == None && (Tidy() ==> R.NoTemporaries(disk, id))
    }

    /** The live record says `attached`. */
    ghost predicate Intact(disk: R.Disk, final: Option<Final>, attached: bool) {
      Underway(disk, final) && Says(disk, attached)
    }

    /** A runner that has just reported ready. */
    constructor (id: SessionId, runnerPid: nat, childPid: nat, startedAt: nat, initialSize: (int, int),
        registry: R.Registry)
      requires registry.Valid()
      requires R.Lookup(registry.disk, NameOf(id, METADATA)) ==
               Some(R.File(R.Json(R.Live(Hex(id), runnerPid, childPid, startedAt, false))))
      ensures Valid() && fresh(Repr - {registry}) && origin == registry.disk
      ensures Intact(registry.disk, final, false) && past == registry.trace
      ensures this.registry == registry && this.id == id && this.initialSize == initialSize
      ensures this.runnerPid == runnerPid && this.childPid == childPid && this.startedAt == startedAt
      ensures active == null && session == Transcript.Session([], [], [], []) && !stopRequested
    {
      hide Owned, NameOf, R.Lookup, R.NoTemporaries, R.Identity.TemporaryName;
      this.id, this.runnerPid, this.childPid, this.startedAt := id, runnerPid, childPid, startedAt;
      this.initialSize, this.registry := initialSize, registry;
      tail := new OT.OutputTail(OUTPUT_TAIL_BYTES);
      ptyInput := new BQ.ByteQueue(MAX_ATTACHMENT_QUEUE_BYTES);
      active, candidate, stopRequested, size := null, null, false, initialSize;
      session, concluded := Transcript.Session([], [], [], []), false;
      origin, past, final := registry.disk, registry.trace, None;
      Repr := {this, registry, tail, ptyInput};
      new;
      OwnedFromHere(registry.trace);
    }

    /** What still fits into the attachment's queue, or -1 without an attachment. */
    ghost function Room(): int
      reads this`active, if active == null then {} else {active.output}
    {
      if active == null then -1 else RoomIn(active.output.bytes)
    }

    // -------------------------------------------------------------- PTY output

    /** Takes note of what happened to the story of `c` without a new effect. */
    ghost method Note(c: Connection)
      requires c.id < |session.stories|
      requires Transcript.Ok(session, ptyInput.bytes)
      requires StoryOk(c.story, session.ptyRead) && c.story.applied == session.stories[c.id].applied
      requires !AskedToStop(session.stories[c.id])
      requires concluded || (Unfinished(session.stories) && !Finished(c.story.sent))
      modifies this`session
      ensures session == old(session).(stories := old(session.stories)[c.id := c.story])
      ensures Transcript.Ok(session, ptyInput.bytes) && (concluded || Unfinished(session.stories))
      ensures old(SomebodyStopped()) ==> SomebodyStopped()
    {
      hide Owned;
      ghost var stories := session.stories;
      assert forall i | 0 <= i < |stories| && AskedToStop(stories[i]) :: stories[c.id := c.story][i] == stories[i];
      Advanced(session, ptyInput.bytes, c.id, c.story);
      session := session.(stories := session.stories[c.id := c.story]);
    }

    /** A chunk of output goes into the tail. */
    method KeepOutput(chunk: seq<Byte>)
      requires Valid()
      modifies this`session, tail
      ensures Within() && Grounded() && Separate() && Waiting() && !concluded
      ensures session == old(session).(ptyRead := old(session.ptyRead) + chunk)
    {
      hide Owned, StoryOk, UpToDate, Wired, Silent, Parse, Printed, TypedLog, LogMatches, SizeAfter;
      tail.Extend(chunk);
      AllGrow(session.stories, session.ptyRead, chunk);
      session := session.(ptyRead := session.ptyRead + chunk);
    }

    /** The chunk just read is offered to the attachment, which is closed if its queue is full. */
    method OfferOutput(chunk: seq<Byte>, ghost before: seq<Byte>)
      requires Within() && Grounded() && Separate() && Waiting() && active != null && !concluded
      requires session.ptyRead == before + chunk && 0 < |chunk| <= IO_CHUNK_BYTES
      requires Known(active) && UpToDate(active.story, before) && StoryOk(active.story, before)
      modifies this`session, this`active, active, active.output
      ensures Valid() && Untouched(old(session.stories), session.stories, IdOf(old(active)))
      ensures session == old(session).(stories := session.stories) && |session.stories| == |old(session.stories)|
      ensures active == null || active == old(active)
      ensures active != null ==>
                active.story == old(active.story).(sent := old(active.story.sent) + [Output(chunk)])
      ensures Room() == Reduced(old(Room()), CostOf(chunk))
    {
      hide Due, Owned, StoryOk, Wired, Silent, Parse, Printed, TypedLog, LogMatches, AllOk, SizeAfter, Cost;
      OneChunkCost(|chunk|);
      OneRecord(chunk);
      var r := active.EnqueueOutput(chunk);
      Transcript.Offered(old(active.story), active.story, before, chunk, active.output.bytes);
      Note(active);
      if r.Failed? {
        active := null;
      }
    }

    /** One chunk of output: kept, and queued for the attachment if there is one with room for it. */
    method TakeOutput(chunk: seq<Byte>)
      requires Valid() && 0 < |chunk| <= IO_CHUNK_BYTES
      modifies this`session, this`active, tail, if active == null then {} else {active, active.output}
      ensures Valid() && SameInput(session, old(session)) && (active == null || active == old(active))
      ensures Untouched(old(session.stories), session.stories, IdOf(old(active)))
      ensures session.ptyRead == old(session.ptyRead) + chunk
      ensures active != null ==>
                active.story == old(active.story).(sent := old(active.story.sent) + [Output(chunk)])
      ensures Room() == Reduced(old(Room()), CostOf(chunk))
    {
      hide Owned, StoryOk, UpToDate, Wired, Silent, Parse, Printed, TypedLog, LogMatches, SizeAfter, AskedToStop;
      ghost var before := session.ptyRead;
      KeepOutput(chunk);
      if active != null {
        OfferOutput(chunk, before);
      }
    }

    lemma QueueWithinLimit()
      requires Valid()
      ensures Room() >= -1 && (active == null <==> Room() == -1)
    {
    }

    /** One read of the PTY and what becomes of it. */
    method ReadOnce(result: ReadResult) returns (step: ReadStep)
      requires Valid()
      modifies this`session, this`active, tail, if active == null then {} else {active, active.output}
      ensures Valid() && SameInput(session, old(session)) && (active == null || active == old(active))
      ensures Untouched(old(session.stories), session.stories, IdOf(old(active)))
      ensures step == StepOf(result)
      ensures session.ptyRead == old(session.ptyRead) + ChunkOf(result)
      ensures active != null ==>
                active.story == old(active.story).(sent := old(active.story.sent) + RecordOf(ChunkOf(result)))
      ensures Room() == Reduced(old(Room()), CostOf(ChunkOf(result)))
    {
      hide Valid, Room;
      QueueWithinLimit();
      assert session.ptyRead + [] == session.ptyRead;
      assert active != null ==> active.story.sent + [] == active.story.sent;
      match result
      case ReadWouldBlock => return Enough(Done);
      case ReadEio => return Enough(Done);
      case ReadFailed(kind) => return Enough(Failed(Os(kind)));
      case ReadInterrupted => return GoOn(0);
      case Data(offered) =>
        var chunk := Take(offered, IO_CHUNK_BYTES);
        if chunk == [] {
          return Enough(Done);
        }
        TakeOutput(chunk);
        return GoOn(|chunk|);
    }

    /**
      Reads PTY output until there is no more for now or the tick's share is used up. The
      attachment survives exactly when its queue has room for all of it.
     */
    method DrainPty(results: seq<ReadResult>) returns (r: Status)
      requires Valid()
      modifies this`session, this`active, tail, if active == null then {} else {active, active.output}
      ensures Valid() && SameInput(session, old(session)) && (active == null || active == old(active))
      ensures Untouched(old(session.stories), session.stories, IdOf(old(active)))
      ensures var d := DrainOf(results, 0);
              && r == d.status && session.ptyRead == old(session.ptyRead) + Flatten(d.chunks)
              && Room() == Reduced(old(Room()), ChunksCost(d.chunks))
              && (active != null ==> active.story == Fed(old(active.story), d.chunks))
      // everything up to the end of the drain is taken, and only a failing read fails it
      ensures exists k | 0 <= k <= |results| :: DrainedTo(results, k, r, session.ptyRead[|old(session.ptyRead)|..])
      ensures (forall i | 0 <= i < |results| :: !results[i].ReadFailed?) ==> r.Done?
    {
      hide DrainedTo, Valid, DrainOf, Flatten, ChunksCost, StepOf, ChunkOf, CostOf, RecordOf, RecordsOf, DrainedSoFar,
        Untouched, Room, RoomIn, Reduced;
      QueueWithinLimit();
      var processed := 0;
      var i := 0;
      ghost var start, room: int, taken, cost: nat := session.ptyRead, Room(), [], 0;
      ghost var said: seq<Record>, story := [], if active == null then NEW_STORY else active.story;
      assert story.sent + [] == story.sent;
      ghost var begin, beginIds := session.stories, IdOf(active);
      NobodyTouched(begin, beginIds);
      ReducedTwice(room, 0, 0);
      DrainedStarts(results);
      ghost var end := DrainTakes(results);
      assert forall taken: seq<Byte> :: (start + taken)[|start|..] == taken;
      while processed < MAX_PTY_BYTES_PER_TICK && i < |results|
        invariant i <= |results| && DrainedSoFar(results, i, processed, taken, said, cost)
        invariant Valid() && SameInput(session, old(session)) && (active == null || active == old(active))
        invariant Untouched(old(session.stories), session.stories, IdOf(old(active)))
        invariant active != null ==> active.story == story.(sent := story.sent + said)
        invariant session.ptyRead == start + taken && room >= -1 && Room() == Reduced(room, cost)
      {
        ghost var chunk, stories, ids := ChunkOf(results[i]), session.stories, IdOf(active);
        DrainedStep(results, i, processed, taken, said, cost);
        var step := ReadOnce(results[i]);
        UntouchedTwice(begin, stories, session.stories, beginIds, ids);
        ReducedTwice(room, cost, 0);
        if step.Enough? {
          return step.status;
        }
        assert start + taken + chunk == start + (taken + chunk);
        ReducedTwice(room, cost, CostOf(chunk));
        assert story.sent + said + RecordOf(chunk) == story.sent + (said + RecordOf(chunk));
        taken, said, cost := taken + chunk, said + RecordOf(chunk), cost + CostOf(chunk);
        processed := processed + step.count;
        i := i + 1;
      }
      DrainedEnds(results, i, processed, taken, said, cost);
      return Done;
    }

    // -------------------------------------------------------------- input to the PTY

    /** Writes queued input to the PTY. A failing PTY write costs the attachment. */
    method FlushInput(script: seq<WriteResult>)
      requires Valid()
      modifies this`session, this`active, ptyInput
      ensures Valid()
      ensures var f := BQ.FlushOutcome(old(ptyInput.bytes), script);
              && session == old(session).(ptyWritten := old(session.ptyWritten) + old(ptyInput.bytes)[..f.count])
              && active == if f.status.Failed? then null else old(active)
      ensures candidate == old(candidate) && stopRequested == old(stopRequested) && registry.disk == old(registry.disk)
    {
      hide Owned, StoryOk, UpToDate, Wired, Silent, Parse, TypedLog, LogMatches, AllOk, SizeAfter, AskedToStop,
        BQ.FlushOutcome;
      ghost var queued := ptyInput.bytes;
      var written, status := ptyInput.Flush(script);
      assert written == queued[..|written|];
      assert session.ptyWritten + queued == session.ptyWritten + written + ptyInput.bytes;
      session := session.(ptyWritten := session.ptyWritten + written);
      if status.Failed? {
        active := null;
      }
    }

    /** A record of `c` takes effect: its story and the log move on together. */
    ghost method Enact(c: Connection, c': Story, r: Record, queued: seq<Byte>)
      requires c.id < |session.stories| && session.stories[c.id] == c.story
      requires Transcript.Ok(session, queued)
      requires StoryOk(c', session.ptyRead) && c'.applied == c.story.applied + [r]
      requires !AskedToStop(c.story) && !Finished(c'.sent)
      requires concluded || Unfinished(session.stories)
      requires ptyInput.bytes == queued + (match r case Input(bytes) => bytes case _ => [])
      modifies this`session, c`story
      ensures c.story == c'
      ensures session == old(session).(
          stories := old(session.stories)[c.id := c'], log := old(session.log) + [Effect(c.id, r)])
      ensures Transcript.Ok(session, ptyInput.bytes) && (concluded || Unfinished(session.stories))
      ensures old(SomebodyStopped()) ==> SomebodyStopped()
    {
      hide Owned;
      ghost var stories := session.stories;
      TookEffect(session, queued, c.id, c', r, ptyInput.bytes);
      assert forall i | 0 <= i < |stories| && AskedToStop(stories[i]) :: stories[c.id := c'][i] == stories[i];
      c.story := c';
      session := session.(stories := stories[c.id := c'], log := session.log + [Effect(c.id, r)]);
    }

    /**
      Lets records of an attachment take effect one by one, until one is not for an attachment to
      say or is input that does not fit. `k` of them did; those stay in effect.
     */
    method ApplyRecords(c: Connection, records: seq<Record>, fault: Option<ResizeFault>)
        returns (r: IoResult<bool>, ghost k: nat)
      requires Grounded() && c.Sound() && c.output != ptyInput
      requires c.id < |session.stories| && session.stories[c.id] == c.story
      requires c.story.applied != []
      requires Parse(c.story.received).records == c.story.applied + records
      modifies this`session, this`size, ptyInput, c`story
      ensures Grounded() && c.Sound()
      ensures k <= |records|
      ensures c.story == old(c.story).(applied := old(c.story.applied) + records[..k])
      ensures session == old(session).(stories := old(session.stories)[c.id := c.story], log := session.log)
      ensures session.log == old(session.log) + Effects(c.id, records[..k])
      ensures |old(ptyInput.bytes)| <= |ptyInput.bytes|
      ensures match r
              case Ok(true) => k == |records|
              case Ok(false) => k < |records| && Refused(records[k], |ptyInput.bytes|)
              case Err(e) => k < |records| && records[k].Resize? && ResizeFails(fault, e)
      // exactly the resize call that the environment lets fail ends the batch
      ensures r.Err? <==>
                k < |records| && records[k].Resize? && fault.Some? && Resizes(records[..k]) == fault.value.call
    {
      hide Owned, Grounded, Parse, StoryOk, Wired, UpToDate, SizeAfter, Transcript.Ok;
      k := 0;
      var calls := 0;
      for i := 0 to |records|
        invariant k == i
        invariant Grounded() && c.Sound()
        invariant c.id < |session.stories| && session.stories[c.id] == c.story
        invariant c.story == old(c.story).(applied := old(c.story.applied) + records[..i])
        invariant session == old(session).(stories := old(session.stories)[c.id := c.story], log := session.log)
        invariant session.log == old(session.log) + Effects(c.id, records[..i])
        invariant c.story.applied != [] && calls == Resizes(records[..i])
        invariant |old(ptyInput.bytes)| <= |ptyInput.bytes|
      {
        assert Parse(c.story.received).records == c.story.applied + records[i..];
        match records[i] {
        case Input(bytes) =>
          var pushed := PushInput(c, bytes, records[i..]);
          if !pushed {
            return Ok(false), k;
          }
        case Resize(rows, columns) =>
          var failing := if fault.Some? && fault.value.call == calls then Some(fault.value.kind) else None;
          var status := Resize(c, rows, columns, failing, records[i..]);
          if status.Failed? {
            return Err(status.error), k;
          }
          calls := calls + 1;
        case _ =>
          return Ok(false), k;
        }
        EffectsAppend(c.id, records, i);
        k := k + 1;
      }
      assert records[..|records|] == records;
      return Ok(true), k;
    }

    /** Input is queued for the PTY as a whole or not at all. */
    method PushInput(c: Connection, bytes: seq<Byte>, ghost pending: seq<Record>) returns (ok: bool)
      requires Grounded() && c.Sound() && c.output != ptyInput
      requires c.id < |session.stories| && session.stories[c.id] == c.story
      requires c.story.applied != [] && pending != [] && pending[0] == Input(bytes)
      requires Parse(c.story.received).records == c.story.applied + pending
      modifies this`session, ptyInput, c`story
      ensures Grounded() && c.Sound()
      ensures ok <==> |old(ptyInput.bytes)| + |bytes| <= MAX_ATTACHMENT_QUEUE_BYTES
      ensures if ok
              then Enacted(old(session), session, c.id, old(c.story), c.story, Input(bytes))
                   && ptyInput.bytes == old(ptyInput.bytes) + bytes
              else session == old(session) && c.story == old(c.story) && ptyInput.bytes == old(ptyInput.bytes)
    {
      hide Owned;
      ghost var queued := ptyInput.bytes;
      ok := ptyInput.Push(bytes);
      if ok {
        EffectKeepsOk(c.story, session.ptyRead, pending);
        LogAppend(session.log, Effect(c.id, Input(bytes)));
        Enact(c, c.story.(applied := c.story.applied + [Input(bytes)]), Input(bytes), queued);
      }
    }

    /** The new size is checked and set on the PTY. */
    method Resize(c: Connection, rows: U16, columns: U16, fault: Option<Kind>, ghost pending: seq<Record>)
        returns (status: Status)
      requires Grounded() && c.Sound()
      requires c.id < |session.stories| && session.stories[c.id] == c.story
      requires c.story.applied != [] && pending != [] && pending[0] == Ipc.Resize(rows, columns)
      requires Parse(c.story.received).records == c.story.applied + pending
      modifies this`session, this`size, c`story
      ensures Grounded() && c.Sound()
      ensures status.Failed? ==> session == old(session) && c.story == old(c.story)
      ensures status == match fault case None => Done case Some(kind) => Failed(Os(kind))
      ensures status.Done? ==> Enacted(old(session), session, c.id, old(c.story), c.story, Ipc.Resize(rows, columns))
    {
      hide Owned, Parse, TypedLog, LogMatches, EncodeAll, Printed;
      status := SetWindowSize(rows, columns, fault);
      DecodedDimensionsValid(c.story.received, |c.story.applied|);
      if status.Done? {
        EffectKeepsOk(c.story, session.ptyRead, pending);
        LogAppend(session.log, Effect(c.id, pending[0]));
        size := (rows, columns);
        Enact(c, c.story.(applied := c.story.applied + [pending[0]]), pending[0], ptyInput.bytes);
      }
    }

    // -------------------------------------------------------------- serving the attachment

    /** The attachment's turn to be written to. */
    method FlushActive(script: seq<WriteResult>)
      requires Valid() && active != null
      modifies this`session, this`active, active, active.output
      ensures Valid() && Untouched(old(session.stories), session.stories, IdOf(old(active)))
      ensures session == old(session).(stories := session.stories) && |session.stories| == |old(session.stories)|
      ensures var f := BQ.FlushOutcome(old(active.output.bytes), script);
              && active == (if f.status.Failed? then null else old(active))
              && old(active).output.bytes == old(active.output.bytes)[f.count..]
              && session.stories[old(active).id] ==
                 old(active.story).(wire := old(active.story.wire) + old(active.output.bytes)[..f.count])
    {
      hide Owned, StoryOk, UpToDate, Wired, Silent, Parse, Printed, TypedLog, LogMatches, SizeAfter, BQ.FlushOutcome;
      ghost var before := active.story;
      UpToDateIsNotStop(before, session.ptyRead);
      var status := active.FlushOutput(script);
      Written(before, active.story, session.ptyRead, active.output.bytes);
      Note(active);
      if status.Failed? {
        active := null;
      }
    }

    /** One read from a peer, and the records it completes. */
    method Listen(c: Connection, read: ReadResult) returns (r: IoResult<seq<Record>>)
      requires Grounded() && Known(c) && !AskedToStop(c.story)
      modifies this`session, c, c.decoder
      ensures Grounded() && c.id < |session.stories|
      ensures c.story == old(c.story).(received := c.story.received)
      ensures c.story.received == old(c.story.received) + Delivered(read, old(c.decoder.RemainingCapacity()))
      ensures session == old(session).(stories := old(session.stories)[c.id := c.story])
      ensures r.Ok? ==> c.Sound() && Parse(c.story.received).records == Parse(old(c.story.received)).records + r.value
      ensures r.Err? <==> ReadEnds(read, old(c.decoder.RemainingCapacity())) || Parse(c.story.received).error.Some?
      ensures r.Err? && Parse(c.story.received).error == None ==> c.story == old(c.story)
      ensures read == Data([]) || read.ReadEio? || read.ReadFailed? ==> r.Err? && c.story == old(c.story)
      ensures read.ReadWouldBlock? || read.ReadInterrupted? ==> r == Ok([]) && c.story == old(c.story)
    {
      hide Owned, StoryOk, UpToDate, Wired, Silent, Printed, TypedLog, LogMatches, SizeAfter, Parse;
      ghost var before := c.story;
      r := c.ReadRecords(read);
      Heard(before, c.story, session.ptyRead);
      Note(c);
    }

    /** The attachment's turn to be read from: what it sent takes effect, or it is closed. */
    method HearActive(read: ReadResult, fault: Option<ResizeFault>) returns (r: Status)
      requires Valid() && active != null
      modifies this`session, this`active, this`size, ptyInput, active, active.decoder
      ensures r.Done? ==> Valid()
      ensures Untouched(old(session.stories), session.stories, IdOf(old(active)))
      ensures session.ptyRead == old(session.ptyRead) && session.ptyWritten == old(session.ptyWritten)
              && |session.stories| == |old(session.stories)| && old(session.log) <= session.log
      ensures r.Done? ==> active == null || active == old(active)
      // it is closed only if the stream ended or was malformed, or a record of it was refused
      ensures session.stories[old(active.id)].received ==
          old(active.story.received) + Delivered(read, CapacityAfter(old(active.story.received)))
      ensures var c, c' := old(active.story), session.stories[old(active.id)];
              c'.wire == c.wire && c'.sent == c.sent && c'.attachedAt == c.attachedAt
      ensures r.Done? ==> var c := session.stories[old(active.id)];
                (active == null <==>
                   || ReadEnds(read, old(active.decoder.RemainingCapacity()))
                   || Parse(c.received).error.Some?
                   || c.applied != Parse(c.received).records)
      // the end of the stream costs it its place, a read that has to be tried again does not
      ensures read == Data([]) || read.ReadEio? || read.ReadFailed? ==> r.Done? && active == null
      ensures read.ReadWouldBlock? || read.ReadInterrupted? ==> r.Done? && active == old(active)
      // what it said has taken effect up to a record that is refused
      ensures |old(ptyInput.bytes)| <= |ptyInput.bytes|
      ensures var c' := session.stories[old(active.id)];
              old(active.story.applied) <= c'.applied && (r.Done? ==> HeardOut(c', |ptyInput.bytes|))
      ensures r.Failed? ==> Grounded() && ResizeFails(fault, r.error)
    {
      hide ResizeFails, Delivered, Refused, SomebodyStopped, Unfinished, Finished, Transcript.Ok, Resizes, Effects,
        Owned, StoryOk, Wired, Silent, Printed, TypedLog, LogMatches, AllOk, SizeAfter, Parse;
      var c := active;
      ghost var before := c.story;
      var records := Listen(c, read);
      if records.Err? {
        active := null;
        return Done;
      }
      var applied;
      ghost var k;
      applied, k := ApplyRecords(c, records.value, fault);
      if applied.Err? {
        return Failed(applied.error);
      }
      HeardUpTo(c.story, before.applied, records.value, k, |ptyInput.bytes|);
      if !applied.value {
        active := null;
      } else {
        assert records.value[..k] == records.value;
        AllApplied(before, c.story, session.ptyRead, records.value);
      }
      return Done;
    }

    /** Rewrites the live record; in a directory that was tidy at the start only a failing call prevents that. */
    method WriteFlag(attached: bool, env: R.AtomicEnv, ghost was: bool) returns (r: Status)
      requires Valid() && Intact(registry.disk, final, was)
      modifies registry
      ensures r.Done? ==> Valid() && Intact(registry.disk, final, attached)
      ensures r == R.WriteOutcome(old(registry.disk), NameOf(id, METADATA), env)
      ensures r.Failed? ==> Grounded() && WriteFails(env, r.error, Tidy())
    {
      hide StoryOk, UpToDate, Wired, Silent, Printed, TypedLog, LogMatches, AllOk, SizeAfter, Parse, AskedToStop,
        Owned, NameOf, R.Identity.TemporaryName;
      ghost var before := registry.trace;
      r := registry.WriteMetadata(id, LiveMetadata(attached), env);
      FlagWritten(before, registry.trace, r.Done?, attached);
      if r.Done? {
        R.StaysTidy(before[|before| - 1], registry.disk, id);
      }
    }

    lemma OwnedFromHere(trace: seq<R.Disk>)
      requires trace != [] && past == trace && origin == trace[|trace| - 1] && SaysLive(origin)
      ensures Owned(trace, None)
    {
    }

    /** Rewriting the live record keeps the history of the directory in order. */
    lemma FlagWritten(before: seq<R.Disk>, after: seq<R.Disk>, done: bool, attached: bool)
      requires Owned(before, None) && before <= after
      requires forall i | |before| <= i < |after| - (if done then 1 else 0) ::
                 R.SameSessions(after[i], before[|before| - 1])
      requires done ==>
                 && |before| < |after| && R.OnlyTouches(before[|before| - 1], after[|after| - 1], id)
                 && Says(after[|after| - 1], attached)
      ensures Owned(after, None)
    {
    }

    /** The attachment that was there when polling is written to and read from; losing it is recorded. */
    method ServeActive(t: Tick, events: Events) returns (r: Status)
      requires Valid() && Intact(registry.disk, final, true)
      modifies this`session, this`active, this`size, ptyInput, registry, if active == null then {} else active.Repr()
      ensures r.Done? ==> Valid() && Intact(registry.disk, final, active != null)
      ensures Untouched(old(session.stories), session.stories, IdOf(old(active)))
      ensures session.ptyRead == old(session.ptyRead) && session.ptyWritten == old(session.ptyWritten)
              && |session.stories| == |old(session.stories)| && old(session.log) <= session.log
      ensures r.Done? ==> active == null || active == old(active)
      ensures r.Failed? ==>
                Grounded() && (ResizeFails(t.activeResize, r.error) || WriteFails(t.detachWrite, r.error, Tidy()))
      ensures r.Done? && old(active) != null ==>
                (active != null <==> Stays(old(active.story), session.stories[old(active.id)], t, events))
      ensures r.Done? && old(active) == null ==> active == null
      ensures old(active) != null ==>
                Served(old(active.story), session.stories[old(active.id)], t, events)
      ensures r.Done? && old(active) != null ==> HeardOut(session.stories[old(active.id)], |ptyInput.bytes|)
    {
      hide Backlog, Intact, Underway, EncodeAll, Owned, StoryOk, UpToDate, Wired, Silent, Printed, TypedLog,
        LogMatches, AllOk, SizeAfter, Parse, AskedToStop, BQ.FlushOutcome;
      ghost var c := active;
      ghost var before := if active == null then NEW_STORY else active.story;
      ghost var queued := if active == null then [] else active.output.bytes;
      if active != null {
        BacklogIs();
      }
      assert before.wire + queued[..0] == before.wire && before.received + [] == before.received;
      if events.activeWritable && active != null {
        FlushActive(t.activeWrites);
      }
      if active != null && events.activeReady {
        r := HearActive(t.activeRead, t.activeResize);
        if r.Failed? {
          return;
        }
      } else if c != null {
        NothingHeard(before, session.stories[c.id], session.ptyRead, |ptyInput.bytes|);
      }
      r := Done;
      if active == null {
        r := WriteFlag(false, t.detachWrite, true);
      }
    }

    // -------------------------------------------------------------- new connections

    /** Accepts whoever is waiting; the newest peer of the same user replaces an unheard candidate. */
    method AcceptCandidates(accepts: seq<AcceptResult>) returns (r: Status)
      requires Valid()
      modifies this`session, this`candidate, this`Repr
      ensures Valid() && fresh(Repr - old(Repr)) && old(Repr) <= Repr
      ensures session == old(session).(stories := session.stories) && old(session.stories) <= session.stories
      ensures old(candidate) != null ==> candidate != null
      ensures if Joining(accepts) == 0 then candidate == old(candidate) else
                && candidate != null && fresh(candidate.Repr())
                && candidate.id == |session.stories| - 1 && candidate.story == NEW_STORY
      ensures r == AcceptsEnd(accepts) && |session.stories| == |old(session.stories)| + Joining(accepts)
      ensures r.Failed? ==> r.error.Os?
    {
      hide Owned, Valid;
      assert accepts[0..] == accepts;
      for i := 0 to |accepts|
        invariant Valid() && fresh(Repr - old(Repr)) && old(Repr) <= Repr
        invariant session == old(session).(stories := session.stories) && old(session.stories) <= session.stories
        invariant old(candidate) != null ==> candidate != null
        invariant if |session.stories| == |old(session.stories)| then candidate == old(candidate) else
                    && candidate != null && fresh(candidate.Repr())
                    && candidate.id == |session.stories| - 1 && candidate.story == NEW_STORY
        invariant AcceptsEnd(accepts) == AcceptsEnd(accepts[i..])
        invariant |session.stories| + Joining(accepts[i..]) == |old(session.stories)| + Joining(accepts)
      {
        DropStep(accepts, i);
        match accepts[i] {
          case AcceptForeign =>
          case AcceptFailed(kind) => return Failed(Os(kind));
          case Accept => Welcome();
        }
      }
      return Done;
    }

    method Welcome()
      requires Valid()
      modifies this`session, this`candidate, this`Repr
      ensures Valid() && fresh(Repr - old(Repr)) && old(Repr) <= Repr
      ensures session == old(session).(stories := old(session.stories) + [NEW_STORY])
      ensures candidate != null && fresh(candidate.Repr()) && candidate.id == |old(session.stories)|
              && candidate.story == NEW_STORY
    {
      hide Owned, StoryOk, UpToDate, Wired, Printed, TypedLog, LogMatches, AllOk, SizeAfter, Parse, AskedToStop;
      var connection := new Connection(|session.stories|);
      Join(connection);
      candidate := connection;
      Repr := Repr + connection.Repr();
    }

    ghost method Join(c: Connection)
      requires Transcript.Ok(session, ptyInput.bytes)
      requires c.id == |session.stories| && c.story == NEW_STORY && Unfinished(session.stories)
      modifies this`session
      ensures session == old(session).(stories := old(session.stories) + [NEW_STORY])
      ensures Unfinished(session.stories) && Transcript.Ok(session, ptyInput.bytes) && Silent(NEW_STORY)
      ensures old(SomebodyStopped()) ==> SomebodyStopped()
    {
      ghost var stories := session.stories;
      ParseEmpty();
      Joined(session, ptyInput.bytes);
      assert forall i | 0 <= i < |stories| && AskedToStop(stories[i]) :: (stories + [NEW_STORY])[i] == stories[i];
      session := session.(stories := stories + [NEW_STORY]);
    }

    /** A peer apart from the current attachment and known to the transcript. */
    ghost predicate Newcomer(c: Connection)
      reads this, c.Repr()
    {
      && Known(c) && c in Repr && c.decoder in Repr && c.output in Repr && c.output.bytes == [] && c.output != ptyInput
      && (active != null ==>
            c != active && c.output != active.output && c.decoder != active.decoder && c.id != active.id)
    }

    /** The replay is queued; on a fresh connection it cannot fail. */
    method StartReplay(c: Connection, rows: U16, columns: U16, ghost rest: seq<Record>)
      requires Grounded() && Newcomer(c)
      requires c.story == NEW_STORY.(received := c.story.received)
      requires Parse(c.story.received).records == [Attach(rows, columns)] + rest
      requires ValidDimension(rows) && ValidDimension(columns)
      modifies this`session, this`size, c, c.output
      ensures Grounded() && c.Sound()
      ensures c.id < |session.stories| && session.stories[c.id] == c.story
      ensures c.story.wire == [] && c.story.received == old(c.story.received)
      ensures c.story.applied == [Attach(rows, columns)]
      ensures c.story.attachedAt == Some(|session.ptyRead|)
          && Printed(c.story.sent) == Due(session.ptyRead, |session.ptyRead|)
      ensures session == old(session).(
          stories := old(session.stories)[c.id := c.story],
          log := old(session.log) + [Effect(c.id, Attach(rows, columns))])
    {
      hide Outputs, Owned, UpToDate, Printed, TypedLog, LogMatches, SizeAfter, Parse, ClientSpeech, StoryOk, AllOk,
        Due, Replay, EncodeAll;
      ghost var c' := c.story.(applied := [Attach(rows, columns)], attachedAt := Some(|session.ptyRead|));
      Introduced(c.story, session.ptyRead, rows, columns, rest);
      LogAppend(session.log, Effect(c.id, Attach(rows, columns)));
      assert ptyInput.bytes + [] == ptyInput.bytes;
      size := (rows, columns);
      Enact(c, c', Attach(rows, columns), ptyInput.bytes);
      var replayed := c.EnqueueReplay(tail);
      if replayed.Failed? {
        assert false;
      }
      Transcript.Replayed(c', c.story, session.ptyRead, c.output.bytes);
      Note(c);
    }

    /**
      A peer said attach: size, replay, and whatever it sent along. Only if all of that was taken
      does it become the attachment, in place of the one before.
     */
    method Admit(c: Connection, rows: U16, columns: U16, rest: seq<Record>, t: Tick) returns (r: Status)
      requires Valid() && candidate == null && Newcomer(c)
      requires c.story == NEW_STORY.(received := c.story.received)
      requires Parse(c.story.received).records == [Attach(rows, columns)] + rest
      requires Intact(registry.disk, final, active != null)
      modifies this`session, this`size, this`active, ptyInput, registry, c, c.output
      ensures r.Done? ==> Valid() && Intact(registry.disk, final, active != null)
      ensures session.ptyRead == old(session.ptyRead) && session.ptyWritten == old(session.ptyWritten)
              && |session.stories| == |old(session.stories)| && old(session.log) <= session.log
      ensures r.Done? ==>
                active == (if session.stories[c.id].applied == [Attach(rows, columns)] + rest then c else old(active))
      ensures session.stories[c.id].received == old(c.story.received) && session.stories[c.id].wire == old(c.story.wire)
      ensures |old(ptyInput.bytes)| <= |ptyInput.bytes|
      ensures r.Done? ==> session.stories[c.id].applied != [] && HeardOut(session.stories[c.id], |ptyInput.bytes|)
      ensures r.Done? && active != old(active) ==> active != null && active.story.wire == []
      ensures Untouched(old(session.stories), session.stories, {c.id})
      ensures r.Failed? ==>
                Grounded() && (ResizeFails(t.candidateResize, r.error) || WriteFails(t.attachWrite, r.error, Tidy()))
    {
      hide HeardOut, SomebodyStopped, Unfinished, Finished, Intact, Transcript.Ok, Owned, StoryOk, Wired, Silent,
        Printed, TypedLog, LogMatches, AllOk, SizeAfter, Parse, AskedToStop, Due, Replay, Resizes, Effects,
        R.WriteOutcome;
      var fault := t.candidateResize;
      AttachFirst(c.story.received, rows, columns, rest);
      var failing := if fault.Some? && fault.value.call == 0 then Some(fault.value.kind) else None;
      var status := SetWindowSize(rows, columns, failing);
      if status.Failed? {
        return Failed(status.error);
      }
      StartReplay(c, rows, columns, rest);
      var applied;
      ghost var k;
      var later := fault.Some? && fault.value.call > 0;
      var left := if later then Some(fault.value.(call := fault.value.call - 1)) else None;
      applied, k := ApplyRecords(c, rest, left);
      if applied.Err? {
        return Failed(applied.error);
      }
      HeardUpTo(c.story, [Attach(rows, columns)], rest, k, |ptyInput.bytes|);
      if !applied.value {
        assert |c.story.applied| == 1 + k;
        return Done;
      }
      assert rest[..k] == rest;
      Admitted(c.story, session.ptyRead);
      ghost var hadAttachment := active != null;
      active := c;
      r := WriteFlag(true, t.attachWrite, hadAttachment);
    }

    /** The candidate's turn to be read from: it attaches, stops the session, or is rejected. */
    method HearCandidate(t: Tick) returns (r: Status)
      requires Valid() && candidate != null && !stopRequested
      requires Intact(registry.disk, final, active != null)
      modifies this`session, this`size, this`active, this`candidate, this`stopRequested, ptyInput, registry,
          candidate.Repr()
      ensures r.Done? ==> Valid() && Intact(registry.disk, final, active != null)
      ensures session.ptyRead == old(session.ptyRead) && session.ptyWritten == old(session.ptyWritten)
              && |session.stories| == |old(session.stories)| && old(session.log) <= session.log
      ensures r.Done? ==> active == old(active) || active == old(candidate)
      ensures r.Done? ==>
                candidate == (if StillSilent(old(candidate.story), session.stories[old(candidate.id)], t.candidateRead)
                              then old(candidate) else null)
      ensures candidate == null || candidate == old(candidate)
      ensures |old(ptyInput.bytes)| <= |ptyInput.bytes|
      // the end of the stream ends the wait, a read that has to be tried again does not
      ensures t.candidateRead == Data([]) || t.candidateRead.ReadEio? || t.candidateRead.ReadFailed? ==>
                r.Done? && candidate == null && active == old(active) && !stopRequested
      ensures t.candidateRead.ReadWouldBlock? || t.candidateRead.ReadInterrupted? ==>
                r.Done? && candidate == old(candidate) && active == old(active) && !stopRequested
      ensures r.Done? && active != old(active) ==> active != null && active.story.wire == []
      ensures r.Done? ==> HeardFirst(old(candidate.story), session.stories[old(candidate.id)], t.candidateRead,
          |ptyInput.bytes|, active == old(candidate), stopRequested)
      ensures Untouched(old(session.stories), session.stories, IdOf(old(candidate)))
      ensures r.Failed? ==>
                Grounded() && (ResizeFails(t.candidateResize, r.error) || WriteFails(t.attachWrite, r.error, Tidy()))
    {
      hide HeardOut, NEW_STORY, Says, Tidy, SomebodyStopped, Unfinished, Finished, Take, Intact, Underway, Owned,
        StoryOk, Wired, Printed, TypedLog, LogMatches, AllOk, SizeAfter, Parse, Due, Replay, UpToDate;
      var c := candidate;
      var records := Listen(c, t.candidateRead);
      if records.Err? {
        candidate := null;
        return Done;
      }
      assert [] + records.value == records.value;
      if records.value == [] {
        return Done;
      }
      candidate := null;
      r := Introduce(c, records.value, t);
    }

    /** The first thing a peer says decides what it is. */
    method Introduce(c: Connection, records: seq<Record>, t: Tick) returns (r: Status)
      requires Valid() && candidate == null && Newcomer(c)
      requires c.story == NEW_STORY.(received := c.story.received)
      requires Parse(c.story.received).records == records != []
      requires Intact(registry.disk, final, active != null)
      modifies this`session, this`size, this`active, this`stopRequested, ptyInput, registry, c, c.output
      ensures r.Done? ==> Valid() && Intact(registry.disk, final, active != null)
      ensures session.ptyRead == old(session.ptyRead) && session.ptyWritten == old(session.ptyWritten)
              && |session.stories| == |old(session.stories)| && old(session.log) <= session.log
      ensures r.Done? ==> active == old(active) || active == c
      ensures r.Done? ==>
                active == (if records[0].Attach? && session.stories[c.id].applied == records then c else old(active))
      ensures r.Done? ==> stopRequested == (old(stopRequested) || records == [Stop])
      ensures |old(ptyInput.bytes)| <= |ptyInput.bytes|
      ensures r.Done? && records[0].Attach? ==>
                session.stories[c.id].applied != [] && HeardOut(session.stories[c.id], |ptyInput.bytes|)
      ensures Untouched(old(session.stories), session.stories, {c.id})
      ensures session.stories[c.id].received == old(c.story.received) && session.stories[c.id].wire == old(c.story.wire)
      ensures r.Done? && active != old(active) ==> active != null && active.story.wire == []
      ensures r.Failed? ==>
                Grounded() && (ResizeFails(t.candidateResize, r.error) || WriteFails(t.attachWrite, r.error, Tidy()))
    {
      hide Owned, StoryOk, Wired, Printed, TypedLog, LogMatches, AllOk, SizeAfter, Parse, Due, Replay, UpToDate;
      match records[0]
      case Attach(rows, columns) =>
        assert records == [Attach(rows, columns)] + records[1..];
        r := Admit(c, rows, columns, records[1..], t);
      case Stop =>
        if |records| == 1 {
          assert records == [Stop];
          assert AskedToStop(session.stories[c.id]);
          stopRequested := true;
        }
        return Done;
      case _ =>
        return Done;
    }

    // -------------------------------------------------------------- the loop

    /** All connections that can do something could do so at the start, or have joined since. */
    ghost predicate NoneRevived(current: set<nat>, before: set<nat>, n: nat) {
      forall x | x in current :: x in before || x >= n
    }

    /** The drain at the head of an iteration; an attachment lost to a full queue is recorded. */
    method DrainAndRecord(t: Tick) returns (r: Status)
      requires Valid() && Intact(registry.disk, final, active != null)
      modifies this`session, this`active, tail, registry, if active == null then {} else {active, active.output}
      ensures SameInput(session, old(session)) && (active == null || active == old(active))
      ensures r.Done? ==> Valid() && Intact(registry.disk, final, active != null) && DrainOf(t.ptyReads, 0).status.Done?
      ensures r.Failed? ==>
                Grounded() && (DrainOf(t.ptyReads, 0).status == r || WriteFails(t.overflowWrite, r.error, Tidy()))
      ensures session.ptyRead == old(session.ptyRead) + Flatten(DrainOf(t.ptyReads, 0).chunks)
      ensures Untouched(old(session.stories), session.stories, IdOf(old(active)))
      ensures Current() <= old(Current())
      ensures active != null ==> active.story == Fed(old(active.story), DrainOf(t.ptyReads, 0).chunks)
      ensures Room() == Reduced(old(Room()), ChunksCost(DrainOf(t.ptyReads, 0).chunks))
    {
      hide Grounded, Separate, Serving, Waiting, Intact, DrainOf, Flatten, Untouched;
      var hadAttachment := active != null;
      r := DrainPty(t.ptyReads);
      if r.Failed? {
        return;
      }
      if hadAttachment && active == null {
        r := WriteFlag(false, t.overflowWrite, true);
      }
    }

    /** The head of an iteration: the drain, and whether the child has gone. */
    method Begin(t: Tick) returns (r: TickResult)
      requires Valid() && Intact(registry.disk, final, active != null)
      modifies this`session, this`active, tail, registry, if active == null then {} else {active, active.output}
      ensures SameInput(session, old(session)) && (active == null || active == old(active))
      ensures r.Broken? ==> Grounded() && Breaks(t, r.error, Tidy())
      ensures !r.Broken? ==>
                && Valid() && Intact(registry.disk, final, active != null)
                && DrainOf(t.ptyReads, 0).status.Done? && !t.wait.WaitFailed?
      ensures r.Continue? ==> t.wait.StillRunning?
      ensures r.ChildGone? ==> t.wait.Exited? && r.exit == ExitOf(t.wait.status)
      ensures !r.StopNow?
      ensures session.ptyRead == old(session.ptyRead) + Flatten(DrainOf(t.ptyReads, 0).chunks)
      ensures Untouched(old(session.stories), session.stories, IdOf(old(active)))
      ensures Current() <= old(Current())
      ensures active != null ==> active.story == Fed(old(active.story), DrainOf(t.ptyReads, 0).chunks)
      ensures Room() == Reduced(old(Room()), ChunksCost(DrainOf(t.ptyReads, 0).chunks))
    {
      hide Valid, Grounded, Intact, DrainOf, Flatten, Untouched, Fed, Room, Reduced, ChunksCost, ExitOf, Tidy;
      var drained := DrainAndRecord(t);
      if drained.Failed? {
        return Broken(drained.error);
      }
      match t.wait {
        case WaitFailed(kind) =>
          ValidIsGrounded();
          return Broken(Os(kind));
        case Exited(status) => return ChildGone(ExitOf(status));
        case StillRunning => return Continue;
      }
    }

    /** One iteration of the event loop. */
    method Iterate(t: Tick) returns (r: TickResult)
      requires Valid() && Intact(registry.disk, final, active != null) && !stopRequested
      modifies Repr
      ensures !r.Broken? ==> Valid()
      ensures fresh(Repr - old(Repr)) && old(Repr) <= Repr
      ensures Untouched(old(session.stories), session.stories, old(Current()))
      ensures !r.Broken? ==> NoneRevived(Current(), old(Current()), |old(session.stories)|)
      ensures r.Broken? ==> Grounded() && Breaks(t, r.error, Tidy())
      ensures !r.Broken? ==> Intact(registry.disk, final, active != null) && Passed(t)
      ensures final == None
      ensures session.ptyRead == old(session.ptyRead) + Flatten(DrainOf(t.ptyReads, 0).chunks)
      ensures old(session.log) <= session.log && old(session.ptyWritten) <= session.ptyWritten
      ensures r.Continue? ==> !stopRequested
      ensures r.ChildGone? ==> t.wait.Exited? && r.exit == ExitOf(t.wait.status)
      ensures r.StopNow? ==> stopRequested
      ensures r.Continue? || r.StopNow? ==> t.wait.StillRunning?
      // a tick that polled gave the PTY, the listener and the candidate their turn
      ensures (r.Continue? || r.StopNow?) && t.poll.Polled? ==>
                && session.ptyWritten == old(session.ptyWritten) + old(ptyInput.bytes)[
                     ..BQ.FlushIf(t.poll.events.ptyWritable, old(ptyInput.bytes), t.ptyWrites).count]
                && CandidateTurn(old(session.stories), session.stories, old(Who(candidate)), t, t.poll.events,
                       |ptyInput.bytes|, Who(candidate), Who(active), r.StopNow?)
      // an attachment that survived the drain had its turn with the drained output behind what was queued
      ensures (r.Continue? || r.StopNow?) && t.poll.Polled? && old(active) != null
              && ChunksCost(DrainOf(t.ptyReads, 0).chunks) <= old(Room())
              && BQ.FlushIf(t.poll.events.ptyWritable, old(ptyInput.bytes), t.ptyWrites).status.Done? ==>
                && Served(Fed(old(active.story), DrainOf(t.ptyReads, 0).chunks), session.stories[old(active.id)],
                       t, t.poll.events)
                && HeardOut(session.stories[old(active.id)], |ptyInput.bytes|)
      // it is kept unless it is replaced, the PTY failed, or its own turn ended it
      ensures (r.Continue? || r.StopNow?) && (active == null || active == old(active)) ==>
                (active != null <==>
                   old(active) != null
                   && KeepsPlace(old(active.story), session.stories[old(active.id)], old(ptyInput.bytes), old(Room()),
                          t))
      // an attachment that keeps its place is as the tick makes it; to one that has just come nothing is written yet
      ensures !r.Broken? && active != null ==>
                if active == old(active) then active.story == Turned(old(active.story), t) else active.story.wire == []
    {
      hide Valid, HeardOut, Says, Wired, Silent, Parse, Fed, TurnBreaks, UpToDate, StoryOk, Stays, CandidateTurn,
        Tidy, Grounded, Separate, Serving, Waiting, SomebodyStopped, Intact, DrainOf, Flatten, BQ.FlushIf, Joining,
        HeardFirst, Served, Untouched, Room, RoomIn, ChunksCost, ExitOf, Backlog, RecordsOf, EncodeAll, Turned;
      KnownIds();
      IntactIsUnderway(registry.disk, final, active != null);
      ghost var start, drainIds := session.stories, IdOf(active);
      r := Begin(t);
      ghost var middle := session.stories;
      UntouchedTwice(start, middle, middle, drainIds, {});
      if r.Broken? {
        return;
      }
      QueueWithinLimit();
      if active != null {
        TurnedUnpolled(old(active.story), t);
      }
      if r.ChildGone? {
        return;
      }
      match t.poll {
        case PollInterrupted => return Continue;
        case PollFailed(kind) =>
          ValidIsGrounded();
          return Broken(Os(kind));
        case Polled(events) =>
          ghost var ids := Current();
          ghost var kept := active != null;
          ghost var polled := Who(candidate);
          r := Dispatch(t, events);
          if !r.Broken? {
            assert active != null ==> active.id in Current();
            CandidateTurnAfter(start, middle, session.stories, drainIds, polled, t, events, |ptyInput.bytes|,
                Who(candidate), Who(active), r.StopNow?);
          }
          UntouchedTwice(start, middle, session.stories, drainIds, ids);
          if !r.Broken? && active != null && active == old(active) {
            HasTurned(old(active.story), t);
          }
      }
    }

    lemma KnownIds()
      requires Valid()
      ensures forall x | x in IdOf(active) :: x < |session.stories|
      ensures forall x | x in IdOf(candidate) :: x < |session.stories|
      ensures active != null ==> active.output != ptyInput
      ensures IdOf(active) !! IdOf(candidate)
      ensures Within()
      ensures active != null ==> session.stories[active.id] == active.story
      ensures candidate != null ==> session.stories[candidate.id] == candidate.story && candidate.id !in IdOf(active)
      ensures active != null && candidate != null ==> active.id != candidate.id && active.Repr() !! candidate.Repr()
    {
      hide Grounded, StoryOk, UpToDate, Wired, Silent, Parse;
    }

    /** A completion, or its failure, keeps the history of the directory in order. */
    lemma CompletionWritten(before: seq<R.Disk>, after: seq<R.Disk>, f: Final)
      requires Owned(before, None) && before <= after && |before| <= f.commit <= |after|
      requires forall i | |before| <= i < |after| :: R.OnlyTouches(before[|before| - 1], after[i], id)
      requires forall i | |before| <= i < f.commit :: R.RecordUnchanged(before[|before| - 1], after[i], id)
      requires forall i | f.commit <= i < |after| :: R.Committed(after[i], id, f.output, f.record)
      ensures Owned(after, if f.commit < |after| then Some(f) else None)
    {
    }

    /** The last state before the commit shows the record as it was. */
    lemma BeforeCommit(before: seq<R.Disk>, after: seq<R.Disk>, commit: nat)
      requires before != [] && before <= after && |before| <= commit <= |after|
      requires forall i | |before| <= i < commit :: R.RecordUnchanged(before[|before| - 1], after[i], id)
      ensures R.RecordUnchanged(before[|before| - 1], after[commit - 1], id)
    {
    }

    /** In a directory that was tidy at the start only a failing write prevents the completion. */
    lemma CompletionFails(d: R.Disk, final: Option<Final>, outputBytes: nat, e: Closing, r: Status)
      requires Underway(d, final) && outputBytes <= OUTPUT_TAIL_BYTES
      requires r == R.CompletionOutcome(d, id, outputBytes, e.outputWrite, e.metadataWrite)
      ensures final == None
      ensures r.Failed? ==> WriteFails(e.outputWrite, r.error, Tidy()) || WriteFails(e.metadataWrite, r.error, Tidy())
      ensures r.Done? ==> e.outputWrite.failure == None && e.metadataWrite.failure == None
    {
      hide NameOf, R.Identity.TemporaryName;
    }

    /** What has been visible in the directory since the start. */
    lemma OwnedNow()
      requires Grounded()
      ensures R.OnlyTouches(origin, registry.disk, id) && (final == None ==> SaysLive(registry.disk))
      ensures Owned(registry.trace, final)
    {
    }

    /** An attachment that was served and kept is as its tick makes it. */
    lemma HasTurned(c: Story, t: Tick)
      requires Valid() && active != null && t.wait.StillRunning? && t.poll.Polled?
      requires Served(Fed(c, ChunksOf(t)), session.stories[active.id], t, t.poll.events)
      requires Stays(Fed(c, ChunksOf(t)), session.stories[active.id], t, t.poll.events)
      ensures active.story == Turned(c, t)
    {
      hide Grounded, StoryOk, UpToDate, Silent, Parse, EncodeAll, Served, Backlog, Fed, BQ.FlushIf, DrainOf, Turned;
      ServedIsTurned(c, active.story, t, session.ptyRead);
    }

    /** What is queued for the attachment is what its story says. */
    lemma BacklogIs()
      requires Valid() && active != null
      ensures Backlog(active.story) == active.output.bytes && |active.output.bytes| <= MAX_ATTACHMENT_QUEUE_BYTES
      ensures active.id < |session.stories|
      ensures Room() == MAX_ATTACHMENT_QUEUE_BYTES - |Backlog(active.story)|
      ensures Wired(active.story, active.output.bytes) && session.stories[active.id] == active.story
      ensures AllWellFormed(active.story.sent) && active.story.wire <= EncodeAll(active.story.sent)
    {
      hide Grounded, StoryOk, UpToDate, Silent, Parse;
      WiredBacklog(active.story, active.output.bytes);
    }

    /** A tick keeps the account of the attachment there is; if its socket takes everything, everything is out. */
    lemma GoesOn(v: Tenure, before: Option<Leaving>, kept: bool, first: Option<Leaving>, pty: seq<Byte>,
                 script: seq<Tick>, n: nat, continued: bool, room: int) returns (v': Tenure)
      requires Valid() && active != null && n < |script| && session.ptyRead == pty + PtyOf(script[..n + 1])
      requires before.Some? ==> Accounted(v, before.value, first, pty, script, n)
      requires if kept
               then
                 && before.Some? && before.value.id == active.id
                 && active.story == Turned(before.value.story, script[n])
                 && Wired(before.value.story, Backlog(before.value.story))
                 && room == MAX_ATTACHMENT_QUEUE_BYTES - |Backlog(before.value.story)|
                 && (continued ==> script[n].wait.StillRunning? && ChunksCost(ChunksOf(script[n])) <= room)
               else active.story.wire == []
      ensures Accounted(v', Leaving(active.id, active.story), first, pty, script, n + 1)
      ensures continued && Ample(script[n]) ==> AllOut(active.story)
    {
      hide Accounted, Turned, UpToDate, Wired, Grounded, StoryOk, Silent, Backlog, ChunksCost, DrainOf, Ample, PtyOf;
      v' := TenureStep(v, before, Leaving(active.id, active.story), kept, first, pty, script, n);
      if kept && continued && Ample(script[n]) {
        AmpleTurns(before.value.story, script[n]);
      }
    }

    lemma FirstTenure(script: seq<Tick>) returns (v: Tenure)
      requires active != null
      ensures Accounted(v, Leaving(active.id, active.story), Attached(), session.ptyRead, script, 0)
    {
      v := Tenure(active.id, 0, active.story);
      TenureStarts(Leaving(active.id, active.story), script, session.ptyRead);
    }

    /** Everything it said so far has taken effect. */
    ghost predicate HasSpoken(c: Story) {
      Parse(c.received).error == None && c.applied == Parse(c.received).records
    }

    lemma ActiveHasSpoken()
      requires Valid() && active != null
      ensures active.id < |session.stories| && HasSpoken(active.story)
    {
      hide Grounded, StoryOk, Wired, Silent, Parse;
    }

    lemma CandidateIsSilent()
      requires Valid() && candidate != null
      ensures candidate.id < |session.stories| && session.stories[candidate.id] == candidate.story
      ensures Silent(candidate.story) && Parse(candidate.story.received).error == None
    {
      hide Grounded, StoryOk, UpToDate, Wired, Silent, Parse;
    }

    /** What a tick has meant for those who were there before it: the attachment `was` and the candidate `polled`. */
    lemma PlacesMeant(before: seq<Story>, was: Option<Leaving>, polled: Option<nat>, input: seq<Byte>, room: int,
                      t: Tick, same: bool, stopped: bool)
      requires Valid() && t.poll.Polled?
      requires was.Some? ==> was.value.id < |session.stories| && HasSpoken(was.value.story)
      requires polled.Some? ==> polled.value < |before| && Silent(before[polled.value])
                                && Parse(before[polled.value].received).error == None
      requires CandidateTurn(before, session.stories, polled, t, t.poll.events, |ptyInput.bytes|, Who(candidate),
                   Who(active), stopped)
      requires was.Some? && ChunksCost(ChunksOf(t)) <= room
               && BQ.FlushIf(t.poll.events.ptyWritable, input, t.ptyWrites).status.Done? ==>
                 Served(Fed(was.value.story, ChunksOf(t)), session.stories[was.value.id], t, t.poll.events)
      requires same ==>
                 (active != null <==>
                    was.Some? && KeepsPlace(was.value.story, session.stories[was.value.id], input, room, t))
      ensures was.Some? && t.poll.events.activeReady && Gone(t.activeRead) && same ==> active == null
      ensures was.Some? && Calm(t) && ChunksCost(ChunksOf(t)) <= room && same ==> active != null
      ensures polled.Some? && t.poll.events.candidateReady && Gone(t.candidateRead) ==> candidate == null && !stopped
      ensures polled.Some? && t.poll.events.candidateReady && Blocked(t.candidateRead) ==>
                candidate != null && !stopped
    {
      hide Gone, Blocked, KeepsPlace, Served, Fed, Parse, CandidateTurn, ChunksCost, BQ.FlushIf, DrainOf,
        Ticks.Writable;
      if was.Some? {
        KeepsPlaceMeans(was.value.story, session.stories[was.value.id], input, room, t);
        if Calm(t) {
          WritableFlushes(t.poll.events.ptyWritable, input, t.ptyWrites);
        }
        assert StoryOk(session.stories[was.value.id], session.ptyRead);
      }
      if polled.Some? && t.poll.events.candidateReady {
        CandidateTurnMeans(before, session.stories, polled.value, t, t.poll.events, |ptyInput.bytes|, Who(candidate),
            Who(active), stopped);
      }
    }

    lemma ValidIsGrounded()
      requires Valid()
      ensures Grounded()
    {
    }

    lemma StopHasCause()
      requires Grounded()
      ensures stopRequested ==> SomebodyStopped()
    {
    }

    /** The input queue's and the attachment's turn after a poll. */
    method ServeOld(t: Tick, events: Events) returns (r: Status)
      requires Valid() && Intact(registry.disk, final, active != null) && !stopRequested
      modifies this`session, this`active, this`size, ptyInput, registry, if active == null then {} else active.Repr()
      ensures r.Done? ==> Valid() && Intact(registry.disk, final, active != null)
      ensures Untouched(old(session.stories), session.stories, IdOf(old(active)))
      ensures r.Done? ==> active == null || active == old(active)
      ensures r.Done? ==>
                (active != null <==>
                   && old(active) != null
                   && BQ.FlushIf(events.ptyWritable, old(ptyInput.bytes), t.ptyWrites).status.Done?
                   && Stays(old(active.story), session.stories[old(active.id)], t, events))
      ensures r.Failed? ==>
                Grounded() && (ResizeFails(t.activeResize, r.error) || WriteFails(t.detachWrite, r.error, Tidy()))
      ensures session.ptyRead == old(session.ptyRead)
      ensures old(session.log) <= session.log && |session.stories| == |old(session.stories)|
      ensures var f := BQ.FlushIf(events.ptyWritable, old(ptyInput.bytes), t.ptyWrites);
              && session.ptyWritten == old(session.ptyWritten) + old(ptyInput.bytes)[..f.count]
              && (old(active) != null && f.status.Done? ==>
                    && Served(old(active.story), session.stories[old(active.id)], t, events)
                    && (r.Done? ==> HeardOut(session.stories[old(active.id)], |ptyInput.bytes|)))
    {
      hide HeardOut, Grounded, Separate, Serving, Waiting, BQ.FlushOutcome, Served;
      var hadActive := active != null;
      KnownIds();
      assert session.ptyWritten + ptyInput.bytes[..0] == session.ptyWritten;
      if events.ptyWritable {
        FlushInput(t.ptyWrites);
      }
      r := Done;
      if hadActive {
        r := ServeActive(t, events);
      }
    }

    /** The listener's and the candidate's turn after a poll. */
    method Greet(t: Tick, events: Events, hadCandidate: bool) returns (r: Status)
      requires Valid() && Intact(registry.disk, final, active != null) && !stopRequested
      requires hadCandidate <==> candidate != null
      modifies this`session, this`size, this`active, this`candidate, this`stopRequested, this`Repr, ptyInput, registry,
          if candidate == null then {} else candidate.Repr()
      ensures r.Done? ==> Valid() && Intact(registry.disk, final, active != null)
      ensures r.Done? && events.accepting ==> AcceptsEnd(t.accepts).Done?
      ensures r.Failed? ==>
                && Grounded()
                && ((events.accepting && AcceptsEnd(t.accepts) == r)
                    || ResizeFails(t.candidateResize, r.error) || WriteFails(t.attachWrite, r.error, Tidy()))
      ensures fresh(Repr - old(Repr)) && old(Repr) <= Repr
      ensures Untouched(old(session.stories), session.stories, IdOf(old(candidate)))
      ensures r.Done? ==> NoneRevived(IdOf(active), IdOf(old(active)) + IdOf(old(candidate)), |old(session.stories)|)
      ensures r.Done? ==> NoneRevived(IdOf(candidate), IdOf(old(candidate)), |old(session.stories)|)
      ensures session.ptyRead == old(session.ptyRead) && session.ptyWritten == old(session.ptyWritten)
              && old(session.log) <= session.log
      ensures r.Done? ==> |old(session.stories)| <= |session.stories|
      ensures |old(ptyInput.bytes)| <= |ptyInput.bytes|
      ensures r.Done? ==> CandidateTurn(old(session.stories), session.stories, old(Who(candidate)), t, events,
                              |ptyInput.bytes|, Who(candidate), Who(active), stopRequested)
      ensures r.Done? && active != old(active) ==> active != null && active.story.wire == []
      ensures !(events.candidateReady && hadCandidate) ==> active == old(active) && !stopRequested
    {
      hide HeardOut, Grounded, Separate, Serving, Waiting, Untouched, HeardFirst, Joining, AcceptsEnd, Intact;
      ghost var start := session.stories;
      KnownIds();
      NobodyTouched(start, IdOf(candidate));
      if events.accepting {
        var accepted := AcceptCandidates(t.accepts);
        Grew(start, session.stories);
        UntouchedTwice(start, session.stories, session.stories, {}, {});
        if accepted.Failed? {
          ValidIsGrounded();
          return Failed(accepted.error);
        }
      }
      r := Done;
      if hadCandidate && events.candidateReady {
        ghost var greeted, newId := session.stories, IdOf(candidate);
        KnownIds();
        r := HearCandidate(t);
        UntouchedTwice(start, greeted, session.stories, IdOf(old(candidate)), newId);
      } else {
        KnownIds();
      }
    }

    /** Everything that follows a poll. */
    method Dispatch(t: Tick, events: Events) returns (r: TickResult)
      requires Valid() && Intact(registry.disk, final, active != null) && !stopRequested
      requires t.poll == Polled(events)
      modifies Repr
      ensures !r.Broken? ==> Valid()
      ensures fresh(Repr - old(Repr)) && old(Repr) <= Repr
      ensures Untouched(old(session.stories), session.stories, old(Current()))
      ensures !r.Broken? ==> NoneRevived(Current(), old(Current()), |old(session.stories)|)
      ensures r.Broken? ==> Grounded() && TurnBreaks(t, events, r.error, Tidy())
      ensures !r.Broken? ==> Intact(registry.disk, final, active != null)
      ensures !r.Broken? && events.accepting ==> AcceptsEnd(t.accepts).Done?
      ensures final == None
      ensures session.ptyRead == old(session.ptyRead)
      ensures old(session.log) <= session.log
      ensures r.Continue? ==> !stopRequested
      ensures r.StopNow? ==> stopRequested
      ensures !r.ChildGone?
      // what each part of the loop body did
      ensures var f := BQ.FlushIf(events.ptyWritable, old(ptyInput.bytes), t.ptyWrites);
              && session.ptyWritten == old(session.ptyWritten) + old(ptyInput.bytes)[..f.count]
              && (old(active) != null && f.status.Done? ==>
                    && Served(old(active.story), session.stories[old(active.id)], t, events)
                    && (!r.Broken? ==> HeardOut(session.stories[old(active.id)], |ptyInput.bytes|)))
              // the attachment is kept unless it is replaced, the PTY failed, or its own turn ended it
              && (!r.Broken? && (active == null || active == old(active)) ==>
                    (active != null <==> old(active) != null && f.status.Done?
                                         && Stays(old(active.story), session.stories[old(active.id)], t, events)))
      ensures !r.Broken? && active != null && active != old(active) ==> active.story.wire == []
      ensures !r.Broken? ==>
                CandidateTurn(old(session.stories), session.stories, old(Who(candidate)), t, events,
                    |ptyInput.bytes|, Who(candidate), Who(active), r.StopNow?)
    {
      hide HeardOut, Tidy, Says, Wired, Grounded, Separate, Serving, Waiting, Untouched, Served, HeardFirst,
        BQ.FlushIf, Joining, AcceptsEnd, Stays, CandidateTurn, Intact;
      var hadCandidate := candidate != null;
      ghost var start, oldId, candidateId := session.stories, IdOf(active), IdOf(candidate);
      KnownIds();
      IntactIsUnderway(registry.disk, final, active != null);
      var served := ServeOld(t, events);
      ghost var middle := session.stories;
      UntouchedTwice(start, middle, middle, oldId, {});
      if served.Failed? {
        return Broken(served.error);
      }
      ghost var polled, queued := Who(candidate), |ptyInput.bytes|;
      var greeted := Greet(t, events, hadCandidate);
      UntouchedTwice(start, middle, session.stories, oldId, candidateId);
      StayedPut(middle, session.stories, candidateId, oldId);
      if old(active) != null && BQ.FlushIf(events.ptyWritable, old(ptyInput.bytes), t.ptyWrites).status.Done? {
        HeardLater(session.stories[old(active.id)], queued, |ptyInput.bytes|);
      }
      if greeted.Failed? {
        return Broken(greeted.error);
      }
      CandidateTurnAfter(start, middle, session.stories, oldId, polled, t, events, |ptyInput.bytes|, Who(candidate),
          Who(active), stopRequested);
      return if stopRequested then StopNow else Continue;
    }

    // -------------------------------------------------------------- the end of a session

    function FinalMetadata(exit: ProcessExit, finishedAt: nat, outputBytes: nat, truncated: bool): R.SessionMetadata {
      R.Completed(Hex(id), startedAt, finishedAt, R.ToMetadata(exit), outputBytes, truncated)
    }

    ghost function FinalOf(commit: nat, exit: ProcessExit, finishedAt: nat, pty: seq<Byte>): (f: Final)
      ensures f.commit == commit
    {
      var output := LastN(pty, OUTPUT_TAIL_BYTES);
      Final(commit, output, FinalMetadata(exit, finishedAt, |output|, |pty| > OUTPUT_TAIL_BYTES))
    }

    /** The completed record belongs to exactly this output. */
    ghost predicate Recorded(disk: R.Disk, exit: ProcessExit, finishedAt: nat, pty: seq<Byte>) {
      var output := LastN(pty, OUTPUT_TAIL_BYTES);
      R.Committed(disk, id, output, FinalMetadata(exit, finishedAt, |output|, |pty| > OUTPUT_TAIL_BYTES))
    }

    /** The two flushes and the exit between them, put together. */
    lemma DismissedIs(c: Story, c': Story, queued: seq<Byte>, exit: ProcessExit, e: Closing)
      requires WellFormed(Exit(exit)) && Backlog(c) == queued
      requires var f := BQ.FlushOutcome(queued, e.firstFlush);
               var flushed, rest := c.wire + queued[..f.count], queued[f.count..] + EncodeBytes(Exit(exit));
               var said := FarewellFits(queued, e.firstFlush);
               c' == c.(sent := c.sent + (if said then [Exit(exit)] else []),
                        wire := flushed + (if said then rest[..BQ.FlushOutcome(rest, e.lastFlush).count] else []))
      ensures c' == Dismissed(c, exit, e)
    {
      hide Backlog, BQ.FlushOutcome, EncodeBytes, FarewellFits;
    }

    /** The last flushes: what is queued, then the exit; the exit never overtakes output. */
    method SayGoodbye(exit: ProcessExit, e: Closing)
      requires Valid() && active != null && WellFormed(Exit(exit))
      modifies this`session, this`active, this`concluded, active, active.output
      ensures Grounded() && active == null && Untouched(old(session.stories), session.stories, IdOf(old(active)))
      ensures session == old(session).(stories := session.stories) && |session.stories| == |old(session.stories)|
      ensures session.stories[old(active.id)] == Dismissed(old(active.story), exit, e)
    {
      hide EncodeAll, Owned, StoryOk, Silent, Wired, Parse, Printed, TypedLog, LogMatches, SizeAfter, BQ.FlushOutcome,
        AskedToStop;
      BacklogIs();
      var c := active;
      ghost var queued := c.output.bytes;
      FlushActive(e.firstFlush);
      if active != null {
        ghost var before := c.story;
        UpToDateIsNotStop(before, session.ptyRead);
        concluded := true;
        var said := c.SendExit(exit, e.lastFlush);
        Transcript.Parted(before, c.story, session.ptyRead, if said then [Exit(exit)] else []);
        Note(c);
        active := null;
      }
      DismissedIs(old(c.story), session.stories[c.id], queued, exit, e);
    }

    /**
      The disk half of completion: the output file, then the completed record, then the removal of
      the live files. `commit` is the first directory state with the completed record.
     */
    method WriteCompletion(exit: ProcessExit, e: Closing) returns (r: Status, ghost commit: nat)
      requires Valid() && WellFormed(Exit(exit)) && Underway(registry.disk, final)
      modifies registry, this`final
      ensures Valid() && Grounded()
      ensures |old(registry.trace)| <= commit <= |registry.trace| && old(registry.trace) <= registry.trace
      ensures forall i | |old(registry.trace)| <= i < commit ::
          R.RecordUnchanged(old(registry.disk), registry.trace[i], id)
      ensures forall i | commit <= i < |registry.trace| ::
          Recorded(registry.trace[i], exit, e.finishedAt, session.ptyRead)
      ensures 0 < commit && R.RecordUnchanged(old(registry.disk), registry.trace[commit - 1], id)
      ensures r.Done? <==> commit < |registry.trace|
      ensures final == if r.Done? then Some(FinalOf(commit, exit, e.finishedAt, session.ptyRead)) else None
      ensures r.Done? ==> R.Lookup(registry.disk, NameOf(id, SOCKET)) == None
                          && R.Lookup(registry.disk, NameOf(id, LOCK)) == None
      // exactly a failing write, or a leftover in its way, prevents it
      ensures r == R.CompletionOutcome(old(registry.disk), id, |LastN(session.ptyRead, OUTPUT_TAIL_BYTES)|,
                       e.outputWrite, e.metadataWrite)
      ensures r.Done? ==> e.outputWrite.failure == None && e.metadataWrite.failure == None
      ensures r.Failed? ==> WriteFails(e.outputWrite, r.error, Tidy()) || WriteFails(e.metadataWrite, r.error, Tidy())
    {
      hide LastN, R.Committed, SaysLive, Says, EncodeAll, SomebodyStopped, Tidy, Underway, WriteFails,
        R.CompletionOutcome, StoryOk, UpToDate, Silent, Wired, Parse, Transcript.Ok, SizeAfter, AskedToStop, R.Lookup,
        NameOf, Owned, R.OnlyTouches, R.RecordUnchanged, R.Identity.TemporaryName;
      var output := tail.Snapshot();
      ghost var before := registry.trace;
      r, commit := registry.RecordCompletion(id, output, FinalMetadata(exit, e.finishedAt, |output|, tail.truncated),
          e.outputWrite, e.metadataWrite);
      CompletionFails(before[|before| - 1], final, |output|, e, r);
      BeforeCommit(before, registry.trace, commit);
      ghost var f := FinalOf(commit, exit, e.finishedAt, session.ptyRead);
      CompletionWritten(before, registry.trace, f);
      if r.Done? {
        final := Some(f);
      }
    }

    /** Completes the session: first on disk, then a last word to the attachment. */
    method CompleteSession(exit: ProcessExit, e: Closing) returns (r: Status)
      requires Valid() && WellFormed(Exit(exit)) && Underway(registry.disk, final)
      modifies Repr
      ensures Grounded() && stopRequested == old(stopRequested)
      ensures Untouched(old(session.stories), session.stories, IdOf(old(active)))
      ensures session == old(session).(stories := session.stories)
      ensures if r.Failed? then final == None else
                && final.Some? && final == Some(FinalOf(final.value.commit, exit, e.finishedAt, session.ptyRead))
                && Recorded(registry.disk, exit, e.finishedAt, session.ptyRead)
                && R.Lookup(registry.disk, NameOf(id, SOCKET)) == None
                && R.Lookup(registry.disk, NameOf(id, LOCK)) == None
      ensures r.Done? ==> e.outputWrite.failure == None && e.metadataWrite.failure == None
      ensures r.Failed? ==> WriteFails(e.outputWrite, r.error, Tidy()) || WriteFails(e.metadataWrite, r.error, Tidy())
      // the attachment is told, unless its queue could not take it; its socket gets all it takes
      ensures r.Done? && old(active) != null ==>
                session.stories[old(active.id)] == Dismissed(old(active.story), exit, e)
      ensures r.Done? ==> 0 < final.value.commit <= |registry.trace|
                          && R.RecordUnchanged(old(registry.disk), registry.trace[final.value.commit - 1], id)
    {
      hide Dismissed, IdOf, Valid, Grounded, Separate, Serving, Waiting, R.Lookup, R.RecordUnchanged, NameOf,
        FarewellFits, Recorded, Untouched, Underway, R.CompletionOutcome, FinalOf, LastN, WriteFails;
      NobodyTouched(session.stories, IdOf(active));
      KnownIds();
      ghost var commit;
      r, commit := WriteCompletion(exit, e);
      if r.Done? {
        assert Recorded(registry.disk, exit, e.finishedAt, session.ptyRead) by { LastState(); }
      }
      KnownIds();
      if r.Done? && active != null {
        SayGoodbye(exit, e);
      }
    }

    lemma IntactIsUnderway(disk: R.Disk, final: Option<Final>, attached: bool)
      requires Intact(disk, final, attached)
      ensures Underway(disk, final) && final == None && Says(disk, attached)
    {
    }

    lemma SaysStill(before: R.Disk, after: R.Disk, attached: bool)
      requires Says(before, attached) && R.RecordUnchanged(before, after, id)
      ensures Says(after, attached)
    {
    }

    lemma SaysMeans(disk: R.Disk, attached: bool)
      requires Says(disk, attached)
      ensures R.ReadMetadata(disk, id) == Ok(Some(R.Live(Hex(id), runnerPid, childPid, startedAt, attached)))
    {
      hide NameOf, Hex;
    }

    lemma NothingFinal(disk: R.Disk, final: Option<Final>)
      requires Underway(disk, final)
      ensures final == None
    {
    }

    lemma LastState()
      requires Grounded()
      ensures registry.trace != [] && registry.trace[|registry.trace| - 1] == registry.disk
    {
    }

    /**
      The winding up that follows the loop, once the child is gone or has to go. Only a failing call
      of the runner's own keeps it from completing the session.
     */
    method Conclude(last: TickResult, e: Closing) returns (r: IoResult<ProcessExit>)
      requires Valid() && Underway(registry.disk, final) && (last.ChildGone? || last.StopNow?)
      requires last.ChildGone? ==> WellFormed(Exit(last.exit))
      modifies Repr
      ensures Grounded() && stopRequested == old(stopRequested)
      ensures Untouched(old(session.stories), session.stories, IdOf(old(active)))
      ensures session.ptyRead == old(session.ptyRead)
          + (if last.ChildGone? then Flatten(DrainOf(e.ptyReads, 0).chunks) else [])
      ensures session.log == old(session.log) && session.ptyWritten == old(session.ptyWritten)
      ensures match r
              case Ok(exit) =>
                && final.Some? && final == Some(FinalOf(final.value.commit, exit, e.finishedAt, session.ptyRead))
                && Recorded(registry.disk, exit, e.finishedAt, session.ptyRead)
                && R.Lookup(registry.disk, NameOf(id, SOCKET)) == None
                && R.Lookup(registry.disk, NameOf(id, LOCK)) == None
                && WoundUp(e, last.ChildGone?)
                && exit == (if last.ChildGone? then last.exit else ExitOf(StopResult(e.stop).value))
                && 0 < final.value.commit <= |registry.trace|
                && R.RecordUnchanged(old(registry.disk), registry.trace[final.value.commit - 1], id)
                && (old(active) != null && ChunksCost(LastChunks(last, e)) <= old(Room()) ==>
                      session.stories[old(active.id)] ==
                      Dismissed(Fed(old(active.story), LastChunks(last, e)), exit, e))
              case Err(error) => final == None && Spoils(e, last.ChildGone?, error, Tidy())
    {
      hide Separate, Serving, Waiting, DrainOf, Flatten, Recorded, NameOf, R.Lookup, ExitOf, Untouched, Grounded,
        FarewellFits, Underway, FinalOf, LastN, StopResult;
      ghost var start, ids := session.stories, IdOf(active);
      var exit;
      if last.ChildGone? {
        var drained := DrainPty(e.ptyReads);
        if drained.Failed? {
          NothingFinal(registry.disk, final);
          return Err(drained.error);
        }
        QueueWithinLimit();
        exit := last.exit;
      } else {
        assert session.ptyRead + [] == session.ptyRead;
        QueueWithinLimit();
        if active != null {
          FedNothing(active.story);
        }
        NobodyTouched(start, ids);
        var stopped, signals := StopChild(e.stop);
        if stopped.Err? {
          NothingFinal(registry.disk, final);
          return Err(stopped.error);
        }
        exit := ExitOf(stopped.value);
      }
      ghost var middle, middleIds := session.stories, IdOf(active);
      var status := CompleteSession(exit, e);
      UntouchedTwice(start, middle, session.stories, ids, middleIds);
      if status.Failed? {
        return Err(status.error);
      }
      return Ok(exit);
    }

    /**
      How a run ends that does not go on: after a failing call the session files are dropped, otherwise
      the session is wound up.
     */
    method Finish(last: TickResult, e: Closing) returns (outcome: Outcome)
      requires final == None && !last.Continue?
      requires if last.Broken? then Grounded() else Valid() && Underway(registry.disk, final)
      requires last.ChildGone? ==> WellFormed(Exit(last.exit))
      requires last.StopNow? ==> stopRequested
      modifies if last.Broken? then {registry} else Repr
      ensures Grounded() && !outcome.Running?
      ensures Untouched(old(session.stories), session.stories, if last.Broken? then {} else IdOf(old(active)))
      ensures session.ptyRead == old(session.ptyRead)
          + (if last.ChildGone? then Flatten(DrainOf(e.ptyReads, 0).chunks) else [])
      ensures session.log == old(session.log) && session.ptyWritten == old(session.ptyWritten)
      ensures last.Broken? ==> outcome == Aborted(last.error)
      ensures R.Lookup(registry.disk, NameOf(id, SOCKET)) == None && R.Lookup(registry.disk, NameOf(id, LOCK)) == None
      ensures outcome.Aborted? ==> final == None && (last.Broken? || Spoils(e, last.ChildGone?, outcome.error, Tidy()))
      ensures outcome.Completed? ==>
                && final.Some?
                && final == Some(FinalOf(final.value.commit, outcome.exit, e.finishedAt, session.ptyRead))
                && Recorded(registry.disk, outcome.exit, e.finishedAt, session.ptyRead)
                && WoundUp(e, last.ChildGone?) && (last.ChildGone? || StopResult(e.stop).Ok?)
                && outcome.exit == (if last.ChildGone? then last.exit else ExitOf(StopResult(e.stop).value))
                && (last.ChildGone? || SomebodyStopped())
                && 0 < final.value.commit <= |registry.trace|
                && R.RecordUnchanged(old(registry.disk), registry.trace[final.value.commit - 1], id)
                && (old(active) != null && ChunksCost(LastChunks(last, e)) <= old(Room()) ==>
                      session.stories[old(active.id)] ==
                      Dismissed(Fed(old(active.story), LastChunks(last, e)), outcome.exit, e))
    {
      hide Valid, Grounded, Separate, Serving, Waiting, DrainOf, Flatten, Recorded, NameOf, R.Lookup, ExitOf, FinalOf,
        LastN, StopResult, Underway, SomebodyStopped, Untouched, Spoils;
      NobodyTouched(session.stories, {});
      if !last.Broken? {
        KnownIds();
      }
      assert session.ptyRead + [] == session.ptyRead;
      if last.Broken? {
        Abandon();
        return Aborted(last.error);
      }
      var done := Conclude(last, e);
      if done.Err? {
        Abandon();
        return Aborted(done.error);
      }
      StopHasCause();
      return Completed(done.value);
    }

    /** How far a run has come after `ticks`, seen from where it began. */
    ghost predicate Progress(before: Transcript.Session, after: Transcript.Session, current: set<nat>,
                             ticks: seq<Tick>) {
      && Untouched(before.stories, after.stories, current)
      && after.ptyRead == before.ptyRead + PtyOf(ticks)
      && before.log <= after.log && before.ptyWritten <= after.ptyWritten
    }

    lemma ProgressStarts(s: Transcript.Session, current: set<nat>, script: seq<Tick>)
      ensures Progress(s, s, current, script[..0]) && NoneRevived(current, current, |s.stories|)
    {
    }

    lemma ProgressStep(before: Transcript.Session, s: Transcript.Session, s': Transcript.Session, start: set<nat>,
                       current: set<nat>, script: seq<Tick>, n: nat)
      requires n < |script| && Progress(before, s, start, script[..n]) && NoneRevived(current, start, |before.stories|)
      requires Untouched(s.stories, s'.stories, current)
      requires s'.ptyRead == s.ptyRead + Flatten(DrainOf(script[n].ptyReads, 0).chunks)
      requires s.log <= s'.log && s.ptyWritten <= s'.ptyWritten
      ensures Progress(before, s', start, script[..n + 1])
      ensures |before.stories| <= |s.stories| && s'.ptyRead == before.ptyRead + PtyOf(script[..n + 1])
    {
      hide DrainOf, Flatten;
      PtyStep(script, n + 1, before.ptyRead);
      UntouchedTwice(before.stories, s.stories, s'.stories, start, current);
    }

    /** The connections left after a tick, in terms of those at the start. */
    lemma RevivedStep(now: set<nat>, current: set<nat>, start: set<nat>, n: nat, m: nat)
      requires NoneRevived(current, start, n) && n <= m && NoneRevived(now, current, m)
      ensures NoneRevived(now, start, n)
    {
    }

    /** A last change of stories only. */
    lemma ProgressEnds(before: Transcript.Session, s: Transcript.Session, s': Transcript.Session, start: set<nat>,
                       active: set<nat>, current: set<nat>, ticks: seq<Tick>, drained: seq<Byte>)
      requires Progress(before, s, start, ticks) && NoneRevived(current, start, |before.stories|) && active <= current
      requires Untouched(s.stories, s'.stories, active)
      requires s'.ptyRead == s.ptyRead + drained && s'.log == s.log && s'.ptyWritten == s.ptyWritten
      ensures Untouched(before.stories, s'.stories, start)
      ensures s'.ptyRead == before.ptyRead + PtyOf(ticks) + drained
      ensures before.log <= s'.log && before.ptyWritten <= s'.ptyWritten
    {
      hide PtyOf;
      UntouchedTwice(before.stories, s.stories, s'.stories, start, active);
    }

    /** What the history of the directory shows from the start of a run to its end. */
    lemma OwnedShows(trace: seq<R.Disk>, final: Option<Final>, commit: nat, outcome: Outcome, finishedAt: nat,
                     pty: seq<Byte>)
      requires Owned(trace, final)
      requires if outcome.Completed? then final == Some(FinalOf(commit, outcome.exit, finishedAt, pty))
               else final == None && commit == |trace|
      ensures past != [] && past <= trace && commit <= |trace| && (outcome.Completed? <==> commit < |trace|)
      ensures forall i | |past| - 1 <= i < |trace| ::
                && R.OnlyTouches(origin, trace[i], id)
                && (if i < commit then SaysLive(trace[i])
                    else outcome.Completed? && Recorded(trace[i], outcome.exit, finishedAt, pty))
    {
    }

    /** A run that is aborted has met a failing call of its own, so a faultless one is not aborted. */
    lemma AbortHasCause(script: seq<Tick>, steps: nat, e: Closing, drained: bool, r: TickResult, error: IoError)
      requires 0 < steps <= |script|
      requires if r.Broken? then error == r.error && Breaks(script[steps - 1], error, Tidy())
               else Spoils(e, drained, error, Tidy())
      ensures error.Os?
      ensures !(Tidy() && (forall i | 0 <= i < steps :: Faultless(script[i])) && FaultlessEnd(e, drained))
    {
      BreaksWithOs(script[steps - 1], error, Tidy());
      SpoilsWithOs(e, drained, error, Tidy());
      if Tidy() && (forall i | 0 <= i < steps :: Faultless(script[i])) && FaultlessEnd(e, drained) {
        FaultlessGoesOn(script[steps - 1], error);
        FaultlessEndSucceeds(e, drained, error);
      }
    }

    /** `Finish`, what it leaves in the history of the directory, and what the attachment is given. */
    method End(last: TickResult, e: Closing)
      returns (outcome: Outcome, ghost commit: nat, ghost leaving: Option<Leaving>)
      requires final == None && !last.Continue?
      requires if last.Broken? then Grounded() else Valid() && Intact(registry.disk, final, active != null)
      requires last.ChildGone? ==> WellFormed(Exit(last.exit))
      requires last.StopNow? ==> stopRequested
      modifies if last.Broken? then {registry} else Repr
      ensures Grounded() && !outcome.Running?
      ensures Untouched(old(session.stories), session.stories, if last.Broken? then {} else IdOf(old(active)))
      ensures session.ptyRead == old(session.ptyRead)
          + (if last.ChildGone? then Flatten(DrainOf(e.ptyReads, 0).chunks) else [])
      ensures session.log == old(session.log) && session.ptyWritten == old(session.ptyWritten)
      ensures last.Broken? ==> outcome == Aborted(last.error)
      ensures R.Lookup(registry.disk, NameOf(id, SOCKET)) == None && R.Lookup(registry.disk, NameOf(id, LOCK)) == None
      ensures outcome.Aborted? ==> last.Broken? || Spoils(e, last.ChildGone?, outcome.error, Tidy())
      ensures outcome.Completed? ==>
                && Recorded(registry.disk, outcome.exit, e.finishedAt, session.ptyRead)
                && (last.ChildGone? || (StopResult(e.stop).Ok? && SomebodyStopped()))
                && outcome.exit == (if last.ChildGone? then last.exit else ExitOf(StopResult(e.stop).value))
      ensures past <= registry.trace && commit <= |registry.trace|
      ensures outcome.Completed? <==> commit < |registry.trace|
      ensures forall i | |past| - 1 <= i < |registry.trace| ::
                && R.OnlyTouches(origin, registry.trace[i], id)
                && (if i < commit then SaysLive(registry.trace[i])
                    else outcome.Completed? && Recorded(registry.trace[i], outcome.exit, e.finishedAt, session.ptyRead))
      ensures outcome.Completed? ==>
                WellFormed(Exit(outcome.exit)) && 0 < commit && Says(registry.trace[commit - 1], leaving.Some?)
      ensures leaving.Some? ==>
                && outcome.Completed? && old(active) != null
                && leaving.value == Leaving(old(active.id), old(active.story))
                && GivenTheRest(leaving.value, session.stories, last.ChildGone?, outcome.exit, e)
    {
      hide Valid, Grounded, Separate, Serving, Waiting, DrainOf, Flatten, Recorded, NameOf, R.Lookup, ExitOf, FinalOf,
        LastN, StopResult, Underway, Intact, SomebodyStopped, Untouched, Spoils, FaultlessEnd, Owned, SaysLive, Says,
        R.OnlyTouches, R.RecordUnchanged, GivenTheRest, Dismissed, Fed, Backlog, ChunksCost, Tidy;
      ghost var disk, stories, ids := registry.disk, session.stories, IdOf(active);
      leaving := None;
      if !last.Broken? {
        IntactIsUnderway(registry.disk, final, active != null);
        if active != null {
          BacklogIs();
          leaving := Some(Leaving(active.id, active.story));
        }
      }
      outcome := Finish(last, e);
      commit := if outcome.Completed? then final.value.commit else |registry.trace|;
      OwnedNow();
      OwnedShows(registry.trace, final, commit, outcome, e.finishedAt, session.ptyRead);
      if !outcome.Completed? {
        leaving := None;
        return;
      }
      SaysStill(disk, registry.trace[commit - 1], leaving.Some?);
      if leaving.Some? {
        UntouchedGrows(stories, session.stories, ids);
        RestIsGiven(leaving.value, stories, session.stories, last, e, outcome.exit);
      }
    }

    /** Tick `n` of a run that began with the history `before`, the connections `start` and the attachment `first`. */
    method Advance(script: seq<Tick>, n: nat, ghost before: Transcript.Session, ghost start: set<nat>,
                   ghost first: Option<Leaving>, ghost v: Tenure) returns (r: TickResult, ghost tenure: Tenure)
      requires Valid() && Intact(registry.disk, final, active != null) && !stopRequested && n < |script|
      requires Progress(before, session, start, script[..n]) && NoneRevived(Current(), start, |before.stories|)
      requires active != null ==>
                 Accounted(v, Leaving(active.id, active.story), first, before.ptyRead, script, n)
      modifies Repr
      ensures fresh(Repr - old(Repr)) && old(Repr) <= Repr
      ensures Progress(before, session, start, script[..n + 1])
      ensures r.Broken? ==> Grounded() && Breaks(script[n], r.error, Tidy())
      ensures !r.Broken? ==>
                && Valid() && Intact(registry.disk, final, active != null) && Passed(script[n])
                && NoneRevived(Current(), start, |before.stories|)
                && (active != null ==>
                      Accounted(tenure, Leaving(active.id, active.story), first, before.ptyRead, script, n + 1))
      ensures final == None
      ensures r.Continue? ==> !stopRequested && (Ample(script[n]) && active != null ==> AllOut(active.story))
      ensures r.ChildGone? ==> script[n].wait.Exited? && r.exit == ExitOf(script[n].wait.status)
      ensures r.StopNow? ==> stopRequested
      ensures r.Continue? || r.StopNow? ==> script[n].wait.StillRunning?
      // a peer that has gone is no longer attached and waits no longer; having nothing to say costs nobody a place
      ensures (r.Continue? || r.StopNow?) && script[n].poll.Polled? ==>
                var t, events := script[n], script[n].poll.events;
                && (old(active) != null && events.activeReady && Gone(t.activeRead) ==> active != old(active))
                && (old(active) != null && Calm(t) && ChunksCost(ChunksOf(t)) <= old(Room()) ==> active != null)
                && (old(candidate) != null && events.candidateReady && Gone(t.candidateRead) ==>
                      candidate == null && !r.StopNow?)
                && (old(candidate) != null && events.candidateReady && Blocked(t.candidateRead) ==>
                      candidate != null && !r.StopNow?)
    {
      hide HasSpoken, Silent, Gone, Blocked, Calm, Accounted, Turned, UpToDate, Wired, ChunksCost, Stays,
        CandidateTurn, Grounded, Separate, Serving, Waiting, Served, Tidy, Room, RoomIn, Fed, Backlog, Ample, AllOut,
        DrainOf, Flatten, ExitOf, PtyOf, Intact, Untouched, Progress, NoneRevived, Breaks, Passed, EncodeAll, Parse,
        StoryOk, BQ.FlushIf, Joining, HeardFirst, IdOf;
      ghost var s, current, previous, was, room := session, Current(), active, Attached(), Room();
      ghost var polled, input := Who(candidate), ptyInput.bytes;
      if active != null {
        BacklogIs();
        ActiveHasSpoken();
      }
      if candidate != null {
        CandidateIsSilent();
      }
      r := Iterate(script[n]);
      UntouchedGrows(s.stories, session.stories, current);
      if (r.Continue? || r.StopNow?) && script[n].poll.Polled? {
        PlacesMeant(s.stories, was, polled, input, room, script[n], active == null || active == previous, r.StopNow?);
      }
      ProgressStep(before, s, session, start, current, script, n);
      tenure := v;
      if !r.Broken? {
        RevivedStep(Current(), current, start, |before.stories|, |s.stories|);
        if active != null {
          tenure := GoesOn(v, was, active == previous, first, before.ptyRead, script, n, r.Continue?, room);
        }
      }
    }

    /**
      The event loop over any script of ticks. It is still running when the script is used up, it
      completed the session, or a call of its own failed. `steps` ticks were begun; `commit` is the
      first directory state with the completed record; `leaving` is the attachment, if there was one
      when the loop ended and the session was completed; `tenure` tells since when there is the last one.
     */
    method Run(script: seq<Tick>, e: Closing)
      returns (outcome: Outcome, steps: nat, drained: bool, ghost commit: nat, ghost leaving: Option<Leaving>,
               ghost tenure: Tenure)
      requires Valid() && Intact(registry.disk, final, active != null) && !stopRequested
      modifies Repr
      ensures Grounded() && steps <= |script|
      // a connection that has been dropped or replaced never does anything again
      ensures Untouched(old(session.stories), session.stories, old(Current()))
      // output: exactly what the ticks read, and what was left after the child had gone
      ensures session.ptyRead == old(session.ptyRead) + PtyOf(script[..steps])
                                 + (if drained then Flatten(DrainOf(e.ptyReads, 0).chunks) else [])
      ensures drained ==> ChildLeft(script, steps)
      ensures old(session.log) <= session.log && old(session.ptyWritten) <= session.ptyWritten
      // still running: the record on disk says whether there is an attachment
      ensures outcome.Running? ==>
                && steps == |script| && Valid() && Intact(registry.disk, final, active != null) && !stopRequested
                && R.ReadMetadata(registry.disk, id) ==
                   Ok(Some(R.Live(Hex(id), runnerPid, childPid, startedAt, active != null)))
                && (steps > 0 && Ample(script[steps - 1]) && active != null ==> AllOut(active.story))
      // completed: the child exited, or a peer asked to stop it, and the record says how it ended
      ensures outcome.Completed? ==>
                && Recorded(registry.disk, outcome.exit, e.finishedAt, session.ptyRead)
                && (if ChildLeft(script, steps) then drained && outcome.exit == ExitOf(script[steps - 1].wait.status)
                    else
                      && SomebodyStopped() && StopResult(e.stop).Ok?
                      && outcome.exit == ExitOf(StopResult(e.stop).value))
      // what is reported is how the child ended: with the code it exited with, or by a signal
      ensures outcome.Completed? && ChildLeft(script, steps) ==>
                var status := script[steps - 1].wait.status;
                && (status < 0x1_0000 && status % 0x100 == 0 ==> outcome.exit == Code(status / 0x100))
                && (status < 0x100 && 1 <= status % 0x80 < 0x7F ==> outcome.exit == Signal(status % 0x80))
      // the child had not exited before the last tick that was begun
      ensures forall i | 0 <= i < steps - 1 :: script[i].wait.StillRunning? && Passed(script[i])
      ensures outcome.Running? ==> forall i | 0 <= i < steps :: script[i].wait.StillRunning? && Passed(script[i])
      // aborted: a call of the runner's own failed, and this is its error
      ensures outcome.Aborted? ==>
                && outcome.error.Os? && steps > 0
                && (Breaks(script[steps - 1], outcome.error, Tidy()) || Spoils(e, drained, outcome.error, Tidy()))
      // so whatever peers send, and however their sockets fail, a run without such failures goes on or completes
      ensures Tidy() && (forall i | 0 <= i < steps :: Faultless(script[i])) && FaultlessEnd(e, drained) ==>
                !outcome.Aborted?
      // every directory state since the start shows a live record of this runner, or the completed one
      ensures past <= registry.trace && commit <= |registry.trace|
      ensures outcome.Completed? <==> commit < |registry.trace|
      ensures forall i | |past| - 1 <= i < |registry.trace| ::
                && R.OnlyTouches(origin, registry.trace[i], id)
                && (if i < commit then SaysLive(registry.trace[i])
                    else outcome.Completed? && Recorded(registry.trace[i], outcome.exit, e.finishedAt, session.ptyRead))
      // the attachment that the last live record tells of is given the rest of the output and the exit
      ensures outcome.Completed? ==>
                WellFormed(Exit(outcome.exit)) && 0 < commit && Says(registry.trace[commit - 1], leaving.Some?)
      ensures leaving.Some? ==>
                outcome.Completed? && GivenTheRest(leaving.value, session.stories, drained, outcome.exit, e)
      // the attachment there is, or that the session leaves, is what its ticks have made of it since it came
      ensures outcome.Running? && active != null ==>
                Accounted(tenure, Leaving(active.id, active.story), old(Attached()), old(session.ptyRead), script,
                    steps)
      ensures leaving.Some? ==>
                Accounted(tenure, leaving.value, old(Attached()), old(session.ptyRead), script, steps)
      ensures !outcome.Running? ==>
                R.Lookup(registry.disk, NameOf(id, SOCKET)) == None && R.Lookup(registry.disk, NameOf(id, LOCK)) == None
    {
      hide NEW_STORY, R.ReadMetadata, Hex, StoryOk, Silent, Parse, EncodeAll, Attached, Room, RoomIn, Accounted,
        Turned, UpToDate, Wired, ChunksCost, Stays, CandidateTurn, Says, GivenTheRest, Dismissed, Fed, Backlog, Ample,
        AllOut, Served, IdOf, ReprOf, Tidy, FaultlessEnd, R.OnlyTouches, Valid, Grounded, Separate, Serving, Waiting,
        DrainOf, Flatten, Recorded, NameOf, R.Lookup, ExitOf, PtyOf, FinalOf, StopResult, Underway, Intact,
        SomebodyStopped, Untouched, Progress, NoneRevived, Breaks, Spoils, Faultless, Passed, Owned, SaysLive;
      steps, drained := 0, false;
      ghost var before, start, first := session, Current(), Attached();
      ProgressStarts(before, start, script);
      KnownIds();
      tenure := Tenure(0, 0, NEW_STORY);
      if active != null {
        tenure := FirstTenure(script);
      }
      while steps < |script|
        invariant steps <= |script| && !drained
        invariant Valid() && Intact(registry.disk, final, active != null) && !stopRequested
        invariant fresh(Repr - old(Repr))
        invariant Progress(before, session, start, script[..steps]) && NoneRevived(Current(), start, |before.stories|)
        invariant steps > 0 && Ample(script[steps - 1]) && active != null ==> AllOut(active.story)
        invariant forall i | 0 <= i < steps :: script[i].wait.StillRunning? && Passed(script[i])
        invariant active != null ==>
                    Accounted(tenure, Leaving(active.id, active.story), first, before.ptyRead, script, steps)
      {
        ghost var current := Current();
        var r;
        r, tenure := Advance(script, steps, before, start, first, tenure);
        steps := steps + 1;
        if !r.Continue? {
          drained := r.ChildGone?;
          ghost var last, left := session, if r.Broken? then current else Current();
          ghost var ids := if r.Broken? then {} else IdOf(active);
          outcome, commit, leaving := End(r, e);
          if drained {
            ExitIs(script[steps - 1].wait.status);
          }
          ProgressEnds(before, last, session, start, ids, left, script[..steps],
              if drained then Flatten(DrainOf(e.ptyReads, 0).chunks) else []);
          if outcome.Aborted? {
            AbortHasCause(script, steps, e, drained, r, outcome.error);
          }
          return;
        }
      }
      NobodyTouched(session.stories, {});
      ProgressEnds(before, session, session, start, {}, Current(), script[..steps], []);
      commit := |registry.trace|;
      outcome, leaving := Running, None;
      ValidIsGrounded();
      IntactIsUnderway(registry.disk, final, active != null);
      SaysMeans(registry.disk, active != null);
      OwnedNow();
      OwnedShows(registry.trace, final, commit, outcome, e.finishedAt, session.ptyRead);
    }

    /** Giving up: the session files are dropped, which removes socket and lock. */
    method Abandon()
      requires Grounded() && final == None
      modifies registry
      ensures Grounded()
      ensures R.Lookup(registry.disk, NameOf(id, SOCKET)) == None && R.Lookup(registry.disk, NameOf(id, LOCK)) == None
    {
      hide AllOk, LogMatches, TypedLog, SizeAfter, AskedToStop, NameOf, Owned;
      ghost var before := registry.trace;
      registry.RemoveLiveFiles(id);
      CompletionWritten(before, registry.trace, Final(|registry.trace|, [], LiveMetadata(false)));
      R.AllNamesIsolated(id);
    }
  }
}
