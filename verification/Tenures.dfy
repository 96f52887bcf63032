/**
  What the ticks of a run make of one attachment, from the tick in which it came to the one in which it
  goes: its story as a function of what its socket and the PTY gave (src/runner.rs, lines 188-288).
 */
module Tenures {
  import opened Limits
  import opened Bytes
  import opened Io
  import opened Ipc
  import opened Transcript
  import opened Connection
  import opened Ticks
  import BQ = ByteQueue

  /** A connection that has been the attachment since before tick `since`, and its story at that time. */
  datatype Tenure = Tenure(id: nat, since: nat, story: Story)

  /** The output a tick reads. */
  function ChunksOf(t: Tick): seq<seq<Byte>> {
    DrainOf(t.ptyReads, 0).chunks
  }

  /**
    What a tick makes of the story of an attachment that keeps its place: the output read is queued
    first; if the tick polls, what the socket takes is written, what it gives is read and takes effect.
   */
  ghost function Turned(c: Story, t: Tick): Story {
    var fed := Fed(c, ChunksOf(t));
    if !t.wait.StillRunning? || !t.poll.Polled? then fed else
    var events := t.poll.events;
    var f := BQ.FlushIf(events.activeWritable, Backlog(fed), t.activeWrites);
    var received :=
      c.received + (if events.activeReady then Delivered(t.activeRead, CapacityAfter(c.received)) else []);
    fed.(wire := c.wire + Backlog(fed)[..f.count], received := received, applied := Parse(received).records)
  }

  /** Whether the attachment keeps its place: its queue, `room` long, the PTY with its `input`, and its own turn. */
  ghost predicate KeepsPlace(c: Story, c': Story, input: seq<Byte>, room: int, t: Tick) {
    && ChunksCost(ChunksOf(t)) <= room
    && (t.poll.Polled? ==>
          && BQ.FlushIf(t.poll.events.ptyWritable, input, t.ptyWrites).status.Done?
          && Stays(Fed(c, ChunksOf(t)), c', t, t.poll.events))
  }

  /** An attachment that has gone loses its place; room, sockets that take what they are given and patience keep it. */
  lemma KeepsPlaceMeans(c: Story, c': Story, input: seq<Byte>, room: int, t: Tick)
    requires Parse(c.received).error == None
    ensures t.poll.Polled? && t.poll.events.activeReady && Gone(t.activeRead) ==> !KeepsPlace(c, c', input, room, t)
    ensures ChunksCost(ChunksOf(t)) <= room && (t.poll.Polled? ==> Undisturbed(c, c', input, t)) ==>
              KeepsPlace(c, c', input, room, t)
  {
    hide Stays, Served, Parse, BQ.FlushIf, ChunksCost, DrainOf;
    if t.poll.Polled? {
      StaysMeans(Fed(c, ChunksOf(t)), c', t, t.poll.events);
      if t.poll.events.ptyWritable ==> Ticks.Writable(t.ptyWrites) {
        WritableFlushes(t.poll.events.ptyWritable, input, t.ptyWrites);
      }
    }
  }

  /** Nothing is wrong with the sockets in a tick, and the attachment says nothing. */
  predicate Calm(t: Tick)
    requires t.poll.Polled?
  {
    && (t.poll.events.ptyWritable ==> Ticks.Writable(t.ptyWrites))
    && (t.poll.events.activeWritable ==> Ticks.Writable(t.activeWrites))
    && (t.poll.events.activeReady ==> Blocked(t.activeRead))
  }

  /** An attachment that has said everything and been served in such a tick. */
  ghost predicate Undisturbed(c: Story, c': Story, input: seq<Byte>, t: Tick)
    requires t.poll.Polled?
  {
    && Calm(t) && Served(Fed(c, ChunksOf(t)), c', t, t.poll.events)
    && c.applied == Parse(c.received).records && c'.applied <= Parse(c'.received).records
  }

  ghost function TurnedAll(c: Story, ticks: seq<Tick>): Story {
    if ticks == [] then c else Turned(TurnedAll(c, ticks[..|ticks| - 1]), ticks[|ticks| - 1])
  }

  /** After `n` ticks the attachment is the one of the tenure, with the story that its ticks have made. */
  ghost predicate Held(v: Tenure, l: Leaving, script: seq<Tick>, n: nat) {
    v.since <= n <= |script| && l == Leaving(v.id, TurnedAll(v.story, script[v.since..n]))
  }

  /** A tenure began with the run, or with a story of which nothing was written yet and which lacked nothing. */
  ghost predicate Begun(v: Tenure, first: Option<Leaving>, pty: seq<Byte>, script: seq<Tick>)
    requires v.since <= |script|
  {
    if v.since == 0 then first == Some(Leaving(v.id, v.story))
    else v.story.wire == [] && UpToDate(v.story, pty + PtyOf(script[..v.since]))
  }

  /** The attachment after `n` ticks is accounted for from its beginning; `first` and `pty` are those of the run. */
  ghost predicate Accounted(v: Tenure, l: Leaving, first: Option<Leaving>, pty: seq<Byte>, script: seq<Tick>, n: nat) {
    Held(v, l, script, n) && Begun(v, first, pty, script)
  }

  lemma TenureStarts(l: Leaving, script: seq<Tick>, pty: seq<Byte>)
    ensures Accounted(Tenure(l.id, 0, l.story), l, Some(l), pty, script, 0)
  {
  }

  /** A tick keeps the account: the attachment keeps its place, or another one begins. */
  lemma TenureStep(v: Tenure, before: Option<Leaving>, l: Leaving, kept: bool, first: Option<Leaving>, pty: seq<Byte>,
                   script: seq<Tick>, n: nat) returns (v': Tenure)
    requires n < |script|
    requires before.Some? ==> Accounted(v, before.value, first, pty, script, n)
    requires if kept then before.Some? && l == Leaving(before.value.id, Turned(before.value.story, script[n]))
             else l.story.wire == [] && UpToDate(l.story, pty + PtyOf(script[..n + 1]))
    ensures Accounted(v', l, first, pty, script, n + 1)
  {
    hide Turned, PtyOf, UpToDate;
    if kept {
      v' := v;
      var ticks := script[v.since..n + 1];
      assert ticks[..|ticks| - 1] == script[v.since..n];
    } else {
      v' := Tenure(l.id, n + 1, l.story);
    }
  }

  lemma TurnedUnpolled(c: Story, t: Tick)
    ensures !t.wait.StillRunning? || !t.poll.Polled? ==> Turned(c, t) == Fed(c, ChunksOf(t))
  {
  }

  /** An attachment that has been served and stays is as its tick makes it. */
  lemma ServedIsTurned(c: Story, c': Story, t: Tick, pty: seq<Byte>)
    requires t.wait.StillRunning? && t.poll.Polled?
    requires Served(Fed(c, ChunksOf(t)), c', t, t.poll.events) && UpToDate(c', pty)
    requires BQ.FlushIf(t.poll.events.activeWritable, Backlog(Fed(c, ChunksOf(t))), t.activeWrites).status.Done?
    ensures c' == Turned(c, t)
  {
    hide BQ.FlushIf, Backlog, Parse, DrainOf, CapacityAfter;
  }

  // ---------------------------------------------------------------- what it has been given

  lemma {:induction false} DrainedRecords(results: seq<ReadResult>, processed: nat)
    ensures var d := DrainOf(results, processed);
            && AllWellFormed(RecordsOf(d.chunks)) && |EncodeAll(RecordsOf(d.chunks))| == ChunksCost(d.chunks)
            && Printed(RecordsOf(d.chunks)) == Flatten(d.chunks)
    decreases |results|
  {
    if results == [] || processed >= MAX_PTY_BYTES_PER_TICK || StepOf(results[0]).Enough? {
    } else {
      var next := DrainOf(results[1..], processed + StepOf(results[0]).count);
      var chunk := ChunkOf(results[0]);
      DrainedRecords(results[1..], processed + StepOf(results[0]).count);
      DrainStep(results, processed);
      RecordIs(chunk);
      EncodeAllAppend(RecordOf(chunk), RecordsOf(next.chunks));
      PrintedConcat(RecordOf(chunk), RecordsOf(next.chunks));
    }
  }

  lemma RecordIs(chunk: seq<Byte>)
    requires |chunk| <= MAX_IPC_PAYLOAD_BYTES
    ensures AllWellFormed(RecordOf(chunk)) && |EncodeAll(RecordOf(chunk))| == CostOf(chunk)
    ensures Printed(RecordOf(chunk)) == chunk
  {
  }

  /** Queueing the output of a drain leaves a queue that still holds what was queued and not written. */
  lemma FedIsWired(c: Story, results: seq<ReadResult>)
    requires Wired(c, Backlog(c))
    ensures var chunks := DrainOf(results, 0).chunks;
            var c' := Fed(c, chunks);
            Wired(c', Backlog(c')) && |Backlog(c')| == |Backlog(c)| + ChunksCost(chunks)
  {
    hide Backlog, DrainOf, ChunksCost, RecordsOf, EncodeAll;
    var rs := RecordsOf(DrainOf(results, 0).chunks);
    DrainedRecords(results, 0);
    EncodeAllAppend(c.sent, rs);
    var c' := Fed(c, DrainOf(results, 0).chunks);
    assert c.wire + (Backlog(c) + EncodeAll(rs)) == EncodeAll(c'.sent);
    WiredBacklog(c', Backlog(c) + EncodeAll(rs));
  }

  /** In a tick in which the socket takes everything, everything due so far goes out. */
  lemma AmpleTurns(c: Story, t: Tick)
    requires Ample(t) && t.wait.StillRunning? && Wired(c, Backlog(c))
    requires |Backlog(c)| + ChunksCost(ChunksOf(t)) <= MAX_ATTACHMENT_QUEUE_BYTES
    ensures AllOut(Turned(c, t))
  {
    hide Ample, EncodeAll, BQ.FlushIf, BQ.FlushOutcome, Backlog, ChunksCost, DrainOf, Parse;
    FedIsWired(c, t.ptyReads);
    var fed := Fed(c, ChunksOf(t));
    assert fed.wire <= EncodeAll(fed.sent);
    AmpleGoesOut(t, Backlog(fed));
    assert fed.wire + Backlog(fed) == EncodeAll(fed.sent);
    assert Backlog(fed)[..|Backlog(fed)|] == Backlog(fed);
  }

  lemma AmpleGoesOut(t: Tick, queued: seq<Byte>)
    requires Ample(t) && |queued| <= MAX_ATTACHMENT_QUEUE_BYTES
    ensures BQ.FlushIf(t.poll.events.activeWritable, queued, t.activeWrites).count == |queued|
  {
    BQ.FlushCompletes(queued, t.activeWrites);
  }

  /** What one tick gives. */
  lemma TurnGives(c: Story, t: Tick)
    requires c.applied == Parse(c.received).records
    ensures var c' := Turned(c, t);
            && Printed(c'.sent) == Printed(c.sent) + Flatten(ChunksOf(t))
            && c.sent <= c'.sent && c.wire <= c'.wire && c.received <= c'.received && c.applied <= c'.applied
            && c'.applied == Parse(c'.received).records && c'.attachedAt == c.attachedAt
  {
    hide Parse, DrainOf, Printed, Flatten, BQ.FlushIf, RecordsOf, Backlog, CapacityAfter;
    DrainedRecords(t.ptyReads, 0);
    PrintedConcat(c.sent, RecordsOf(ChunksOf(t)));
    ReceivedMore(c.received, Turned(c, t).received[|c.received|..]);
  }

  /**
    An attachment that keeps its place is given all the output of its ticks and nothing else, nothing it
    was sent or has sent is taken back, and every whole record of it takes effect when it is read.
   */
  lemma {:induction false} TenureGivesAll(c: Story, ticks: seq<Tick>)
    requires c.applied == Parse(c.received).records
    ensures var c' := TurnedAll(c, ticks);
            && Printed(c'.sent) == Printed(c.sent) + PtyOf(ticks)
            && c.sent <= c'.sent && c.wire <= c'.wire && c.received <= c'.received && c.applied <= c'.applied
            && c'.applied == Parse(c'.received).records && c'.attachedAt == c.attachedAt
  {
    hide Parse, DrainOf, Printed, Flatten, Turned;
    if ticks == [] {
    } else {
      TenureGivesAll(c, ticks[..|ticks| - 1]);
      TurnGives(TurnedAll(c, ticks[..|ticks| - 1]), ticks[|ticks| - 1]);
    }
  }
}
