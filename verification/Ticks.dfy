/**
  What a tick of the runner's event loop gets from its environment, and what each part of the loop
  body comes to on values (src/runner.rs, lines 188-420 and 499-517).
 */
module Ticks {
  import opened Limits
  import opened Bytes
  import opened Io
  import opened Ipc
  import opened Transcript
  import opened Connection
  import R = Registry
  import BQ = ByteQueue

  // ---------------------------------------------------------------- the environment of one tick

  /** Which of the polled events occurred; `...Ready` stands for input, hang-up or error. */
  datatype Events = Events(ptyWritable: bool, activeWritable: bool, activeReady: bool, accepting: bool,
      candidateReady: bool)

  datatype PollResult = Polled(events: Events) | PollInterrupted | PollFailed(kind: Kind)

  datatype WaitResult = StillRunning | Exited(status: nat) | WaitFailed(kind: Kind)

  datatype AcceptResult = Accept | AcceptForeign | AcceptFailed(kind: Kind)

  /** The resize call of a batch that fails, counted from zero. */
  datatype ResizeFault = ResizeFault(call: nat, kind: Kind)

  datatype Tick = Tick(
    ptyReads: seq<ReadResult>, overflowWrite: R.AtomicEnv,
    wait: WaitResult, poll: PollResult,
    ptyWrites: seq<WriteResult>,
    activeWrites: seq<WriteResult>, activeRead: ReadResult, activeResize: Option<ResizeFault>, detachWrite: R.AtomicEnv,
    accepts: seq<AcceptResult>,
    candidateRead: ReadResult, candidateResize: Option<ResizeFault>, attachWrite: R.AtomicEnv)

  /**
    Stopping the child: the check before the first signal, the signal, the checks during the
    grace period, the check after it, the last signal, and the final wait.
   */
  datatype StopEnv = StopEnv(
    first: WaitResult, termFault: Option<Kind>, grace: seq<WaitResult>,
    last: WaitResult, killFault: Option<Kind>, finalStatus: nat, finalFault: Option<Kind>)

  datatype StopSignal = Term | Kill

  /** How a finished session is wound up. */
  datatype Closing = Closing(
    ptyReads: seq<ReadResult>, stop: StopEnv, finishedAt: nat,
    outputWrite: R.AtomicEnv, metadataWrite: R.AtomicEnv,
    firstFlush: seq<WriteResult>, lastFlush: seq<WriteResult>)

  datatype TickResult = Continue | ChildGone(exit: ProcessExit) | StopNow | Broken(error: IoError)

  /** The completed record, its output, and the first directory state that shows them. */
  datatype Final = Final(commit: nat, output: seq<Byte>, record: R.SessionMetadata)

  datatype Outcome = Running | Completed(exit: ProcessExit) | Aborted(error: IoError)

  /** The exit status that `waitpid` encodes: the exit code, or the signal that ended the process. */
  function ExitOf(status: nat): (e: ProcessExit)
    ensures WellFormed(Exit(e))
  {
    if status % 0x80 == 0 then Code(status / 0x100 % 0x100)
    else if status % 0x80 < 0x7F then Signal(status % 0x80)
    else Code(1)
  }

  /** An exit status in the second byte, or a signal in the first, with or without a core dump. */
  lemma ExitIs(status: nat)
    ensures status < 0x1_0000 && status % 0x100 == 0 ==> ExitOf(status) == Code(status / 0x100)
    ensures status < 0x100 && 1 <= status % 0x80 < 0x7F ==> ExitOf(status) == Signal(status % 0x80)
    ensures status < 0x1_0000 && status % 0x100 == 0x7F ==> ExitOf(status) == Code(1)
  {
  }

  // ---------------------------------------------------------------- stopping the child

  /** The first check that did not find the child running. */
  function FirstSettled(checks: seq<WaitResult>): WaitResult {
    if checks == [] then StillRunning else if checks[0].StillRunning? then FirstSettled(checks[1..]) else checks[0]
  }

  /** What a check settles: the status of the child, or that checking failed. */
  function Settled(w: WaitResult): IoResult<nat>
    requires !w.StillRunning?
  {
    match w case Exited(status) => Ok(status) case WaitFailed(kind) => Err(Os(kind))
  }

  /** `r` is what the check `w` settles. */
  predicate Settles(w: WaitResult, r: IoResult<nat>) {
    (w.Exited? ==> r == Ok(w.status)) && (w.WaitFailed? ==> r == Err(Os(w.kind)))
  }

  function StopResult(e: StopEnv): IoResult<nat> {
    if !e.first.StillRunning? then Settled(e.first)
    else if e.termFault.Some? then Err(Os(e.termFault.value))
    else if !FirstSettled(e.grace).StillRunning? then Settled(FirstSettled(e.grace))
    else if !e.last.StillRunning? then Settled(e.last)
    else if e.killFault.Some? then Err(Os(e.killFault.value))
    else if e.finalFault.Some? then Err(Os(e.finalFault.value))
    else Ok(e.finalStatus)
  }

  /**
    The child is asked to end, given its time, and killed only if every check has found it
    running: once its status has been collected no signal is sent to its process ID any more.
   */
  method StopChild(e: StopEnv) returns (r: IoResult<nat>, signals: seq<StopSignal>)
    ensures r == StopResult(e)
    ensures signals == [] || signals == [Term] || signals == [Term, Kill]
    ensures Term in signals <==> e.first.StillRunning? && e.termFault == None
    ensures Kill in signals <==>
              Term in signals && FirstSettled(e.grace).StillRunning? && e.last.StillRunning? && e.killFault == None
    // the first check that settles anything decides
    ensures !e.first.StillRunning? ==> signals == [] && Settles(e.first, r)
    ensures e.first.StillRunning? && e.termFault.Some? ==> signals == [] && r == Err(Os(e.termFault.value))
    ensures e.first.StillRunning? && e.termFault == None ==>
              forall i | 0 <= i < |e.grace| && !e.grace[i].StillRunning?
                         && forall j | 0 <= j < i :: e.grace[j].StillRunning? ::
                signals == [Term] && Settles(e.grace[i], r)
    ensures e.first.StillRunning? && e.termFault == None
            && (forall i | 0 <= i < |e.grace| :: e.grace[i].StillRunning?) ==>
              if !e.last.StillRunning? then signals == [Term] && Settles(e.last, r)
              else if e.killFault.Some? then signals == [Term] && r == Err(Os(e.killFault.value))
              else signals == [Term, Kill]
                   && r == (if e.finalFault.Some? then Err(Os(e.finalFault.value)) else Ok(e.finalStatus))
  {
    signals := [];
    if !e.first.StillRunning? {
      return Settled(e.first), signals;
    }
    if e.termFault.Some? {
      return Err(Os(e.termFault.value)), signals;
    }
    signals := [Term];
    var i := 0;
    assert e.grace[0..] == e.grace;
    while i < |e.grace|
      invariant i <= |e.grace| && FirstSettled(e.grace) == FirstSettled(e.grace[i..])
      invariant forall j | 0 <= j < i :: e.grace[j].StillRunning?
    {
      DropStep(e.grace, i);
      if !e.grace[i].StillRunning? {
        return Settled(e.grace[i]), signals;
      }
      i := i + 1;
    }
    if e.last.WaitFailed? {
      return Settled(e.last), signals;
    }
    if e.last.StillRunning? {
      if e.killFault.Some? {
        return Err(Os(e.killFault.value)), signals;
      }
      signals := signals + [Kill];
      if e.finalFault.Some? {
        return Err(Os(e.finalFault.value)), signals;
      }
      return Ok(e.finalStatus), signals;
    }
    // The status was collected by the last check; waiting again only repeats it.
    return Settled(e.last), signals;
  }

  // ---------------------------------------------------------------- what a drain reads

  datatype Drain = Drain(chunks: seq<seq<Byte>>, status: Status)

  /** What one read delivers. */
  function ChunkOf(result: ReadResult): seq<Byte> {
    match result case Data(offered) => Take(offered, IO_CHUNK_BYTES) case _ => []
  }

  /** Whether a drain reads on after a read: `count` bytes more were processed, or it ends. */
  datatype ReadStep = GoOn(count: nat) | Enough(status: Status)

  function StepOf(result: ReadResult): ReadStep {
    match result
    case Data(offered) => if ChunkOf(result) == [] then Enough(Done) else GoOn(|ChunkOf(result)|)
    case ReadInterrupted => GoOn(0)
    case ReadFailed(kind) => Enough(Failed(Os(kind)))
    case _ => Enough(Done)
  }

  /** The reads of one drain, `processed` bytes of the tick's share being used up already. */
  function DrainOf(results: seq<ReadResult>, processed: nat): Drain {
    if results == [] || processed >= MAX_PTY_BYTES_PER_TICK then Drain([], Done) else
    match StepOf(results[0])
    case Enough(status) => Drain([], status)
    case GoOn(count) =>
      var d := DrainOf(results[1..], processed + count);
      if count == 0 then d else d.(chunks := [ChunkOf(results[0])] + d.chunks)
  }

  /** The queue room the chunks of a drain take. */
  function ChunksCost(chunks: seq<seq<Byte>>): nat {
    if chunks == [] then 0 else CostOf(chunks[0]) + ChunksCost(chunks[1..])
  }

  /** How much more fits into an attachment's queue. */
  function RoomIn(queued: seq<Byte>): int {
    MAX_ATTACHMENT_QUEUE_BYTES - |queued|
  }

  /** What is left of `room` after queueing something of size `cost`; -1 once it did not fit. */
  function Reduced(room: int, cost: nat): int {
    if room >= cost then room - cost else -1
  }

  lemma ReducedTwice(room: int, a: nat, b: nat)
    requires room >= -1
    ensures Reduced(Reduced(room, a), b) == Reduced(room, a + b)
    ensures Reduced(room, 0) == room
  {
  }

  /** One chunk of at most a read buffer is one record. */
  function CostOf(chunk: seq<Byte>): nat {
    if chunk == [] then 0 else |chunk| + IPC_HEADER_BYTES
  }

  /** The record that carries a chunk. */
  function RecordOf(chunk: seq<Byte>): (rs: seq<Record>)
    ensures forall i | 0 <= i < |rs| :: rs[i].Output?
  {
    if chunk == [] then [] else [Output(chunk)]
  }

  /** The records that carry the chunks of a drain. */
  function RecordsOf(chunks: seq<seq<Byte>>): (rs: seq<Record>)
    ensures forall i | 0 <= i < |rs| :: rs[i].Output?
  {
    if chunks == [] then [] else RecordOf(chunks[0]) + RecordsOf(chunks[1..])
  }

  /** The story of an attachment once the output of a drain has been queued for it. */
  function Fed(c: Story, chunks: seq<seq<Byte>>): Story {
    c.(sent := c.sent + RecordsOf(chunks))
  }

  lemma FedNothing(c: Story)
    ensures Fed(c, []) == c && ChunksCost([]) == 0
  {
    assert c.sent + [] == c.sent;
  }

  /** How a drain goes on from its next read. */
  lemma DrainStep(results: seq<ReadResult>, processed: nat)
    requires results != [] && processed < MAX_PTY_BYTES_PER_TICK
    ensures var d, step, chunk := DrainOf(results, processed), StepOf(results[0]), ChunkOf(results[0]);
            if step.Enough? then d == Drain([], step.status) && chunk == [] else
            var next := DrainOf(results[1..], processed + step.count);
            && step.count == |chunk|
            && d.status == next.status
            && Flatten(d.chunks) == chunk + Flatten(next.chunks)
            && ChunksCost(d.chunks) == CostOf(chunk) + ChunksCost(next.chunks)
            && RecordsOf(d.chunks) == RecordOf(chunk) + RecordsOf(next.chunks)
    ensures Flatten([]) == [] && ChunksCost([]) == 0 && RecordsOf([]) == []
  {
    var step, chunk := StepOf(results[0]), ChunkOf(results[0]);
    if step.GoOn? {
      var next := DrainOf(results[1..], processed + step.count);
      assert ([chunk] + next.chunks)[1..] == next.chunks;
      assert chunk == [] ==> chunk + Flatten(next.chunks) == Flatten(next.chunks);
      assert chunk == [] ==> RecordOf(chunk) + RecordsOf(next.chunks) == RecordsOf(next.chunks);
    }
  }

  /** Up to read `i` a drain has taken `taken`, in the records `said`, which cost `cost`; then comes the rest of it. */
  ghost predicate DrainedSoFar(results: seq<ReadResult>, i: nat, processed: nat, taken: seq<Byte>, said: seq<Record>,
                               cost: nat)
    requires i <= |results|
  {
    var all, d := DrainOf(results, 0), DrainOf(results[i..], processed);
    && all.status == d.status && Flatten(all.chunks) == taken + Flatten(d.chunks)
    && RecordsOf(all.chunks) == said + RecordsOf(d.chunks) && ChunksCost(all.chunks) == cost + ChunksCost(d.chunks)
  }

  /** The drain is over with what has been taken. */
  ghost predicate DrainedAll(results: seq<ReadResult>, status: Status, taken: seq<Byte>, said: seq<Record>, cost: nat) {
    var all := DrainOf(results, 0);
    && all.status == status && Flatten(all.chunks) == taken
    && RecordsOf(all.chunks) == said && ChunksCost(all.chunks) == cost
  }

  lemma DrainedStarts(results: seq<ReadResult>)
    ensures DrainedSoFar(results, 0, 0, [], [], 0)
  {
    assert results[0..] == results;
  }

  lemma DrainedStep(results: seq<ReadResult>, i: nat, processed: nat, taken: seq<Byte>, said: seq<Record>, cost: nat)
    requires i < |results| && processed < MAX_PTY_BYTES_PER_TICK
    requires DrainedSoFar(results, i, processed, taken, said, cost)
    ensures var step, chunk := StepOf(results[i]), ChunkOf(results[i]);
            match step
            case Enough(status) =>
              && DrainedAll(results, status, taken, said, cost)
              && chunk == [] && RecordOf(chunk) == [] && CostOf(chunk) == 0
            case GoOn(count) =>
              DrainedSoFar(results, i + 1, processed + count, taken + chunk, said + RecordOf(chunk),
                  cost + CostOf(chunk))
  {
    hide DrainOf, Flatten, ChunksCost, RecordsOf;
    DropStep(results, i);
    DrainStep(results[i..], processed);
    var chunk := ChunkOf(results[i]);
    var next := DrainOf(results[i + 1..], processed + |chunk|);
    assert taken + [] == taken && said + [] == said;
    assert taken + chunk + Flatten(next.chunks) == taken + (chunk + Flatten(next.chunks));
    assert said + RecordOf(chunk) + RecordsOf(next.chunks) == said + (RecordOf(chunk) + RecordsOf(next.chunks));
  }

  lemma DrainedEnds(results: seq<ReadResult>, i: nat, processed: nat, taken: seq<Byte>, said: seq<Record>, cost: nat)
    requires i <= |results| && (i == |results| || processed >= MAX_PTY_BYTES_PER_TICK)
    requires DrainedSoFar(results, i, processed, taken, said, cost)
    ensures DrainedAll(results, Done, taken, said, cost)
  {
    assert taken + [] == taken && said + [] == said;
  }

  /** A read after which a drain reads on: it was interrupted, or there was some output. */
  predicate ReadsOn(r: ReadResult) {
    r.ReadInterrupted? || (r.Data? && r.offered != [])
  }

  /** All output that these reads deliver into a buffer of 16384 bytes. */
  function GivenBy(results: seq<ReadResult>): seq<Byte> {
    if results == [] then [] else
    GivenBy(results[..|results| - 1])
    + (match results[|results| - 1] case Data(bytes) => Take(bytes, 0x4000) case _ => [])
  }

  /**
    How a drain goes: it takes what the first `k` reads give, and ends there because nothing more is to be
    had for now, because the tick's share is used up, or because the read failed.
   */
  predicate DrainedTo(results: seq<ReadResult>, k: nat, status: Status, taken: seq<Byte>)
    requires k <= |results|
  {
    && taken == GivenBy(results[..k]) && (forall i | 0 <= i < k :: ReadsOn(results[i]))
    && (k > 0 ==> |GivenBy(results[..k - 1])| < MAX_PTY_BYTES_PER_TICK)
    && match status
       case Done =>
         || k == |results| || |taken| >= MAX_PTY_BYTES_PER_TICK
         || results[k] == Data([]) || results[k].ReadWouldBlock? || results[k].ReadEio?
       case Failed(e) => k < |results| && results[k].ReadFailed? && e == Os(results[k].kind)
  }

  /** A drain takes everything up to its end, and only a failing read fails it. */
  lemma DrainTakes(results: seq<ReadResult>) returns (k: nat)
    ensures k <= |results| && DrainedTo(results, k, DrainOf(results, 0).status, Flatten(DrainOf(results, 0).chunks))
    ensures (forall i | 0 <= i < |results| :: !results[i].ReadFailed?) ==> DrainOf(results, 0).status.Done?
  {
    hide DrainOf, Flatten;
    k := 0;
    ghost var said, cost: nat := [], 0;
    DrainedStarts(results);
    while k < |results| && |GivenBy(results[..k])| < MAX_PTY_BYTES_PER_TICK && ReadsOn(results[k])
      invariant k <= |results| && forall i | 0 <= i < k :: ReadsOn(results[i])
      invariant k > 0 ==> |GivenBy(results[..k - 1])| < MAX_PTY_BYTES_PER_TICK
      invariant DrainedSoFar(results, k, |GivenBy(results[..k])|, GivenBy(results[..k]), said, cost)
    {
      DrainedStep(results, k, |GivenBy(results[..k])|, GivenBy(results[..k]), said, cost);
      assert results[..k + 1][..k] == results[..k];
      said, cost := said + RecordOf(ChunkOf(results[k])), cost + CostOf(ChunkOf(results[k]));
      k := k + 1;
    }
    var taken := GivenBy(results[..k]);
    if k < |results| && |taken| < MAX_PTY_BYTES_PER_TICK {
      DrainedStep(results, k, |taken|, taken, said, cost);
    } else {
      DrainedEnds(results, k, |taken|, taken, said, cost);
    }
  }

  /** Nothing took effect, no input reached the PTY, and nobody joined. */
  ghost predicate SameInput(s: Transcript.Session, before: Transcript.Session) {
    s.log == before.log && s.ptyWritten == before.ptyWritten && |s.stories| == |before.stories|
  }

  /** `r` is the one record that took effect, and `c` became `c'` by it. */
  ghost predicate Enacted(before: Transcript.Session, after: Transcript.Session, id: nat, c: Story, c': Story,
      r: Record) {
    && id < |before.stories|
    && c' == c.(applied := c.applied + [r])
    && after == before.(stories := before.stories[id := c'], log := before.log + [Effect(id, r)])
  }

  /** How accepting ends: when nobody is waiting any more, or with the first failing call. */
  function AcceptsEnd(accepts: seq<AcceptResult>): Status {
    if accepts == [] then Done else
    match accepts[0] case AcceptFailed(kind) => Failed(Os(kind)) case _ => AcceptsEnd(accepts[1..])
  }

  /** How many peers are let in before that. */
  function Joining(accepts: seq<AcceptResult>): nat {
    if accepts == [] then 0 else
    match accepts[0] case AcceptFailed(_) => 0 case Accept => 1 + Joining(accepts[1..])
        case AcceptForeign => Joining(accepts[1..])
  }

  /** Accepting fails with the first failing call; exactly the peers of the same user before that are let in. */
  lemma {:induction false} AcceptingIs(accepts: seq<AcceptResult>, k: nat)
    requires k <= |accepts| && (forall i | 0 <= i < k :: !accepts[i].AcceptFailed?)
    requires k < |accepts| ==> accepts[k].AcceptFailed?
    ensures AcceptsEnd(accepts) == if k == |accepts| then Done else Failed(Os(accepts[k].kind))
    ensures Joining(accepts) == multiset(accepts[..k])[Accept]
  {
    if k > 0 {
      AcceptingIs(accepts[1..], k - 1);
      assert accepts[..k] == [accepts[0]] + accepts[1..][..k - 1];
    }
  }

  // ---------------------------------------------------------------- what can end a run

  /** Rewriting the runner's record fails with `e`; in a `tidy` directory nothing is in its way. */
  predicate WriteFails(env: R.AtomicEnv, e: IoError, tidy: bool) {
    || (env.failure.Some? && e == Os(env.failure.value.1))
    || (!tidy && e == Os(AlreadyExists))
  }

  predicate ResizeFails(fault: Option<ResizeFault>, e: IoError) {
    fault.Some? && e == Os(fault.value.kind)
  }

  /** A call of the runner's own, made for the parts that have their turn after a poll, fails with `e`. */
  predicate TurnBreaks(t: Tick, events: Events, e: IoError, tidy: bool) {
    || ResizeFails(t.activeResize, e) || WriteFails(t.detachWrite, e, tidy)
    || (events.accepting && AcceptsEnd(t.accepts) == Failed(e))
    || ResizeFails(t.candidateResize, e) || WriteFails(t.attachWrite, e, tidy)
  }

  /** A call of the runner's own fails with `e` in this tick. What peers send or accept does not occur here. */
  predicate Breaks(t: Tick, e: IoError, tidy: bool) {
    || DrainOf(t.ptyReads, 0).status == Failed(e) || WriteFails(t.overflowWrite, e, tidy)
    || (t.wait.WaitFailed? && e == Os(t.wait.kind))
    || (t.poll.PollFailed? && e == Os(t.poll.kind))
    || (t.poll.Polled? && TurnBreaks(t, t.poll.events, e, tidy))
  }

  /** No call of the runner's own fails in this tick. */
  predicate Faultless(t: Tick) {
    && (forall i | 0 <= i < |t.ptyReads| :: !t.ptyReads[i].ReadFailed?) && t.overflowWrite.failure == None
    && !t.wait.WaitFailed? && !t.poll.PollFailed?
    && t.activeResize == None && t.detachWrite.failure == None
    && (forall i | 0 <= i < |t.accepts| :: !t.accepts[i].AcceptFailed?)
    && t.candidateResize == None && t.attachWrite.failure == None
  }

  lemma FaultlessGoesOn(t: Tick, e: IoError)
    requires Faultless(t)
    ensures !Breaks(t, e, true)
  {
    hide DrainOf;
    var k := DrainTakes(t.ptyReads);
    AcceptingIs(t.accepts, |t.accepts|);
  }

  /** The calls that a tick cannot do without, as far as it got, have succeeded. */
  predicate Passed(t: Tick) {
    && DrainOf(t.ptyReads, 0).status.Done? && !t.wait.WaitFailed?
    && (t.wait.StillRunning? ==>
          !t.poll.PollFailed? && (t.poll.Polled? && t.poll.events.accepting ==> AcceptsEnd(t.accepts).Done?))
  }

  /** Which calls these are. */
  lemma PassedIs(t: Tick)
    ensures Passed(t) && t.wait.StillRunning? ==>
              !t.poll.PollFailed? && (t.poll.Polled? && t.poll.events.accepting ==>
                                        forall i | 0 <= i < |t.accepts| :: !t.accepts[i].AcceptFailed?)
    ensures Passed(t) ==> !t.wait.WaitFailed?
    ensures Passed(t) && |GivenBy(t.ptyReads)| < MAX_PTY_BYTES_PER_TICK && t.ptyReads != []
            && (forall i | 0 <= i < |t.ptyReads| - 1 :: ReadsOn(t.ptyReads[i])) ==>
              !t.ptyReads[|t.ptyReads| - 1].ReadFailed?
  {
    hide DrainOf;
    var k := DrainTakes(t.ptyReads);
    if k < |t.ptyReads| {
      GivenGrows(t.ptyReads, k);
    }
    if exists i | 0 <= i < |t.accepts| :: t.accepts[i].AcceptFailed? {
      var j := 0;
      while !t.accepts[j].AcceptFailed?
        invariant j < |t.accepts| && forall i | 0 <= i < j :: !t.accepts[i].AcceptFailed?
        invariant exists i | j <= i < |t.accepts| :: t.accepts[i].AcceptFailed?
        decreases |t.accepts| - j
      {
        j := j + 1;
      }
      AcceptingIs(t.accepts, j);
    }
  }

  lemma {:induction false} GivenGrows(results: seq<ReadResult>, k: nat)
    requires k <= |results|
    ensures |GivenBy(results[..k])| <= |GivenBy(results)|
    decreases |results| - k
  {
    if k < |results| {
      assert results[..k + 1][..k] == results[..k];
      GivenGrows(results, k + 1);
    } else {
      assert results[..k] == results;
    }
  }

  /** A call of the runner's own fails with `e` while the session is wound up. */
  predicate Spoils(c: Closing, childGone: bool, e: IoError, tidy: bool) {
    || (if childGone then DrainOf(c.ptyReads, 0).status == Failed(e) else StopResult(c.stop) == Err(e))
    || WriteFails(c.outputWrite, e, tidy) || WriteFails(c.metadataWrite, e, tidy)
  }

  /** The calls that winding up cannot do without have succeeded. */
  predicate WoundUp(c: Closing, childGone: bool) {
    && (if childGone then DrainOf(c.ptyReads, 0).status.Done? else StopResult(c.stop).Ok?)
    && c.outputWrite.failure == None && c.metadataWrite.failure == None
  }

  /** No check of the child and no signal to it fails. */
  predicate FaultlessStop(e: StopEnv) {
    && !e.first.WaitFailed? && !e.last.WaitFailed? && (forall i | 0 <= i < |e.grace| :: !e.grace[i].WaitFailed?)
    && e.termFault == None && e.killFault == None && e.finalFault == None
  }

  /** No call of the runner's own fails while the session is wound up. */
  predicate FaultlessEnd(c: Closing, childGone: bool) {
    && (if childGone then forall i | 0 <= i < |c.ptyReads| :: !c.ptyReads[i].ReadFailed? else FaultlessStop(c.stop))
    && c.outputWrite.failure == None && c.metadataWrite.failure == None
  }

  lemma {:induction false} NeverFails(checks: seq<WaitResult>)
    requires forall i | 0 <= i < |checks| :: !checks[i].WaitFailed?
    ensures !FirstSettled(checks).WaitFailed?
  {
    if checks != [] {
      NeverFails(checks[1..]);
    }
  }

  lemma FaultlessEndSucceeds(c: Closing, childGone: bool, e: IoError)
    requires FaultlessEnd(c, childGone)
    ensures !Spoils(c, childGone, e, true)
  {
    hide DrainOf;
    var k := DrainTakes(c.ptyReads);
    if !childGone {
      NeverFails(c.stop.grace);
    }
  }

  /** What ends a run is an error of a system call. */
  lemma BreaksWithOs(t: Tick, e: IoError, tidy: bool)
    ensures Breaks(t, e, tidy) ==> e.Os?
  {
    DrainFailsOs(t.ptyReads);
    AcceptsFailOs(t.accepts);
  }

  lemma SpoilsWithOs(c: Closing, childGone: bool, e: IoError, tidy: bool)
    ensures Spoils(c, childGone, e, tidy) ==> e.Os?
  {
    DrainFailsOs(c.ptyReads);
  }

  lemma {:induction false} AcceptsFailOs(accepts: seq<AcceptResult>)
    ensures AcceptsEnd(accepts).Failed? ==> AcceptsEnd(accepts).error.Os?
  {
    if accepts == [] {
    } else {
      AcceptsFailOs(accepts[1..]);
    }
  }

  /** How many resize calls a batch of records makes. */
  function Resizes(records: seq<Record>): nat {
    if records == [] then 0 else
    Resizes(records[..|records| - 1]) + (if records[|records| - 1].Resize? then 1 else 0)
  }

  /** A record that no attachment says, or input for which `queued` bytes leave no room in front of the PTY. */
  predicate Refused(r: Record, queued: nat) {
    match r
    case Input(bytes) => queued + |bytes| > MAX_ATTACHMENT_QUEUE_BYTES
    case Resize(_, _) => false
    case _ => true
  }

  /** Everything a connection said has taken effect, up to a record that was refused if there is one. */
  ghost predicate HeardOut(c: Story, queued: nat) {
    var said := Parse(c.received);
    said.error == None && c.applied != said.records ==>
      |c.applied| < |said.records| && Refused(said.records[|c.applied|], queued)
  }

  lemma NothingHeard(c: Story, c': Story, pty: seq<Byte>, queued: nat)
    requires UpToDate(c, pty) && c'.received == c.received && c'.applied == c.applied
    ensures HeardOut(c', queued)
  {
    hide Parse;
  }

  lemma HeardLater(c: Story, queued: nat, later: nat)
    requires HeardOut(c, queued) && queued <= later
    ensures HeardOut(c, later)
  {
    hide Parse;
  }

  lemma HeardUpTo(c: Story, before: seq<Record>, records: seq<Record>, k: nat, queued: nat)
    requires Parse(c.received).records == before + records && k <= |records| && c.applied == before + records[..k]
    requires k == |records| || Refused(records[k], queued)
    ensures HeardOut(c, queued)
  {
    hide Parse, Refused;
    if k == |records| {
      assert records[..k] == records;
    } else {
      assert (before + records)[|c.applied|] == records[k];
    }
  }

  /** An attachment's turn: its queue was flushed and, if that did not fail, its socket read. */
  ghost predicate Served(c: Story, c': Story, t: Tick, events: Events) {
    var f := BQ.FlushIf(events.activeWritable, Backlog(c), t.activeWrites);
    && c.applied <= c'.applied
    && c'.wire == c.wire + Backlog(c)[..f.count] && c'.sent == c.sent && c'.attachedAt == c.attachedAt
    && c'.received == c.received + (if events.activeReady
        && f.status.Done? then Delivered(t.activeRead, CapacityAfter(c.received)) else [])
  }

  /** Whether an attachment is kept after its turn: no flush or read failed, and all it said took effect. */
  ghost predicate Stays(c: Story, c': Story, t: Tick, events: Events) {
    && BQ.FlushIf(events.activeWritable, Backlog(c), t.activeWrites).status.Done?
    && (events.activeReady ==>
          && !ReadEnds(t.activeRead, CapacityAfter(c.received))
          && Parse(c'.received).error == None && c'.applied == Parse(c'.received).records)
  }

  /** Whether a candidate is kept after it was read from: nothing failed, and no record is complete yet. */
  ghost predicate StillSilent(c: Story, c': Story, read: ReadResult) {
    !ReadEnds(read, CapacityAfter(c.received)) && Parse(c'.received).error == None && Parse(c'.received).records == []
  }

  /** The peer has gone: nothing more comes from it, or reading it fails. */
  predicate Gone(read: ReadResult) {
    read == Data([]) || read.ReadEio? || read.ReadFailed?
  }

  /** There is nothing to be had from the peer just now. */
  predicate Blocked(read: ReadResult) {
    read.ReadWouldBlock? || read.ReadInterrupted?
  }

  /** No write in the script fails. */
  predicate Writable(script: seq<WriteResult>) {
    forall i | 0 <= i < |script| :: !script[i].WriteFailed? && !(script[i].Accepted? && script[i].count == 0)
  }

  lemma WritableFlushes(happens: bool, queued: seq<Byte>, script: seq<WriteResult>)
    requires happens ==> Writable(script)
    ensures BQ.FlushIf(happens, queued, script).status.Done?
  {
    var k := BQ.FlushEnds(queued, script);
  }

  /** Whether an attachment stays: one that has gone does not, and having nothing to say costs nobody a place. */
  lemma StaysMeans(c: Story, c': Story, t: Tick, events: Events)
    requires Parse(c.received).error == None
    ensures events.activeReady && Gone(t.activeRead) ==> !Stays(c, c', t, events)
    ensures Served(c, c', t, events) && c.applied == Parse(c.received).records
            && c'.applied <= Parse(c'.received).records
            && (events.activeWritable ==> Writable(t.activeWrites))
            && (events.activeReady ==> Blocked(t.activeRead)) ==>
              Stays(c, c', t, events)
  {
    hide BQ.FlushIf, Parse, Backlog;
    DrainedLeavesRoom(c.received);
    ReadEndsWhen(t.activeRead, CapacityAfter(c.received));
    if events.activeWritable ==> Writable(t.activeWrites) {
      WritableFlushes(events.activeWritable, Backlog(c), t.activeWrites);
    }
    if Served(c, c', t, events) && (events.activeReady ==> Blocked(t.activeRead)) {
      assert c'.received == c.received;
    }
  }

  /** The attachment's socket takes whatever may be queued for it in this tick. */
  predicate Ample(t: Tick): (b: bool)
    ensures b ==> t.poll.Polled?
  {
    && t.poll.Polled? && t.poll.events.activeWritable
    && |t.activeWrites| >= MAX_ATTACHMENT_QUEUE_BYTES
    && forall i | 0 <= i < |t.activeWrites| :: t.activeWrites[i].Accepted? && t.activeWrites[i].count > 0
  }

  /** A candidate's turn: what came is read; it becomes the attachment, stops the session, or neither. */
  ghost predicate HeardFirst(c: Story, c': Story, read: ReadResult, queued: nat, attached: bool, stopped: bool) {
    var capacity, p := CapacityAfter(c.received), Parse(c'.received);
    var gone := ReadEnds(read, capacity) || p.error.Some?;
    && c'.received == c.received + Delivered(read, capacity) && c'.wire == c.wire
    && (attached <==> !gone && p.records != [] && p.records[0].Attach? && c'.applied == p.records)
    && (stopped <==> !gone && p.records == [Stop])
    && (!gone && p.records != [] && p.records[0].Attach? ==> c'.applied != [] && HeardOut(c', queued))
  }

  /** What comes of what a candidate says: only a record that is refused keeps one that says attach from attaching. */
  lemma HeardFirstMeans(c: Story, c': Story, read: ReadResult, queued: nat, attached: bool, stopped: bool)
    requires HeardFirst(c, c', read, queued, attached, stopped) && !Gone(read)
    requires Parse(c.received).error == None && Parse(c'.received).error == None
    requires c'.applied <= Parse(c'.received).records
    ensures var said := Parse(c'.received).records;
            && (stopped <==> said == [Stop])
            && (attached ==> said != [] && said[0].Attach?)
            && (said != [] && said[0].Attach? && !attached ==>
                  && 0 < |c'.applied| < |said| && !said[|c'.applied|].Resize?
                  && (said[|c'.applied|].Input? ==> queued + |said[|c'.applied|].bytes| > 0x10_0000))
  {
    hide Parse;
    DrainedLeavesRoom(c.received);
    ReadEndsWhen(read, CapacityAfter(c.received));
  }

  /** The connection that is heard under the candidate's event: the newest that has joined, if any has. */
  function HeardId(candidate: nat, known: nat, joined: nat): nat {
    if joined == 0 then candidate else known + joined - 1
  }

  /**
    The listener's and the candidate's turn, from the stories `before` to those `after`: who joins, who
    is heard, also one that has just replaced the one that was polled, and who goes on waiting.
   */
  ghost predicate CandidateTurn(before: seq<Story>, after: seq<Story>, polled: Option<nat>, t: Tick, events: Events,
                                queued: nat, waiting: Option<nat>, attached: Option<nat>, stopped: bool) {
    var joined := if events.accepting then Joining(t.accepts) else 0;
    && |after| == |before| + joined && (polled.Some? ==> polled.value < |before|)
    && (if joined == 0 && polled == None then waiting == None && !stopped else
        var newest := HeardId(if polled.Some? then polled.value else 0, |before|, joined);
        var c := if joined == 0 then before[newest] else NEW_STORY;
        if events.candidateReady && polled.Some?
        then
          && HeardFirst(c, after[newest], t.candidateRead, queued, attached == Some(newest), stopped)
          && waiting == (if StillSilent(c, after[newest], t.candidateRead) then Some(newest) else None)
        else waiting == Some(newest) && after[newest] == c && attached != Some(newest) && !stopped)
  }

  /** A candidate that has gone waits no longer; one that has nothing to say yet, or a newer one, goes on waiting. */
  lemma CandidateTurnMeans(before: seq<Story>, after: seq<Story>, polled: nat, t: Tick, events: Events, queued: nat,
                           waiting: Option<nat>, attached: Option<nat>, stopped: bool)
    requires CandidateTurn(before, after, Some(polled), t, events, queued, waiting, attached, stopped)
    requires events.candidateReady && Silent(before[polled]) && Parse(before[polled].received).error == None
    ensures Gone(t.candidateRead) ==> waiting == None && !stopped
    ensures Blocked(t.candidateRead) ==> waiting.Some? && !stopped
  {
    hide Parse, Joining, HeardOut;
    ParseEmpty();
    var joined := if events.accepting then Joining(t.accepts) else 0;
    var c := if joined == 0 then before[polled] else NEW_STORY;
    DrainedLeavesRoom(c.received);
    ReadEndsWhen(t.candidateRead, CapacityAfter(c.received));
    var more := Delivered(t.candidateRead, CapacityAfter(c.received));
    assert Blocked(t.candidateRead) ==> c.received + more == c.received;
  }

  /** What happens to others before it changes nothing of a candidate's turn. */
  lemma CandidateTurnAfter(start: seq<Story>, before: seq<Story>, after: seq<Story>, others: set<nat>,
                           polled: Option<nat>, t: Tick, events: Events, queued: nat, waiting: Option<nat>,
                           attached: Option<nat>, stopped: bool)
    requires CandidateTurn(before, after, polled, t, events, queued, waiting, attached, stopped)
    requires Untouched(start, before, others) && |start| == |before| && (polled.Some? ==> polled.value !in others)
    ensures CandidateTurn(start, after, polled, t, events, queued, waiting, attached, stopped)
  {
    hide HeardFirst, StillSilent, Joining;
  }

  /** Whether there is room for the exit announcement once a flush has done what it could. */
  predicate FarewellFits(queued: seq<Byte>, script: seq<WriteResult>) {
    var f := BQ.FlushOutcome(queued, script);
    f.status.Done? && |queued| - f.count + IPC_HEADER_BYTES + 2 <= MAX_ATTACHMENT_QUEUE_BYTES
  }

  /** What the last flushes write: what is queued, and behind all of it the exit. */
  function Farewell(queued: seq<Byte>, exit: ProcessExit, e: Closing): (bytes: seq<Byte>)
    requires WellFormed(Exit(exit))
  {
    var f := BQ.FlushOutcome(queued, e.firstFlush);
    var rest := queued[f.count..] + EncodeBytes(Exit(exit));
    queued[..f.count]
    + (if FarewellFits(queued, e.firstFlush) then rest[..BQ.FlushOutcome(rest, e.lastFlush).count] else [])
  }

  /** The output that is read once the loop has ended. */
  function LastChunks(last: TickResult, e: Closing): seq<seq<Byte>> {
    if last.ChildGone? then DrainOf(e.ptyReads, 0).chunks else []
  }

  /** The story of an attachment once the session has been completed. */
  ghost function Dismissed(c: Story, exit: ProcessExit, e: Closing): Story
    requires WellFormed(Exit(exit))
  {
    c.(sent := c.sent + (if FarewellFits(Backlog(c), e.firstFlush) then [Exit(exit)] else []),
       wire := c.wire + Farewell(Backlog(c), exit, e))
  }

  /** The last flushes have written all of it. */
  ghost predicate Told(c: Story, exit: ProcessExit, e: Closing)
    requires WellFormed(Exit(exit))
  {
    |Farewell(Backlog(c), exit, e)| == |Backlog(c)| + IPC_HEADER_BYTES + 2
  }

  /** Every write takes something, and there are enough of them for `n` bytes. */
  predicate TakesAll(script: seq<WriteResult>, n: nat) {
    |script| >= n && forall i | 0 <= i < |script| :: script[i].Accepted? && script[i].count > 0
  }

  /** If the socket takes what it is given, the attachment is told. */
  lemma FarewellTold(c: Story, exit: ProcessExit, e: Closing)
    requires WellFormed(Exit(exit)) && |Backlog(c)| <= MAX_ATTACHMENT_QUEUE_BYTES
    requires TakesAll(e.firstFlush, |Backlog(c)|) && TakesAll(e.lastFlush, IPC_HEADER_BYTES + 2)
    ensures Told(c, exit, e)
  {
    hide Backlog, BQ.FlushOutcome;
    BQ.FlushCompletes(Backlog(c), e.firstFlush);
    BQ.FlushCompletes(EncodeBytes(Exit(exit)), e.lastFlush);
    assert Backlog(c)[|Backlog(c)|..] + EncodeBytes(Exit(exit)) == EncodeBytes(Exit(exit));
  }

  /** An attachment that has been told has the exit and everything before it on its wire. */
  lemma ToldIsComplete(c: Story, exit: ProcessExit, e: Closing)
    requires WellFormed(Exit(exit)) && Wired(c, Backlog(c)) && Told(c, exit, e)
    ensures Dismissed(c, exit, e).sent == c.sent + [Exit(exit)]
    ensures AllWellFormed(c.sent + [Exit(exit)]) && Dismissed(c, exit, e).wire == EncodeAll(c.sent + [Exit(exit)])
  {
    hide EncodeAll, BQ.FlushOutcome;
    var queued := Backlog(c);
    WiredSend(c, queued, Exit(exit));
    var f := BQ.FlushOutcome(queued, e.firstFlush);
    var rest := queued[f.count..] + EncodeBytes(Exit(exit));
    assert |EncodeBytes(Exit(exit))| == IPC_HEADER_BYTES + 2;
    assert rest[..|rest|] == rest;
    assert queued == queued[..f.count] + queued[f.count..];
    assert c.wire + (queued[..f.count] + rest) == c.wire + (queued + EncodeBytes(Exit(exit)));
  }

  /** The attachment that a session leaves behind: which connection it is, and its story at the end of the last tick. */
  datatype Leaving = Leaving(id: nat, story: Story)

  /** If its queue has room for the last output, it is queued, flushed, and followed by the exit. */
  ghost predicate GivenTheRest(l: Leaving, stories: seq<Story>, drained: bool, exit: ProcessExit, e: Closing)
    requires WellFormed(Exit(exit))
  {
    var chunks := if drained then DrainOf(e.ptyReads, 0).chunks else [];
    && l.id < |stories| && Wired(l.story, Backlog(l.story))
    && (|Backlog(l.story)| + ChunksCost(chunks) <= MAX_ATTACHMENT_QUEUE_BYTES ==>
          stories[l.id] == Dismissed(Fed(l.story, chunks), exit, e))
  }

  lemma RestIsGiven(l: Leaving, before: seq<Story>, stories: seq<Story>, last: TickResult, e: Closing,
                    exit: ProcessExit)
    requires WellFormed(Exit(exit)) && l.id < |before| <= |stories| && Wired(l.story, Backlog(l.story))
    requires ChunksCost(LastChunks(last, e)) <= MAX_ATTACHMENT_QUEUE_BYTES - |Backlog(l.story)| ==>
               stories[l.id] == Dismissed(Fed(l.story, LastChunks(last, e)), exit, e)
    ensures GivenTheRest(l, stories, last.ChildGone?, exit, e)
  {
    hide Dismissed, Fed, Backlog, Wired, DrainOf, ChunksCost;
  }

  /** All PTY output that a run of ticks reads. */
  function PtyOf(ticks: seq<Tick>): seq<Byte> {
    if ticks == [] then [] else
    PtyOf(ticks[..|ticks| - 1]) + Flatten(DrainOf(ticks[|ticks| - 1].ptyReads, 0).chunks)
  }

  lemma PtyStep(script: seq<Tick>, n: nat, pty: seq<Byte>)
    requires 0 < n <= |script|
    ensures pty + PtyOf(script[..n]) ==
        pty + PtyOf(script[..n - 1]) + Flatten(DrainOf(script[n - 1].ptyReads, 0).chunks)
    ensures pty + PtyOf(script[..n]) + [] == pty + PtyOf(script[..n])
  {
    assert script[..n][..n - 1] == script[..n - 1];
  }

  /** The loop ended because its last tick found the child gone. */
  predicate ChildLeft(script: seq<Tick>, steps: nat)
    requires steps <= |script|
  {
    steps > 0 && script[steps - 1].wait.Exited?
  }

  /** The kernel call behind a dimension check (src/platform/unix.rs). */
  function SetWindowSize(rows: U16, columns: U16, fault: Option<Kind>): Status {
    if !ValidDimension(rows) || !ValidDimension(columns) then Failed(Afk(InvalidInput))
    else match fault case None => Done case Some(kind) => Failed(Os(kind))
  }

  function Effects(id: nat, records: seq<Record>): seq<Effect> {
    if records == [] then [] else Effects(id, records[..|records| - 1]) + [Effect(id, records[|records| - 1])]
  }

  lemma EffectsAppend(id: nat, records: seq<Record>, i: nat)
    requires i < |records|
    ensures records[..i + 1] == records[..i] + [records[i]]
    ensures Effects(id, records[..i + 1]) == Effects(id, records[..i]) + [Effect(id, records[i])]
    ensures Resizes(records[..i + 1]) == Resizes(records[..i]) + (if records[i].Resize? then 1 else 0)
  {
    assert records[..i + 1][..i] == records[..i];
  }

  /** Whatever a decoder lets through passes the dimension check of the PTY. */
  lemma DecodedDimensionsValid(s: seq<Byte>, i: nat)
    requires i < |Parse(s).records|
    ensures WellFormed(Parse(s).records[i])
  {
    ParseSound(s);
  }

  /** The next decoded record of an attachment may take effect if it is input or a new size. */
  lemma EffectKeepsOk(c: Story, pty: seq<Byte>, pending: seq<Record>)
    requires StoryOk(c, pty) && c.applied != [] && pending != []
    requires Parse(c.received).records == c.applied + pending
    requires pending[0].Input? || pending[0].Resize?
    ensures StoryOk(c.(applied := c.applied + [pending[0]]), pty)
  {
    assert c.applied + [pending[0]] + pending[1..] == c.applied + pending;
  }

  lemma DrainFailsOs(results: seq<ReadResult>)
    ensures DrainOf(results, 0).status.Failed? ==> DrainOf(results, 0).status.error.Os?
  {
    DrainStatusOs(results, 0);
  }

  lemma {:induction false} DrainStatusOs(results: seq<ReadResult>, processed: nat)
    ensures DrainOf(results, processed).status.Failed? ==> DrainOf(results, processed).status.error.Os?
  {
    if results == [] || processed >= MAX_PTY_BYTES_PER_TICK || StepOf(results[0]).Enough? {
    } else {
      DrainStatusOs(results[1..], processed + StepOf(results[0]).count);
    }
  }

  lemma AttachFirst(s: seq<Byte>, rows: U16, columns: U16, rest: seq<Record>)
    requires Parse(s).records == [Attach(rows, columns)] + rest
    ensures ValidDimension(rows) && ValidDimension(columns)
  {
    assert Parse(s).records[0] == Attach(rows, columns);
    DecodedDimensionsValid(s, 0);
  }

  lemma OneRecord(chunk: seq<Byte>)
    requires 0 < |chunk| <= IO_CHUNK_BYTES
    ensures Outputs(chunk) == [Output(chunk)]
  {
    assert chunk[|chunk|..] == [];
  }

  lemma OneChunkCost(n: nat)
    requires 0 < n <= IO_CHUNK_BYTES
    ensures Cost(n) == n + IPC_HEADER_BYTES
  {
  }
}
