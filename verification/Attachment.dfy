/** The attaching side: terminal in front, session socket behind (src/attach.rs, lines 90-343). */
module Attachment {
  import opened Limits
  import opened Bytes
  import opened Io
  import opened Ipc
  import opened Transcript
  import Connection
  import BQ = ByteQueue

  // ---------------------------------------------------------------- the environment of one tick

  datatype InputEvent = Chunk(bytes: seq<Byte>) | InputClosed | InputFailed(kind: Kind) | NoInput

  datatype PollResult = Polled(writable: bool, readable: bool) | PollInterrupted | PollFailed(kind: Kind)

  /** The terminal in this tick: how much it accepts before a write to it fails, or that flushing it fails. */
  datatype Terminal = Open | FailsAfter(room: nat, kind: Kind) | FlushFails(kind: Kind)

  datatype Tick = Tick(
    signalled: bool,
    resized: bool, windowSize: Option<(U16, U16)>,
    input: InputEvent, poll: PollResult,
    writes: seq<WriteResult>, read: ReadResult, terminal: Terminal)

  /** `Detached` covers every way of leaving the session running; each of them exits with code 0. */
  datatype Outcome = Attached | Detached | Reported(exit: ProcessExit) | Ended(error: IoError)

  /** `window_size` reports only dimensions within the limits. */
  function WindowSize(raw: Option<(U16, U16)>): (size: Option<(U16, U16)>)
    ensures size.Some? ==> ValidDimension(size.value.0) && ValidDimension(size.value.1)
  {
    match raw
    case None => None
    case Some(d) => if ValidDimension(d.0) && ValidDimension(d.1) then raw else None
  }

  function InitialSize(raw: Option<(U16, U16)>): (size: (U16, U16))
    ensures ValidDimension(size.0) && ValidDimension(size.1)
  {
    match WindowSize(raw) case Some(size) => size case None => (24, 80)
  }

  /** Sizes within the limits are reported as they are; at first 24 by 80 stands in for any other. */
  lemma SizesMean(rows: U16, columns: U16)
    ensures if 1 <= rows <= 4096 && 1 <= columns <= 4096
            then WindowSize(Some((rows, columns))) == Some((rows, columns)) == Some(InitialSize(Some((rows, columns))))
            else WindowSize(Some((rows, columns))) == None && InitialSize(Some((rows, columns))) == (24, 80)
    ensures WindowSize(None) == None && InitialSize(None) == (24, 80)
  {
  }

  predicate AttachmentClosed(kind: Kind) {
    kind in {BrokenPipe, ConnectionAborted, ConnectionReset, UnexpectedEof}
  }

  // ---------------------------------------------------------------- what has been typed

  /** The chunk of standard input that a tick finds waiting. */
  function ChunkOf(t: Tick): seq<Byte> {
    match t.input case Chunk(bytes) => Take(bytes, IO_CHUNK_BYTES) case _ => []
  }

  /** Everything typed in these ticks up to the end of standard input. */
  function TypedIn(ticks: seq<Tick>): seq<Byte> {
    if ticks == [] then [] else
    var before := ticks[..|ticks| - 1];
    TypedIn(before) + (if ClosedIn(before) then [] else ChunkOf(ticks[|ticks| - 1]))
  }

  predicate ClosedIn(ticks: seq<Tick>) {
    exists i | 0 <= i < |ticks| :: ticks[i].input.InputClosed?
  }

  /** Everything that comes in during these ticks; a tick without a readable socket reads nothing. */
  function ReceivedIn(ticks: seq<Tick>): seq<Byte> {
    if ticks == [] then [] else
    var before := ReceivedIn(ticks[..|ticks| - 1]);
    before + ArrivingAt(ticks[|ticks| - 1], before)
  }

  /** What a tick reads after `received`, as far as the decoder has room for it. */
  function ArrivingAt(t: Tick, received: seq<Byte>): seq<Byte> {
    if t.poll.Polled? && t.poll.readable then Connection.Delivered(t.read, CapacityAfter(received)) else []
  }

  // ---------------------------------------------------------------- what a tick comes to

  /** The new size that a tick has to pass on, if any. */
  function NewSize(t: Tick): (size: Option<(U16, U16)>)
    ensures size.Some? ==> ValidDimension(size.value.0) && ValidDimension(size.value.1)
  {
    if t.resized then WindowSize(t.windowSize) else None
  }

  /** The records a tick adds for the runner: a new size, then what was typed. */
  function SpeechOf(t: Tick, closed: bool): (rs: seq<Record>)
    ensures AllWellFormed(rs)
  {
    (match NewSize(t) case Some(size) => [Resize(size.0, size.1)] case None => [])
    + (if !closed && t.input.Chunk? then [Input(ChunkOf(t))] else [])
  }

  lemma SpeechEncoded(t: Tick, closed: bool)
    ensures EncodeAll(SpeechOf(t, closed)) ==
            (match NewSize(t) case Some(size) => EncodeBytes(Resize(size.0, size.1)) case None => [])
            + (if !closed && t.input.Chunk? then EncodeBytes(Input(ChunkOf(t))) else [])
  {
    hide EncodeBytes;
    var first := match NewSize(t) case Some(size) => [Resize(size.0, size.1)] case None => [];
    var second := if !closed && t.input.Chunk? then [Input(ChunkOf(t))] else [];
    EncodeAllAppend(first, second);
    if first != [] {
      EncodeOne(first[0]);
    }
    if second != [] {
      EncodeOne(second[0]);
    }
  }

  /** What a tick says: a size within the limits, and behind it at most a buffer of what was typed. */
  lemma SpeechIs(t: Tick, closed: bool)
    ensures var typed := t.input.Chunk? && !closed;
            && |SpeechOf(t, closed)| <= 2
            && (typed <==> SpeechOf(t, closed) != [] && SpeechOf(t, closed)[|SpeechOf(t, closed)| - 1].Input?)
            && (typed ==>
                  var bytes := SpeechOf(t, closed)[|SpeechOf(t, closed)| - 1].bytes;
                  bytes <= t.input.bytes && (|bytes| == 0x4000 || bytes == t.input.bytes) && |bytes| <= 0x4000)
            && (match t.windowSize
                case Some((rows, columns)) =>
                  t.resized && 1 <= rows <= 4096 && 1 <= columns <= 4096 <==>
                    SpeechOf(t, closed) != [] && SpeechOf(t, closed)[0] == Resize(rows, columns)
                case None => forall r <- SpeechOf(t, closed) :: r.Input?)
  {
  }

  /** Passing on a size and what was typed fails when the queue has no room, or with standard input. */
  function TakeOutcome(t: Tick, closed: bool, queued: nat): (r: Status)
    ensures r.Failed? ==> r.error == Afk(WouldBlock) || r.error.Os?
  {
    var resize := if NewSize(t).Some? then IPC_HEADER_BYTES + 4 else 0;
    if resize > 0 && queued + resize > MAX_ATTACHMENT_QUEUE_BYTES then Failed(Afk(WouldBlock))
    else if closed then Done
    else match t.input
      case Chunk(_) =>
        var needed := resize + IPC_HEADER_BYTES + |ChunkOf(t)|;
        if queued + needed > MAX_ATTACHMENT_QUEUE_BYTES then Failed(Afk(WouldBlock)) else Done
      case InputFailed(kind) => Failed(Os(kind))
      case _ => Done
  }

  /** How many records at the front of a batch are output. */
  function Leading(records: seq<Record>): (n: nat)
    ensures n <= |records| && (forall i | 0 <= i < n :: records[i].Output?) && (n < |records| ==> !records[n].Output?)
  {
    if records == [] || !records[0].Output? then 0 else 1 + Leading(records[1..])
  }

  predicate TerminalTakes(terminal: Terminal, size: nat) {
    terminal.FailsAfter? ==> size <= terminal.room
  }

  /** How showing a batch ends: with its end, an exit behind output only, something else, or a failing terminal. */
  function ShownOutcome(records: seq<Record>, terminal: Terminal): Shown {
    var n := Leading(records);
    if !TerminalTakes(terminal, |Printed(records[..n])|) then TerminalFailed(terminal.kind)
    else if n < |records| && !records[n].Exit? then Unexpected
    else if terminal.FlushFails? && records != [] then TerminalFailed(terminal.kind)
    else if n == |records| then AllShown
    else ExitShown(records[n].exit)
  }

  /** What of a batch appears on the terminal. */
  function ShownBytes(records: seq<Record>, terminal: Terminal): seq<Byte> {
    var text := Printed(records[..Leading(records)]);
    if TerminalTakes(terminal, |text|) then text else text[..terminal.room]
  }

  /** An error on the socket ends the attachment; a runner that has gone is no error. */
  function SocketFailed(e: IoError): Outcome {
    if AttachmentClosed(e.kind) then Detached else Ended(e)
  }

  /** The records that `bytes` complete after `received`. */
  function Batch(received: seq<Byte>, bytes: seq<Byte>): Parsed {
    Parse(Parse(received).rest + bytes)
  }

  /** What one read after `received` comes to: the records it completes, a runner that has gone, or an error. */
  function ListenOutcome(read: ReadResult, received: seq<Byte>): IoResult<Option<seq<Record>>> {
    match read
    case ReadWouldBlock => Ok(Some([]))
    case ReadInterrupted => Ok(Some([]))
    case ReadEio => Err(Os(Other))
    case ReadFailed(kind) => if AttachmentClosed(kind) then Ok(None) else Err(Os(kind))
    case Data(_) =>
      var bytes := Connection.Delivered(read, CapacityAfter(received));
      if bytes == [] then Ok(None)
      else if Batch(received, bytes).error.Some? then Err(Afk(InvalidData))
      else Ok(Some(Batch(received, bytes).records))
  }

  /** How the socket's turn ends when it is read after `received`. */
  function ReceiveOutcome(t: Tick, received: seq<Byte>): Outcome {
    match ListenOutcome(t.read, received)
    case Err(e) => Ended(e)
    case Ok(None) => Detached
    case Ok(Some(records)) =>
      match ShownOutcome(records, t.terminal)
      case AllShown => Attached
      case ExitShown(exit) => Reported(exit)
      case Unexpected => Ended(Afk(InvalidData))
      case TerminalFailed(kind) => Ended(Os(kind))
  }

  /** The queue for the runner after a tick. */
  function QueueAfter(t: Tick, closed: bool, queue: seq<Byte>): seq<Byte> {
    var q := queue + EncodeAll(SpeechOf(t, closed));
    q[BQ.FlushIf(t.poll.Polled? && t.poll.writable, q, t.writes).count..]
  }

  /**
    How a tick ends. The attachment detaches exactly on a signal, when the runner's socket is closed,
    and when standard input has ended and everything queued is out.
   */
  function NextOutcome(t: Tick, closed: bool, queue: seq<Byte>, received: seq<Byte>): Outcome {
    if t.signalled then Detached
    else if TakeOutcome(t, closed, |queue|).Failed? then Ended(TakeOutcome(t, closed, |queue|).error)
    else match t.poll
      case PollInterrupted => Attached
      case PollFailed(kind) => Ended(Os(kind))
      case Polled(writable, readable) =>
        var f := BQ.FlushIf(writable, queue + EncodeAll(SpeechOf(t, closed)), t.writes);
        if f.status.Failed? then SocketFailed(f.status.error)
        else if (closed || t.input.InputClosed?) && QueueAfter(t, closed, queue) == [] then Detached
        else if readable then ReceiveOutcome(t, received)
        else Attached
  }

  // ---------------------------------------------------------------- what decides how a tick ends

  /** The runner has gone. */
  predicate ClosedBy(kind: Kind) {
    kind == BrokenPipe || kind == ConnectionAborted || kind == ConnectionReset || kind == UnexpectedEof
  }

  /** A reason to leave the session running; `closed` says that standard input has ended. */
  predicate MayDetach(t: Tick, closed: bool) {
    || t.signalled
    || (t.poll.Polled?
        && (|| closed
            || (t.poll.readable && (t.read == Data([]) || (t.read.ReadFailed? && ClosedBy(t.read.kind))))
            || (t.poll.writable
                && exists i | 0 <= i < |t.writes| :: t.writes[i].WriteFailed? && ClosedBy(t.writes[i].kind))))
  }

  /** A reason to end with the error `e`. */
  predicate MayFail(t: Tick, queued: nat, e: IoError) {
    || (e == Afk(WouldBlock) && queued + Demand(t) > MAX_ATTACHMENT_QUEUE_BYTES)
    || (t.input.InputFailed? && e == Os(t.input.kind))
    || (t.poll.PollFailed? && e == Os(t.poll.kind))
    || (t.poll.Polled? && t.poll.writable
        && exists i | 0 <= i < |t.writes| ::
             || (t.writes[i].WriteFailed? && !ClosedBy(t.writes[i].kind) && e == Os(t.writes[i].kind))
             || (t.writes[i].Accepted? && t.writes[i].count == 0 && e == Afk(WriteZero)))
    || (t.poll.Polled? && t.poll.readable
        && (|| (t.read.ReadFailed? && !ClosedBy(t.read.kind) && e == Os(t.read.kind))
            || (t.read.ReadEio? && e == Os(Other))
            || (t.read.Data? && t.read.offered != []
                && (e == Afk(InvalidData) || (!t.terminal.Open? && e == Os(t.terminal.kind))))))
  }

  /** How much a tick adds to the queue at most. */
  function Demand(t: Tick): nat {
    (if t.resized then 9 else 0)
    + (match t.input case Chunk(bytes) => 5 + (if |bytes| <= 0x4000 then |bytes| else 0x4000) case _ => 0)
  }

  /** How much all of these ticks, and the attach before them, can have queued. */
  function TotalDemand(ticks: seq<Tick>): nat {
    if ticks == [] then 9 else TotalDemand(ticks[..|ticks| - 1]) + Demand(ticks[|ticks| - 1])
  }

  lemma {:induction false} DemandGrows(script: seq<Tick>, i: nat)
    requires i <= |script|
    ensures i < |script| ==> TotalDemand(script[..i + 1]) == TotalDemand(script[..i]) + Demand(script[i])
    ensures TotalDemand(script[..i]) <= TotalDemand(script)
    ensures i < |script| ==> TotalDemand(script[..i + 1]) <= TotalDemand(script)
    decreases |script| - i
  {
    hide Demand;
    if i < |script| {
      assert script[..i + 1][..i] == script[..i];
      DemandGrows(script, i + 1);
    } else {
      assert script[..i] == script;
    }
  }

  /** No write of the tick fails. */
  predicate WritesGoOn(t: Tick) {
    forall i | 0 <= i < |t.writes| :: !t.writes[i].WriteFailed? && !(t.writes[i].Accepted? && t.writes[i].count == 0)
  }

  /** A tick in which nothing ends: no signal, no end or failure of standard input, and nothing to be read. */
  predicate Uneventful(t: Tick) {
    && !t.signalled && !t.input.InputClosed? && !t.input.InputFailed?
    && (t.poll.PollInterrupted?
        || (t.poll.Polled? && (t.poll.writable ==> WritesGoOn(t))
            && (t.poll.readable ==> t.read.ReadWouldBlock? || t.read.ReadInterrupted?)))
  }

  /** In this tick the runner's socket takes whatever may be queued for it. */
  predicate Ample(t: Tick) {
    && t.poll.Polled? && t.poll.writable && |t.writes| >= MAX_ATTACHMENT_QUEUE_BYTES
    && forall i | 0 <= i < |t.writes| :: t.writes[i].Accepted? && t.writes[i].count > 0
  }

  /** The queue keeps what is not written: everything if the tick does not write, nothing if the socket takes it all. */
  lemma QueueMeans(t: Tick, closed: bool, queue: seq<Byte>)
    ensures var q := queue + EncodeAll(SpeechOf(t, closed));
            && (!(t.poll.Polled? && t.poll.writable) ==> QueueAfter(t, closed, queue) == q)
            && (Ample(t) && |q| <= MAX_ATTACHMENT_QUEUE_BYTES ==> QueueAfter(t, closed, queue) == [])
  {
    hide BQ.FlushOutcome, EncodeAll, SpeechOf;
    var q := queue + EncodeAll(SpeechOf(t, closed));
    if Ample(t) && |q| <= MAX_ATTACHMENT_QUEUE_BYTES {
      BQ.FlushCompletes(q, t.writes);
    }
  }

  lemma TakeMeans(t: Tick, closed: bool, queued: nat)
    ensures queued + Demand(t) <= MAX_ATTACHMENT_QUEUE_BYTES && !(t.input.InputFailed? && !closed) ==>
              TakeOutcome(t, closed, queued).Done?
    ensures match TakeOutcome(t, closed, queued)
            case Done => !(t.input.InputFailed? && !closed)
            case Failed(e) =>
              || (e == Afk(WouldBlock) && queued + Demand(t) > MAX_ATTACHMENT_QUEUE_BYTES)
              || (t.input.InputFailed? && !closed && e == Os(t.input.kind))
  {
  }

  lemma FlushMeans(happens: bool, queue: seq<Byte>, t: Tick)
    ensures var f := BQ.FlushIf(happens, queue, t.writes);
            && (happens && WritesGoOn(t) ==> f.status.Done?)
            && (happens && queue != [] && t.writes != [] && t.writes[0].WriteFailed? ==>
                  f.status == Failed(Os(t.writes[0].kind)))
            && (f.status.Failed? ==>
                  happens && exists i | 0 <= i < |t.writes| ::
                    || (t.writes[i].WriteFailed? && f.status.error == Os(t.writes[i].kind))
                    || (t.writes[i].Accepted? && t.writes[i].count == 0 && f.status.error == Afk(WriteZero)))
  {
    var k := BQ.FlushEnds(queue, t.writes);
  }

  /** What a read comes to. */
  lemma ReceiveMeans(t: Tick, received: seq<Byte>)
    requires Parse(received).error == None
    ensures var o := ReceiveOutcome(t, received);
            match t.read
            case ReadWouldBlock => o.Attached?
            case ReadInterrupted => o.Attached?
            case ReadEio => o == Ended(Os(Other))
            case ReadFailed(kind) => o == (if ClosedBy(kind) then Detached else Ended(Os(kind)))
            case Data(sent) =>
              if sent == [] then o.Detached? else
              && !o.Detached?
              && (o.Ended? ==> o.error == Afk(InvalidData) || (!t.terminal.Open? && o.error == Os(t.terminal.kind)))
  {
    hide Parse, Printed;
    DrainedLeavesRoom(received);
    PrintedNothing();
  }

  /**
    How a tick ends, from what happens in it: only a signal, a runner that has gone or the end of standard
    input detach; only a failing call, a full queue or a response that is not one end it with an error; and
    a tick in which nothing happens, or whose poll was interrupted, ends nothing.
   */
  lemma NextMeans(t: Tick, closed: bool, queue: seq<Byte>, received: seq<Byte>)
    requires Parse(received).error == None
    ensures var o := NextOutcome(t, closed, queue, received);
            && (t.signalled ==> o.Detached?)
            && (o.Detached? ==> MayDetach(t, closed || t.input.InputClosed?))
            && (o.Ended? ==> MayFail(t, |queue|, o.error))
            && (o.Reported? ==> t.poll.Polled? && t.poll.readable && t.read.Data? && t.read.offered != [])
            && (o.Attached? ==> !t.signalled && !t.poll.PollFailed? && !(t.input.InputFailed? && !closed))
            && (!t.signalled && |queue| + Demand(t) <= MAX_ATTACHMENT_QUEUE_BYTES
                && !(t.input.InputFailed? && !closed) ==>
                  match t.poll
                  case PollInterrupted => o.Attached?
                  case PollFailed(kind) => o == Ended(Os(kind))
                  case Polled(writable, readable) =>
                    && (writable && queue != [] && t.writes != [] && t.writes[0].WriteFailed? ==>
                          o == if ClosedBy(t.writes[0].kind) then Detached else Ended(Os(t.writes[0].kind)))
                    && ((writable ==> WritesGoOn(t)) ==>
                          o == if (closed || t.input.InputClosed?) && QueueAfter(t, closed, queue) == [] then Detached
                               else if readable then ReceiveOutcome(t, received)
                               else Attached))
  {
    hide TakeOutcome, ReceiveOutcome, BQ.FlushIf, QueueAfter, EncodeAll, Parse, Demand, WritesGoOn, SpeechOf;
    TakeMeans(t, closed, |queue|);
    if t.poll.Polled? {
      FlushMeans(t.poll.writable, queue + EncodeAll(SpeechOf(t, closed)), t);
      ReceiveMeans(t, received);
    }
  }

  /** An attachment that stays has nothing left to send after a tick in which its socket takes everything. */
  lemma AmpleEmpties(t: Tick, closed: bool, queue: seq<Byte>, received: seq<Byte>)
    requires |queue| <= MAX_ATTACHMENT_QUEUE_BYTES
    ensures NextOutcome(t, closed, queue, received) == Attached && Ample(t) ==> QueueAfter(t, closed, queue) == []
  {
    hide Ample, QueueAfter, ReceiveOutcome, BQ.FlushIf, EncodeBytes;
    QueueMeans(t, closed, queue);
    SpeechEncoded(t, closed);
    SpeechSizes(t, closed);
  }

  lemma SpeechSizes(t: Tick, closed: bool)
    ensures NewSize(t).Some? ==> |EncodeBytes(Resize(NewSize(t).value.0, NewSize(t).value.1))| == 9
    ensures t.input.Chunk? ==> |EncodeBytes(Input(ChunkOf(t)))| == 5 + |ChunkOf(t)|
  {
  }

  /** The queue for the runner after these ticks. */
  function QueueIn(size: (U16, U16), ticks: seq<Tick>): seq<Byte> {
    if ticks == [] then EncodeBytes(Attach(size.0, size.1)) else
    var before := ticks[..|ticks| - 1];
    QueueAfter(ticks[|ticks| - 1], ClosedIn(before), QueueIn(size, before))
  }

  /** How tick `i` of a script ends, if it is begun. */
  function OutcomeAt(size: (U16, U16), script: seq<Tick>, i: nat): Outcome
    requires i < |script|
  {
    NextOutcome(script[i], ClosedIn(script[..i]), QueueIn(size, script[..i]), ReceivedIn(script[..i]))
  }

  /** The records an attachment has queued, and how far they have got. */
  ghost predicate Spoken(sent: seq<Record>, wire: seq<Byte>, queued: seq<Byte>) {
    && AllWellFormed(sent) && ClientSpeech(sent) && sent != []
    && wire + queued == EncodeAll(sent)
  }

  lemma SpokenMore(sent: seq<Record>, wire: seq<Byte>, queued: seq<Byte>, r: Record)
    requires Spoken(sent, wire, queued) && WellFormed(r) && (r.Input? || r.Resize?)
    ensures Spoken(sent + [r], wire, queued + EncodeBytes(r))
  {
    hide EncodeBytes, EncodeAll;
    EncodeAllAppend(sent, [r]);
    EncodeOne(r);
    assert wire + (queued + EncodeBytes(r)) == (wire + queued) + EncodeBytes(r);
  }

  // ---------------------------------------------------------------- the screen

  /** How a batch of records went: `shown` records were dealt with. */
  datatype Shown = AllShown | ExitShown(exit: ProcessExit) | Unexpected | TerminalFailed(kind: Kind)

  lemma PrintedNothing()
    ensures Printed([]) == []
  {
  }

  /** Writes output records to the terminal until the batch ends, the exit comes, or something is wrong. */
  method Show(records: seq<Record>, terminal: Terminal) returns (r: Shown, written: seq<Byte>, shown: nat)
    ensures r == ShownOutcome(records, terminal) && written == ShownBytes(records, terminal)
    ensures shown <= |records| && forall i | 0 <= i < shown :: records[i].Output?
    ensures r.AllShown? ==> shown == |records| && written == Printed(records)
    ensures r.ExitShown? ==> shown < |records| && records[shown] == Exit(r.exit) && written == Printed(records[..shown])
    ensures r.Unexpected? ==> shown < |records| && !records[shown].Output? && !records[shown].Exit?
    ensures written <= Printed(records[..shown])
    // it fails exactly with the terminal: one that takes everything never fails it
    ensures r.TerminalFailed? ==> !terminal.Open? && r.kind == terminal.kind
    ensures terminal.FailsAfter? && r.TerminalFailed? ==> |written| == terminal.room
    ensures terminal.FailsAfter? ==> |written| <= terminal.room
    ensures terminal.FlushFails? ==> !r.ExitShown? && (r.AllShown? ==> records == [])
  {
    hide Printed;
    written, shown := [], 0;
    PrintedNothing();
    assert records[..0] == [];
    var room := terminal;
    while shown < |records|
      invariant shown <= Leading(records)
      invariant written == Printed(records[..shown])
      invariant TerminalTakes(terminal, |written|)
      invariant room == match terminal case FailsAfter(n, kind) => FailsAfter(n - |written|, kind) case _ => terminal
    {
      assert records[..shown + 1] == records[..shown] + [records[shown]];
      PrintedAppend(records[..shown], records[shown]);
      match records[shown] {
        case Output(bytes) =>
          assert shown < Leading(records);
          PrintedOfPrefix(records[..shown + 1], records[..Leading(records)]);
          shown := shown + 1;
          if room.FailsAfter? && room.room < |bytes| {
            written := written + bytes[..room.room];
            return TerminalFailed(room.kind), written, shown;
          }
          if room.FailsAfter? {
            room := FailsAfter(room.room - |bytes|, room.kind);
          }
          written := written + bytes;
        case Exit(exit) =>
          if terminal.FlushFails? {
            return TerminalFailed(terminal.kind), written, shown;
          }
          return ExitShown(exit), written, shown;
        case _ => return Unexpected, written, shown;
      }
    }
    assert records[..shown] == records;
    if shown > 0 && terminal.FlushFails? {
      return TerminalFailed(terminal.kind), written, shown;
    }
    return AllShown, written, shown;
  }

  // ---------------------------------------------------------------- the loop

  class Attachment {
    const socketOutput: BQ.ByteQueue
    const decoder: Decoder
    var stdinClosed: bool
    /** What has gone out to the runner, come in from it, and appeared on the terminal. */
    var wire: seq<Byte>
    var received: seq<Byte>
    var shown: seq<Byte>
    /** The records queued for the runner so far. */
    ghost var sent: seq<Record>

    ghost predicate Speaking()
      reads this`wire, this`sent, socketOutput
    {
      socketOutput.Valid() && socketOutput.limit == MAX_ATTACHMENT_QUEUE_BYTES && Spoken(sent, wire, socketOutput.bytes)
    }

    /** All that came in was output, and all of it is on the terminal. */
    ghost predicate Showing()
      reads this`received, this`shown, decoder
    {
      && decoder.Drained()
      && Parse(received).error == None && Parse(received).rest == decoder.buffer
      && OnlyOutput(Parse(received).records)
      && shown == Printed(Parse(received).records)
    }

    ghost predicate Valid()
      reads this, socketOutput, decoder
    {
      Speaking() && Showing()
    }

    constructor (size: (U16, U16))
      requires ValidDimension(size.0) && ValidDimension(size.1)
      ensures Valid() && fresh(socketOutput) && fresh(decoder)
      ensures sent == [Attach(size.0, size.1)] && received == [] && wire == [] && !stdinClosed
      ensures socketOutput.bytes == EncodeBytes(Attach(size.0, size.1))
    {
      var queue := new BQ.ByteQueue(MAX_ATTACHMENT_QUEUE_BYTES);
      var first := Attach(size.0, size.1);
      var queued := queue.Push(EncodeBytes(first));
      socketOutput := queue;
      decoder := new Decoder();
      stdinClosed, wire, received, shown, sent := false, [], [], [], [first];
      new;
      EncodeOne(first);
      ParseEmpty();
    }

    /** Queues a record for the runner; a record too large or a full queue ends the attachment. */
    method QueueRecord(r: Record) returns (status: Status)
      requires Speaking() && (r.Input? || (r.Resize? && WellFormed(r)))
      modifies this`sent, socketOutput
      ensures Speaking()
      ensures status.Done? <==>
                && |Payload(r)| <= MAX_IPC_PAYLOAD_BYTES
                && |old(socketOutput.bytes)| + IPC_HEADER_BYTES + |Payload(r)| <= MAX_ATTACHMENT_QUEUE_BYTES
      ensures status.Done? ==> sent == old(sent) + [r] && socketOutput.bytes == old(socketOutput.bytes) + EncodeBytes(r)
      ensures status.Failed? ==> sent == old(sent) && socketOutput.bytes == old(socketOutput.bytes)
      ensures status.Failed? ==>
                status.error == Afk(if |Payload(r)| > MAX_IPC_PAYLOAD_BYTES then InvalidInput else WouldBlock)
    {
      var encoded := Encode(r);
      if encoded.Err? {
        return Failed(encoded.error);
      }
      SpokenMore(sent, wire, socketOutput.bytes, r);
      var pushed := socketOutput.Push(encoded.value);
      if !pushed {
        return Failed(Afk(WouldBlock));
      }
      sent := sent + [r];
      return Done;
    }

    /** Passes on a new terminal size and what was typed. */
    method TakeInput(t: Tick) returns (status: Status)
      requires Speaking()
      modifies this`sent, this`stdinClosed, socketOutput
      ensures Speaking() && old(sent) <= sent
      ensures stdinClosed == (old(stdinClosed) || (status.Done? && t.input.InputClosed?))
      ensures status.Done? ==> Typed(sent) == Typed(old(sent)) + (if old(stdinClosed) then [] else ChunkOf(t))
      ensures status.Failed? ==> Typed(sent) == Typed(old(sent))
      // exactly a full queue or a failing standard input ends the attachment here
      ensures status == TakeOutcome(t, old(stdinClosed), |old(socketOutput.bytes)|)
      ensures status.Done? ==>
                && sent == old(sent) + SpeechOf(t, old(stdinClosed))
                && socketOutput.bytes == old(socketOutput.bytes) + EncodeAll(SpeechOf(t, old(stdinClosed)))
    {
      hide Spoken, Typed, EncodeBytes, EncodeAll;
      SpeechEncoded(t, stdinClosed);
      ghost var queue := socketOutput.bytes;
      assert queue + [] == queue;
      assert Typed(sent) + [] == Typed(sent);
      if t.resized {
        var size := WindowSize(t.windowSize);
        if size.Some? {
          TypedAppend(sent, Resize(size.value.0, size.value.1));
          status := QueueRecord(Resize(size.value.0, size.value.1));
          if status.Failed? {
            return;
          }
        }
      }
      status := Done;
      if !stdinClosed {
        match t.input {
          case Chunk(bytes) =>
            TypedAppend(sent, Input(ChunkOf(t)));
            status := QueueRecord(Input(ChunkOf(t)));
          case InputClosed => stdinClosed := true;
          case InputFailed(kind) => status := Failed(Os(kind));
          case NoInput =>
        }
      }
    }

    method FlushSocket(script: seq<WriteResult>) returns (status: Status)
      requires Speaking()
      modifies this`wire, socketOutput
      ensures Speaking() && old(wire) <= wire
      ensures var f := BQ.FlushOutcome(old(socketOutput.bytes), script);
              && status == f.status && socketOutput.bytes == old(socketOutput.bytes)[f.count..]
              && wire == old(wire) + old(socketOutput.bytes)[..f.count]
    {
      hide EncodeAll, BQ.FlushOutcome;
      ghost var before := socketOutput.bytes;
      var written;
      written, status := socketOutput.Flush(script);
      assert wire + before == wire + written + socketOutput.bytes;
      wire := wire + written;
    }

    /** One read from the socket: the records it completes, or `None` when the runner is gone. */
    method Listen(read: ReadResult) returns (r: IoResult<Option<seq<Record>>>)
      requires Showing()
      modifies this`received, decoder
      ensures old(received) <= received
          && received == old(received) + Connection.Delivered(read, CapacityAfter(old(received)))
      ensures r == ListenOutcome(read, old(received))
      // what is read: as much as was sent and the buffer, or the decoder, has room for; nothing at all is the end
      ensures var more := received[|old(received)|..];
              match read
              case Data(sent) =>
                if sent == [] then more == [] && r == Ok(None) else
                && more <= sent && 0 < |more| <= 0x4000 && |old(decoder.buffer)| + |more| <= 65541
                && (|more| == |sent| || |more| == 0x4000 || |old(decoder.buffer)| + |more| == 65541)
                && (r.Err? <==> Parse(received).error.Some?) && r != Ok(None)
              case ReadWouldBlock => more == [] && r == Ok(Some([]))
              case ReadInterrupted => more == [] && r == Ok(Some([]))
              case ReadEio => more == [] && r == Err(Os(Other))
              case ReadFailed(kind) => more == [] && r == (if ClosedBy(kind) then Ok(None) else Err(Os(kind)))
      ensures var all := Parse(received);
              && Parse(old(received)).records <= all.records
              && match r
                 case Ok(Some(records)) =>
                   && all.error == None && all.rest == decoder.buffer && decoder.Drained()
                   && all.records == Parse(old(received)).records + records
                 case Ok(None) => received == old(received)
                 case Err(e) => if e == Afk(InvalidData) then all.error.Some? else e.Os? && received == old(received)
    {
      hide NextOf, Parse;
      var capacity := decoder.RemainingCapacity();
      if capacity > IO_CHUNK_BYTES {
        capacity := IO_CHUNK_BYTES;
      }
      if capacity == 0 {
        assert false;
      }
      assert Parse(received).records + [] == Parse(received).records && received + [] == received;
      match read
      case ReadWouldBlock => return Ok(Some([]));
      case ReadInterrupted => return Ok(Some([]));
      case ReadEio => return Err(Os(Other));
      case ReadFailed(kind) =>
        if AttachmentClosed(kind) {
          return Ok(None);
        }
        return Err(Os(kind));
      case Data(offered) =>
        var bytes := Take(offered, capacity);
        if bytes == [] {
          return Ok(None);
        }
        var pushed := decoder.Push(bytes);
        if pushed.Err? {
          assert false;
        }
        ReceivedMore(received, bytes);
        received := received + bytes;
        var records := decoder.Drain();
        if records.Err? {
          return Err(Afk(InvalidData));
        }
        return Ok(Some(records.value));
    }

    /** Reads from the runner and shows what came. */
    method Receive(t: Tick) returns (o: Outcome)
      requires Showing()
      modifies this`received, this`shown, decoder
      ensures received == old(received) + Connection.Delivered(t.read, CapacityAfter(old(received)))
      ensures shown <= Printed(Parse(received).records)
      ensures o.Attached? ==> Showing()
      ensures o.Reported? ==> Finale(Parse(received).records, o.exit, shown)
      ensures o == Ended(Afk(InvalidData)) ==> Parse(received).error.Some? || Improper(Parse(received).records)
      ensures o == ReceiveOutcome(t, old(received))
      ensures shown == old(shown) + (match ListenOutcome(t.read, old(received))
                                     case Ok(Some(records)) => ShownBytes(records, t.terminal)
                                     case _ => [])
    {
      hide Printed, Parse, Take, ListenOutcome, ShownOutcome, ShownBytes;
      assert shown + [] == shown;
      ghost var before := Parse(received).records;
      var records := Listen(t.read);
      PrintedOfPrefix(before, Parse(received).records);
      if records.Err? {
        return Ended(records.error);
      }
      if records.value == None {
        return Detached;
      }
      var r, written, n := Show(records.value.value, t.terminal);
      ShownSoFar(before, records.value.value, n, written);
      shown := shown + written;
      match r
      case AllShown =>
        assert records.value.value[..n] == records.value.value;
        ParseSound(received);
        return Attached;
      case ExitShown(exit) =>
        assert FinaleAt(before + records.value.value, |before| + n, exit, shown);
        return Reported(exit);
      case Unexpected =>
        assert Parse(received).records[|before| + n] == records.value.value[n];
        return Ended(Afk(InvalidData));
      case TerminalFailed(kind) =>
        return Ended(Os(kind));
    }

    /** One iteration of the attach loop. */
    method Iterate(t: Tick) returns (o: Outcome)
      requires Valid()
      modifies this, socketOutput, decoder
      ensures Said(sent, wire) && old(sent) <= sent && shown <= Printed(Parse(received).records)
      ensures o.Attached? ==> Valid()
      ensures received == old(received) + ArrivingAt(t, old(received)) || (!o.Attached? && received == old(received))
      ensures stdinClosed == (old(stdinClosed) || t.input.InputClosed?) || !o.Attached?
      ensures Typed(sent) == Typed(old(sent)) + (if old(stdinClosed) then [] else ChunkOf(t))
              || (!o.Attached? && Typed(sent) == Typed(old(sent)))
      ensures o == NextOutcome(t, old(stdinClosed), old(socketOutput.bytes), old(received))
      // only a signal, a runner that has gone or the end of input detach; an interrupted poll ends nothing
      ensures t.signalled ==> o.Detached?
      ensures o.Detached? ==> MayDetach(t, old(stdinClosed) || t.input.InputClosed?)
      ensures o.Ended? ==> MayFail(t, |old(socketOutput.bytes)|, o.error)
      ensures Uneventful(t) && !old(stdinClosed)
              && |old(socketOutput.bytes)| + Demand(t) <= MAX_ATTACHMENT_QUEUE_BYTES ==>
                o.Attached?
      ensures o.Attached? ==>
                && sent == old(sent) + SpeechOf(t, old(stdinClosed))
                && socketOutput.bytes == QueueAfter(t, old(stdinClosed), old(socketOutput.bytes))
      ensures o.Reported? ==> Finale(Parse(received).records, o.exit, shown)
      ensures o == Ended(Afk(InvalidData)) ==> Parse(received).error.Some? || Improper(Parse(received).records)
    {
      hide Spoken, Typed, Printed, Showing, Finale, Improper, TakeOutcome, ReceiveOutcome, BQ.FlushOutcome, SpeechOf,
        EncodeAll, Parse, ListenOutcome, ShownBytes;
      ShowingIsPrefix();
      SpeakingIsSaid();
      TickMeans(t);
      assert received + [] == received;
      if t.signalled {
        return Detached;
      }
      var status := TakeInput(t);
      SpeakingIsSaid();
      if status.Failed? {
        return Ended(status.error);
      }
      match t.poll
      case PollInterrupted => return Attached;
      case PollFailed(kind) => return Ended(Os(kind));
      case Polled(writable, readable) =>
        if writable {
          status := FlushSocket(t.writes);
          SpeakingIsSaid();
          if status.Failed? {
            return if AttachmentClosed(status.error.kind) then Detached else Ended(status.error);
          }
        }
        if stdinClosed && socketOutput.bytes == [] {
          return Detached;
        }
        if readable {
          o := Receive(t);
          return;
        }
        return Attached;
    }

    lemma AmpleTick(t: Tick)
      requires Valid()
      ensures NextOutcome(t, stdinClosed, socketOutput.bytes, received) == Attached && Ample(t) ==>
                QueueAfter(t, stdinClosed, socketOutput.bytes) == []
    {
      hide NextOutcome, QueueAfter, Ample;
      AmpleEmpties(t, stdinClosed, socketOutput.bytes, received);
    }

    lemma TickMeans(t: Tick)
      requires Valid()
      ensures var o := NextOutcome(t, stdinClosed, socketOutput.bytes, received);
              && (t.signalled ==> o.Detached?)
              && (o.Detached? ==> MayDetach(t, stdinClosed || t.input.InputClosed?))
              && (o.Ended? ==> MayFail(t, |socketOutput.bytes|, o.error))
              && (Uneventful(t) && !stdinClosed
                  && |socketOutput.bytes| + Demand(t) <= MAX_ATTACHMENT_QUEUE_BYTES ==>
                    o.Attached?)
    {
      hide NextOutcome, ReceiveOutcome, MayDetach, MayFail, Demand, WritesGoOn, Parse;
      NextMeans(t, stdinClosed, socketOutput.bytes, received);
      ReceiveMeans(t, received);
    }

    lemma ShowingIsPrefix()
      requires Showing()
      ensures shown == Printed(Parse(received).records)
    {
    }

    lemma SpeakingIsSaid()
      requires Speaking()
      ensures Said(sent, wire) && (socketOutput.bytes == [] ==> wire == EncodeAll(sent))
    {
    }
  }

  /** What can be said of a finished attachment's sending side. */
  ghost predicate Said(sent: seq<Record>, wire: seq<Byte>) {
    AllWellFormed(sent) && ClientSpeech(sent) && wire <= EncodeAll(sent)
  }

  /** Some record is neither output nor exit. */
  ghost predicate Improper(rs: seq<Record>) {
    exists i | 0 <= i < |rs| :: !rs[i].Output? && !rs[i].Exit?
  }

  /** The exit came after output only, and all of that output is on the terminal. */
  ghost predicate Finale(rs: seq<Record>, exit: ProcessExit, shown: seq<Byte>) {
    exists k | 0 <= k < |rs| :: FinaleAt(rs, k, exit, shown)
  }

  ghost predicate FinaleAt(rs: seq<Record>, k: nat, exit: ProcessExit, shown: seq<Byte>)
    requires k < |rs|
  {
    rs[k] == Exit(exit) && (forall i | 0 <= i < k :: rs[i].Output?) && shown == Printed(rs[..k])
  }

  /** Showing a batch after everything before it. */
  lemma ShownSoFar(before: seq<Record>, records: seq<Record>, n: nat, written: seq<Byte>)
    requires n <= |records| && written <= Printed(records[..n])
    ensures Printed(before + records[..n]) == Printed(before) + Printed(records[..n])
    ensures Printed(before) + written <= Printed(before + records)
    ensures n < |records| ==> (before + records)[..|before| + n] == before + records[..n]
  {
    hide Printed;
    PrintedConcat(before, records[..n]);
    assert before + records[..n] <= before + records;
    PrintedOfPrefix(before + records[..n], before + records);
  }

  /**
    An attachment over any script of ticks. What goes out is one attach and then what was typed,
    in order; what is shown is a prefix of the output received. It ends with the reported exit
    only after showing all output before it, and rejects only what no runner says.
   */
  method AttachLive(windowSize: Option<(U16, U16)>, script: seq<Tick>)
    returns (outcome: Outcome, shown: seq<Byte>, received: seq<Byte>, wire: seq<Byte>, steps: nat,
             ghost sent: seq<Record>)
    ensures Said(sent, wire) && sent != [] && sent[0] == Attach(InitialSize(windowSize).0, InitialSize(windowSize).1)
    // `steps` ticks were begun, and the last of them decided how it ended
    ensures steps <= |script|
    ensures forall i | 0 <= i < steps - 1 :: OutcomeAt(InitialSize(windowSize), script, i) == Attached
    ensures outcome == (if steps == 0 then Attached else OutcomeAt(InitialSize(windowSize), script, steps - 1))
    ensures outcome.Attached? ==> steps == |script|
    // a signal ends it at once; otherwise only a runner that has gone or the end of standard input detach it
    ensures forall i | 0 <= i < steps - 1 :: !script[i].signalled
    ensures outcome.Attached? ==> forall i | 0 <= i < |script| :: !script[i].signalled
    ensures outcome.Detached? ==> steps > 0 && MayDetach(script[steps - 1], ClosedIn(script[..steps]))
    // while nothing happens, polls that are interrupted included, it stays attached
    ensures (forall i | 0 <= i < |script| :: Uneventful(script[i]))
            && TotalDemand(script) <= MAX_ATTACHMENT_QUEUE_BYTES ==>
              outcome.Attached?
    ensures Typed(sent) <= TypedIn(script)
    ensures received <= ReceivedIn(script) && shown <= Printed(Parse(received).records)
    ensures outcome.Attached? ==> received == ReceivedIn(script)
    ensures outcome.Attached? ==> Typed(sent) == TypedIn(script) && shown == Printed(Parse(received).records)
    // after a tick in which the socket takes everything, all that was typed is on its way
    ensures outcome.Attached? && script != [] && Ample(script[|script| - 1]) ==> wire == EncodeAll(sent)
    ensures outcome.Reported? ==> Finale(Parse(received).records, outcome.exit, shown)
    ensures outcome == Ended(Afk(InvalidData)) ==> Parse(received).error.Some? || Improper(Parse(received).records)
  {
    hide Printed, Parse, Finale, Improper, ArrivingAt, WindowSize, OnTrack, ReceivedIn, TypedIn, ClosedIn, ChunkOf,
      Typed, Said, NextOutcome, QueueAfter, QueueIn, OutcomeAt, SpeechOf, MayDetach, MayFail, Uneventful, Demand,
      TotalDemand, Ample;
    var size := InitialSize(windowSize);
    var a := new Attachment(size);
    outcome, steps := Attached, 0;
    OnTrackStarts(size, script);
    DemandGrows(script, 0);
    StartsSmall(size);
    NeverClosed(script);
    while steps < |script|
      invariant steps <= |script| && a.Valid()
      invariant fresh(a) && fresh(a.socketOutput) && fresh(a.decoder)
      invariant a.sent != [] && a.sent[0] == Attach(size.0, size.1)
      invariant OnTrack(size, a.sent, a.received, a.stdinClosed, a.socketOutput.bytes, script, steps)
      invariant forall i | 0 <= i < steps :: OutcomeAt(size, script, i) == Attached && !script[i].signalled
      invariant |a.socketOutput.bytes| <= TotalDemand(script[..steps])
      invariant steps > 0 && Ample(script[steps - 1]) ==> a.socketOutput.bytes == []
    {
      ghost var sentBefore, receivedBefore := a.sent, a.received;
      ghost var closedBefore, queueBefore := a.stdinClosed, a.socketOutput.bytes;
      DemandGrows(script, steps);
      a.AmpleTick(script[steps]);
      outcome := a.Iterate(script[steps]);
      QueueMeets(script[steps], closedBefore, queueBefore);
      OnTrackCloses(size, sentBefore, receivedBefore, closedBefore, queueBefore, script, steps);
      OnTrackStep(size, sentBefore, a.sent, receivedBefore, a.received, closedBefore, a.stdinClosed,
                  queueBefore, a.socketOutput.bytes, script, steps, outcome.Attached?);
      steps := steps + 1;
      if !outcome.Attached? {
        return outcome, a.shown, a.received, a.wire, steps, a.sent;
      }
    }
    OnTrackEnds(size, a.sent, a.received, a.stdinClosed, a.socketOutput.bytes, script);
    a.ShowingIsPrefix();
    a.SpeakingIsSaid();
    return Attached, a.shown, a.received, a.wire, steps, a.sent;
  }

  /** After `i` ticks everything typed has been queued and everything that arrived has been read. */
  ghost predicate OnTrack(size: (U16, U16), sent: seq<Record>, received: seq<Byte>, closed: bool, queue: seq<Byte>,
                          script: seq<Tick>, i: nat)
    requires i <= |script|
  {
    && Typed(sent) == TypedIn(script[..i]) && received == ReceivedIn(script[..i])
    && closed == ClosedIn(script[..i]) && queue == QueueIn(size, script[..i])
  }

  lemma StartsSmall(size: (U16, U16))
    requires ValidDimension(size.0) && ValidDimension(size.1)
    ensures |EncodeBytes(Attach(size.0, size.1))| == 9 == TotalDemand([])
  {
  }

  lemma NeverClosed(script: seq<Tick>)
    ensures (forall i | 0 <= i < |script| :: Uneventful(script[i])) ==>
              forall i | 0 <= i <= |script| :: !ClosedIn(script[..i])
  {
  }

  lemma OnTrackCloses(size: (U16, U16), sent: seq<Record>, received: seq<Byte>, closed: bool, queue: seq<Byte>,
                      script: seq<Tick>, i: nat)
    requires i < |script| && OnTrack(size, sent, received, closed, queue, script, i)
    ensures closed == ClosedIn(script[..i])
    ensures ClosedIn(script[..i + 1]) == (closed || script[i].input.InputClosed?)
  {
    TypedStep(script, i);
  }

  lemma QueueMeets(t: Tick, closed: bool, queue: seq<Byte>)
    ensures |QueueAfter(t, closed, queue)| <= |queue| + Demand(t)
  {
    hide BQ.FlushIf;
    SpeechEncoded(t, closed);
  }

  lemma OnTrackStarts(size: (U16, U16), script: seq<Tick>)
    ensures OnTrack(size, [Attach(size.0, size.1)], [], false, EncodeBytes(Attach(size.0, size.1)), script, 0)
  {
    assert [] + [Attach(size.0, size.1)] == [Attach(size.0, size.1)];
    TypedAppend([], Attach(size.0, size.1));
  }

  lemma OnTrackStep(size: (U16, U16), sent: seq<Record>, sent': seq<Record>, received: seq<Byte>, received': seq<Byte>,
                    closed: bool, closed': bool, queue: seq<Byte>, queue': seq<Byte>,
                    script: seq<Tick>, i: nat, attached: bool)
    requires i < |script| && OnTrack(size, sent, received, closed, queue, script, i)
    requires closed' == (closed || script[i].input.InputClosed?) || !attached
    requires Typed(sent') == Typed(sent) + (if closed then [] else ChunkOf(script[i]))
             || (!attached && Typed(sent') == Typed(sent))
    requires received' == received + ArrivingAt(script[i], received) || (!attached && received' == received)
    requires queue' == QueueAfter(script[i], closed, queue) || !attached
    ensures attached ==> OnTrack(size, sent', received', closed', queue', script, i + 1)
    ensures Typed(sent') <= TypedIn(script) && received' <= ReceivedIn(script)
    ensures OutcomeAt(size, script, i) == NextOutcome(script[i], closed, queue, received)
  {
    hide Typed, ArrivingAt, ChunkOf, QueueAfter, NextOutcome;
    TypedStep(script, i);
    ReceivedStep(script, i);
    QueueStep(size, script, i);
    TypedGrows(script, i);
    TypedGrows(script, i + 1);
    ReceivedGrows(script, i);
    ReceivedGrows(script, i + 1);
  }

  lemma OnTrackEnds(size: (U16, U16), sent: seq<Record>, received: seq<Byte>, closed: bool, queue: seq<Byte>,
                   script: seq<Tick>)
    requires OnTrack(size, sent, received, closed, queue, script, |script|)
    ensures Typed(sent) == TypedIn(script) && received == ReceivedIn(script)
  {
    assert script[..|script|] == script;
  }

  lemma QueueStep(size: (U16, U16), script: seq<Tick>, i: nat)
    requires i < |script|
    ensures QueueIn(size, script[..i + 1]) == QueueAfter(script[i], ClosedIn(script[..i]), QueueIn(size, script[..i]))
  {
    hide QueueAfter, ClosedIn;
    assert script[..i + 1][..i] == script[..i];
  }

  lemma TypedStep(script: seq<Tick>, i: nat)
    requires i < |script|
    ensures TypedIn(script[..i + 1]) ==
        TypedIn(script[..i]) + (if ClosedIn(script[..i]) then [] else ChunkOf(script[i]))
    ensures ClosedIn(script[..i + 1]) == (ClosedIn(script[..i]) || script[i].input.InputClosed?)
  {
    assert script[..i + 1][..i] == script[..i];
    assert script[..i + 1] == script[..i] + [script[i]];
    if ClosedIn(script[..i]) {
      var k :| 0 <= k < i && script[..i][k].input.InputClosed?;
      assert script[..i + 1][k].input.InputClosed?;
    }
    if script[i].input.InputClosed? {
      assert script[..i + 1][i].input.InputClosed?;
    }
  }

  lemma {:induction false} TypedGrows(script: seq<Tick>, i: nat)
    requires i <= |script|
    ensures TypedIn(script[..i]) <= TypedIn(script)
    decreases |script| - i
  {
    if i < |script| {
      TypedStep(script, i);
      TypedGrows(script, i + 1);
    } else {
      assert script[..i] == script;
    }
  }

  lemma ReceivedStep(script: seq<Tick>, i: nat)
    requires i < |script|
    ensures ReceivedIn(script[..i + 1]) == ReceivedIn(script[..i]) + ArrivingAt(script[i], ReceivedIn(script[..i]))
  {
    assert script[..i + 1][..i] == script[..i];
  }

  lemma {:induction false} ReceivedGrows(script: seq<Tick>, i: nat)
    requires i <= |script|
    ensures ReceivedIn(script[..i]) <= ReceivedIn(script)
    decreases |script| - i
  {
    if i < |script| {
      ReceivedStep(script, i);
      ReceivedGrows(script, i + 1);
    } else {
      assert script[..i] == script;
    }
  }
}
