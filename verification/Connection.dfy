/** One peer of the runner: its incoming records and its queued output (src/runner.rs, lines 422-497 and 558-572). */
module Connection {
  import opened Limits
  import opened Bytes
  import opened Io
  import opened Ipc
  import opened Transcript
  import BQ = ByteQueue
  import OT = OutputTail

  /** The room `n` bytes of output take in a queue: one header for every started payload. */
  function Cost(n: nat): nat {
    n + IPC_HEADER_BYTES * ((n + MAX_IPC_PAYLOAD_BYTES - 1) / MAX_IPC_PAYLOAD_BYTES)
  }

  lemma CostStep(n: nat)
    requires n > 0
    ensures var first := if n <= MAX_IPC_PAYLOAD_BYTES then n else MAX_IPC_PAYLOAD_BYTES;
            Cost(n) == first + IPC_HEADER_BYTES + Cost(n - first)
  {
  }

  lemma CostNothing()
    ensures Cost(0) == 0
  {
  }

  /** Marker and tail together stay far below the queue limit. */
  lemma ReplayFits(n: nat)
    requires n <= OUTPUT_TAIL_BYTES
    ensures |OT.TRUNCATION_MARKER| == 48
    ensures Cost(48) + Cost(n) <= MAX_ATTACHMENT_QUEUE_BYTES
  {
    hide Ascii;
    OT.MarkerLength();
    assert (n + MAX_IPC_PAYLOAD_BYTES - 1) / MAX_IPC_PAYLOAD_BYTES <= 4;
  }

  /** The records that carry some output: as few as the payload limit allows. */
  function Outputs(data: seq<Byte>): (rs: seq<Record>)
    ensures AllWellFormed(rs) && forall i | 0 <= i < |rs| :: rs[i].Output?
    decreases |data|
  {
    if data == [] then [] else
    var chunk := Take(data, MAX_IPC_PAYLOAD_BYTES);
    [Output(chunk)] + Outputs(data[|chunk|..])
  }

  class Connection {
    /** The position of this connection among all that were ever accepted. */
    ghost const id: nat
    const decoder: Decoder
    const output: BQ.ByteQueue
    ghost var story: Story

    ghost function Repr(): set<object> {
      {this, decoder, output}
    }

    /** The queue holds exactly what was queued and not written, the decoder what was read and not decoded. */
    ghost predicate Sound()
      reads Repr()
    {
      && output.Valid() && output.limit == MAX_ATTACHMENT_QUEUE_BYTES
      && Wired(story, output.bytes)
      && Parse(story.received).error == None && Parse(story.received).rest == decoder.buffer
      && decoder.Drained()
    }

    constructor (ghost id: nat)
      ensures Sound() && this.id == id && story == NEW_STORY && output.bytes == []
      ensures fresh(Repr())
    {
      this.id := id;
      decoder := new Decoder();
      output := new BQ.ByteQueue(MAX_ATTACHMENT_QUEUE_BYTES);
      story := NEW_STORY;
      new;
      ParseEmpty();
    }

    /** One nonblocking read and the records it completes, or the error that ends the connection. */
    method ReadRecords(read: ReadResult) returns (r: IoResult<seq<Record>>)
      requires Sound()
      modifies this, decoder
      ensures story == old(story).(received := story.received) && old(story.received) <= story.received
      ensures story.received == old(story.received) + Delivered(read, old(decoder.RemainingCapacity()))
      ensures r.Ok? ==> Sound() && Parse(story.received).records == Parse(old(story.received)).records + r.value
      ensures r.Err? <==> ReadEnds(read, old(decoder.RemainingCapacity())) || Parse(story.received).error.Some?
      // what is read: as much as was sent and the buffer, or the decoder, has room for; nothing at all is the end
      ensures var more := story.received[|old(story.received)|..];
              match read
              case Data(sent) =>
                if sent == [] then more == [] && r == Err(Afk(UnexpectedEof)) else
                && more <= sent && 0 < |more| <= 0x4000 && |old(decoder.buffer)| + |more| <= 65541
                && (|more| == |sent| || |more| == 0x4000 || |old(decoder.buffer)| + |more| == 65541)
                && (r.Err? ==> r == Err(Afk(InvalidData)) && Parse(story.received).error.Some?)
              case ReadWouldBlock => more == [] && r == Ok([])
              case ReadInterrupted => more == [] && r == Ok([])
              case ReadEio => more == [] && r == Err(Os(Other))
              case ReadFailed(kind) => more == [] && r == Err(Os(kind))
      ensures output.bytes == old(output.bytes)
    {
      var capacity := decoder.RemainingCapacity();
      if capacity > IO_CHUNK_BYTES {
        capacity := IO_CHUNK_BYTES;
      }
      if capacity == 0 {
        assert false;
      }
      assert Parse(story.received + []).error == None by { assert story.received + [] == story.received; }
      match read
      case ReadWouldBlock => return Ok([]);
      case ReadInterrupted => return Ok([]);
      case ReadEio => return Err(Os(Other));
      case ReadFailed(kind) => return Err(Os(kind));
      case Data(offered) =>
        var bytes := Take(offered, capacity);
        if bytes == [] {
          return Err(Afk(UnexpectedEof));
        }
        var pushed := decoder.Push(bytes);
        if pushed.Err? {
          assert false;
        }
        ReceivedMore(story.received, bytes);
        story := story.(received := story.received + bytes);
        var records := decoder.Drain();
        if records.Err? {
          return Err(Afk(InvalidData));
        }
        return Ok(records.value);
    }

    /** One output record behind everything queued so far, or nothing at all when it does not fit. */
    method SendOutput(chunk: seq<Byte>) returns (ok: bool)
      requires Sound() && |chunk| <= MAX_IPC_PAYLOAD_BYTES
      modifies this, output
      ensures Sound()
      ensures story == old(story).(sent := story.sent)
      ensures ok <==> |old(output.bytes)| + IPC_HEADER_BYTES + |chunk| <= MAX_ATTACHMENT_QUEUE_BYTES
      ensures ok ==> story.sent == old(story.sent) + [Output(chunk)]
      ensures ok ==> Printed(story.sent) == Printed(old(story.sent)) + chunk
                     && |output.bytes| == |old(output.bytes)| + IPC_HEADER_BYTES + |chunk|
      ensures !ok ==> story == old(story) && output.bytes == old(output.bytes)
    {
      WiredSend(story, output.bytes, Output(chunk));
      PrintedAppend(story.sent, Output(chunk));
      ok := output.Push(EncodeBytes(Output(chunk)));
      if ok {
        story := story.(sent := story.sent + [Output(chunk)]);
      }
    }

    /** Queues output as records, chunk by chunk, until it is all queued or the queue is full. */
    method EnqueueOutput(data: seq<Byte>) returns (r: Status)
      requires Sound()
      modifies this, output
      ensures Sound()
      ensures story == old(story).(sent := story.sent)
      ensures Printed(story.sent) <= Printed(old(story.sent)) + data
      ensures r.Done? ==> story.sent == old(story.sent) + Outputs(data)
      ensures r.Done? ==> Printed(story.sent) == Printed(old(story.sent)) + data
      ensures r.Done? ==> |output.bytes| == |old(output.bytes)| + Cost(|data|)
      ensures r.Done? <==> |old(output.bytes)| + Cost(|data|) <= MAX_ATTACHMENT_QUEUE_BYTES
      ensures r.Failed? ==> r.error == Afk(WouldBlock)
    {
      hide Cost, Printed, Wired;
      var rest := data;
      while rest != []
        invariant Sound()
        invariant story == old(story).(sent := story.sent)
        invariant story.sent + Outputs(rest) == old(story.sent) + Outputs(data)
        invariant Printed(story.sent) + rest == Printed(old(story.sent)) + data
        invariant |output.bytes| + Cost(|rest|) == |old(output.bytes)| + Cost(|data|)
        decreases |rest|
      {
        var chunk := Take(rest, MAX_IPC_PAYLOAD_BYTES);
        CostStep(|rest|);
        assert rest == chunk + rest[|chunk|..];
        ghost var said := story.sent;
        assert said + Outputs(rest) == said + [Output(chunk)] + Outputs(rest[|chunk|..]);
        var sent := SendOutput(chunk);
        if !sent {
          return Failed(Afk(WouldBlock));
        }
        rest := rest[|chunk|..];
      }
      CostNothing();
      assert story.sent + [] == story.sent;
      return Done;
    }

    /** The marker if output has been lost, then the tail. On a fresh queue this always fits. */
    method EnqueueReplay(tail: OT.OutputTail) returns (r: Status)
      requires Sound() && tail.Valid() && tail.capacity == OUTPUT_TAIL_BYTES
      modifies this, output
      ensures Sound()
      ensures story == old(story).(sent := story.sent)
      ensures Printed(story.sent) <= Printed(old(story.sent)) + Replay(tail.fed)
      ensures r.Done? ==> Printed(story.sent) == Printed(old(story.sent)) + Replay(tail.fed)
      ensures r.Done? ==>
                story.sent == old(story.sent)
                              + Outputs(if |tail.fed| > OUTPUT_TAIL_BYTES then OT.TRUNCATION_MARKER else [])
                              + Outputs(LastN(tail.fed, OUTPUT_TAIL_BYTES))
      ensures old(output.bytes) == [] ==> r.Done?
    {
      hide Cost, Printed, Wired, Ascii;
      ghost var before := Printed(story.sent);
      ReplayFits(|tail.bytes|);
      assert story.sent + [] == story.sent;
      if tail.truncated {
        r := EnqueueOutput(OT.TRUNCATION_MARKER);
        if r.Failed? {
          return;
        }
      }
      var snapshot := tail.Snapshot();
      assert before + Replay(tail.fed) == Printed(story.sent) + snapshot;
      r := EnqueueOutput(snapshot);
    }

    /** Writes queued output to the peer. */
    method FlushOutput(script: seq<WriteResult>) returns (status: Status)
      requires Sound()
      modifies this, output
      ensures Sound()
      ensures var f := BQ.FlushOutcome(old(output.bytes), script);
              status == f.status && story == old(story).(wire := old(story.wire) + old(output.bytes)[..f.count])
              && output.bytes == old(output.bytes)[f.count..]
    {
      hide BQ.FlushOutcome, EncodeAll, Parse;
      ghost var queued := output.bytes;
      var written;
      written, status := output.Flush(script);
      story := story.(wire := story.wire + written);
      assert old(story.wire) + queued == story.wire + output.bytes;
      assert written == queued[..|written|] && output.bytes == queued[|written|..];
    }

    /**
      The last word to an attachment: how the process exited, behind everything queued, and one
      more flush. It is left out when the queue is full.
     */
    method SendExit(exit: ProcessExit, script: seq<WriteResult>) returns (said: bool)
      requires Sound() && WellFormed(Exit(exit))
      modifies this, output
      ensures said <==> |old(output.bytes)| + IPC_HEADER_BYTES + 2 <= MAX_ATTACHMENT_QUEUE_BYTES
      ensures RunnerSpeech(story.sent) && story.wire <= EncodeAll(story.sent)
      ensures var all := old(output.bytes) + EncodeBytes(Exit(exit));
              story == old(story).(
                sent := old(story.sent) + (if said then [Exit(exit)] else []),
                wire := old(story.wire) + (if said then all[..BQ.FlushOutcome(all, script).count] else []))
    {
      hide BQ.FlushOutcome, EncodeAll;
      WiredSend(story, output.bytes, Exit(exit));
      WiredIsOk(story, output.bytes);
      assert story.sent + [] == story.sent && story.wire + [] == story.wire;
      said := output.Push(EncodeBytes(Exit(exit)));
      if said {
        story := story.(sent := story.sent + [Exit(exit)]);
        ghost var queued := output.bytes;
        var written, status := output.Flush(script);
        assert story.wire + queued == story.wire + written + output.bytes;
        assert written == queued[..|written|];
        story := story.(wire := story.wire + written);
      }
    }
  }

  /** What a read call puts into the buffer. */
  function Delivered(read: ReadResult, capacity: nat): seq<Byte> {
    match read
    case Data(offered) => Take(offered, if capacity <= IO_CHUNK_BYTES then capacity else IO_CHUNK_BYTES)
    case _ => []
  }

  /** End of file, or a failure that is not just a reason to try again. */
  predicate ReadEnds(read: ReadResult, capacity: nat) {
    match read
    case Data(offered) => Delivered(read, capacity) == []
    case ReadWouldBlock => false
    case ReadInterrupted => false
    case ReadEio => true
    case ReadFailed(_) => true
  }

  /** Reading ends a connection exactly at the end of file and when the call fails, as long as there is room to read. */
  lemma ReadEndsWhen(read: ReadResult, capacity: nat)
    requires capacity > 0
    ensures ReadEnds(read, capacity) <==> read == Data([]) || read.ReadEio? || read.ReadFailed?
    ensures Delivered(read, capacity) == [] <==> !(read.Data? && read.offered != [])
  {
  }
}
