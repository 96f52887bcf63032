/**
  What the two ends promise each other. A session transcript that is in order (every run of
  `Runner.Run` ends with one) on one side, an attachment (`Attachment.AttachLive`) on the other,
  and between them a socket that delivers a prefix of what was written to it.
 */
module EndToEnd {
  import opened Limits
  import opened Bytes
  import opened Io
  import opened Ipc
  import opened Transcript
  import opened Attachment
  import Connection
  import T = Ticks
  import V = Tenures
  import R = Registry
  import S = Session

  // ---------------------------------------------------------------- output

  /** Whatever part of a connection's wire has arrived, it decodes to records the runner queued, without error. */
  lemma ArrivedIsSpeech(c: Story, received: seq<Byte>)
    requires RunnerSpeech(c.sent) && c.wire <= EncodeAll(c.sent)
    requires received <= c.wire
    ensures Parse(received).error == None && Parse(received).records <= c.sent
    ensures !Improper(Parse(received).records)
  {
    ParseOfPrefix(received, c.sent);
    var rs := Parse(received).records;
    forall i | 0 <= i < |rs| ensures rs[i].Output? || rs[i].Exit? {
      assert rs[i] == c.sent[i];
    }
  }

  /**
    End-to-end output: an attachment shows a prefix of what it is due, namely the marker if output
    had been lost by then, the tail at the time it attached, and every byte read since; nothing is
    missing in between, repeated or out of order.
   */
  lemma ShownIsDue(s: Transcript.Session, queued: seq<Byte>, i: nat, received: seq<Byte>, shown: seq<Byte>)
    requires Transcript.Ok(s, queued) && i < |s.stories|
    requires received <= s.stories[i].wire
    requires shown <= Printed(Parse(received).records)
    ensures match s.stories[i].attachedAt
            case None => shown == []
            case Some(at) => at <= |s.ptyRead| && shown <= Due(s.ptyRead, at)
  {
    var c := s.stories[i];
    assert StoryOk(c, s.ptyRead);
    ArrivedIsSpeech(c, received);
    PrintedOfPrefix(Parse(received).records, c.sent);
  }

  /** An attachment that ends with a reported exit has shown all it was due, up to the last byte the PTY gave. */
  lemma ExitComesLast(s: Transcript.Session, queued: seq<Byte>, i: nat, received: seq<Byte>, shown: seq<Byte>,
      exit: ProcessExit)
    requires Transcript.Ok(s, queued) && i < |s.stories|
    requires received <= s.stories[i].wire
    requires Finale(Parse(received).records, exit, shown)
    ensures s.stories[i].sent != [] && s.stories[i].sent[|s.stories[i].sent| - 1] == Exit(exit)
    ensures s.stories[i].attachedAt.Some? && s.stories[i].attachedAt.value <= |s.ptyRead|
    ensures shown == Due(s.ptyRead, s.stories[i].attachedAt.value)
  {
    hide Due, TypedLog, Project, Parse, Printed, EncodeAll;
    var c, rs := s.stories[i], Parse(received).records;
    assert StoryOk(c, s.ptyRead);
    ArrivedIsSpeech(c, received);
    var k :| 0 <= k < |rs| && FinaleAt(rs, k, exit, shown);
    assert c.sent[k] == rs[k] == Exit(exit);
    assert k == |c.sent| - 1;
    assert rs[..k] == c.sent[..k] && c.sent == c.sent[..k] + [Exit(exit)];
    PrintedAppend(c.sent[..k], Exit(exit));
  }

  /**
    The converse of `ExitComesLast`: the read that brings the last of what a runner announced reports
    the exit, provided that the terminal takes the output that comes with it.
   */
  lemma ExitIsReported(s: Transcript.Session, queued: seq<Byte>, i: nat, t: Tick, received: seq<Byte>)
    requires Transcript.Ok(s, queued) && i < |s.stories| && Finished(s.stories[i].sent)
    requires s.stories[i].wire == EncodeAll(s.stories[i].sent)
    requires received < s.stories[i].wire && t.read.Data? && t.terminal.Open?
    requires received + Connection.Delivered(t.read, CapacityAfter(received)) == s.stories[i].wire
    ensures ReceiveOutcome(t, received) == Reported(s.stories[i].sent[|s.stories[i].sent| - 1].exit)
  {
    hide Due, TypedLog, Project, Printed, EncodeAll, Parse, CapacityAfter;
    var c, bytes := s.stories[i], Connection.Delivered(t.read, CapacityAfter(received));
    assert StoryOk(c, s.ptyRead);
    ParseOfPrefix(received, c.sent);
    ParseOfPrefix(c.wire, c.sent);
    ReceivedMore(received, bytes);
    ParseSound(received);
    var before, rs := Parse(received).records, Batch(received, bytes).records;
    assert c.sent == before + rs;
    assert before == c.sent ==> |received| >= |c.wire|;
    assert rs[|rs| - 1] == c.sent[|c.sent| - 1];
    assert forall k | 0 <= k < |rs| - 1 :: rs[k] == c.sent[|before| + k];
    LeadingUpTo(rs, |rs| - 1);
  }

  lemma LeadingUpTo(rs: seq<Record>, n: nat)
    requires n < |rs| && !rs[n].Output? && forall k | 0 <= k < n :: rs[k].Output?
    ensures Leading(rs) == n
  {
  }

  /**
    The exit of a completed session reaches its attachment: `leaving` is what a completed run leaves
    (`Runner.Run`). If the queue had room for the last output and the last flushes were taken, then all
    of it is on the wire with the exit behind it, and the read that brings the last of it reports the exit.
   */
  lemma CompletionIsReported(s: Transcript.Session, queued: seq<Byte>, leaving: T.Leaving, drained: bool,
                             exit: ProcessExit, e: T.Closing, t: Tick, received: seq<Byte>)
    requires Transcript.Ok(s, queued) && WellFormed(Exit(exit))
    requires T.GivenTheRest(leaving, s.stories, drained, exit, e)
    requires var chunks := if drained then T.DrainOf(e.ptyReads, 0).chunks else [];
             && |Backlog(leaving.story)| + T.ChunksCost(chunks) <= MAX_ATTACHMENT_QUEUE_BYTES
             && T.Told(T.Fed(leaving.story, chunks), exit, e)
    requires received < s.stories[leaving.id].wire && t.read.Data? && t.terminal.Open?
    requires received + Connection.Delivered(t.read, CapacityAfter(received)) == s.stories[leaving.id].wire
    ensures ReceiveOutcome(t, received) == Reported(exit)
  {
    hide Backlog, T.Told, T.ChunksCost, T.DrainOf, Wired, ReceiveOutcome, CapacityAfter, EncodeAll;
    var chunks := if drained then T.DrainOf(e.ptyReads, 0).chunks else [];
    var c := T.Fed(leaving.story, chunks);
    if drained {
      V.FedIsWired(leaving.story, e.ptyReads);
    } else {
      T.FedNothing(leaving.story);
    }
    T.ToldIsComplete(c, exit, e);
    var sent := s.stories[leaving.id].sent;
    assert sent == c.sent + [Exit(exit)] && sent[|sent| - 1] == Exit(exit);
    ExitIsReported(s, queued, leaving.id, t, received);
  }

  /**
    The exit reaches the wire: if the queue of the attachment that a completed run leaves has room for the last
    output, and its socket takes what it is given, then its wire is all it was sent with the exit at the end.
   */
  lemma ExitIsDelivered(s: Transcript.Session, leaving: T.Leaving, drained: bool, exit: ProcessExit, e: T.Closing)
    requires WellFormed(Exit(exit)) && T.GivenTheRest(leaving, s.stories, drained, exit, e)
    requires var chunks := if drained then T.DrainOf(e.ptyReads, 0).chunks else [];
             && |Backlog(leaving.story)| + T.ChunksCost(chunks) <= MAX_ATTACHMENT_QUEUE_BYTES
             && T.TakesAll(e.firstFlush, MAX_ATTACHMENT_QUEUE_BYTES) && T.TakesAll(e.lastFlush, 7)
    ensures var chunks := if drained then T.DrainOf(e.ptyReads, 0).chunks else [];
            var sent := leaving.story.sent + T.RecordsOf(chunks) + [Exit(exit)];
            AllWellFormed(sent) && s.stories[leaving.id].sent == sent && s.stories[leaving.id].wire == EncodeAll(sent)
  {
    hide Backlog, T.Told, T.ChunksCost, T.DrainOf, T.RecordsOf, Wired, EncodeAll;
    var chunks := if drained then T.DrainOf(e.ptyReads, 0).chunks else [];
    if drained {
      V.FedIsWired(leaving.story, e.ptyReads);
    } else {
      T.FedNothing(leaving.story);
    }
    var c := T.Fed(leaving.story, chunks);
    T.FarewellTold(c, exit, e);
    T.ToldIsComplete(c, exit, e);
  }

  /**
    Exact delivery: an attachment whose queue is written out (`Runner.Run` promises that after every
    tick in which its socket takes it), and that has received all of it, has been given everything that
    was due to it by then, to the last byte the PTY gave.
   */
  lemma ServedSeesAll(c: Story, pty: seq<Byte>, received: seq<Byte>)
    requires UpToDate(c, pty) && StoryOk(c, pty) && AllOut(c) && c.wire != [] && received == c.wire
    ensures Parse(received).error == None && Printed(Parse(received).records) == Due(pty, c.attachedAt.value)
  {
    ParseOfPrefix(received, c.sent);
  }

  /** No attachment ever finds fault with what a runner sent it. */
  lemma NeverInvalid(s: Transcript.Session, queued: seq<Byte>, i: nat, received: seq<Byte>, outcome: Outcome)
    requires Transcript.Ok(s, queued) && i < |s.stories|
    requires received <= s.stories[i].wire
    requires outcome == Ended(Afk(InvalidData)) ==> Parse(received).error.Some? || Improper(Parse(received).records)
    ensures outcome != Ended(Afk(InvalidData))
  {
    assert StoryOk(s.stories[i], s.ptyRead);
    ArrivedIsSpeech(s.stories[i], received);
  }

  // ---------------------------------------------------------------- input

  /**
    End-to-end input: of a connection that runs the attach loop, the runner lets take effect
    a prefix, in whole records, of what the attachment queued, so its share of the input log is
    a prefix of what was typed there; and decoding its stream never fails.
   */
  lemma TypedArrives(s: Transcript.Session, queued: seq<Byte>, i: nat, sent: seq<Record>, wire: seq<Byte>)
    requires Transcript.Ok(s, queued) && i < |s.stories|
    requires Said(sent, wire) && s.stories[i].received <= wire
    ensures Parse(s.stories[i].received).error == None
    ensures Project(s.log, i) <= sent
    ensures Typed(Project(s.log, i)) <= Typed(sent)
  {
    var c := s.stories[i];
    assert StoryOk(c, s.ptyRead) && Project(s.log, i) == c.applied;
    ParseOfPrefix(c.received, sent);
    TypedOfPrefix(c.applied, sent);
  }

  /** The shares that the first `n` connections have in the input log. */
  function Shares(log: seq<Effect>, n: nat): multiset<Byte> {
    if n == 0 then multiset{} else Shares(log, n - 1) + multiset(Typed(Project(log, n - 1)))
  }

  lemma {:induction false} SharesAppend(log: seq<Effect>, e: Effect, n: nat)
    ensures Shares(log + [e], n) ==
            Shares(log, n) + (if e.id < n then multiset(Typed([e.record])) else multiset{})
  {
    hide Typed, Project;
    if n == 0 {
    } else {
      SharesAppend(log, e, n - 1);
      LogAppend(log, e);
      var share := Project(log, n - 1);
      TypedOne(share, e.record);
      assert share + [] == share;
      assert Project(log + [e], n - 1) == share + (if e.id == n - 1 then [e.record] else []);
      assert multiset(Typed(share) + Typed([e.record])) == multiset(Typed(share)) + multiset(Typed([e.record]));
    }
  }

  lemma TypedOne(rs: seq<Record>, r: Record)
    ensures Typed(rs + [r]) == Typed(rs) + Typed([r])
    ensures Typed([r]) == (match r case Input(bytes) => bytes case _ => [])
  {
    TypedAppend(rs, r);
    TypedAppend([], r);
    assert [] + [r] == [r];
  }

  lemma {:induction false} LogIsShared(log: seq<Effect>, n: nat)
    requires forall k | 0 <= k < |log| :: log[k].id < n
    ensures multiset(TypedLog(log)) == Shares(log, n)
  {
    if log == [] {
      NothingShared(n);
    } else {
      var front, e := log[..|log| - 1], log[|log| - 1];
      assert log == front + [e];
      LogIsShared(front, n);
      SharesAppend(front, e, n);
      LogAppend(front, e);
      TypedOne([], e.record);
    }
  }

  lemma {:induction false} NothingShared(n: nat)
    ensures Shares([], n) == multiset{}
  {
    if n == 0 {
    } else {
      NothingShared(n - 1);
    }
  }

  /**
    Conservation of input: what reached the PTY and what is still queued for it is, byte by byte and
    no more, what the connections contributed, in the order in which it took effect.
   */
  lemma PtyGetsTheLog(s: Transcript.Session, queued: seq<Byte>)
    requires Transcript.Ok(s, queued)
    ensures s.ptyWritten <= TypedLog(s.log)
    ensures queued == [] ==> s.ptyWritten == TypedLog(s.log)
    ensures multiset(s.ptyWritten) + multiset(queued) == Shares(s.log, |s.stories|)
  {
    LogIsShared(s.log, |s.stories|);
    assert multiset(s.ptyWritten + queued) == multiset(s.ptyWritten) + multiset(queued);
    if queued == [] {
      assert s.ptyWritten + queued == s.ptyWritten;
    }
  }

  // ---------------------------------------------------------------- completed sessions

  /**
    Attaching after the end shows what attaching at the end would have shown: the replay of a
    completed session is the replay of its whole output, and it returns the process's exit.
   */
  lemma CompletedReplayIsLiveReplay(d: R.Disk, id: R.Identity.SessionId, pty: seq<Byte>, exit: ProcessExit,
                                    startedAt: nat, finishedAt: nat, r: Io.IoResult<ProcessExit>, printed: seq<Byte>)
    requires var output := LastN(pty, OUTPUT_TAIL_BYTES);
             R.Committed(d, id, output, R.Completed(R.Identity.Hex(id), startedAt, finishedAt, R.ToMetadata(exit),
                 |output|, |pty| > OUTPUT_TAIL_BYTES))
    requires S.ReplaysCompleted(d, id, r, printed)
    ensures printed == Replay(pty) == Due(pty, |pty|)
    ensures r == Ok(exit)
  {
    hide Ascii, R.Identity.Hex;
    R.ExitSurvivesMetadata(exit, R.ToMetadata(exit));
    assert pty[..|pty|] == pty && Replay(pty) + pty[|pty|..] == Replay(pty);
  }

  /** A committed record is readable together with its output, whose recorded size is right. */
  lemma CommittedIsReadable(d: R.Disk, id: R.Identity.SessionId, output: seq<Byte>, m: R.SessionMetadata)
    requires R.Committed(d, id, output, m)
    requires m.Completed? && m.sessionId == R.Identity.Hex(id) && m.outputBytes == |output| <= OUTPUT_TAIL_BYTES
    ensures R.ReadMetadata(d, id) == Ok(Some(m)) && R.ReadOutput(d, id) == Ok(Some(output))
    ensures m.outputBytes == |R.ReadOutput(d, id).value.value|
  {
  }

  /** A completed session is retained for as long as no clock reads past the retention time of its record. */
  lemma CompletedIsRetained(d: R.Disk, id: R.Identity.SessionId, output: seq<Byte>, m: R.SessionMetadata,
      clocks: set<nat>)
    requires R.Committed(d, id, output, m)
    requires m.Completed? && m.sessionId == R.Identity.Hex(id) && |output| <= OUTPUT_TAIL_BYTES
    requires R.Lookup(d, R.Identity.NameOf(id, R.Identity.SOCKET)) == None
    requires forall now | now in clocks :: now < m.finishedAt + COMPLETED_RETENTION_SECONDS
    ensures S.Retained(d, id, clocks)
  {
    hide R.Identity.NameOf, R.Identity.Hex;
    assert S.Unexpired(m, clocks);
  }
}
