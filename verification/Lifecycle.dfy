/**
  A whole runner process (src/runner.rs, lines 120-168 and 171-356): the start, the event loop and
  the completion over one session directory, and what a later attach makes of the result.
 */
module Lifecycle {
  import opened Limits
  import opened Bytes
  import opened Io
  import opened Ipc
  import opened Identity
  import opened Registry
  import opened Ticks
  import opened EndToEnd
  import Transcript
  import Runner
  import Session

  datatype Hosted = NotStarted(error: IoError) | Hosted(outcome: Ticks.Outcome, steps: nat, drained: bool)

  /**
    Whoever cannot connect is shown the replay of `pty` and told `exit`, and nothing else. As long as a
    runner still listens, whoever connects is told what the runner tells it (`ListenerDecides`).
   */
  ghost predicate AnswersWith(d: Disk, id: SessionId, pty: seq<Byte>, exit: ProcessExit) {
    forall env: Session.AttachEnv, r: IoResult<ProcessExit>, printed: seq<Byte> | Connect(d, id, env.fault).Failed? ::
      Session.AttachEnds(d, id, env, r, printed) <==> r == Ok(exit) && printed == Transcript.Replay(pty)
  }

  /** Retained at every time before the record written at `finishedAt` expires. */
  ghost predicate RetainedUntilExpiry(d: Disk, id: SessionId, finishedAt: nat) {
    forall clocks: set<nat> | (forall now | now in clocks :: now < finishedAt + COMPLETED_RETENTION_SECONDS) ::
      Session.Retained(d, id, clocks)
  }

  ghost predicate Ends(d: Disk, id: SessionId, pty: seq<Byte>, exit: ProcessExit, startedAt: nat, finishedAt: nat) {
    var output := LastN(pty, OUTPUT_TAIL_BYTES);
    Committed(d, id, output, SessionMetadata.Completed(Hex(id), startedAt, finishedAt, ToMetadata(exit), |output|,
        |pty| > OUTPUT_TAIL_BYTES))
  }

  /**
    From the commit on the record answers whoever cannot connect. Once the socket is gone nobody can,
    and the record is retained.
   */
  lemma CompletionAnswers(d: Disk, id: SessionId, pty: seq<Byte>, exit: ProcessExit, startedAt: nat, finishedAt: nat)
    requires Ends(d, id, pty, exit, startedAt, finishedAt)
    ensures AnswersWith(d, id, pty, exit)
    ensures Lookup(d, NameOf(id, SOCKET)) == None ==> RetainedUntilExpiry(d, id, finishedAt)
  {
    hide NameOf, Hex, Session.Retained, Transcript.Due, LastN, Connect;
    var output := LastN(pty, OUTPUT_TAIL_BYTES);
    var m := SessionMetadata.Completed(Hex(id), startedAt, finishedAt, ToMetadata(exit), |output|,
        |pty| > OUTPUT_TAIL_BYTES);
    CommittedIsReadable(d, id, output, m);
    ExitSurvivesMetadata(exit, ToMetadata(exit));
    if Lookup(d, NameOf(id, SOCKET)) == None {
      forall clocks: set<nat> | forall now | now in clocks :: now < finishedAt + COMPLETED_RETENTION_SECONDS
        ensures Session.Retained(d, id, clocks)
      {
        CompletedIsRetained(d, id, output, m, clocks);
      }
    }
  }

  /** Attaching to a completed session is decided by the record exactly if connecting fails. */
  lemma ListenerDecides(d: Disk, id: SessionId, pty: seq<Byte>, exit: ProcessExit, startedAt: nat, finishedAt: nat,
                        env: Session.AttachEnv, r: IoResult<ProcessExit>, printed: seq<Byte>)
    requires Ends(d, id, pty, exit, startedAt, finishedAt)
    ensures Session.AttachEnds(d, id, env, r, printed) <==>
            if Connect(d, id, env.fault).Failed? then r == Ok(exit) && printed == Transcript.Replay(pty)
            else r == env.live && printed == []
  {
    CompletionAnswers(d, id, pty, exit, startedAt, finishedAt);
  }

  /**
    The window between the commit and the removal of the socket: the record says 17, the runner still
    listens, and an attachment whose socket is then closed ends with 0 and shows nothing.
   */
  lemma WindowWitness(id: SessionId) returns (d: Disk, env: Session.AttachEnv)
    ensures Ends(d, id, [], ProcessExit.Code(17), 0, 0) && Connect(d, id, env.fault).Done?
    ensures Session.AttachEnds(d, id, env, Ok(ProcessExit.Code(0)), [])
    ensures !Session.AttachEnds(d, id, env, Ok(ProcessExit.Code(17)), [])
  {
    hide Hex;
    AllNamesIsolated(id);
    var record := SessionMetadata.Completed(Hex(id), 0, 0, ToMetadata(ProcessExit.Code(17)), 0, false);
    d := map[NameOf(id, METADATA) := File(Json(record)), NameOf(id, Identity.OUTPUT) := File(Raw([])),
             NameOf(id, SOCKET) := Socket(true)];
    env := Session.AttachEnv(OpenEnv(0, []), None, Ok(ProcessExit.Code(0)));
  }

  lemma SaysLiveIsRecorded(runner: Runner.Runner, d: Disk)
    requires runner.SaysLive(d)
    ensures Session.RecordedLive(d, runner.id)
  {
  }

  /** A session that has been launched was not retained. */
  lemma NotRetained(before: Disk, after: Disk, id: SessionId, clocks: set<nat>, env: Session.RunnerEnv)
    requires Session.KeepsRetained(before, after, clocks, {})
    requires Lookup(after, NameOf(id, METADATA)) ==
             Some(File(Json(Live(Hex(id), env.runnerPid, env.childPid, env.startedAt, false))))
    ensures !Session.Retained(before, id, clocks)
  {
    hide NameOf, Hex;
  }

  lemma NobodyAnswers(d: Disk, id: SessionId)
    requires Lookup(d, NameOf(id, SOCKET)) == None
    ensures forall fault :: Connect(d, id, fault) == Failed(Os(NotFound))
  {
  }

  /** No call of the runner's own fails, in any tick or while the session is wound up. */
  ghost predicate Smooth(script: seq<Tick>, closing: Closing) {
    && (forall i | 0 <= i < |script| :: Faultless(script[i]))
    && FaultlessEnd(closing, true) && FaultlessEnd(closing, false)
  }

  /**
    A runner from its launch on. It is hosted exactly if the launch succeeds. Whatever peers send, and
    however their sockets fail, it goes on until the child exits or a peer asks to stop it, unless a
    call of its own fails; and then it completes the session. When it has, nobody can connect any more,
    and attaching to the session gives the end of everything its ticks read from the PTY and the exit of
    its process until the record expires. No part of that depends on what attachments did meanwhile. In
    every directory state before the commit, and for ever if there is none, there is a live record, so
    no other runner is launched for the session; from the commit on whoever cannot connect is answered
    by the record. Retained sessions of others survive it in any case. `ready` is the directory state at
    the report of readiness.
   */
  method HostSession(registry: Registry, id: SessionId, env: Session.RunnerEnv, size: (int, int),
                     script: seq<Tick>, closing: Closing)
    returns (h: Hosted, ghost pty: seq<Byte>, ghost ready: nat)
    requires registry.Valid()
    modifies registry
    // every retained session survives, this one included
    ensures Session.KeepsRetained(old(registry.disk), registry.disk, {env.open.now, env.bind.now}, {})
    // when a runner starts
    ensures h.Hosted? <==>
              && ScannedReadable(old(registry.disk), env.open)
              && Session.LaunchOutcome(AfterCleanup(old(registry.disk), env.open), id, env).Done?
    ensures h.NotStarted? && ScannedReadable(old(registry.disk), env.open) ==>
              Session.LaunchOutcome(AfterCleanup(old(registry.disk), env.open), id, env) == Failed(h.error)
    ensures h.NotStarted? ==> pty == []
    ensures h.Hosted? ==>
              && h.steps <= |script| && (h.drained ==> ChildLeft(script, h.steps))
              && pty == PtyOf(script[..h.steps])
                  + (if h.drained then Flatten(DrainOf(closing.ptyReads, 0).chunks) else [])
    // when it completes
    ensures h.Hosted? && NoTemporaries(old(registry.disk), id) && Smooth(script, closing) ==>
              && !h.outcome.Aborted?
              && ((exists i :: 0 <= i < |script| && script[i].wait.Exited?) ==> h.outcome.Completed?)
    ensures h.Hosted? && h.outcome.Aborted? && NoTemporaries(old(registry.disk), id) ==>
              h.steps > 0 && (Breaks(script[h.steps - 1], h.outcome.error, true)
                              || Spoils(closing, h.drained, h.outcome.error, true))
    // what it reports is how the child ended
    ensures h.Hosted? && h.outcome.Completed? && ChildLeft(script, h.steps) ==>
              var status := script[h.steps - 1].wait.status;
              && (status < 0x1_0000 && status % 0x100 == 0 ==> h.outcome.exit == ProcessExit.Code(status / 0x100))
              && (status < 0x100 && 1 <= status % 0x80 < 0x7F ==>
                    h.outcome.exit == ProcessExit.Signal(status % 0x80))
    // what it leaves
    ensures h.Hosted? && !h.outcome.Completed? ==> Session.RecordedLive(registry.disk, id)
    ensures h.Hosted? && h.outcome.Completed? ==>
              && Ends(registry.disk, id, pty, h.outcome.exit, env.startedAt, closing.finishedAt)
              && AnswersWith(registry.disk, id, pty, h.outcome.exit)
              && RetainedUntilExpiry(registry.disk, id, closing.finishedAt)
    ensures h.Hosted? && !h.outcome.Running? ==>
              forall fault :: Connect(registry.disk, id, fault) == Failed(Os(NotFound))
    // what was visible meanwhile
    ensures |old(registry.trace)| <= ready + 1 && old(registry.trace) <= registry.trace
    ensures h.Hosted? ==> forall i | ready <= i < |registry.trace| ::
              || Session.RecordedLive(registry.trace[i], id)
              || (h.outcome.Completed? && AnswersWith(registry.trace[i], id, pty, h.outcome.exit))
  {
    hide DrainOf, Flatten, PtyOf, AnswersWith, RetainedUntilExpiry, NameOf, Session.Readable, Session.KeepsRetained,
      StopResult, ExitOf, Session.LaunchOutcome, AfterCleanup, ScannedReadable, NoTemporaries, Breaks, Spoils,
      Faultless, FaultlessEnd, Passed, Connect, Session.RecordedLive, LastN, Lookup, Runner.Runner.Valid,
      Runner.Runner.Grounded, Runner.Runner.Separate, Runner.Runner.Serving, Runner.Runner.Waiting;
    ghost var start, clocks := registry.disk, {env.open.now, env.bind.now};
    var started := Session.StartRunner(registry, id, env);
    ready, pty := |registry.trace| - 1, [];
    if started.Failed? {
      return NotStarted(started.error), pty, ready;
    }
    var runner := new Runner.Runner(id, env.runnerPid, env.childPid, env.startedAt, size, registry);
    ghost var commit;
    ghost var leaving, tenure;
    var outcome, steps, drained;
    outcome, steps, drained, commit, leaving, tenure := runner.Run(script, closing);
    pty := runner.session.ptyRead;
    h := Hosted(outcome, steps, drained);
    assert [] + PtyOf(script[..steps]) == PtyOf(script[..steps]);
    runner.LastState();
    forall i | ready <= i < |registry.trace|
      ensures || Session.RecordedLive(registry.trace[i], id)
              || (outcome.Completed? && AnswersWith(registry.trace[i], id, pty, outcome.exit))
    {
      if i < commit {
        SaysLiveIsRecorded(runner, registry.trace[i]);
      } else {
        CompletionAnswers(registry.trace[i], id, pty, outcome.exit, env.startedAt, closing.finishedAt);
      }
    }
    assert OnlyTouches(runner.origin, registry.trace[|registry.trace| - 1], id);
    if outcome.Completed? {
      CompletionAnswers(registry.disk, id, pty, outcome.exit, env.startedAt, closing.finishedAt);
    }
    if !outcome.Running? {
      NobodyAnswers(registry.disk, id);
    }
    NotRetained(start, runner.origin, id, clocks, env);
    Session.ElsewhereKeeps(runner.origin, registry.disk, clocks, id);
    Session.KeepsWeaker(start, runner.origin, clocks, id);
    Session.KeepsTransitive(start, runner.origin, registry.disk, clocks, {id});
    Session.KeepsOneMore(start, registry.disk, clocks, id);
  }
}
