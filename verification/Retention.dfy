/**
  Whole command histories over one session directory: the commands users run one after another,
  interleaved with what the runners of other sessions do to the directory meanwhile.
 */
module Retention {
  import opened Limits
  import opened Bytes
  import opened Io
  import opened Identity
  import opened Registry
  import opened Session
  import Ipc

  datatype Event =
    | SessionCommand(id: SessionId, env: SessionEnv)
    | SessionsCommand(open: OpenEnv)
    | StopCommand(id: SessionId, open: OpenEnv)
    | RunnerReports(id: SessionId, runnerPid: nat, childPid: nat, startedAt: nat, attached: bool, write: AtomicEnv)
    | RunnerCompletes(id: SessionId, output: seq<Byte>, startedAt: nat, finishedAt: nat, exit: ExitMetadata,
        truncated: bool,
                      outputWrite: AtomicEnv, metadataWrite: AtomicEnv)
    | RunnerDies(id: SessionId)

  datatype Answer = Answer(result: IoResult<Ipc.ProcessExit>, printed: seq<Byte>)

  /** The clock readings an event makes. */
  function ClocksOf(e: Event): set<nat> {
    match e
    case SessionCommand(_, env) => Clocks(env)
    case SessionsCommand(env) => {env.now}
    case StopCommand(_, env) => {env.now}
    case _ => {}
  }

  /** The session whose own runner acts, if one does. */
  function Actor(e: Event): set<SessionId> {
    if e.RunnerReports? || e.RunnerCompletes? || e.RunnerDies? then {e.id} else {}
  }

  /** A runner acts only while it exists. */
  predicate Happens(e: Event, running: set<SessionId>) {
    (e.RunnerReports? || e.RunnerCompletes? || e.RunnerDies?) ==> e.id in running
  }

  lemma RewritesOne(before: Disk, after: Disk, id: SessionId, m: SessionMetadata, clocks: set<nat>)
    requires m.sessionId == Hex(id)
    requires OnlyTouches(before, after, id)
    requires RecordUnchanged(before, after, id) || Lookup(after, NameOf(id, METADATA)) == Some(File(Json(m)))
    ensures KeepsRetained(before, after, clocks, {id}) && (Readable(before) ==> Readable(after))
  {
    assert Readable(before) ==> ReadMetadata(before, id).Ok?;
    ElsewhereKeeps(before, after, clocks, id);
  }

  /** What a running runner does to the directory. */
  method RunnerStep(registry: Registry, e: Event) returns (gone: bool)
    requires registry.Valid()
    requires e.RunnerReports? || e.RunnerCompletes? || e.RunnerDies?
    modifies registry
    ensures registry.Valid() && (Readable(old(registry.disk)) ==> Readable(registry.disk))
    ensures KeepsRetained(old(registry.disk), registry.disk, {}, {e.id})
  {
    ghost var start := registry.disk;
    AllNamesIsolated(e.id);
    match e
    case RunnerReports(id, runnerPid, childPid, startedAt, attached, write) =>
      var m := Live(Hex(id), runnerPid, childPid, startedAt, attached);
      var r := registry.WriteMetadata(id, m, write);
      RewritesOne(start, registry.disk, id, m, {});
      gone := false;
    case RunnerCompletes(id, output, startedAt, finishedAt, exit, truncated, outputWrite, metadataWrite) =>
      var m := Completed(Hex(id), startedAt, finishedAt, exit, |output|, truncated);
      ghost var commit;
      var r;
      r, commit := registry.RecordCompletion(id, output, m, outputWrite, metadataWrite);
      RewritesOne(start, registry.disk, id, m, {});
      gone := true;
    case RunnerDies(id) =>
      if NameOf(id, SOCKET) in registry.disk {
        registry.Put(NameOf(id, SOCKET), Socket(false));
      }
      RewritesOne(start, registry.disk, id, Live(Hex(id), 0, 0, 0, false), {});
      gone := true;
  }

  /** A call on a completed session replays it, unless a record that its opening scans is unreadable. */
  ghost predicate Answers(d: Disk, e: Event, a: Answer)
    requires e.SessionCommand?
  {
    if ScannedReadable(d, e.env.first.open) then ReplaysCompleted(d, e.id, a.result, a.printed) else a.result.Err?
  }

  /** One event. A session that gets a runner joins those whose runners may act. */
  method Step(registry: Registry, e: Event, running: set<SessionId>)
    returns (answer: Option<Answer>, running': set<SessionId>)
    requires registry.Valid()
    modifies registry
    ensures registry.Valid() && (Readable(old(registry.disk)) ==> Readable(registry.disk))
    ensures KeepsRetained(old(registry.disk), registry.disk, ClocksOf(e), Actor(e))
    ensures !Happens(e, running) ==> registry.disk == old(registry.disk) && running' == running
    ensures running' <= running + (if e.SessionCommand? then {e.id} else {})
    ensures e.SessionCommand? <==> answer.Some?
    ensures e.SessionCommand? && Retained(old(registry.disk), e.id, ClocksOf(e)) ==>
              && running' == running && Keeps(old(registry.disk), registry.disk, e.id)
              && Answers(old(registry.disk), e, answer.value)
  {
    ghost var start := registry.disk;
    answer, running' := None, running;
    match e
    case SessionCommand(id, env) =>
      var r, printed, launched := ConnectOrStart(registry, id, env);
      answer := Some(Answer(r, printed));
      if launched.Some? {
        running' := running + {id};
      }
    case SessionsCommand(env) =>
      var r := registry.CleanupExpired(env);
      CleanupKeeps(start, registry.disk, env.now, ClocksOf(e));
    case StopCommand(_, env) =>
      var r := registry.CleanupExpired(env);
      CleanupKeeps(start, registry.disk, env.now, ClocksOf(e));
    case _ =>
      if e.id in running {
        var gone := RunnerStep(registry, e);
        if gone {
          running' := running - {e.id};
        }
      }
  }

  /** Every clock reading of the history comes before the record of `m` expires. */
  ghost predicate BeforeExpiry(events: seq<Event>, m: SessionMetadata) {
    forall i | 0 <= i < |events| :: Unexpired(m, ClocksOf(events[i]))
  }

  /** What is promised of the answer to event `i`, given the directory it found. */
  ghost predicate Promised(start: Disk, seen: Disk, e: Event, answer: Option<Answer>, x: SessionId) {
    e.SessionCommand? && e.id == x ==>
      && answer.Some?
      && (if ScannedReadable(seen, e.env.first.open)
          then ReplaysCompleted(start, x, answer.value.result, answer.value.printed) else answer.value.result.Err?)
  }

  /**
    Retention: over any history in which no clock reading reaches the expiry of the completed
    session `x`, its record and output stay what they were, no runner is ever started for it,
    and a `session` call on it prints its replay and returns its recorded exit if and only if all
    records that its opening scans are readable. `seen` are the directories the events found. From
    a readable directory all of them are readable, so then every call replays.
   */
  method RunHistory(registry: Registry, events: seq<Event>, running: set<SessionId>, ghost x: SessionId)
    returns (answers: seq<Option<Answer>>, running': set<SessionId>, ghost seen: seq<Disk>)
    requires registry.Valid()
    requires Retained(registry.disk, x, {}) && BeforeExpiry(events, ReadMetadata(registry.disk, x).value.value)
    requires x !in running
    modifies registry
    ensures registry.Valid()
    ensures Keeps(old(registry.disk), registry.disk, x) && x !in running'
    ensures |answers| == |seen| == |events| && forall i | 0 <= i < |events| :: Keeps(old(registry.disk), seen[i], x)
    ensures forall i | 0 <= i < |events| :: Promised(old(registry.disk), seen[i], events[i], answers[i], x)
    ensures Readable(old(registry.disk)) ==>
              && Readable(registry.disk)
              && forall i | 0 <= i < |events| && events[i].SessionCommand? && events[i].id == x ::
                   && answers[i].Some?
                   && ReplaysCompleted(old(registry.disk), x, answers[i].value.result, answers[i].value.printed)
  {
    hide Retained, Keeps, ReplaysCompleted, Unexpired, ReadMetadata;
    answers, running', seen := [], running, [];
    KeepsItself(registry.disk, x);
    for i := 0 to |events|
      invariant registry.Valid() && (Readable(old(registry.disk)) ==> Readable(registry.disk))
      invariant Keeps(old(registry.disk), registry.disk, x) && x !in running'
      invariant |answers| == |seen| == i && forall j | 0 <= j < i :: Keeps(old(registry.disk), seen[j], x)
      invariant forall j | 0 <= j < i :: Promised(old(registry.disk), seen[j], events[j], answers[j], x)
      invariant Readable(old(registry.disk)) ==> forall j | 0 <= j < i :: Readable(seen[j])
    {
      ghost var before := registry.disk;
      StillRetained(old(registry.disk), before, x, ClocksOf(events[i]));
      var answer;
      answer, running' := Step(registry, events[i], running');
      KeepsItself(before, x);
      assert Keeps(before, registry.disk, x);
      KeepsOn(old(registry.disk), before, registry.disk, x);
      answers, seen := answers + [answer], seen + [before];
    }
  }

  lemma KeepsItself(d: Disk, x: SessionId)
    ensures Keeps(d, d, x)
  {
  }

  lemma KeepsOn(a: Disk, b: Disk, c: Disk, x: SessionId)
    requires Keeps(a, b, x) && Keeps(b, c, x)
    ensures Keeps(a, c, x)
  {
  }

  /** While record, output and socket are as they were, the session is retained and replays the same. */
  lemma StillRetained(start: Disk, d: Disk, x: SessionId, clocks: set<nat>)
    requires Retained(start, x, {}) && Keeps(start, d, x)
    requires Unexpired(ReadMetadata(start, x).value.value, clocks)
    ensures Retained(d, x, clocks)
    ensures forall r: IoResult<Ipc.ProcessExit>, printed: seq<Byte> ::
              ReplaysCompleted(d, x, r, printed) <==> ReplaysCompleted(start, x, r, printed)
  {
    KeepsIsRetained(start, d, x, {});
  }
}
