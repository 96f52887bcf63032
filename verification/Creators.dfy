/**
  Concurrent creators of one session ID: `bind_session` of src/registry.rs cut at its file
  operations, with any number of processes interleaving, from a directory without entries for
  the ID. Binding and listening is one step, and a creator that took the session stays alive.
 */
module Creators {
  import opened Bytes
  import opened Identity
  import R = Registry

  /** The record of the ID: none, a live one with the process that wrote it, or one of a session that is retained. */
  datatype Record = Absent | By(writer: nat) | Retained

  /** The entries of the ID, each with the process that made it. The socket's owner listens on it. */
  datatype Files = Files(socket: Option<nat>, lock: Option<nat>, record: Record)

  /** Where a creator stands: the next file operation it will do, or how it ended. */
  datatype Stage =
    | ReadRecord | StatSocket | StatLock | Connect
    | RemoveSocket | RemoveLock | RemoveTrace | RemoveRecord
    | Bind | Chmod | TakeLock
    | WriteRecord                 // it owns the session files
    | Serving
    | AlreadyExists               // it was told that the session exists
    | LockLost                    // it bound the socket but could not create the lock

  datatype State = State(files: Files, stages: seq<Stage>)

  predicate Finished(g: Stage) {
    g.Serving? || g.AlreadyExists? || g.LockLost?
  }

  predicate OwnsSession(g: Stage) {
    g.WriteRecord? || g.Serving?
  }

  /** The effect of process `p` doing its next operation. */
  function Act(f: Files, g: Stage, p: nat): (Files, Stage) {
    match g
    case ReadRecord =>
      (f, match f.record case Absent => StatSocket case By(_) => Connect case Retained => AlreadyExists)
    case StatSocket => (f, if f.socket.Some? then Connect else StatLock)
    case StatLock => (f, if f.lock.Some? then Connect else Bind)
    case Connect => (f, if f.socket.Some? then AlreadyExists else RemoveSocket)
    case RemoveSocket => (f.(socket := None), RemoveLock)
    case RemoveLock => (f.(lock := None), RemoveTrace)
    case RemoveTrace => (f, RemoveRecord)
    case RemoveRecord => (f.(record := Absent), Bind)
    case Bind => if f.socket.Some? then (f, AlreadyExists) else (f.(socket := Some(p)), Chmod)
    case Chmod => (f, TakeLock)
    case TakeLock => if f.lock.Some? then (f.(socket := None), LockLost) else (f.(lock := Some(p)), WriteRecord)
    case WriteRecord => (f.(record := By(p)), Serving)
    case Serving => (f, Serving)
    case AlreadyExists => (f, AlreadyExists)
    case LockLost => (f, LockLost)
  }

  function Step(s: State, p: nat): State
    requires p < |s.stages|
  {
    var (files, stage) := Act(s.files, s.stages[p], p);
    State(files, s.stages[p := stage])
  }

  predicate ScheduleFor(schedule: seq<nat>, n: nat) {
    forall i | 0 <= i < |schedule| :: schedule[i] < n
  }

  function Run(s: State, schedule: seq<nat>): (t: State)
    requires ScheduleFor(schedule, |s.stages|)
    ensures |t.stages| == |s.stages|
    decreases |schedule|
  {
    if schedule == [] then s else Run(Step(s, schedule[0]), schedule[1..])
  }

  function Start(n: nat): State {
    State(Files(None, None, Absent), seq(n, _ => ReadRecord))
  }

  // ---------------------------------------------------------------- safety

  /** Before anybody bound, nobody has found anything. */
  predicate Looking(g: Stage) {
    g.ReadRecord? || g.StatSocket? || g.StatLock? || g.Bind?
  }

  predicate Winning(f: Files, g: Stage, w: nat) {
    && (g.Chmod? || g.TakeLock? || OwnsSession(g))
    && f.lock == (if OwnsSession(g) then Some(w) else None)
    && f.record == (if g.Serving? then By(w) else Absent)
  }

  ghost predicate Inv(s: State) {
    match s.files.socket
    case None =>
      s.files == Files(None, None, Absent) && forall p | 0 <= p < |s.stages| :: Looking(s.stages[p])
    case Some(w) =>
      && w < |s.stages| && Winning(s.files, s.stages[w], w)
      && forall p | 0 <= p < |s.stages| && p != w ::
           Looking(s.stages[p]) || s.stages[p].Connect? || s.stages[p].AlreadyExists?
  }

  lemma StepKeepsInv(s: State, p: nat)
    requires p < |s.stages| && Inv(s)
    ensures Inv(Step(s, p))
    ensures s.files.socket.Some? ==> Step(s, p).files.socket == s.files.socket
  {
    var t := Step(s, p);
    forall q | 0 <= q < |s.stages| && q != p ensures t.stages[q] == s.stages[q] {
    }
  }

  lemma {:induction false} RunKeepsInv(s: State, schedule: seq<nat>)
    requires ScheduleFor(schedule, |s.stages|) && Inv(s)
    ensures Inv(Run(s, schedule))
    ensures s.files.socket.Some? ==> Run(s, schedule).files.socket == s.files.socket
    decreases |schedule|
  {
    if schedule == [] {
    } else {
      StepKeepsInv(s, schedule[0]);
      RunKeepsInv(Step(s, schedule[0]), schedule[1..]);
    }
  }

  /**
    Whatever the interleaving: a creator that finished either owns the session or was told that
    it exists, nobody removed anything of the winner's, and whoever bound first keeps the socket
    for good. `more` is any continuation of the run.
   */
  lemma CreatorsConverge(n: nat, schedule: seq<nat>, more: seq<nat>)
    requires ScheduleFor(schedule, n) && ScheduleFor(more, n)
    ensures var s := Run(Start(n), schedule); var t := Run(s, more);
            && (forall p | 0 <= p < n && OwnsSession(s.stages[p]) ::
                  s.files.socket == Some(p) && s.files.lock == Some(p) &&
                  t.files.socket == Some(p) && t.files.lock == Some(p) && OwnsSession(t.stages[p]))
            && (forall p | 0 <= p < n && Finished(s.stages[p]) ::
                  s.stages[p] == AlreadyExists || s.files == Files(Some(p), Some(p), By(p)))
            && (s.files.socket.Some? ==> t.files.socket == s.files.socket)
  {
    RunKeepsInv(Start(n), schedule);
    RunKeepsInv(Run(Start(n), schedule), more);
    var s := Run(Start(n), schedule);
    forall p | 0 <= p < n && OwnsSession(s.stages[p])
      ensures OwnsSession(Run(s, more).stages[p])
    {
      OwnershipLasts(s, more, p);
    }
  }

  lemma {:induction false} OwnershipLasts(s: State, schedule: seq<nat>, p: nat)
    requires ScheduleFor(schedule, |s.stages|)
    requires p < |s.stages| && OwnsSession(s.stages[p])
    ensures OwnsSession(Run(s, schedule).stages[p])
    decreases |schedule|
  {
    if schedule == [] {
    } else {
      OwnershipLasts(Step(s, schedule[0]), schedule[1..], p);
    }
  }

  // ---------------------------------------------------------------- progress

  /** How many operations a creator still has ahead of it at most. */
  function Rank(g: Stage): nat {
    match g
    case ReadRecord => 12
    case StatSocket => 11
    case StatLock => 10
    case Connect => 9
    case RemoveSocket => 8
    case RemoveLock => 7
    case RemoveTrace => 6
    case RemoveRecord => 5
    case Bind => 4
    case Chmod => 3
    case TakeLock => 2
    case WriteRecord => 1
    case _ => 0
  }

  function Turns(schedule: seq<nat>, p: nat): nat {
    if schedule == [] then 0 else (if schedule[0] == p then 1 else 0) + Turns(schedule[1..], p)
  }

  lemma {:induction false} TurnsFinish(s: State, schedule: seq<nat>, p: nat)
    requires ScheduleFor(schedule, |s.stages|) && p < |s.stages|
    requires Turns(schedule, p) >= Rank(s.stages[p])
    ensures Finished(Run(s, schedule).stages[p])
    decreases |schedule|
  {
    if schedule == [] {
    } else {
      TurnsFinish(Step(s, schedule[0]), schedule[1..], p);
    }
  }

  /** Once every creator has had twelve turns, exactly one serves the session and all others were told so. */
  lemma ExactlyOneWinner(n: nat, schedule: seq<nat>) returns (w: nat)
    requires ScheduleFor(schedule, n) && n > 0
    requires forall p | 0 <= p < n :: Turns(schedule, p) >= 12
    ensures w < n && Run(Start(n), schedule).files == Files(Some(w), Some(w), By(w))
    ensures forall p | 0 <= p < n ::
              Run(Start(n), schedule).stages[p] == if p == w then Serving else AlreadyExists
  {
    var s := Run(Start(n), schedule);
    RunKeepsInv(Start(n), schedule);
    forall p | 0 <= p < n ensures Finished(s.stages[p]) {
      TurnsFinish(Start(n), schedule, p);
    }
    assert Finished(s.stages[0]);
    w := s.files.socket.value;
  }

  // ---------------------------------------------------------------- one creator alone

  /** At `now` the directory shows these entries; the maker of the socket listens on it. */
  ghost predicate Shows(d: R.Disk, id: SessionId, f: Files, now: nat) {
    && R.Lookup(d, NameOf(id, SOCKET)) == (if f.socket.Some? then Some(R.Socket(true)) else None)
    && (f.lock.Some? <==> NameOf(id, LOCK) in d)
    && R.OwnedOrAbsent(d, NameOf(id, LOCK), false) && R.OwnedOrAbsent(d, NameOf(id, TRACE), false)
    && (match R.ReadMetadata(d, id)
        case Ok(None) => f.record.Absent?
        case Ok(Some(m)) => if m.Live? then f.record.By? else f.record.Retained? && now < m.finishedAt + 86_400
        case Err(_) => false)
  }

  /** Where a creator alone stands on its way, having found the entries `f`. */
  predicate OnItsWay(f: Files, now: Files, g: Stage) {
    if f.record.Retained?
    then now == f && (g.ReadRecord? || g.AlreadyExists?)
    else if f.socket.Some?
    then now == f && (g.ReadRecord? || (g.StatSocket? && f.record.Absent?) || g.Connect? || g.AlreadyExists?)
    else match g
      case ReadRecord => now == f
      case StatSocket => now == f && f.record.Absent?
      case StatLock => now == f && f.record.Absent?
      case Connect => now == f
      case RemoveSocket => now == f
      case RemoveLock => now == f
      case RemoveTrace => now == f.(lock := None)
      case RemoveRecord => now == f.(lock := None)
      case Bind => now == Files(None, None, Absent)
      case Chmod => now == Files(Some(0), None, Absent)
      case TakeLock => now == Files(Some(0), None, Absent)
      case WriteRecord => now == Files(Some(0), Some(0), Absent)
      case Serving => now == Files(Some(0), Some(0), By(0))
      case _ => false
  }

  /**
    The automaton is `BindSession`: a creator that runs alone from any entries, those of a retained
    session included, ends as `BindSession` does in a directory that shows them, if no system call fails.
   */
  lemma AloneIsBindSession(d: R.Disk, id: SessionId, env: R.BindEnv, f: Files, schedule: seq<nat>)
    requires Shows(d, id, f, env.now) && env.connectFault == None
    requires env.bindFault == None && env.setupFault == None && env.lockFault == None
    requires |schedule| >= 12 && ScheduleFor(schedule, 1)
    ensures var s := Run(State(f, [ReadRecord]), schedule);
            match R.BindOutcome(d, id, env)
            case Done => s == State(Files(Some(0), Some(0), By(0)), [Serving])
            case Failed(e) => e.Afk? && e.kind.AlreadyExists? && s == State(f, [AlreadyExists])
  {
    var s, rest := State(f, [ReadRecord]), schedule;
    while rest != [] && !Finished(s.stages[0])
      invariant ScheduleFor(rest, 1) && |s.stages| == 1 && |rest| >= Rank(s.stages[0])
      invariant Run(State(f, [ReadRecord]), schedule) == Run(s, rest)
      invariant OnItsWay(f, s.files, s.stages[0])
    {
      assert rest[0] == 0;
      s, rest := Step(s, rest[0]), rest[1..];
    }
    StaysFinished(s, rest);
    assert f.socket.Some? <==> R.Connect(d, id, env.connectFault).Done?;
  }

  lemma {:induction false} StaysFinished(s: State, schedule: seq<nat>)
    requires |s.stages| == 1 && Finished(s.stages[0]) && ScheduleFor(schedule, 1)
    ensures Run(s, schedule) == s
    decreases |schedule|
  {
    if schedule == [] {
    } else {
      assert Step(s, schedule[0]) == s;
      StaysFinished(s, schedule[1..]);
    }
  }
}
