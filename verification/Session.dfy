/** Creating, resuming and listing sessions (src/session.rs and the disk side of src/attach.rs and src/runner.rs). */
module Session {
  import opened Limits
  import opened Bytes
  import opened Io
  import opened Identity
  import opened Registry
  import Ipc
  import OutputTail

  // ---------------------------------------------------------------- environments

  /** One attach: the registry opening, what connecting reports, and how a live attachment ends. */
  datatype AttachEnv = AttachEnv(open: OpenEnv, fault: Option<Kind>, live: IoResult<Ipc.ProcessExit>)

  datatype RunnerEnv = RunnerEnv(
    open: OpenEnv, bind: BindEnv, startFault: Option<Kind>,
    runnerPid: nat, childPid: nat, startedAt: nat, write: AtomicEnv,
    responseFault: Option<Kind>)

  datatype SessionEnv = SessionEnv(first: AttachEnv, check: OpenEnv, runner: RunnerEnv, second: AttachEnv)

  /** A launch: the directory it started from, what the runner reported, and the directory it left. */
  datatype Launch = Launch(from: Disk, reported: Status, left: Disk)

  function Clocks(env: SessionEnv): set<nat> {
    {env.first.open.now, env.check.now, env.runner.open.now, env.runner.bind.now, env.second.open.now}
  }

  // ---------------------------------------------------------------- what must be kept

  ghost predicate Unexpired(m: SessionMetadata, clocks: set<nat>) {
    forall now | now in clocks :: !m.IsExpired(now)
  }

  /** A completed session that no clock reading lets expire and that nobody serves any more. */
  ghost predicate Retained(d: Disk, id: SessionId, clocks: set<nat>) {
    && ReadMetadata(d, id).Ok?
    && ReadMetadata(d, id).value.Some?
    && ReadMetadata(d, id).value.value.Completed?
    && Unexpired(ReadMetadata(d, id).value.value, clocks)
    && Connect(d, id, None).Failed?
    && Connect(d, id, None).error.Os?
    && ReadOutput(d, id).Ok?
  }

  /** Record, output and socket of `id` are as before. */
  ghost predicate Keeps(before: Disk, after: Disk, id: SessionId) {
    && SameRecord(after, before, id)
    && Lookup(after, NameOf(id, SOCKET)) == Lookup(before, NameOf(id, SOCKET))
  }

  ghost predicate KeepsRetained(before: Disk, after: Disk, clocks: set<nat>, except: set<SessionId>) {
    forall x: SessionId | x !in except && Retained(before, x, clocks) :: Keeps(before, after, x)
  }

  ghost predicate Readable(d: Disk) {
    forall id: SessionId :: ReadMetadata(d, id).Ok?
  }

  /**
    A retained session that cannot be replayed: beside the completed session `a`, the record file of
    `b` holds something else, and the scan of the opening comes across it.
   */
  lemma UnreadableNeighbour(a: SessionId, b: SessionId) returns (d: Disk, env: OpenEnv)
    requires a != b
    ensures Retained(d, a, {0}) && env.now == 0 && !ScannedReadable(d, env)
  {
    hide Hex;
    NamesIsolated(a, METADATA, b, METADATA);
    forall s: string ensures NameOf(a, METADATA) != NameOf(a, s) || s == METADATA {
      NamesIsolated(a, METADATA, a, s);
    }
    NamesIsolated(b, METADATA, a, SOCKET);
    NamesIsolated(b, METADATA, a, OUTPUT);
    var record := Completed(Hex(a), 0, 0, Code(0), 0, false);
    d := map[NameOf(a, METADATA) := File(Json(record)), NameOf(b, METADATA) := File(Raw([0]))];
    env := OpenEnv(0, [NameOf(b, METADATA)]);
    assert Scanned(env)[0] == NameOf(b, METADATA);
    assert ReadMetadata(d, b).Err?;
  }

  lemma KeepsIsRetained(before: Disk, after: Disk, x: SessionId, clocks: set<nat>)
    requires Retained(before, x, clocks) && Keeps(before, after, x)
    ensures Retained(after, x, clocks)
  {
  }

  lemma CleanupKeeps(before: Disk, after: Disk, now: nat, clocks: set<nat>)
    requires RemovesOnlyExpired(before, after, now)
    requires now in clocks
    ensures KeepsRetained(before, after, clocks, {})
    ensures Readable(before) ==> Readable(after)
  {
    forall id: SessionId | Readable(before) ensures ReadMetadata(after, id).Ok? {
      assert ReadMetadata(before, id).Ok?;
      assert Lookup(after, NameOf(id, METADATA)) in {Lookup(before, NameOf(id, METADATA)), None};
    }
  }

  lemma ElsewhereKeeps(before: Disk, after: Disk, clocks: set<nat>, id: SessionId)
    requires OnlyTouches(before, after, id)
    ensures KeepsRetained(before, after, clocks, {id})
    ensures Readable(before) && ReadMetadata(after, id).Ok? ==> Readable(after)
  {
    forall other: SessionId | Readable(before) && ReadMetadata(after, id).Ok? ensures ReadMetadata(after, other).Ok? {
      assert ReadMetadata(before, other).Ok?;
    }
  }

  /** If the one session that is excepted was not retained, or nothing changed, none need be excepted. */
  lemma KeepsOneMore(before: Disk, after: Disk, clocks: set<nat>, id: SessionId)
    requires KeepsRetained(before, after, clocks, {id})
    requires Retained(before, id, clocks) ==> Keeps(before, after, id)
    ensures KeepsRetained(before, after, clocks, {})
  {
    forall x: SessionId | Retained(before, x, clocks) ensures Keeps(before, after, x) {
      assert x == id || x !in {id};
    }
  }

  lemma KeepsWeaker(before: Disk, after: Disk, clocks: set<nat>, id: SessionId)
    requires KeepsRetained(before, after, clocks, {})
    ensures KeepsRetained(before, after, clocks, {id})
  {
  }

  lemma KeepsTransitive(a: Disk, b: Disk, c: Disk, clocks: set<nat>, except: set<SessionId>)
    requires KeepsRetained(a, b, clocks, except) && KeepsRetained(b, c, clocks, except)
    ensures KeepsRetained(a, c, clocks, except)
  {
    forall x: SessionId | x !in except && Retained(a, x, clocks) ensures Keeps(a, c, x) {
      assert Keeps(a, b, x);
      KeepsIsRetained(a, b, x, clocks);
    }
  }

  // ---------------------------------------------------------------- attaching

  /** What attaching to a completed session prints before the closing summary. */
  function Replay(truncated: bool, output: Option<seq<Byte>>): seq<Byte> {
    (if truncated then OutputTail.TRUNCATION_MARKER else []) + (if output.Some? then output.value else [])
  }

  /** The exit a completed session returns, and the bytes it prints first. */
  ghost predicate ReplaysCompleted(d: Disk, id: SessionId, r: IoResult<Ipc.ProcessExit>, printed: seq<Byte>) {
    && ReadMetadata(d, id).Ok? && ReadMetadata(d, id).value.Some? && ReadOutput(d, id).Ok?
    && var m := ReadMetadata(d, id).value.value;
    && m.Completed?
    && r == Ok(FromMetadata(m.exit))
    && printed == Replay(m.truncated, ReadOutput(d, id).value)
  }

  /** How an attach ends: with the live session, the replay of a completed one, or an error. */
  ghost predicate AttachEnds(d: Disk, id: SessionId, env: AttachEnv, r: IoResult<Ipc.ProcessExit>, printed: seq<Byte>) {
    var reached := Connect(d, id, env.fault);
    if reached.Done? then r == env.live && printed == []
    else match ReadMetadata(d, id)
      case Err(e) => r == Err(e) && printed == []
      case Ok(Some(m)) =>
        if m.Live? then r == Err(reached.error) && printed == []
        else if ReadOutput(d, id).Err? then r == Err(ReadOutput(d, id).error)
        else ReplaysCompleted(d, id, r, printed)
      case Ok(None) => r == Err(reached.error) && printed == []
  }

  /** How an attach ends, from the entries of the session. */
  lemma AttachMeans(d: Disk, id: SessionId, env: AttachEnv, r: IoResult<Ipc.ProcessExit>, printed: seq<Byte>)
    requires AttachEnds(d, id, env, r, printed)
    ensures Lookup(d, NameOf(id, SOCKET)) == Some(Socket(true)) && env.fault == None ==> r == env.live && printed == []
    ensures !(Lookup(d, NameOf(id, SOCKET)) == Some(Socket(true)) && env.fault == None) ==>
              match Lookup(d, NameOf(id, METADATA))
              case Some(File(Json(Completed(name, _, _, exit, _, truncated)))) =>
                name == Hex(id) ==>
                  (match Lookup(d, NameOf(id, OUTPUT))
                   case Some(File(Raw(bytes))) =>
                     |bytes| <= 0x4_0000 ==>
                       && printed == (if truncated then OutputTail.TRUNCATION_MARKER else []) + bytes
                       && r == Ok(match exit case Code(c) => Ipc.Code(c) case Signal(s) => Ipc.Signal(s))
                   case _ => true)
              case Some(File(Json(Live(name, _, _, _, _)))) =>
                name == Hex(id) ==> r.Err? && r.error == Connect(d, id, env.fault).error && printed == []
              case None => r.Err? && r.error == Connect(d, id, env.fault).error && printed == []
              case _ => r.Err? && printed == []
  {
    hide NameOf, Hex, Ascii;
  }

  method Attach(registry: Registry, id: SessionId, env: AttachEnv)
      returns (r: IoResult<Ipc.ProcessExit>, printed: seq<Byte>)
    requires registry.Valid()
    modifies registry
    ensures registry.Valid() && RemovesOnlyExpired(old(registry.disk), registry.disk, env.open.now)
    ensures !ScannedReadable(old(registry.disk), env.open) ==>
              r.Err? && r.error.Afk? && r.error.kind in {InvalidData, PermissionDenied} && printed == []
    ensures ScannedReadable(old(registry.disk), env.open) ==>
              && registry.disk == AfterCleanup(old(registry.disk), env.open)
              && AttachEnds(registry.disk, id, env, r, printed)
  {
    printed := [];
    var cleaned := registry.CleanupExpired(env.open);
    if cleaned.Failed? {
      return Err(cleaned.error), [];
    }
    var reached := Connect(registry.disk, id, env.fault);
    if reached.Done? {
      return env.live, [];
    }
    var metadata := ReadMetadata(registry.disk, id);
    if metadata.Err? {
      return Err(metadata.error), [];
    }
    if metadata.value == None || metadata.value.value.Live? {
      return Err(reached.error), [];
    }
    var m := metadata.value.value;
    if m.truncated {
      printed := OutputTail.TRUNCATION_MARKER;
    }
    var output := ReadOutput(registry.disk, id);
    if output.Err? {
      return Err(output.error), printed;
    }
    if output.value.Some? {
      printed := printed + output.value.value;
    }
    return Ok(FromMetadata(m.exit)), printed;
  }

  // ---------------------------------------------------------------- starting a runner

  /** What launching comes to in a directory that has been cleaned up. */
  function LaunchOutcome(d: Disk, id: SessionId, env: RunnerEnv): Status {
    if BindOutcome(d, id, env.bind).Failed? then BindOutcome(d, id, env.bind)
    else if env.startFault.Some? then Failed(Os(env.startFault.value))
    else var written := WriteOutcome(d, NameOf(id, METADATA), env.write);
    if written.Failed? then written
    else match env.responseFault case None => Done case Some(kind) => Failed(Os(kind))
  }

  /** A launch succeeds exactly if the session can be taken, no call fails, and nothing is in the way of the record. */
  lemma LaunchMeans(d: Disk, id: SessionId, env: RunnerEnv)
    ensures LaunchOutcome(d, id, env).Done? <==>
              && BindOutcome(d, id, env.bind).Done? && env.startFault == None && env.responseFault == None
              && TemporaryName(NameOf(id, METADATA), env.write.pid) !in d && env.write.failure == None
    ensures BindOutcome(d, id, env.bind).Failed? ==> LaunchOutcome(d, id, env) == BindOutcome(d, id, env.bind)
  {
    hide BindOutcome, NameOf, TemporaryName;
  }

  predicate FaultlessLaunch(env: RunnerEnv) {
    && env.bind.bindFault == None && env.bind.setupFault == None && env.bind.lockFault == None
    && env.startFault == None && env.write.failure == None && env.responseFault == None
  }

  /**
    If no system call fails, exactly a session that cannot be taken is not launched: it is taken, its
    record or what a dead runner left cannot be handled, or an expired record still has a socket or lock.
   */
  lemma LaunchesUntaken(d: Disk, id: SessionId, env: RunnerEnv)
    requires FaultlessLaunch(env) && NoTemporaries(d, id)
    ensures LaunchOutcome(d, id, env).Done? <==>
              && ReadMetadata(d, id).Ok? && !Taken(d, id, env.bind)
              && (if Stale(d, id, env.bind) then Removable(d, id)
                  else NameOf(id, SOCKET) !in d && NameOf(id, LOCK) !in d)
  {
  }

  /**
    The part of a launch that follows the cleanup: the runner takes the session, starts its child,
    writes the first live record and reports. Dropping the session files on a failure removes the
    socket and the lock again, but not the record.
   */
  method TakeSession(registry: Registry, id: SessionId, env: RunnerEnv) returns (r: Status)
    requires registry.Valid()
    modifies registry
    ensures registry.Valid() && old(registry.trace) <= registry.trace
    ensures OnlyTouches(old(registry.disk), registry.disk, id)
    ensures r == LaunchOutcome(old(registry.disk), id, env)
    ensures r.Done? ==>
              && Lookup(registry.disk, NameOf(id, METADATA)) ==
                 Some(File(Json(Live(Hex(id), env.runnerPid, env.childPid, env.startedAt, false))))
              && Lookup(registry.disk, NameOf(id, SOCKET)) == Some(Socket(true))
    ensures ReadMetadata(old(registry.disk), id) == Ok(None) ==> ReadMetadata(registry.disk, id).Ok?
    // a completed session is left alone until it has been finished for a day
    ensures match ReadMetadata(old(registry.disk), id)
            case Ok(Some(Completed(_, _, finishedAt, _, _, _))) =>
              env.bind.now < finishedAt + 86_400 ==>
                r == Failed(Afk(AlreadyExists)) && registry.disk == old(registry.disk)
            case _ => true
    // a session that was taken and is not launched is given up again
    ensures r.Failed? && BindOutcome(old(registry.disk), id, env.bind).Done? ==>
              Lookup(registry.disk, NameOf(id, SOCKET)) == None && Lookup(registry.disk, NameOf(id, LOCK)) == None
    ensures r.Done? ==> WithinFiles(old(registry.disk), registry.disk, id)
  {
    hide NameOf, Hex, Scanned, BindOutcome;
    AllNamesIsolated(id);
    ghost var start := registry.disk;
    r := registry.BindSession(id, env.bind);
    StaysTidy(start, registry.disk, id);
    if r.Failed? {
      return;
    }
    if env.startFault.Some? {
      registry.RemoveLiveFiles(id);
      return Failed(Os(env.startFault.value));
    }
    r := registry.WriteMetadata(id, Live(Hex(id), env.runnerPid, env.childPid, env.startedAt, false), env.write);
    if r.Done? && env.responseFault.Some? {
      r := Failed(Os(env.responseFault.value));
    }
    if r.Failed? {
      registry.RemoveLiveFiles(id);
    }
  }

  /** A launched runner up to the moment it reports ready. */
  method StartRunner(registry: Registry, id: SessionId, env: RunnerEnv) returns (r: Status)
    requires registry.Valid()
    modifies registry
    ensures registry.Valid() && old(registry.trace) <= registry.trace
    // every retained session survives, this one included
    ensures KeepsRetained(old(registry.disk), registry.disk, {env.open.now, env.bind.now}, {})
    ensures Readable(old(registry.disk)) && ReadMetadata(old(registry.disk), id) == Ok(None) ==> Readable(registry.disk)
    ensures if ScannedReadable(old(registry.disk), env.open)
            then r == LaunchOutcome(AfterCleanup(old(registry.disk), env.open), id, env)
            else r.Failed? && r.error.Afk? && r.error.kind in {InvalidData, PermissionDenied}
    ensures r.Done? && NoTemporaries(old(registry.disk), id) ==> NoTemporaries(registry.disk, id)
    ensures r.Done? ==>
              && Lookup(registry.disk, NameOf(id, METADATA)) ==
                 Some(File(Json(Live(Hex(id), env.runnerPid, env.childPid, env.startedAt, false))))
              && Lookup(registry.disk, NameOf(id, SOCKET)) == Some(Socket(true))
  {
    hide NameOf, Hex, Scanned, Retained, LaunchOutcome, WithinFiles, NoTemporaries, ScannedReadable;
    ghost var start, clocks := registry.disk, {env.open.now, env.bind.now};
    r := registry.CleanupExpired(env.open);
    ghost var cleaned := registry.disk;
    CleanupKeeps(start, cleaned, env.open.now, clocks);
    if r.Failed? {
      return;
    }
    SweepLeavesTemporaries(start, Scanned(env.open), env.open.now, id);
    assert ReadMetadata(start, id) == Ok(None) ==> ReadMetadata(cleaned, id) == Ok(None);
    r := TakeSession(registry, id, env);
    if r.Done? {
      StaysTidy(cleaned, registry.disk, id);
    }
    ElsewhereKeeps(cleaned, registry.disk, clocks, id);
    if Retained(cleaned, id, clocks) {
      RetainedIsCompleted(cleaned, id, clocks, env.bind.now);
    }
    KeepsOneMore(cleaned, registry.disk, clocks, id);
    KeepsTransitive(start, cleaned, registry.disk, clocks, {});
  }

  lemma RetainedIsCompleted(d: Disk, id: SessionId, clocks: set<nat>, now: nat)
    requires Retained(d, id, clocks) && now in clocks
    ensures match ReadMetadata(d, id)
            case Ok(Some(Completed(_, _, finishedAt, _, _, _))) => now < finishedAt + 86_400
            case _ => false
  {
    hide ReadMetadata, Connect, ReadOutput;
    ExpiresWhen(ReadMetadata(d, id).value.value, now);
  }

  // ---------------------------------------------------------------- create or connect

  predicate NotRunning(kind: Kind) {
    kind in {NotFound, ConnectionRefused}
  }

  /** The first attach ends in one of the two errors that may mean there is no runner. */
  predicate SeemsAbsent(d: Disk, id: SessionId, env: AttachEnv) {
    match Connect(d, id, env.fault)
    case Failed(e) => NotRunning(e.kind)
    case Done => env.live.Err? && NotRunning(env.live.error.kind)
  }

  predicate RecordedLive(d: Disk, id: SessionId) {
    match ReadMetadata(d, id) case Ok(Some(m)) => m.Live? case _ => false
  }

  /** An attach finds nobody: it ends in one of the two errors, and no completed record stands in. */
  predicate Missed(d: Disk, id: SessionId, env: AttachEnv) {
    if Connect(d, id, env.fault).Done?
    then env.live.Err? && env.live.error.kind in {NotFound, ConnectionRefused}
    else
      && Connect(d, id, env.fault).error.kind in {NotFound, ConnectionRefused}
      && match ReadMetadata(d, id)
         case Ok(Some(m)) => m.Live?
         case Ok(None) => true
         case Err(_) => false
  }

  /**
    When a runner is launched: both scans are readable, the first attach ends in one of the two
    errors, and there is no record by the time of the check. A first attach that got through to a
    runner and was then left with one of these errors says nothing about the record.
   */
  ghost predicate Launches(d: Disk, id: SessionId, env: SessionEnv) {
    var attached := AfterCleanup(d, env.first.open);
    && ScannedReadable(d, env.first.open) && SeemsAbsent(d, id, env.first)
    && (Connect(attached, id, env.first.fault).Done? || ReadMetadata(attached, id) == Ok(None))
    && ScannedReadable(attached, env.check) && ReadMetadata(AfterCleanup(attached, env.check), id) == Ok(None)
  }

  /**
    The decision: resume, give up, or launch. A runner is launched only for a session that
    seems absent and has no record after the cleanups.
   */
  method ResumeOrLaunch(registry: Registry, id: SessionId, env: SessionEnv)
    returns (r: IoResult<Ipc.ProcessExit>, printed: seq<Byte>, launch: bool)
    requires registry.Valid()
    modifies registry
    ensures registry.Valid()
    ensures KeepsRetained(old(registry.disk), registry.disk, Clocks(env), {})
    ensures Readable(old(registry.disk)) ==> Readable(registry.disk)
    ensures Retained(old(registry.disk), id, Clocks(env)) ==>
              !launch && (if ScannedReadable(old(registry.disk), env.first.open)
                          then ReplaysCompleted(old(registry.disk), id, r, printed) else r.Err?)
    ensures launch ==> SeemsAbsent(old(registry.disk), id, env.first) && ReadMetadata(registry.disk, id) == Ok(None)
    // an attach that gets through, or finds a completed record, decides how the call ends
    ensures ScannedReadable(old(registry.disk), env.first.open)
            && !Missed(AfterCleanup(old(registry.disk), env.first.open), id, env.first) ==>
              && !launch
              && AttachEnds(AfterCleanup(old(registry.disk), env.first.open), id, env.first, r, printed)
    ensures !ScannedReadable(old(registry.disk), env.first.open) ==> r.Err? && !launch
    ensures launch <==> Launches(old(registry.disk), id, env)
    ensures RecordedLive(old(registry.disk), id) ==>
              && !launch && RecordUnchanged(old(registry.disk), registry.disk, id)
              && (SeemsAbsent(old(registry.disk), id, env.first) && ScannedReadable(old(registry.disk), env.first.open)
                  && ScannedReadable(AfterCleanup(old(registry.disk), env.first.open), env.check) ==>
                    r == Err(Afk(ConnectionAborted)))
  {
    hide NameOf, Hex, Scanned;
    ghost var start, clocks := registry.disk, Clocks(env);
    r, printed := Attach(registry, id, env.first);
    ghost var attached := registry.disk;
    CleanupKeeps(start, attached, env.first.open.now, clocks);
    RecordAfterCleanup(start, attached, id, env.first.open.now);
    if r.Ok? || !NotRunning(r.error.kind) {
      return r, printed, false;
    }
    var checked := registry.CleanupExpired(env.check);
    ghost var cleaned := registry.disk;
    CleanupKeeps(attached, cleaned, env.check.now, clocks);
    KeepsTransitive(start, attached, cleaned, clocks, {});
    RecordAfterCleanup(attached, cleaned, id, env.check.now);
    if checked.Failed? {
      return Err(checked.error), printed, false;
    }
    var recorded := ReadMetadata(registry.disk, id);
    if recorded.Err? {
      return Err(recorded.error), printed, false;
    }
    if recorded.value.Some? {
      return Err(Afk(ConnectionAborted)), printed, false;
    }
    return r, printed, true;
  }

  /**
    When a runner is launched, from the entries of the session: without a record, exactly if nobody listens on
    its socket, or the attachment that came about ends with one of the two errors; with a live record, never.
   */
  lemma LaunchesMeans(d: Disk, id: SessionId, env: SessionEnv)
    requires Readable(d)
    ensures ReadMetadata(d, id) == Ok(None) ==>
              (Launches(d, id, env) <==>
                 match Lookup(d, NameOf(id, SOCKET))
                 case None => true
                 case Some(Socket(false)) => true
                 case Some(File(_)) => false
                 case Some(Socket(true)) =>
                   if env.first.fault.Some? then env.first.fault.value in {NotFound, ConnectionRefused}
                   else env.first.live.Err? && env.first.live.error.kind in {NotFound, ConnectionRefused})
    ensures match ReadMetadata(d, id)
            case Ok(Some(Live(_, _, _, _, _))) => !Launches(d, id, env)
            case Ok(Some(Completed(_, _, finishedAt, _, _, _))) =>
              (forall now | now in Clocks(env) :: now < finishedAt + 86_400) ==> !Launches(d, id, env)
            case _ => true
  {
    hide NameOf, Hex, Sweep;
    if ReadMetadata(d, id) == Ok(None) && SeemsAbsent(d, id, env.first) {
      AbsentIsLaunched(d, id, env);
    }
    var attached := AfterCleanup(d, env.first.open);
    SweepRemoves(d, Scanned(env.first.open), env.first.open.now);
    RecordAfterCleanup(d, attached, id, env.first.open.now);
    SweepRemoves(attached, Scanned(env.check), env.check.now);
    RecordAfterCleanup(attached, AfterCleanup(attached, env.check), id, env.check.now);
  }

  /** In a directory that is readable as a whole, a session that seems absent and has no record is launched. */
  lemma AbsentIsLaunched(d: Disk, id: SessionId, env: SessionEnv)
    requires Readable(d) && ReadMetadata(d, id) == Ok(None) && SeemsAbsent(d, id, env.first)
    ensures Launches(d, id, env)
  {
    hide NameOf, Sweep;
    SweepRemoves(d, Scanned(env.first.open), env.first.open.now);
    var attached := AfterCleanup(d, env.first.open);
    RecordAfterCleanup(d, attached, id, env.first.open.now);
    SweepRemoves(attached, Scanned(env.check), env.check.now);
    RecordAfterCleanup(attached, AfterCleanup(attached, env.check), id, env.check.now);
    assert forall x: SessionId :: ReadMetadata(d, x).Ok?;
  }

  /** A session without a record that is not launched: its socket is there, and connecting fails otherwise. */
  lemma RefusedWithoutRecord(id: SessionId, env: SessionEnv) returns (d: Disk)
    requires env.first.fault == Some(PermissionDenied)
    ensures Readable(d) && ReadMetadata(d, id) == Ok(None) && !Launches(d, id, env)
  {
    d := OnlySocket(id);
  }

  /** A session that is launched although connecting succeeded: the attachment ended with "not found". */
  lemma LaunchedAfterConnecting(id: SessionId, env: SessionEnv) returns (d: Disk)
    requires env.first.fault == None && env.first.live == Err(Os(NotFound))
    ensures Connect(d, id, env.first.fault).Done? && Launches(d, id, env)
  {
    d := OnlySocket(id);
    AbsentIsLaunched(d, id, env);
  }

  /** A directory with nothing but a listening socket of `id`. */
  lemma OnlySocket(id: SessionId) returns (d: Disk)
    ensures Lookup(d, NameOf(id, SOCKET)) == Some(Socket(true))
    ensures forall x: SessionId :: ReadMetadata(d, x) == Ok(None)
  {
    hide Hex;
    AllNamesIsolated(id);
    d := map[NameOf(id, SOCKET) := Socket(true)];
  }

  /** A faultless launch of a free session that is refused: a process with the same ID left a temporary file. */
  lemma LeftoverRefuses(id: SessionId, env: RunnerEnv) returns (d: Disk)
    requires FaultlessLaunch(env)
    ensures BindOutcome(d, id, env.bind).Done? && LaunchOutcome(d, id, env) == Failed(Os(AlreadyExists))
  {
    hide Hex;
    var temporary := TemporaryName(NameOf(id, METADATA), env.write.pid);
    TemporaryNeverRecognised(NameOf(id, METADATA), env.write.pid);
    d := map[temporary := File(Raw([]))];
  }

  /** A faultless launch of an expired session that is refused: the socket of its runner is still there. */
  lemma ExpiredKeepsSocket(id: SessionId, env: RunnerEnv) returns (d: Disk)
    requires FaultlessLaunch(env) && env.bind.now >= COMPLETED_RETENTION_SECONDS
    ensures Expired(d, id, env.bind.now) && NoTemporaries(d, id)
    ensures LaunchOutcome(d, id, env) == Failed(Afk(AlreadyExists))
  {
    hide Hex;
    AllNamesIsolated(id);
    var record := Completed(Hex(id), 0, 0, Code(0), 0, false);
    d := map[NameOf(id, METADATA) := File(Json(record)), NameOf(id, SOCKET) := Socket(false)];
    forall suffix: string, pid: nat ensures TemporaryName(NameOf(id, suffix), pid) !in d {
      TemporaryNeverRecognised(NameOf(id, suffix), pid);
    }
  }

  lemma LiveAndListening(d: Disk, id: SessionId, env: RunnerEnv)
    requires Lookup(d, NameOf(id, METADATA)) ==
             Some(File(Json(Live(Hex(id), env.runnerPid, env.childPid, env.startedAt, false))))
    requires Lookup(d, NameOf(id, SOCKET)) == Some(Socket(true))
    ensures RecordedLive(d, id) && Connect(d, id, None).Done?
  {
  }

  /**
    The single entry point for creating or resuming a session. `launched` is the launch of a
    runner, if there was one. A creator that finds the session taken attaches like the winner.
   */
  method ConnectOrStart(registry: Registry, id: SessionId, env: SessionEnv)
    returns (r: IoResult<Ipc.ProcessExit>, printed: seq<Byte>, launched: Option<Launch>)
    requires registry.Valid()
    modifies registry
    ensures registry.Valid()
    // every retained session survives the call, this one included
    ensures KeepsRetained(old(registry.disk), registry.disk, Clocks(env), {})
    ensures Readable(old(registry.disk)) ==> Readable(registry.disk)
    // a retained session is replayed, never restarted
    ensures Retained(old(registry.disk), id, Clocks(env)) ==>
              && launched == None && Keeps(old(registry.disk), registry.disk, id)
              && (if ScannedReadable(old(registry.disk), env.first.open)
                  then ReplaysCompleted(old(registry.disk), id, r, printed) else r.Err?)
    // a runner is launched only for a session that seems absent and has no record
    ensures launched.Some? ==>
              SeemsAbsent(old(registry.disk), id, env.first) && ReadMetadata(launched.value.from, id) == Ok(None)
    ensures launched.Some? <==> Launches(old(registry.disk), id, env)
    // an attach that gets through, or finds a completed record, decides how the call ends
    ensures ScannedReadable(old(registry.disk), env.first.open)
            && !Missed(AfterCleanup(old(registry.disk), env.first.open), id, env.first) ==>
              && launched == None
              && AttachEnds(AfterCleanup(old(registry.disk), env.first.open), id, env.first, r, printed)
    ensures !ScannedReadable(old(registry.disk), env.first.open) ==> r.Err? && launched == None
    // where all records are readable, a session without a record on whose socket nobody listens is launched
    ensures Readable(old(registry.disk)) && ReadMetadata(old(registry.disk), id) == Ok(None)
            && Lookup(old(registry.disk), NameOf(id, SOCKET)) in {None, Some(Socket(false))} ==>
              launched.Some?
    // what a launch comes to, and how the call ends after it
    ensures launched.Some? ==>
              var l := launched.value;
              && (ScannedReadable(l.from, env.runner.open) ==>
                    l.reported == LaunchOutcome(AfterCleanup(l.from, env.runner.open), id, env.runner))
              && (l.reported.Done? ==> RecordedLive(l.left, id) && Connect(l.left, id, None).Done?)
              && (if l.reported.Failed? && l.reported.error.kind != AlreadyExists
                  then r == Err(Afk(Other)) && registry.disk == l.left
                  else if ScannedReadable(l.left, env.second.open)
                  then registry.disk == AfterCleanup(l.left, env.second.open)
                       && AttachEnds(registry.disk, id, env.second, r, printed)
                  else r.Err?)
    // an unreachable live session is reported and left alone
    ensures RecordedLive(old(registry.disk), id) ==>
              && launched == None && RecordUnchanged(old(registry.disk), registry.disk, id)
              && (SeemsAbsent(old(registry.disk), id, env.first) && ScannedReadable(old(registry.disk), env.first.open)
                  && ScannedReadable(AfterCleanup(old(registry.disk), env.first.open), env.check) ==>
                    r == Err(Afk(ConnectionAborted)))
  {
    hide NameOf, Hex, Scanned, ReadMetadata, Connect, SameRecord, ReplaysCompleted;
    ghost var start, clocks := registry.disk, Clocks(env);
    if Readable(start) {
      LaunchesMeans(start, id, env);
    }
    var launch;
    r, printed, launch := ResumeOrLaunch(registry, id, env);
    launched := None;
    if launch {
      var decided := registry.disk;
      var started := StartRunner(registry, id, env.runner);
      var running := registry.disk;
      launched := Some(Launch(decided, started, running));
      if started.Done? {
        LiveAndListening(running, id, env.runner);
      }
      FewerClocks(decided, running, {env.runner.open.now, env.runner.bind.now}, clocks, {});
      KeepsTransitive(start, decided, running, clocks, {});
      if started.Failed? && started.error.kind != AlreadyExists {
        return Err(Afk(Other)), printed, launched;
      }
      r, printed := Attach(registry, id, env.second);
      CleanupKeeps(running, registry.disk, env.second.open.now, clocks);
      KeepsTransitive(start, running, registry.disk, clocks, {});
    }
  }

  lemma FewerClocks(before: Disk, after: Disk, few: set<nat>, many: set<nat>, except: set<SessionId>)
    requires KeepsRetained(before, after, few, except) && few <= many
    ensures KeepsRetained(before, after, many, except)
  {
    forall x: SessionId | x !in except && Retained(before, x, many) ensures Keeps(before, after, x) {
      assert Retained(before, x, few);
    }
  }

  /** A cleanup leaves sockets alone, and a record as it is unless that record has expired. */
  lemma RecordAfterCleanup(before: Disk, after: Disk, id: SessionId, now: nat)
    requires RemovesOnlyExpired(before, after, now)
    ensures Lookup(after, NameOf(id, SOCKET)) == Lookup(before, NameOf(id, SOCKET))
    ensures !Expired(before, id, now) ==> SameRecord(after, before, id)
    ensures ReadMetadata(after, id) in {ReadMetadata(before, id), Ok(None)}
  {
    assert SOCKET !in {OUTPUT, TRACE, METADATA};
  }
}
