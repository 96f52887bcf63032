/**
  The per-user session directory (src/registry.rs), as a map from file names to entries that
  changes one primitive file operation at a time.
 */
module Registry {
  import opened Limits
  import opened Bytes
  import opened Io
  import opened Identity
  import Ipc

  // ---------------------------------------------------------------- metadata

  datatype ExitMetadata = Code(code: Byte) | Signal(signal: Byte)

  function ToMetadata(exit: Ipc.ProcessExit): ExitMetadata {
    match exit case Code(code) => Code(code) case Signal(signal) => Signal(signal)
  }

  function FromMetadata(exit: ExitMetadata): Ipc.ProcessExit {
    match exit case Code(code) => Ipc.Code(code) case Signal(signal) => Ipc.Signal(signal)
  }

  /** Converting to metadata and back is the identity both ways: a recorded exit is the process's exit. */
  lemma ExitSurvivesMetadata(exit: Ipc.ProcessExit, recorded: ExitMetadata)
    ensures FromMetadata(recorded) == exit <==> recorded == ToMetadata(exit)
    ensures match exit
            case Code(code) => ToMetadata(exit) == Code(code)
            case Signal(signal) => ToMetadata(exit) == Signal(signal)
  {
  }

  datatype SessionMetadata =
    | Live(sessionId: string, runnerPid: nat, childPid: nat, startedAt: nat, attached: bool)
    | Completed(sessionId: string, startedAt: nat, finishedAt: nat, exit: ExitMetadata, outputBytes: nat,
        truncated: bool)
  {
    predicate IsExpired(now: nat) {
      Completed? && now >= finishedAt && now - finishedAt >= COMPLETED_RETENTION_SECONDS
    }
  }

  /** A live session never expires, a completed one a day after it finished. */
  lemma ExpiresWhen(m: SessionMetadata, now: nat)
    ensures m.IsExpired(now) <==> m.Completed? && now >= m.finishedAt + 86_400
  {
  }

  // ---------------------------------------------------------------- the directory

  /** File contents: raw bytes, a whole encoded record, or the beginning of one. */
  datatype Content = Raw(bytes: seq<Byte>) | Json(metadata: SessionMetadata) | TornJson

  /** A socket that nobody listens on any more is a stale entry. */
  datatype Entry = File(content: Content) | Socket(listening: bool)

  type Disk = map<string, Entry>

  function Lookup(d: Disk, name: string): Option<Entry> {
    if name in d then Some(d[name]) else None
  }

  /** What has reached the file after `cut` units of a write. */
  function Cut(content: Content, cut: nat): Content {
    match content
    case Raw(bytes) => Raw(Take(bytes, cut))
    case _ => TornJson
  }

  function ReadMetadata(d: Disk, id: SessionId): IoResult<Option<SessionMetadata>> {
    match Lookup(d, NameOf(id, METADATA))
    case None => Ok(None)
    case Some(File(Json(m))) => if m.sessionId == Hex(id) then Ok(Some(m)) else Err(Afk(InvalidData))
    case Some(File(_)) => Err(Afk(InvalidData))
    case Some(Socket(_)) => Err(Afk(PermissionDenied))
  }

  function ReadOutput(d: Disk, id: SessionId): IoResult<Option<seq<Byte>>> {
    match Lookup(d, NameOf(id, OUTPUT))
    case None => Ok(None)
    case Some(File(Raw(bytes))) => if |bytes| <= OUTPUT_TAIL_BYTES then Ok(Some(bytes)) else Err(Afk(InvalidData))
    case Some(File(_)) => Err(Afk(InvalidData))
    case Some(Socket(_)) => Err(Afk(PermissionDenied))
  }

  /** Connecting to a session; `fault` is what connecting to a listening socket reports instead of success. */
  function Connect(d: Disk, id: SessionId, fault: Option<Kind>): Status {
    match Lookup(d, NameOf(id, SOCKET))
    case None => Failed(Os(NotFound))
    case Some(File(_)) => Failed(Afk(PermissionDenied))
    case Some(Socket(false)) => Failed(Os(ConnectionRefused))
    case Some(Socket(true)) => match fault case None => Done case Some(kind) => Failed(Os(kind))
  }

  /** A record is read exactly from a whole record file that names its own session. */
  lemma RecordIs(d: Disk, id: SessionId, m: SessionMetadata)
    ensures ReadMetadata(d, id) == Ok(None) <==> NameOf(id, METADATA) !in d
    ensures ReadMetadata(d, id) == Ok(Some(m)) <==>
              m.sessionId == Hex(id) && NameOf(id, METADATA) in d && d[NameOf(id, METADATA)] == File(Json(m))
    ensures ReadMetadata(d, id) == Err(Afk(PermissionDenied)) <==>
              NameOf(id, METADATA) in d && d[NameOf(id, METADATA)].Socket?
    ensures ReadMetadata(d, id).Err? ==> ReadMetadata(d, id).error in {Afk(PermissionDenied), Afk(InvalidData)}
  {
    hide NameOf, Hex;
  }

  /** Output is read exactly from a file of raw bytes within the limit. */
  lemma OutputIs(d: Disk, id: SessionId, bytes: seq<Byte>)
    ensures ReadOutput(d, id) == Ok(None) <==> NameOf(id, OUTPUT) !in d
    ensures ReadOutput(d, id) == Ok(Some(bytes)) <==>
              |bytes| <= 0x4_0000 && NameOf(id, OUTPUT) in d && d[NameOf(id, OUTPUT)] == File(Raw(bytes))
  {
    hide NameOf;
  }

  /** Connecting succeeds exactly with a socket that is listened on, if the call does not fail. */
  lemma ConnectIs(d: Disk, id: SessionId, fault: Option<Kind>)
    ensures var socket := NameOf(id, SOCKET);
            match Connect(d, id, fault)
            case Done => socket in d && d[socket] == Socket(true) && fault == None
            case Failed(Os(kind)) =>
              || (socket !in d && kind == NotFound)
              || (socket in d && d[socket] == Socket(false) && kind == ConnectionRefused)
              || (socket in d && d[socket] == Socket(true) && fault == Some(kind))
            case Failed(Afk(kind)) => socket in d && d[socket].File? && kind == PermissionDenied
  {
    hide NameOf;
  }

  predicate Expired(d: Disk, id: SessionId, now: nat) {
    match ReadMetadata(d, id) case Ok(Some(m)) => m.IsExpired(now) case _ => false
  }

  lemma ExpiredIs(d: Disk, id: SessionId, now: nat)
    ensures var m := ReadMetadata(d, id);
            m.Ok? ==> (Expired(d, id, now) <==> m.value.Some? && m.value.value.IsExpired(now))
    ensures ReadMetadata(d, id).Err? ==>
              ReadMetadata(d, id).error.Afk? && ReadMetadata(d, id).error.kind in {InvalidData, PermissionDenied}
  {
  }

  // ---------------------------------------------------------------- relations between directory states

  ghost predicate SameBut(a: Disk, b: Disk, name: string) {
    forall n: string | n != name :: Lookup(a, n) == Lookup(b, n)
  }

  ghost predicate SameSessions(a: Disk, b: Disk) {
    forall id: SessionId, suffix: string :: Lookup(a, NameOf(id, suffix)) == Lookup(b, NameOf(id, suffix))
  }

  /** All files of all sessions other than `id` are as before. */
  ghost predicate OnlyTouches(before: Disk, after: Disk, id: SessionId) {
    forall other: SessionId, suffix: string | other != id ::
      Lookup(after, NameOf(other, suffix)) == Lookup(before, NameOf(other, suffix))
  }

  /** Nothing appeared, and only output, trace and record of expired sessions are gone. */
  ghost predicate RemovesOnlyExpired(before: Disk, after: Disk, now: nat) {
    forall id: SessionId, suffix: string ::
      || Lookup(after, NameOf(id, suffix)) == Lookup(before, NameOf(id, suffix))
      || (Expired(before, id, now) && suffix in {OUTPUT, TRACE, METADATA} && Lookup(after, NameOf(id, suffix)) == None)
  }

  /** Record and output file of `id` are as before. */
  ghost predicate SameRecord(a: Disk, b: Disk, id: SessionId) {
    && Lookup(a, NameOf(id, METADATA)) == Lookup(b, NameOf(id, METADATA))
    && Lookup(a, NameOf(id, OUTPUT)) == Lookup(b, NameOf(id, OUTPUT))
  }

  ghost predicate OnlyOutputChanged(before: Disk, after: Disk, id: SessionId, output: seq<Byte>) {
    && OnlyTouches(before, after, id)
    && RecordUnchanged(before, after, id)
    && Lookup(after, NameOf(id, OUTPUT)) == Some(File(Raw(output)))
  }

  ghost predicate RecordUnchanged(before: Disk, after: Disk, id: SessionId) {
    Lookup(after, NameOf(id, METADATA)) == Lookup(before, NameOf(id, METADATA))
  }

  ghost predicate Committed(d: Disk, id: SessionId, output: seq<Byte>, metadata: SessionMetadata) {
    && Lookup(d, NameOf(id, METADATA)) == Some(File(Json(metadata)))
    && Lookup(d, NameOf(id, OUTPUT)) == Some(File(Raw(output)))
  }

  lemma AllNamesIsolated(id: SessionId)
    ensures forall other: SessionId, x: string, y: string ::
              NameOf(id, x) == NameOf(other, y) <==> id == other && x == y
  {
    forall other: SessionId, x: string, y: string
      ensures NameOf(id, x) == NameOf(other, y) <==> id == other && x == y
    {
      NamesIsolated(id, x, other, y);
    }
  }

  datatype AtomicStage = Create | Write | Sync | Rename

  /**
    One atomic replacement as the environment runs it: the writer's process ID, how far the
    temporary file had got at some moments of the write, the stage that fails if any, and
    whether removing the temporary file after a failure fails as well.
   */
  datatype AtomicEnv = AtomicEnv(pid: nat, cuts: seq<nat>, failure: Option<(AtomicStage, Kind)>, leftBehind: bool)

  /** What an atomic replacement of `name` comes to: leftovers of an earlier writer with the same ID refuse it. */
  function WriteOutcome(d: Disk, name: string, env: AtomicEnv): Status {
    if TemporaryName(name, env.pid) in d then Failed(Os(AlreadyExists))
    else match env.failure case None => Done case Some(failure) => Failed(Os(failure.1))
  }

  /** No writer has left a temporary file of the session behind. */
  ghost predicate NoTemporaries(d: Disk, id: SessionId) {
    forall suffix: string, pid: nat :: TemporaryName(NameOf(id, suffix), pid) !in d
  }

  function FilesOf(id: SessionId): set<string> {
    {NameOf(id, SOCKET), NameOf(id, LOCK), NameOf(id, TRACE), NameOf(id, METADATA), NameOf(id, OUTPUT)}
  }

  ghost predicate WithinFiles(before: Disk, after: Disk, id: SessionId) {
    forall name: string | name !in FilesOf(id) :: Lookup(after, name) == Lookup(before, name)
  }

  /** Temporary files are no session's files. */
  lemma StaysTidy(before: Disk, after: Disk, id: SessionId)
    requires WithinFiles(before, after, id)
    ensures forall suffix: string, pid: nat ::
              TemporaryName(NameOf(id, suffix), pid) in after <==> TemporaryName(NameOf(id, suffix), pid) in before
    ensures NoTemporaries(after, id) <==> NoTemporaries(before, id)
  {
    hide NameOf, TemporaryName;
    forall suffix: string, pid: nat
      ensures TemporaryName(NameOf(id, suffix), pid) in after <==> TemporaryName(NameOf(id, suffix), pid) in before
    {
      TemporaryNeverRecognised(NameOf(id, suffix), pid);
      assert TemporaryName(NameOf(id, suffix), pid) !in FilesOf(id);
    }
  }

  /** What recording a completion comes to: the output is written first. */
  function CompletionOutcome(d: Disk, id: SessionId, outputBytes: nat,
                             outputEnv: AtomicEnv, metadataEnv: AtomicEnv): Status
  {
    if outputBytes > OUTPUT_TAIL_BYTES then Failed(Afk(InvalidData))
    else if WriteOutcome(d, NameOf(id, OUTPUT), outputEnv).Failed? then WriteOutcome(d, NameOf(id, OUTPUT), outputEnv)
    else WriteOutcome(d, NameOf(id, METADATA), metadataEnv)
  }

  /** It succeeds exactly if the output is within the limit, nothing is in the way of the two writes, and none fails. */
  lemma CompletionSucceeds(d: Disk, id: SessionId, outputBytes: nat, outputEnv: AtomicEnv, metadataEnv: AtomicEnv)
    ensures CompletionOutcome(d, id, outputBytes, outputEnv, metadataEnv).Done? <==>
              && outputBytes <= 0x4_0000 && outputEnv.failure == None && metadataEnv.failure == None
              && TemporaryName(NameOf(id, OUTPUT), outputEnv.pid) !in d
              && TemporaryName(NameOf(id, METADATA), metadataEnv.pid) !in d
  {
    hide TemporaryName, NameOf;
  }

  datatype BindEnv = BindEnv(
    now: nat, connectFault: Option<Kind>, bindFault: Option<Kind>, setupFault: Option<Kind>, lockFault: Option<Kind>)

  /** One opening of the registry: the clock and the directory listing that the cleanup scans. */
  datatype OpenEnv = OpenEnv(now: nat, listing: seq<string>)

  function Scanned(env: OpenEnv): (names: seq<string>)
    ensures names <= env.listing && (names == env.listing || |names| == 1024)
  {
    Take(env.listing, MAX_SESSION_LIST_ENTRIES)
  }

  /** Every record file among the scanned entries holds a readable record of its own session. */
  ghost predicate ScannedReadable(d: Disk, env: OpenEnv) {
    forall id: SessionId | NameOf(id, METADATA) in Scanned(env) :: ReadMetadata(d, id).Ok?
  }

  /** The session cannot be created: its record is retained, or somebody answers on its socket. */
  predicate Taken(d: Disk, id: SessionId, env: BindEnv) {
    match ReadMetadata(d, id)
    case Ok(Some(m)) =>
      !m.IsExpired(env.now) && (m.Completed? || Connect(d, id, env.connectFault).Done?)
    case Ok(None) =>
      (NameOf(id, SOCKET) in d || NameOf(id, LOCK) in d) && Connect(d, id, env.connectFault).Done?
    case Err(_) => false
  }

  /** Nobody answers, but something of an earlier runner is still there. */
  predicate Stale(d: Disk, id: SessionId, env: BindEnv) {
    match ReadMetadata(d, id)
    case Ok(Some(m)) => !m.IsExpired(env.now)
    case Ok(None) => NameOf(id, SOCKET) in d || NameOf(id, LOCK) in d
    case Err(_) => false
  }

  /** Everything of an earlier runner is of the kind it should be, and so can be removed. */
  predicate Removable(d: Disk, id: SessionId) {
    && OwnedOrAbsent(d, NameOf(id, SOCKET), true)
    && forall suffix | suffix in {LOCK, TRACE, METADATA} :: OwnedOrAbsent(d, NameOf(id, suffix), false)
  }

  /** What the checks and removals before binding come to. */
  function ClearOutcome(d: Disk, id: SessionId, env: BindEnv): Status {
    if ReadMetadata(d, id).Err? then Failed(ReadMetadata(d, id).error)
    else if Taken(d, id, env) then Failed(Afk(AlreadyExists))
    else if Stale(d, id, env) && !Removable(d, id) then Failed(Afk(PermissionDenied))
    else Done
  }

  /** What taking a session comes to. An expired record does not make its socket or lock stale. */
  function BindOutcome(d: Disk, id: SessionId, env: BindEnv): Status {
    if ClearOutcome(d, id, env).Failed? then ClearOutcome(d, id, env)
    else if !Stale(d, id, env) && NameOf(id, SOCKET) in d then Failed(Afk(AlreadyExists))
    else if env.bindFault.Some? then Failed(Os(env.bindFault.value))
    else if env.setupFault.Some? then Failed(Os(env.setupFault.value))
    else if !Stale(d, id, env) && NameOf(id, LOCK) in d then Failed(Os(AlreadyExists))
    else match env.lockFault case None => Done case Some(kind) => Failed(Os(kind))
  }

  /** An entry of a file name, if it is there, is a file. */
  predicate FileOrNothing(d: Disk, name: string) {
    name in d ==> d[name].File?
  }

  /**
    What taking a session comes to, from the entries of the session alone: retained and answering sessions
    are taken, what a dead runner left is cleared away if it can be, and then only a failing call prevents it.
   */
  lemma BindMeans(d: Disk, id: SessionId, env: BindEnv)
    ensures var record, socket, r := ReadMetadata(d, id), Lookup(d, NameOf(id, SOCKET)), BindOutcome(d, id, env);
            var faultless := env.bindFault == None && env.setupFault == None && env.lockFault == None;
            match record
            case Err(e) => r == Failed(e)
            case Ok(Some(Completed(_, _, finishedAt, _, _, _))) =>
              if env.now < finishedAt + 86_400 then r == Failed(Afk(AlreadyExists)) else
              && (socket.Some? ==> r == Failed(Afk(AlreadyExists)))
              && (faultless ==> (r.Done? <==> socket == None && NameOf(id, LOCK) !in d))
            case _ =>
              if socket == Some(Socket(true)) && env.connectFault == None then r == Failed(Afk(AlreadyExists)) else
              var removable :=
                || (record.value == None && socket == None && NameOf(id, LOCK) !in d)
                || ((socket.Some? ==> socket.value.Socket?) && FileOrNothing(d, NameOf(id, LOCK))
                    && FileOrNothing(d, NameOf(id, TRACE)));
              && (!removable ==> r == Failed(Afk(PermissionDenied)))
              && (removable ==> (r.Done? <==> faultless))
              && (removable && env.bindFault.Some? ==> r == Failed(Os(env.bindFault.value)))
  {
    hide NameOf, Hex;
    AllNamesIsolated(id);
  }

  predicate OwnedOrAbsent(d: Disk, name: string, socket: bool) {
    name in d ==> d[name].Socket? == socket
  }

  /** The cleanup could read the record of `id`, and removed it if it had expired. */
  ghost predicate Handled(start: Disk, after: Disk, id: SessionId, now: nat) {
    && ReadMetadata(start, id).Ok?
    && (Expired(start, id, now) ==> ReadMetadata(after, id) == Ok(None))
  }

  /** No socket is listened on, and no lock is there, that was not before. */
  ghost predicate HoldsNothing(before: Disk, after: Disk, id: SessionId) {
    && (NameOf(id, SOCKET) in after && after[NameOf(id, SOCKET)] == Socket(true) ==>
          NameOf(id, SOCKET) in before && before[NameOf(id, SOCKET)] == Socket(true))
    && (NameOf(id, LOCK) in after ==> NameOf(id, LOCK) in before)
  }

  lemma RecognisedOnly(name: string)
    ensures forall id: SessionId :: SessionFromMetadataName(name) == Some(id) <==> name == NameOf(id, METADATA)
  {
    forall id: SessionId
      ensures SessionFromMetadataName(name) == Some(id) <==> name == NameOf(id, METADATA)
    {
      MetadataNameRecognised(name, id);
    }
  }

  /** `name` is a file of an expired session whose record is among `names`. */
  ghost predicate Swept(d: Disk, names: seq<string>, now: nat, name: string) {
    exists id: SessionId :: NameOf(id, METADATA) in names && Expired(d, id, now)
                            && name in {NameOf(id, OUTPUT), NameOf(id, TRACE), NameOf(id, METADATA)}
  }

  /** The directory without the files of the expired sessions whose records are among `names`. */
  ghost function Sweep(d: Disk, names: seq<string>, now: nat): Disk {
    map name | name in d && !Swept(d, names, now, name) :: d[name]
  }

  /** The directory after opening the registry. */
  ghost function AfterCleanup(d: Disk, env: OpenEnv): Disk {
    Sweep(d, Scanned(env), env.now)
  }

  lemma SweepNothing(d: Disk, now: nat)
    ensures Sweep(d, [], now) == d
  {
  }

  /** Scanning one more name: its session is removed if it had expired and was still there. */
  lemma SweepStep(d: Disk, names: seq<string>, name: string, now: nat, session: Option<SessionId>)
    requires session == SessionFromMetadataName(name)
    ensures var before, after := Sweep(d, names, now), Sweep(d, names + [name], now);
            match session
            case None => after == before
            case Some(id) =>
              after == if Expired(before, id, now)
                       then before - {NameOf(id, OUTPUT), NameOf(id, TRACE), NameOf(id, METADATA)} else before
  {
    hide NameOf, SessionFromMetadataName;
    RecognisedOnly(name);
    if session.Some? {
      var id := session.value;
      AllNamesIsolated(id);
      assert name == NameOf(id, METADATA);
    }
  }

  /** What is left of the files of `id`: only output, trace and record of a session that finished a day ago are gone. */
  lemma SweepIs(d: Disk, names: seq<string>, now: nat, id: SessionId, suffix: string)
    ensures Lookup(Sweep(d, names, now), NameOf(id, suffix)) ==
            match ReadMetadata(d, id)
            case Ok(Some(Completed(_, _, finishedAt, _, _, _))) =>
              if now >= finishedAt + 86_400 && NameOf(id, METADATA) in names && suffix in {".out", ".trace", ".json"}
              then None else Lookup(d, NameOf(id, suffix))
            case _ => Lookup(d, NameOf(id, suffix))
  {
    hide NameOf, Hex, ReadMetadata;
    AllNamesIsolated(id);
  }

  lemma SweepLeavesTemporaries(d: Disk, names: seq<string>, now: nat, id: SessionId)
    ensures forall suffix: string, pid: nat ::
              TemporaryName(NameOf(id, suffix), pid) in Sweep(d, names, now) <==>
              TemporaryName(NameOf(id, suffix), pid) in d
    ensures NoTemporaries(Sweep(d, names, now), id) <==> NoTemporaries(d, id)
  {
    hide NameOf, TemporaryName;
    forall suffix: string, pid: nat
      ensures TemporaryName(NameOf(id, suffix), pid) in Sweep(d, names, now) <==>
              TemporaryName(NameOf(id, suffix), pid) in d
    {
      TemporaryNeverRecognised(NameOf(id, suffix), pid);
      assert !Swept(d, names, now, TemporaryName(NameOf(id, suffix), pid));
    }
  }

  /** A sweep removes only what has expired, all of that among its names, and hides no unreadable record. */
  lemma SweepRemoves(d: Disk, names: seq<string>, now: nat)
    ensures RemovesOnlyExpired(d, Sweep(d, names, now), now)
    ensures forall id: SessionId :: ReadMetadata(Sweep(d, names, now), id).Ok? <==> ReadMetadata(d, id).Ok?
    ensures forall id: SessionId | NameOf(id, METADATA) in names && ReadMetadata(d, id).Ok? ::
              Handled(d, Sweep(d, names, now), id, now)
  {
    var after := Sweep(d, names, now);
    forall id: SessionId, suffix: string
      ensures || Lookup(after, NameOf(id, suffix)) == Lookup(d, NameOf(id, suffix))
              || (Expired(d, id, now) && suffix in {OUTPUT, TRACE, METADATA}
                  && Lookup(after, NameOf(id, suffix)) == None)
    {
      AllNamesIsolated(id);
    }
    forall id: SessionId ensures ReadMetadata(after, id).Ok? <==> ReadMetadata(d, id).Ok? {
      assert Lookup(after, NameOf(id, METADATA)) == Lookup(d, NameOf(id, METADATA)) || Expired(d, id, now);
    }
  }

  /** Reading a record is reading its file. */
  lemma RecordsKept(before: Disk, after: Disk)
    ensures forall id: SessionId | Lookup(after, NameOf(id, METADATA)) == Lookup(before, NameOf(id, METADATA)) ::
              ReadMetadata(after, id) == ReadMetadata(before, id)
    ensures forall id: SessionId | ReadMetadata(before, id).Ok? && ReadMetadata(before, id).value.Some? ::
              NameOf(id, METADATA) in before
  {
    hide NameOf, Hex;
  }

  class Registry {
    var disk: Disk
    /** Every state the directory has been in, oldest first. */
    ghost var trace: seq<Disk>

    ghost predicate Valid()
      reads this
    {
      trace != [] && trace[|trace| - 1] == disk
    }

    constructor (disk: Disk)
      ensures Valid() && this.disk == disk && trace == [disk]
    {
      this.disk := disk;
      trace := [disk];
    }

    // -------------------------------------------------------------- primitive steps

    method Put(name: string, entry: Entry)
      requires Valid()
      modifies this
      ensures Valid() && disk == old(disk)[name := entry] && trace == old(trace) + [disk]
    {
      disk := disk[name := entry];
      trace := trace + [disk];
    }

    method Remove(name: string)
      requires Valid()
      modifies this
      ensures Valid() && disk == old(disk) - {name} && trace == old(trace) + [disk]
    {
      disk := disk - {name};
      trace := trace + [disk];
    }

    /**
      Replaces `name` through a temporary file. Until the rename every reader of any file but
      the temporary one sees the old directory, and the rename installs the whole content.
     */
    method AtomicWrite(name: string, content: Content, env: AtomicEnv) returns (r: Status)
      requires Valid()
      modifies this
      ensures Valid() && old(trace) <= trace
      ensures r.Done? ==> |old(trace)| < |trace| && disk == old(disk)[name := File(content)]
      ensures r.Failed? ==> SameBut(disk, old(disk), TemporaryName(name, env.pid))
      ensures forall i | |old(trace)| <= i < |trace| - (if r.Done? then 1 else 0) ::
                SameBut(trace[i], old(disk), TemporaryName(name, env.pid))
      ensures r == WriteOutcome(old(disk), name, env)
      // a leftover of a writer with the same ID refuses it; otherwise only a failing stage does
      ensures TemporaryName(name, env.pid) in old(disk) ==> r == Failed(Os(AlreadyExists)) && disk == old(disk)
      ensures TemporaryName(name, env.pid) !in old(disk) ==>
                match env.failure
                case None => r.Done?
                case Some((stage, kind)) =>
                  r == Failed(Os(kind)) && (TemporaryName(name, env.pid) in disk <==> stage != Create && env.leftBehind)
    {
      var temporary := TemporaryName(name, env.pid);
      TemporaryDiffers(name, env.pid);
      if temporary in disk {
        return Failed(Os(AlreadyExists));
      }
      if env.failure.Some? && env.failure.value.0 == Create {
        return Failed(Os(env.failure.value.1));
      }
      Put(temporary, File(Cut(content, 0)));
      for i := 0 to |env.cuts|
        invariant Valid() && old(trace) <= trace && temporary in disk
        invariant disk == old(disk)[temporary := disk[temporary]]
        invariant forall k | |old(trace)| <= k < |trace| :: SameBut(trace[k], old(disk), temporary)
      {
        Put(temporary, File(Cut(content, env.cuts[i])));
      }
      if env.failure.Some? {
        if !env.leftBehind {
          Remove(temporary);
        }
        return Failed(Os(env.failure.value.1));
      }
      Put(temporary, File(content));
      disk := disk[name := File(content)] - {temporary};
      trace := trace + [disk];
      assert disk == old(disk)[name := File(content)];
      return Done;
    }

    /** `AtomicWrite` of a session's file: to every session the change happens at once. */
    method WriteSessionFile(id: SessionId, suffix: string, content: Content, env: AtomicEnv) returns (r: Status)
      requires Valid()
      modifies this
      ensures Valid() && old(trace) <= trace
      ensures r.Done? ==> |old(trace)| < |trace| && disk == old(disk)[NameOf(id, suffix) := File(content)]
      ensures r.Failed? ==> SameSessions(disk, old(disk))
      ensures forall i | |old(trace)| <= i < |trace| - (if r.Done? then 1 else 0) :: SameSessions(trace[i], old(disk))
      ensures r == WriteOutcome(old(disk), NameOf(id, suffix), env)
    {
      r := AtomicWrite(NameOf(id, suffix), content, env);
      TemporaryNeverRecognised(NameOf(id, suffix), env.pid);
    }

    method WriteMetadata(id: SessionId, metadata: SessionMetadata, env: AtomicEnv) returns (r: Status)
      requires Valid()
      modifies this
      ensures Valid() && old(trace) <= trace
      ensures OnlyTouches(old(disk), disk, id)
      ensures r.Done? ==> |old(trace)| < |trace| && disk == old(disk)[NameOf(id, METADATA) := File(Json(metadata))]
      ensures r.Failed? ==> SameSessions(disk, old(disk))
      ensures forall i | |old(trace)| <= i < |trace| - (if r.Done? then 1 else 0) :: SameSessions(trace[i], old(disk))
      ensures r == WriteOutcome(old(disk), NameOf(id, METADATA), env)
    {
      r := WriteSessionFile(id, METADATA, Json(metadata), env);
      AllNamesIsolated(id);
    }

    method WriteOutput(id: SessionId, output: seq<Byte>, env: AtomicEnv) returns (r: Status)
      requires Valid()
      modifies this
      ensures Valid() && old(trace) <= trace
      ensures |output| > OUTPUT_TAIL_BYTES ==> r == Failed(Afk(InvalidData)) && disk == old(disk)
      ensures |output| <= OUTPUT_TAIL_BYTES ==> r == WriteOutcome(old(disk), NameOf(id, OUTPUT), env)
      ensures r.Done? ==> |old(trace)| < |trace| && disk == old(disk)[NameOf(id, OUTPUT) := File(Raw(output))]
      ensures r.Failed? ==> SameSessions(disk, old(disk))
      ensures forall i | |old(trace)| <= i < |trace| - (if r.Done? then 1 else 0) :: SameSessions(trace[i], old(disk))
    {
      if |output| > OUTPUT_TAIL_BYTES {
        return Failed(Afk(InvalidData));
      }
      r := WriteSessionFile(id, OUTPUT, Raw(output), env);
    }

    // -------------------------------------------------------------- completion

    /** The socket, then the lock; the runner's own copies go again when its files are dropped. */
    method RemoveLiveFiles(id: SessionId)
      requires Valid()
      modifies this
      ensures Valid() && old(trace) <= trace
      ensures disk == old(disk) - {NameOf(id, SOCKET), NameOf(id, LOCK)}
      ensures OnlyTouches(old(disk), disk, id)
      ensures forall i | |old(trace)| <= i < |trace| ::
                SameRecord(trace[i], old(disk), id) && OnlyTouches(old(disk), trace[i], id)
    {
      AllNamesIsolated(id);
      Remove(NameOf(id, SOCKET));
      Remove(NameOf(id, LOCK));
    }

    /**
      The disk half of completing a session. `commit` is the first state in which the record
      is the completed one: before it readers see the old record, from it on the completed
      record together with its whole output.
     */
    method RecordCompletion(id: SessionId, output: seq<Byte>, metadata: SessionMetadata, outputEnv: AtomicEnv,
        metadataEnv: AtomicEnv)
      returns (r: Status, ghost commit: nat)
      requires Valid()
      modifies this
      ensures Valid() && old(trace) <= trace && OnlyTouches(old(disk), disk, id)
      ensures |old(trace)| <= commit <= |trace|
      ensures r.Done? <==> commit < |trace|
      ensures forall i | |old(trace)| <= i < commit :: RecordUnchanged(old(disk), trace[i], id)
      ensures forall i | commit <= i < |trace| :: Committed(trace[i], id, output, metadata)
      ensures forall i | |old(trace)| <= i < |trace| :: OnlyTouches(old(disk), trace[i], id)
      ensures r.Done? ==> Lookup(disk, NameOf(id, SOCKET)) == None && Lookup(disk, NameOf(id, LOCK)) == None
      ensures r.Failed? ==> RecordUnchanged(old(disk), disk, id)
      ensures r == CompletionOutcome(old(disk), id, |output|, outputEnv, metadataEnv)
    {
      hide NameOf, Hex, TemporaryName;
      TemporaryNeverRecognised(NameOf(id, METADATA), metadataEnv.pid);
      r := WriteOutput(id, output, outputEnv);
      commit := |trace|;
      if r.Done? {
        assert OnlyOutputChanged(old(disk), disk, id, output) by { AllNamesIsolated(id); }
        ghost var written := disk;
        r := WriteMetadata(id, metadata, metadataEnv);
        if r.Failed? {
          commit := |trace|;
        } else {
          commit := |trace| - 1;
          assert Committed(disk, id, output, metadata) && OnlyTouches(old(disk), disk, id) by { AllNamesIsolated(id); }
          RemoveLiveFiles(id);
          RemoveLiveFiles(id);
        }
      }
    }

    // -------------------------------------------------------------- removal

    method RemoveCompleted(id: SessionId)
      requires Valid()
      modifies this
      ensures Valid() && old(trace) <= trace
      ensures disk == old(disk) - {NameOf(id, OUTPUT), NameOf(id, TRACE), NameOf(id, METADATA)}
    {
      Remove(NameOf(id, OUTPUT));
      Remove(NameOf(id, TRACE));
      Remove(NameOf(id, METADATA));
    }

    /** Removes an entry of the expected kind, and refuses to touch one of another kind. */
    method RemoveOwned(name: string, socket: bool) returns (r: Status)
      requires Valid()
      modifies this
      ensures Valid() && old(trace) <= trace
      ensures r == if OwnedOrAbsent(old(disk), name, socket) then Done else Failed(Afk(PermissionDenied))
      ensures disk == if r.Done? then old(disk) - {name} else old(disk)
    {
      if name !in disk {
        assert disk == disk - {name};
        return Done;
      }
      if disk[name].Socket? != socket {
        return Failed(Afk(PermissionDenied));
      }
      Remove(name);
      return Done;
    }

    method RemoveStaleLive(id: SessionId) returns (r: Status)
      requires Valid()
      modifies this
      ensures Valid() && old(trace) <= trace
      ensures OnlyTouches(old(disk), disk, id)
      ensures r.Done? ==> disk == old(disk) - {NameOf(id, SOCKET), NameOf(id, LOCK), NameOf(id, TRACE),
          NameOf(id, METADATA)}
      ensures r.Failed? ==> SameRecord(disk, old(disk), id)
      ensures Lookup(disk, NameOf(id, OUTPUT)) == Lookup(old(disk), NameOf(id, OUTPUT))
      ensures WithinFiles(old(disk), disk, id)
      ensures HoldsNothing(old(disk), disk, id)
      ensures r == if Removable(old(disk), id) then Done else Failed(Afk(PermissionDenied))
    {
      hide NameOf, Hex;
      AllNamesIsolated(id);
      r := RemoveOwned(NameOf(id, SOCKET), true);
      if r.Failed? { return; }
      r := RemoveOwned(NameOf(id, LOCK), false);
      if r.Failed? { return; }
      r := RemoveOwned(NameOf(id, TRACE), false);
      if r.Failed? { return; }
      r := RemoveOwned(NameOf(id, METADATA), false);
    }

    /**
      The cleanup every opening of the registry starts with. It removes expired sessions only,
      all of those it scans, and fails exactly when a record it scans cannot be read.
     */
    method CleanupExpired(env: OpenEnv) returns (r: Status)
      requires Valid()
      modifies this
      ensures Valid() && old(trace) <= trace
      ensures RemovesOnlyExpired(old(disk), disk, env.now)
      ensures r.Done? ==> forall id: SessionId | NameOf(id, METADATA) in Scanned(env) ::
                Handled(old(disk), disk, id, env.now)
      ensures r.Failed? ==> r.error.Afk? && r.error.kind in {InvalidData, PermissionDenied}
      ensures r.Done? <==> ScannedReadable(old(disk), env)
      ensures r.Done? ==> disk == AfterCleanup(old(disk), env)
      // a scanned session is removed exactly when it finished a day ago
      ensures r.Done? ==> forall id: SessionId | NameOf(id, METADATA) in Scanned(env) ::
                match ReadMetadata(old(disk), id)
                case Ok(Some(Completed(_, _, finishedAt, _, _, _))) =>
                  env.now >= finishedAt + 86_400 <==> NameOf(id, METADATA) !in disk
                case Ok(_) => ReadMetadata(disk, id) == ReadMetadata(old(disk), id)
                case Err(_) => false
    {
      hide Expired, Sweep, RemovesOnlyExpired, Handled, ReadMetadata, SessionFromMetadataName, NameOf;
      var entries := Scanned(env);
      SweepNothing(disk, env.now);
      for i := 0 to |entries|
        invariant Valid() && old(trace) <= trace
        invariant disk == Sweep(old(disk), entries[..i], env.now)
        invariant forall id: SessionId | NameOf(id, METADATA) in entries[..i] :: ReadMetadata(old(disk), id).Ok?
      {
        SweepRemoves(old(disk), entries[..i], env.now);
        RecognisedOnly(entries[i]);
        var session := SessionFromMetadataName(entries[i]);
        if session.Some? {
          var id := session.value;
          var metadata := ReadMetadata(disk, id);
          ExpiredIs(disk, id, env.now);
          if metadata.Err? {
            return Failed(metadata.error);
          }
          if metadata.value.Some? && metadata.value.value.IsExpired(env.now) {
            RemoveCompleted(id);
          }
        }
        SweepStep(old(disk), entries[..i], entries[i], env.now, session);
        assert entries[..i + 1] == entries[..i] + [entries[i]];
      }
      assert entries[..|entries|] == entries;
      SweepRemoves(old(disk), entries, env.now);
      forall id: SessionId
        ensures Lookup(disk, NameOf(id, METADATA)) ==
                match ReadMetadata(old(disk), id)
                case Ok(Some(Completed(_, _, finishedAt, _, _, _))) =>
                  if env.now >= finishedAt + 86_400 && NameOf(id, METADATA) in entries then None
                  else Lookup(old(disk), NameOf(id, METADATA))
                case _ => Lookup(old(disk), NameOf(id, METADATA))
      {
        SweepIs(old(disk), entries, env.now, id, METADATA);
      }
      RecordsKept(old(disk), disk);
      return Done;
    }

    // -------------------------------------------------------------- taking a session

    /** The checks before binding: refuse a taken session, clear away an expired or stale one. */
    method ClearForBind(id: SessionId, env: BindEnv) returns (r: Status)
      requires Valid()
      modifies this
      ensures Valid() && old(trace) <= trace && OnlyTouches(old(disk), disk, id)
      ensures r == ClearOutcome(old(disk), id, env)
      ensures r.Failed? && !Stale(old(disk), id, env) ==> disk == old(disk)
      ensures Taken(old(disk), id, env) ==> disk == old(disk)
      ensures r.Done? ==> ReadMetadata(disk, id) == Ok(None)
      ensures r.Done? ==> forall s: string | s in {SOCKET, LOCK} ::
                Lookup(disk, NameOf(id, s)) ==
                if Stale(old(disk), id, env) then None else Lookup(old(disk), NameOf(id, s))
      ensures WithinFiles(old(disk), disk, id) && HoldsNothing(old(disk), disk, id)
      ensures forall s: string | s in {METADATA, OUTPUT} ::
                Lookup(disk, NameOf(id, s)) in {Lookup(old(disk), NameOf(id, s)), None}
    {
      AllNamesIsolated(id);
      var metadata := ReadMetadata(disk, id);
      if metadata.Err? {
        return Failed(metadata.error);
      }
      if metadata.value.Some? {
        if metadata.value.value.IsExpired(env.now) {
          RemoveCompleted(id);
        } else {
          if metadata.value.value.Completed? || Connect(disk, id, env.connectFault).Done? {
            return Failed(Afk(AlreadyExists));
          }
          r := RemoveStaleLive(id);
          return;
        }
      } else if NameOf(id, SOCKET) in disk || NameOf(id, LOCK) in disk {
        if Connect(disk, id, env.connectFault).Done? {
          return Failed(Afk(AlreadyExists));
        }
        r := RemoveStaleLive(id);
        return;
      }
      return Done;
    }

    /**
      Takes the session or reports why not. A session is taken when a completed record is still
      retained or its socket answers; then nothing at all is changed. Success means the caller
      owns a listening socket and the lock, and that no record of the session remains.
     */
    method BindSession(id: SessionId, env: BindEnv) returns (r: Status)
      requires Valid()
      modifies this
      ensures Valid() && old(trace) <= trace && OnlyTouches(old(disk), disk, id)
      ensures r == BindOutcome(old(disk), id, env)
      // a completed session is left alone until it has been finished for a day
      ensures match ReadMetadata(old(disk), id)
              case Ok(Some(Completed(_, _, finishedAt, _, _, _))) =>
                env.now < finishedAt + 86_400 ==> r == Failed(Afk(AlreadyExists)) && disk == old(disk)
              case _ => true
      ensures Taken(old(disk), id, env) || ReadMetadata(old(disk), id).Err? ==> disk == old(disk)
      ensures WithinFiles(old(disk), disk, id)
      // who fails to take it listens on nothing and holds no lock
      ensures r.Failed? ==> HoldsNothing(old(disk), disk, id)
      ensures r.Done? ==> ReadMetadata(disk, id) == Ok(None)
                          && Lookup(disk, NameOf(id, SOCKET)) == Some(Socket(true))
                          && Lookup(disk, NameOf(id, LOCK)) == Some(File(Raw([])))
      ensures forall s: string | s in {METADATA, OUTPUT} ::
                Lookup(disk, NameOf(id, s)) in {Lookup(old(disk), NameOf(id, s)), None}
    {
      hide NameOf, Hex;
      AllNamesIsolated(id);
      r := ClearForBind(id, env);
      if r.Failed? {
        return;
      }
      ghost var cleared := disk;
      if NameOf(id, SOCKET) in disk {
        return Failed(Afk(AlreadyExists));
      }
      if env.bindFault.Some? {
        return Failed(Os(env.bindFault.value));
      }
      Put(NameOf(id, SOCKET), Socket(true));
      if env.setupFault.Some? {
        Put(NameOf(id, SOCKET), Socket(false));
        r := Failed(Os(env.setupFault.value));
      } else if NameOf(id, LOCK) in disk {
        Remove(NameOf(id, SOCKET));
        r := Failed(Os(AlreadyExists));
      } else if env.lockFault.Some? {
        Remove(NameOf(id, SOCKET));
        r := Failed(Os(env.lockFault.value));
      } else {
        Put(NameOf(id, LOCK), File(Raw([])));
        r := Done;
      }
      assert OnlyTouches(cleared, disk, id) && SameRecord(disk, cleared, id);
    }
  }

  lemma TemporaryDiffers(name: string, pid: nat)
    ensures TemporaryName(name, pid) != name
  {
    assert |TemporaryName(name, pid)| > |name|;
  }
}
