/**
  What happened on a session's connections and on its PTY, as values, and what has to be true
  of it. The runner keeps such a transcript as ghost state; the end-to-end results read it.
 */
module Transcript {
  import opened Limits
  import opened Bytes
  import opened Ipc
  import OutputTail

  // ---------------------------------------------------------------- what records carry

  /** The output payloads of a record list, one after the other. */
  function Printed(rs: seq<Record>): seq<Byte> {
    if rs == [] then [] else
    Printed(rs[..|rs| - 1]) + (match rs[|rs| - 1] case Output(bytes) => bytes case _ => [])
  }

  /** The input payloads of a record list, one after the other. */
  function Typed(rs: seq<Record>): seq<Byte> {
    if rs == [] then [] else
    Typed(rs[..|rs| - 1]) + (match rs[|rs| - 1] case Input(bytes) => bytes case _ => [])
  }

  /** What a runner says: output, and at the very end possibly how the process exited. */
  ghost predicate RunnerSpeech(rs: seq<Record>) {
    && AllWellFormed(rs)
    && forall i | 0 <= i < |rs| :: rs[i].Output? || (rs[i].Exit? && i == |rs| - 1)
  }

  ghost predicate OnlyOutput(rs: seq<Record>) {
    AllWellFormed(rs) && forall i | 0 <= i < |rs| :: rs[i].Output?
  }

  /** What a runner takes from an attachment: one leading attach, then input and new sizes. */
  ghost predicate ClientSpeech(rs: seq<Record>) {
    forall i | 0 <= i < |rs| :: if i == 0 then rs[i].Attach? else rs[i].Input? || rs[i].Resize?
  }

  lemma PrintedAppend(rs: seq<Record>, r: Record)
    ensures Printed(rs + [r]) == Printed(rs) + (match r case Output(bytes) => bytes case _ => [])
  {
    assert (rs + [r])[..|rs|] == rs;
  }

  lemma {:induction false} PrintedConcat(a: seq<Record>, b: seq<Record>)
    ensures Printed(a + b) == Printed(a) + Printed(b)
  {
    if b == [] {
      assert a + b == a;
    } else {
      var front, last := b[..|b| - 1], b[|b| - 1];
      assert b == front + [last] && a + b == (a + front) + [last];
      PrintedConcat(a, front);
      PrintedAppend(a + front, last);
      PrintedAppend(front, last);
    }
  }

  lemma TypedAppend(rs: seq<Record>, r: Record)
    ensures Typed(rs + [r]) == Typed(rs) + (match r case Input(bytes) => bytes case _ => [])
  {
    assert (rs + [r])[..|rs|] == rs;
  }

  lemma {:induction false} PrintedOfPrefix(p: seq<Record>, rs: seq<Record>)
    requires p <= rs
    ensures Printed(p) <= Printed(rs)
    decreases |rs|
  {
    if p == rs {
    } else {
      assert p <= rs[..|rs| - 1];
      PrintedOfPrefix(p, rs[..|rs| - 1]);
    }
  }

  lemma {:induction false} TypedOfPrefix(p: seq<Record>, rs: seq<Record>)
    requires p <= rs
    ensures Typed(p) <= Typed(rs)
    decreases |rs|
  {
    if p == rs {
    } else {
      assert p <= rs[..|rs| - 1];
      TypedOfPrefix(p, rs[..|rs| - 1]);
    }
  }

  // ---------------------------------------------------------------- what an attachment is due

  /** What attaching shows first: the end of the output so far, marked if it is not all of it. */
  function Replay(pty: seq<Byte>): seq<Byte> {
    (if |pty| > OUTPUT_TAIL_BYTES then OutputTail.TRUNCATION_MARKER else []) + LastN(pty, OUTPUT_TAIL_BYTES)
  }

  /** What an attachment made after `at` bytes of output is due by now: the replay and everything since. */
  function Due(pty: seq<Byte>, at: nat): seq<Byte>
    requires at <= |pty|
  {
    Replay(pty[..at]) + pty[at..]
  }

  lemma DueGrows(pty: seq<Byte>, more: seq<Byte>, at: nat)
    requires at <= |pty|
    ensures Due(pty + more, at) == Due(pty, at) + more
  {
    assert (pty + more)[..at] == pty[..at];
    assert (pty + more)[at..] == pty[at..] + more;
  }

  // ---------------------------------------------------------------- one connection

  /**
    The story of one connection: bytes read from it, bytes written to it, records queued for it,
    records of it that took effect, and the amount of PTY output that came before its attach.
   */
  datatype Story = Story(
    received: seq<Byte>, wire: seq<Byte>, sent: seq<Record>, applied: seq<Record>, attachedAt: Option<nat>)

  const NEW_STORY := Story([], [], [], [], None)

  /** Nothing is lost or reordered on the way to the wire, and no exit has been announced. */
  ghost predicate Wired(c: Story, queued: seq<Byte>) {
    OnlyOutput(c.sent) && c.wire + queued == EncodeAll(c.sent)
  }

  /** What has been queued for a connection and not written to it. */
  ghost function Backlog(c: Story): seq<Byte> {
    if AllWellFormed(c.sent) && |c.wire| <= |EncodeAll(c.sent)| then EncodeAll(c.sent)[|c.wire|..] else []
  }

  lemma WiredBacklog(c: Story, queued: seq<Byte>)
    requires Wired(c, queued)
    ensures Backlog(c) == queued
  {
    hide EncodeAll;
  }

  /** Everything queued for a connection has been written to it, unless nothing has been written at all. */
  ghost predicate AllOut(c: Story) {
    c.wire == [] || (AllWellFormed(c.sent) && c.wire == EncodeAll(c.sent))
  }

  /** True of every connection for ever, dropped ones included. */
  ghost predicate StoryOk(c: Story, pty: seq<Byte>) {
    && RunnerSpeech(c.sent)
    && c.wire <= EncodeAll(c.sent)
    && c.applied <= Parse(c.received).records
    && ClientSpeech(c.applied)
    && match c.attachedAt
       case None => c.sent == [] && c.applied == []
       case Some(at) =>
         && at <= |pty| && Printed(c.sent) <= Due(pty, at)
         && (Finished(c.sent) ==> Printed(c.sent) == Due(pty, at))
  }

  /** The exit has been announced. */
  predicate Finished(sent: seq<Record>) {
    sent != [] && sent[|sent| - 1].Exit?
  }

  /** No exit has been announced to anybody. */
  ghost predicate Unfinished(stories: seq<Story>) {
    forall i | 0 <= i < |stories| :: !Finished(stories[i].sent)
  }

  /** Up to date: all output so far has been queued for it, all its records have taken effect. */
  ghost predicate UpToDate(c: Story, pty: seq<Byte>) {
    && c.attachedAt.Some? && c.attachedAt.value <= |pty|
    && Printed(c.sent) == Due(pty, c.attachedAt.value)
    && c.applied == Parse(c.received).records
    && c.applied != []
  }

  /** Has not said a whole record yet. */
  ghost predicate Silent(c: Story) {
    c == NEW_STORY.(received := c.received) && Parse(c.received).records == []
  }

  /** A peer that connected only to stop the session. */
  ghost predicate AskedToStop(c: Story) {
    c.applied == [] && Parse(c.received).records == [Stop] && Parse(c.received).error == None
  }

  lemma StoryGrows(c: Story, pty: seq<Byte>, more: seq<Byte>)
    requires StoryOk(c, pty) && !Finished(c.sent)
    ensures StoryOk(c, pty + more)
  {
    if c.attachedAt.Some? {
      DueGrows(pty, more, c.attachedAt.value);
    }
  }

  /** An attachment that was offered the newest output: up to date again if it took all of it. */
  lemma Offered(c: Story, c': Story, pty: seq<Byte>, chunk: seq<Byte>, queued: seq<Byte>)
    requires StoryOk(c, pty) && UpToDate(c, pty)
    requires c' == c.(sent := c'.sent) && Wired(c', queued)
    requires Printed(c'.sent) <= Printed(c.sent) + chunk
    ensures StoryOk(c', pty + chunk) && !Finished(c'.sent)
    ensures Printed(c'.sent) == Printed(c.sent) + chunk ==> UpToDate(c', pty + chunk)
  {
    DueGrows(pty, chunk, c.attachedAt.value);
    WiredIsOk(c', queued);
  }

  /** More of what is queued reached the wire. */
  lemma Written(c: Story, c': Story, pty: seq<Byte>, queued: seq<Byte>)
    requires StoryOk(c, pty) && UpToDate(c, pty)
    requires c' == c.(wire := c'.wire) && Wired(c', queued)
    ensures StoryOk(c', pty) && UpToDate(c', pty) && !Finished(c'.sent)
  {
    WiredIsOk(c', queued);
  }

  /** More bytes were read from a peer; none of the records in them has taken effect yet. */
  lemma Heard(c: Story, c': Story, pty: seq<Byte>)
    requires StoryOk(c, pty)
    requires c' == c.(received := c'.received) && c.received <= c'.received
    ensures StoryOk(c', pty)
  {
    var more := c'.received[|c.received|..];
    assert c'.received == c.received + more;
    ReceivedMore(c.received, more);
  }

  lemma UpToDateIsNotStop(c: Story, pty: seq<Byte>)
    requires UpToDate(c, pty)
    ensures c.applied != [] && !AskedToStop(c)
  {
  }

  /** An attachment whose newly read records have all taken effect is up to date again. */
  lemma AllApplied(c: Story, c': Story, pty: seq<Byte>, records: seq<Record>)
    requires UpToDate(c, pty)
    requires c' == c.(received := c'.received, applied := c.applied + records)
    requires Parse(c'.received).records == c.applied + records
    ensures UpToDate(c', pty)
  {
  }

  /** A peer that spoke for the first time, and said attach. */
  lemma Introduced(c: Story, pty: seq<Byte>, rows: U16, columns: U16, rest: seq<Record>)
    requires c == NEW_STORY.(received := c.received)
    requires Parse(c.received).records == [Attach(rows, columns)] + rest
    ensures !AskedToStop(c)
    ensures StoryOk(c.(applied := [Attach(rows, columns)], attachedAt := Some(|pty|)), pty)
  {
    assert ([Attach(rows, columns)] + rest)[0] == Attach(rows, columns);
  }

  /** The replay is exactly what an attachment made now is due. */
  lemma Replayed(c: Story, c': Story, pty: seq<Byte>, queued: seq<Byte>)
    requires StoryOk(c, pty) && c.sent == [] && c.attachedAt == Some(|pty|)
    requires c' == c.(sent := c'.sent) && Wired(c', queued)
    requires Printed(c'.sent) == Printed([]) + Replay(pty)
    ensures StoryOk(c', pty) && Printed(c'.sent) == Due(pty, |pty|) && !Finished(c'.sent)
  {
    WiredIsOk(c', queued);
    assert pty[..|pty|] == pty && pty[|pty|..] == [];
    assert [] + Replay(pty) == Replay(pty) && Replay(pty) + [] == Replay(pty);
  }

  lemma Admitted(c: Story, pty: seq<Byte>)
    requires c.attachedAt == Some(|pty|) && Printed(c.sent) == Due(pty, |pty|)
    requires c.applied == Parse(c.received).records && c.applied != []
    ensures UpToDate(c, pty)
  {
  }

  /** The exit announcement adds nothing to what is printed and stays behind all of it. */
  lemma Parted(c: Story, c': Story, pty: seq<Byte>, last: seq<Record>)
    requires StoryOk(c, pty) && UpToDate(c, pty)
    requires c' == c.(sent := c.sent + last, wire := c'.wire) && (last == [] || (|last| == 1 && last[0].Exit?))
    requires RunnerSpeech(c'.sent) && c'.wire <= EncodeAll(c'.sent)
    ensures StoryOk(c', pty) && Printed(c'.sent) == Printed(c.sent) && !AskedToStop(c')
  {
    if last == [] {
      assert c.sent + last == c.sent;
    } else {
      assert last == [last[0]];
      PrintedAppend(c.sent, last[0]);
    }
  }

  lemma WiredIsOk(c: Story, queued: seq<Byte>)
    requires Wired(c, queued)
    ensures RunnerSpeech(c.sent) && c.wire <= EncodeAll(c.sent) && !Finished(c.sent)
  {
  }

  /** Queueing one more record behind what is queued already. */
  lemma WiredSend(c: Story, queued: seq<Byte>, r: Record)
    requires Wired(c, queued) && WellFormed(r)
    ensures EncodeAll(c.sent) + EncodeBytes(r) == EncodeAll(c.sent + [r])
    ensures r.Output? ==> Wired(c.(sent := c.sent + [r]), queued + EncodeBytes(r))
    ensures r.Exit? ==> RunnerSpeech(c.sent + [r]) && c.wire + (queued + EncodeBytes(r)) == EncodeAll(c.sent + [r])
  {
    hide EncodeBytes, EncodeAll;
    EncodeAllAppend(c.sent, [r]);
    EncodeOne(r);
    assert c.wire + (queued + EncodeBytes(r)) == (c.wire + queued) + EncodeBytes(r);
  }

  lemma EncodeOne(r: Record)
    requires WellFormed(r)
    ensures EncodeAll([r]) == EncodeBytes(r)
  {
    hide EncodeBytes;
    assert EncodeAll([r]) == EncodeBytes(r) + EncodeAll([]);
  }

  /** Reading on keeps all records that were complete already. */
  lemma ReceivedMore(received: seq<Byte>, more: seq<Byte>)
    ensures Parse(received).records <= Parse(received + more).records
    ensures Parse(received).error == None ==>
              Parse(received + more) ==
              Parse(Parse(received).rest + more).(records := Parse(received).records
                  + Parse(Parse(received).rest + more).records)
  {
    ParseAppend(received, more);
  }

  // ---------------------------------------------------------------- the whole session

  /** A record of connection `id` that took effect. */
  datatype Effect = Effect(id: nat, record: Record)

  /** `log` holds all effects in the order they took place, over all connections. */
  datatype Session = Session(ptyRead: seq<Byte>, ptyWritten: seq<Byte>, log: seq<Effect>, stories: seq<Story>)

  /** The records of connection `id` in the log. */
  function Project(log: seq<Effect>, id: nat): seq<Record> {
    if log == [] then [] else
    var e := log[|log| - 1];
    Project(log[..|log| - 1], id) + (if e.id == id then [e.record] else [])
  }

  /** All input that took effect, in order, whoever typed it. */
  function TypedLog(log: seq<Effect>): seq<Byte> {
    if log == [] then [] else
    TypedLog(log[..|log| - 1]) + (match log[|log| - 1].record case Input(bytes) => bytes case _ => [])
  }

  /** The terminal size the log leads to. */
  function SizeAfter(log: seq<Effect>, initial: (int, int)): (int, int) {
    if log == [] then initial else
    match log[|log| - 1].record
    case Attach(rows, columns) => (rows, columns)
    case Resize(rows, columns) => (rows, columns)
    case _ => SizeAfter(log[..|log| - 1], initial)
  }

  lemma LogAppend(log: seq<Effect>, e: Effect)
    ensures TypedLog(log + [e]) == TypedLog(log) + (match e.record case Input(bytes) => bytes case _ => [])
    ensures forall id: nat :: Project(log + [e], id) == Project(log, id) + (if e.id == id then [e.record] else [])
    ensures forall initial :: SizeAfter(log + [e], initial) ==
              match e.record
              case Attach(rows, columns) => (rows as int, columns as int)
              case Resize(rows, columns) => (rows, columns)
              case _ => SizeAfter(log, initial)
  {
    assert (log + [e])[..|log|] == log;
  }

  /** Only the stories of `ids` moved on; others may have joined. */
  ghost predicate Untouched(before: seq<Story>, after: seq<Story>, ids: set<nat>) {
    |before| <= |after| && forall i | 0 <= i < |before| && i !in ids :: after[i] == before[i]
  }

  lemma NobodyTouched(a: seq<Story>, ids: set<nat>)
    ensures Untouched(a, a, ids)
  {
  }

  lemma UntouchedGrows(a: seq<Story>, b: seq<Story>, ids: set<nat>)
    requires Untouched(a, b, ids)
    ensures |a| <= |b|
  {
  }

  lemma Grew(a: seq<Story>, b: seq<Story>)
    requires a <= b
    ensures Untouched(a, b, {})
  {
  }

  lemma StayedPut(a: seq<Story>, b: seq<Story>, ids: set<nat>, others: set<nat>)
    requires Untouched(a, b, ids) && others !! ids
    ensures |a| <= |b| && forall x | x in others && x < |a| :: b[x] == a[x]
  {
  }

  lemma UntouchedTwice(a: seq<Story>, b: seq<Story>, c: seq<Story>, ids: set<nat>, more: set<nat>)
    requires Untouched(a, b, ids) && (Untouched(b, c, more) || b == c)
    ensures forall all: set<nat> :: ids <= all && (forall x | x in more && x < |a| :: x in all) ==> Untouched(a, c, all)
  {
  }

  ghost predicate AllOk(stories: seq<Story>, pty: seq<Byte>) {
    forall i | 0 <= i < |stories| :: StoryOk(stories[i], pty)
  }

  ghost predicate LogMatches(log: seq<Effect>, stories: seq<Story>) {
    && (forall k | 0 <= k < |log| :: log[k].id < |stories|)
    && forall i | 0 <= i < |stories| :: Project(log, i) == stories[i].applied
  }

  /** The transcript is in order; `queued` is the input that has not reached the PTY yet. */
  ghost predicate Ok(s: Session, queued: seq<Byte>) {
    && AllOk(s.stories, s.ptyRead)
    && LogMatches(s.log, s.stories)
    && s.ptyWritten + queued == TypedLog(s.log)
  }

  lemma AllGrow(stories: seq<Story>, pty: seq<Byte>, more: seq<Byte>)
    requires AllOk(stories, pty) && Unfinished(stories)
    ensures AllOk(stories, pty + more)
  {
    forall i | 0 <= i < |stories| ensures StoryOk(stories[i], pty + more) {
      StoryGrows(stories[i], pty, more);
    }
  }

  /** One story moved on without a further effect. */
  lemma Advanced(s: Session, queued: seq<Byte>, id: nat, c: Story)
    requires Ok(s, queued) && id < |s.stories|
    requires StoryOk(c, s.ptyRead) && c.applied == s.stories[id].applied
    ensures Ok(s.(stories := s.stories[id := c]), queued)
  {
  }

  /** A record of connection `id` took effect. */
  lemma TookEffect(s: Session, queued: seq<Byte>, id: nat, c: Story, r: Record, queued': seq<Byte>)
    requires Ok(s, queued) && id < |s.stories|
    requires StoryOk(c, s.ptyRead) && c.applied == s.stories[id].applied + [r]
    requires queued' == queued + (match r case Input(bytes) => bytes case _ => [])
    ensures Ok(s.(stories := s.stories[id := c], log := s.log + [Effect(id, r)]), queued')
  {
    hide StoryOk, Project, TypedLog;
    var t := s.(stories := s.stories[id := c], log := s.log + [Effect(id, r)]);
    LogAppend(s.log, Effect(id, r));
    forall i | 0 <= i < |t.stories| ensures Project(t.log, i) == t.stories[i].applied {
      assert Project(s.log, i) == s.stories[i].applied;
    }
  }

  /** A new connection. */
  lemma Joined(s: Session, queued: seq<Byte>)
    requires Ok(s, queued)
    ensures Ok(s.(stories := s.stories + [NEW_STORY]), queued)
  {
    var t := s.(stories := s.stories + [NEW_STORY]);
    ParseEmpty();
    assert StoryOk(NEW_STORY, s.ptyRead);
    NoEffectOfOthers(s.log, |s.stories|);
    forall i | 0 <= i < |t.stories| ensures Project(t.log, i) == t.stories[i].applied
        && StoryOk(t.stories[i], t.ptyRead) {
      if i < |s.stories| {
        assert t.stories[i] == s.stories[i];
      }
    }
  }

  lemma {:induction false} NoEffectOfOthers(log: seq<Effect>, id: nat)
    requires forall k | 0 <= k < |log| :: log[k].id < id
    ensures Project(log, id) == []
  {
    if log == [] {
    } else {
      NoEffectOfOthers(log[..|log| - 1], id);
    }
  }
}
