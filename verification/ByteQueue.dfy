/** The bounded byte queue in front of every nonblocking writer (src/byte_queue.rs). */
module ByteQueue {
  import opened Bytes
  import opened Io

  /** How a flush ends: how many bytes went out, and whether it failed. */
  datatype Flushed = Flushed(count: nat, status: Status)

  /** The slice one `write` is offered: the first slice of the deque, or the second when that is empty. */
  function Offered(bytes: seq<Byte>, split: nat): (s: seq<Byte>)
    ensures s <= bytes
    ensures bytes != [] ==> s != []
  {
    if split == 0 then bytes else Take(bytes, split)
  }

  /** How many bytes a write accepts. */
  function AcceptedOf(bytes: seq<Byte>, count: nat, split: nat): (n: nat)
    ensures n <= |bytes| && n <= count && (split > 0 ==> n <= split)
    ensures n == |bytes| || n == count || (n == split && split > 0)
  {
    |Take(Offered(bytes, split), count)|
  }

  /** What flushing `bytes` comes to under a script of write results. */
  function FlushOutcome(bytes: seq<Byte>, script: seq<WriteResult>): (f: Flushed)
    ensures f.count <= |bytes|
    ensures f.status.Failed? ==> f.status.error.Os? || f.status.error == Afk(WriteZero)
    decreases |script|
  {
    if bytes == [] || script == [] then Flushed(0, Done) else
    match script[0]
    case WriteWouldBlock => Flushed(0, Done)
    case WriteInterrupted => FlushOutcome(bytes, script[1..])
    case WriteFailed(kind) => Flushed(0, Failed(Os(kind)))
    case Accepted(count, split) =>
      var n := AcceptedOf(bytes, count, split);
      if n == 0 then Flushed(0, Failed(Afk(WriteZero))) else
      var f := FlushOutcome(bytes[n..], script[1..]);
      f.(count := n + f.count)
  }

  /** What a flush comes to if it takes place. */
  function FlushIf(happens: bool, queued: seq<Byte>, script: seq<WriteResult>): (f: Flushed)
    ensures f.count <= |queued|
  {
    if happens then FlushOutcome(queued, script) else Flushed(0, Done)
  }

  /** How a flush goes on from its `i`-th write. */
  lemma FlushStep(bytes: seq<Byte>, script: seq<WriteResult>, i: nat)
    requires i <= |script|
    ensures var f := FlushOutcome(bytes, script[i..]);
            if bytes == [] || i == |script| || script[i].WriteWouldBlock? then f == Flushed(0, Done)
            else if script[i].WriteInterrupted? then f == FlushOutcome(bytes, script[i + 1..])
            else if script[i].WriteFailed? then f == Flushed(0, Failed(Os(script[i].kind)))
            else if AcceptedOf(bytes, script[i].count, script[i].split) == 0
                then f == Flushed(0, Failed(Afk(WriteZero)))
            else
              && f.count == AcceptedOf(bytes, script[i].count, script[i].split)
                            + FlushOutcome(bytes[AcceptedOf(bytes, script[i].count, script[i].split)..],
                                script[i + 1..]).count
              && f.status == FlushOutcome(bytes[AcceptedOf(bytes, script[i].count, script[i].split)..],
                  script[i + 1..]).status
  {
    if i < |script| {
      DropStep(script, i);
    }
  }

  class ByteQueue {
    var bytes: seq<Byte>
    const limit: nat

    ghost predicate Valid()
      reads this
    {
      |bytes| <= limit
    }

    constructor (limit: nat)
      ensures Valid() && bytes == [] && this.limit == limit
    {
      this.limit := limit;
      bytes := [];
    }

    /** All of `more` or nothing: refused exactly when it would exceed the limit. */
    method Push(more: seq<Byte>) returns (ok: bool)
      requires Valid()
      modifies this
      ensures Valid()
      ensures ok <==> |old(bytes)| + |more| <= limit
      ensures bytes == if ok then old(bytes) + more else old(bytes)
    {
      var room := if |bytes| <= limit then limit - |bytes| else 0;
      if |more| > room {
        return false;
      }
      bytes := bytes + more;
      return true;
    }

    /**
      Writes from the front until the queue is empty, the writer would block, or it fails.
      `written` is what the writer accepted: nothing is lost, repeated or reordered.
     */
    method Flush(script: seq<WriteResult>) returns (written: seq<Byte>, status: Status)
      requires Valid()
      modifies this
      ensures Valid()
      ensures written + bytes == old(bytes)
      ensures Flushed(|written|, status) == FlushOutcome(old(bytes), script)
    {
      hide FlushOutcome, AcceptedOf;
      written := [];
      var i := 0;
      ghost var start := bytes;
      assert script[0..] == script && written + bytes == start;
      while bytes != [] && i < |script|
        invariant Valid() && i <= |script|
        invariant written + bytes == start
        invariant FlushOutcome(start, script).count == |written| + FlushOutcome(bytes, script[i..]).count
        invariant FlushOutcome(start, script).status == FlushOutcome(bytes, script[i..]).status
      {
        FlushStep(bytes, script, i);
        match script[i]
        case WriteWouldBlock =>
          return written, Done;
        case WriteInterrupted =>
          i := i + 1;
        case WriteFailed(kind) =>
          return written, Failed(Os(kind));
        case Accepted(count, split) =>
          var n := AcceptedOf(bytes, count, split);
          if n == 0 {
            return written, Failed(Afk(WriteZero));
          }
          assert written + bytes == (written + bytes[..n]) + bytes[n..];
          written := written + bytes[..n];
          bytes := bytes[n..];
          i := i + 1;
      }
      FlushStep(bytes, script, i);
      status := Done;
    }
  }

  /** A write that is no reason to stop: it was interrupted, or it took something. */
  predicate GoesOn(w: WriteResult) {
    w.WriteInterrupted? || (w.Accepted? && w.count > 0)
  }

  /**
    What ends a flush, exactly: that nothing is left, that the writer would block, or that it fails; and
    a flush fails with the error of the write that failed, or because that write took nothing.
   */
  lemma {:induction false} FlushEnds(bytes: seq<Byte>, script: seq<WriteResult>) returns (k: nat)
    ensures k <= |script| && forall i | 0 <= i < k :: GoesOn(script[i])
    ensures var f := FlushOutcome(bytes, script);
            if f.count == |bytes| then f.status.Done? else
              match f.status
              case Done => k == |script| || script[k].WriteWouldBlock?
              case Failed(e) =>
                && k < |script|
                && (if script[k].WriteFailed? then e == Os(script[k].kind)
                    else script[k].Accepted? && script[k].count == 0 && e == Afk(WriteZero))
    decreases |script|
  {
    if bytes == [] || script == [] || !GoesOn(script[0]) {
      k := 0;
    } else {
      var n := if script[0].Accepted? then AcceptedOf(bytes, script[0].count, script[0].split) else 0;
      k := FlushEnds(bytes[n..], script[1..]);
      assert forall i | 0 <= i < k :: script[i + 1] == script[1..][i];
      k := k + 1;
      assert bytes[0..] == bytes;
    }
  }

  /** A flush that neither fails nor would block leaves nothing behind, given enough write calls. */
  lemma {:induction false} FlushCompletes(bytes: seq<Byte>, script: seq<WriteResult>)
    requires |script| >= |bytes|
    requires forall i | 0 <= i < |script| :: script[i].Accepted? && script[i].count > 0
    ensures FlushOutcome(bytes, script) == Flushed(|bytes|, Done)
    decreases |script|
  {
    if bytes == [] {
    } else {
      var n := AcceptedOf(bytes, script[0].count, script[0].split);
      FlushCompletes(bytes[n..], script[1..]);
    }
  }
}
