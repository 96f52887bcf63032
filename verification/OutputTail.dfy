/** The bounded record of the newest terminal output (src/output_tail.rs). */
module OutputTail {
  import opened Bytes

  const TRUNCATION_MARKER: seq<Byte> := Ascii("\r\n[afk: earlier terminal output was truncated]\r\n")

  lemma MarkerLength()
    ensures |TRUNCATION_MARKER| == 48
  {
    hide Ascii;
  }

  class OutputTail {
    var bytes: seq<Byte>
    var truncated: bool
    const capacity: nat
    /** Everything this tail was ever given. */
    ghost var fed: seq<Byte>

    /** The tail is the end of everything it was given, and knows whether that is all of it. */
    ghost predicate Valid()
      reads this
    {
      && bytes == LastN(fed, capacity)
      && truncated == (|fed| > capacity)
    }

    constructor (capacity: nat)
      ensures Valid() && this.capacity == capacity && fed == []
    {
      this.capacity := capacity;
      bytes, truncated, fed := [], false, [];
    }

    method Extend(incoming: seq<Byte>)
      requires Valid()
      modifies this
      ensures Valid() && fed == old(fed) + incoming
    {
      fed := fed + incoming;
      if incoming == [] {
        assert fed == old(fed);
        return;
      }
      if capacity == 0 {
        truncated := true;
        return;
      }
      if |incoming| >= capacity {
        truncated := truncated || bytes != [] || |incoming| > capacity;
        bytes := [];
        bytes := bytes + incoming[|incoming| - capacity..];
        return;
      }
      var total := |bytes| + |incoming|;
      var overflow := if total <= capacity then 0 else total - capacity;
      if overflow != 0 {
        bytes := bytes[overflow..];
        truncated := true;
      }
      bytes := bytes + incoming;
    }

    method Snapshot() returns (s: seq<Byte>)
      requires Valid()
      ensures s == LastN(fed, capacity)
    {
      s := bytes;
    }
  }
}
