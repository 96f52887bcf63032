/** The framed records exchanged over the session socket (src/ipc.rs). */
module Ipc {
  import opened Limits
  import opened Bytes
  import opened Io

  datatype ProcessExit = Code(code: Byte) | Signal(signal: Byte)

  datatype Record =
    | Attach(rows: U16, columns: U16)
    | Input(bytes: seq<Byte>)
    | Output(bytes: seq<Byte>)
    | Resize(rows: U16, columns: U16)
    | Stop
    | Exit(exit: ProcessExit)

  datatype DecodeError = BufferLimit | PayloadTooLarge | UnknownKind | InvalidPayload

  const ATTACH: Byte := 1
  const INPUT: Byte := 2
  const OUTPUT: Byte := 3
  const RESIZE: Byte := 4
  const STOP: Byte := 5
  const EXIT: Byte := 6

  // ---------------------------------------------------------------- encoding

  function KindOf(r: Record): Byte {
    match r
    case Attach(_, _) => ATTACH
    case Input(_) => INPUT
    case Output(_) => OUTPUT
    case Resize(_, _) => RESIZE
    case Stop => STOP
    case Exit(_) => EXIT
  }

  function Payload(r: Record): seq<Byte> {
    match r
    case Attach(rows, columns) => BigEndian(rows, 2) + BigEndian(columns, 2)
    case Input(bytes) => bytes
    case Output(bytes) => bytes
    case Resize(rows, columns) => BigEndian(rows, 2) + BigEndian(columns, 2)
    case Stop => []
    case Exit(Code(code)) => [0, code]
    case Exit(Signal(signal)) => [1, signal]
  }

  /** Header and payload of a record whose payload fits the limit. */
  function EncodeBytes(r: Record): (s: seq<Byte>)
    requires |Payload(r)| <= MAX_IPC_PAYLOAD_BYTES
    ensures |s| == IPC_HEADER_BYTES + |Payload(r)|
  {
    [KindOf(r)] + BigEndian(|Payload(r)|, 4) + Payload(r)
  }

  /** Refuses a payload above the limit, and nothing else. */
  function Encode(r: Record): IoResult<seq<Byte>> {
    if |Payload(r)| > MAX_IPC_PAYLOAD_BYTES then Err(Afk(InvalidInput)) else Ok(EncodeBytes(r))
  }

  // ---------------------------------------------------------------- decoding

  type Decoded<T> = Result<T, DecodeError>

  predicate ValidDimension(n: int) {
    1 <= n <= MAX_TERMINAL_DIMENSION
  }

  function DecodeDimensions(p: seq<Byte>): Decoded<(U16, U16)> {
    if |p| != 4 then Err(InvalidPayload) else
    var rows, columns := FromBigEndian(p[..2]), FromBigEndian(p[2..]);
    if !ValidDimension(rows) || !ValidDimension(columns) then Err(InvalidPayload)
    else Ok((rows, columns))
  }

  function DecodeExit(p: seq<Byte>): Decoded<ProcessExit> {
    if |p| != 2 then Err(InvalidPayload)
    else if p[0] == 0 then Ok(Code(p[1]))
    else if p[0] == 1 && 1 <= p[1] <= 127 then Ok(Signal(p[1]))
    else Err(InvalidPayload)
  }

  function DecodePayload(kind: Byte, p: seq<Byte>): Decoded<Record> {
    if kind == ATTACH then
      match DecodeDimensions(p) case Ok(d) => Ok(Attach(d.0, d.1)) case Err(e) => Err(e)
    else if kind == INPUT then Ok(Input(p))
    else if kind == OUTPUT then Ok(Output(p))
    else if kind == RESIZE then
      match DecodeDimensions(p) case Ok(d) => Ok(Resize(d.0, d.1)) case Err(e) => Err(e)
    else if kind == STOP then
      if p == [] then Ok(Stop) else Err(InvalidPayload)
    else if kind == EXIT then
      match DecodeExit(p) case Ok(e) => Ok(Exit(e)) case Err(e) => Err(e)
    else Err(UnknownKind)
  }

  /** What one call of `next` finds at the front of a buffer. */
  datatype Front = Incomplete | Malformed(error: DecodeError) | Whole(record: Record, rest: seq<Byte>)

  function NextOf(s: seq<Byte>): (f: Front)
    ensures f.Whole? ==> |f.rest| < |s|
  {
    if |s| < IPC_HEADER_BYTES then Incomplete else
    var length := FromBigEndian(s[1..IPC_HEADER_BYTES]);
    if length > MAX_IPC_PAYLOAD_BYTES then Malformed(PayloadTooLarge)
    else if |s| < IPC_HEADER_BYTES + length then Incomplete
    else match DecodePayload(s[0], s[IPC_HEADER_BYTES..IPC_HEADER_BYTES + length])
      case Ok(r) => Whole(r, s[IPC_HEADER_BYTES + length..])
      case Err(e) => Malformed(e)
  }

  /** Everything a byte stream decodes to: its records, the bytes left over, and the error it stops at. */
  datatype Parsed = Parsed(records: seq<Record>, rest: seq<Byte>, error: Option<DecodeError>)

  function Parse(s: seq<Byte>): Parsed
    decreases |s|
  {
    match NextOf(s)
    case Incomplete => Parsed([], s, None)
    case Malformed(e) => Parsed([], s, Some(e))
    case Whole(r, rest) => var p := Parse(rest); p.(records := [r] + p.records)
  }

  /** The records a decoder can produce: `encode` checks only the payload size of the others. */
  predicate WellFormed(r: Record): (b: bool)
    ensures b ==> |Payload(r)| <= MAX_IPC_PAYLOAD_BYTES
  {
    match r
    case Attach(rows, columns) => ValidDimension(rows) && ValidDimension(columns)
    case Resize(rows, columns) => ValidDimension(rows) && ValidDimension(columns)
    case Input(bytes) => |bytes| <= MAX_IPC_PAYLOAD_BYTES
    case Output(bytes) => |bytes| <= MAX_IPC_PAYLOAD_BYTES
    case Stop => true
    case Exit(Code(_)) => true
    case Exit(Signal(signal)) => 1 <= signal <= 127
  }

  predicate AllWellFormed(rs: seq<Record>) {
    forall i | 0 <= i < |rs| :: WellFormed(rs[i])
  }

  function EncodeAll(rs: seq<Record>): seq<Byte>
    requires AllWellFormed(rs)
  {
    if rs == [] then [] else EncodeBytes(rs[0]) + EncodeAll(rs[1..])
  }

  // ---------------------------------------------------------------- round trips

  lemma DimensionsRoundTrip(rows: U16, columns: U16)
    requires ValidDimension(rows) && ValidDimension(columns)
    ensures DecodeDimensions(BigEndian(rows, 2) + BigEndian(columns, 2)) == Ok((rows, columns))
  {
    var p := BigEndian(rows, 2) + BigEndian(columns, 2);
    assert Range(2) == 0x100 * Range(1) == 0x1_0000;
    BigEndianRoundTrip(rows, 2);
    BigEndianRoundTrip(columns, 2);
    assert p[..2] == BigEndian(rows, 2) && p[2..] == BigEndian(columns, 2);
  }

  lemma DimensionsCanonical(p: seq<Byte>)
    requires DecodeDimensions(p).Ok?
    ensures var d := DecodeDimensions(p).value; BigEndian(d.0, 2) + BigEndian(d.1, 2) == p
  {
    BigEndianUnique(p[..2]);
    BigEndianUnique(p[2..]);
  }

  lemma PayloadRoundTrip(r: Record)
    requires WellFormed(r)
    ensures DecodePayload(KindOf(r), Payload(r)) == Ok(r)
  {
    match r
    case Attach(rows, columns) => DimensionsRoundTrip(rows, columns);
    case Resize(rows, columns) => DimensionsRoundTrip(rows, columns);
    case _ =>
  }

  lemma PayloadCanonical(kind: Byte, p: seq<Byte>)
    requires |p| <= MAX_IPC_PAYLOAD_BYTES
    requires DecodePayload(kind, p).Ok?
    ensures var r := DecodePayload(kind, p).value;
            WellFormed(r) && KindOf(r) == kind && Payload(r) == p
  {
    if kind == ATTACH || kind == RESIZE {
      DimensionsCanonical(p);
    }
  }

  lemma LengthRoundTrip(n: nat)
    requires n <= MAX_IPC_PAYLOAD_BYTES
    ensures FromBigEndian(BigEndian(n, 4)) == n
  {
    assert Range(4) == 0x100 * Range(3) && Range(3) == 0x100 * Range(2) && Range(2) == 0x100 * Range(1);
    BigEndianRoundTrip(n, 4);
  }

  lemma NextOfEncoding(r: Record, rest: seq<Byte>)
    requires WellFormed(r)
    ensures NextOf(EncodeBytes(r) + rest) == Whole(r, rest)
  {
    var s, n := EncodeBytes(r) + rest, IPC_HEADER_BYTES + |Payload(r)|;
    LengthRoundTrip(|Payload(r)|);
    assert s[1..IPC_HEADER_BYTES] == BigEndian(|Payload(r)|, 4);
    assert s[IPC_HEADER_BYTES..n] == Payload(r);
    assert s[n..] == rest;
    PayloadRoundTrip(r);
  }

  lemma NextCanonical(s: seq<Byte>)
    requires NextOf(s).Whole?
    ensures var r := NextOf(s).record; WellFormed(r) && s == EncodeBytes(r) + NextOf(s).rest
  {
    var n := IPC_HEADER_BYTES + FromBigEndian(s[1..IPC_HEADER_BYTES]);
    PayloadCanonical(s[0], s[IPC_HEADER_BYTES..n]);
    BigEndianUnique(s[1..IPC_HEADER_BYTES]);
    assert s[..n] == [s[0]] + s[1..IPC_HEADER_BYTES] + s[IPC_HEADER_BYTES..n];
    assert s == s[..n] + s[n..];
  }

  /**
    The decoder accepts exactly the canonical encodings: `next` yields `r` and leaves `rest`
    if and only if the buffer is the encoding of the well-formed record `r` followed by `rest`.
   */
  lemma NextInvertsEncode(s: seq<Byte>, r: Record, rest: seq<Byte>)
    ensures NextOf(s) == Whole(r, rest) <==> WellFormed(r) && s == EncodeBytes(r) + rest
  {
    if WellFormed(r) && s == EncodeBytes(r) + rest {
      NextOfEncoding(r, rest);
    } else if NextOf(s) == Whole(r, rest) {
      NextCanonical(s);
    }
  }

  /** No strict prefix of an encoding yields a record or an error. */
  lemma StrictPrefixIncomplete(r: Record, k: nat)
    requires WellFormed(r) && k < |EncodeBytes(r)|
    ensures NextOf(EncodeBytes(r)[..k]) == Incomplete
  {
    LengthRoundTrip(|Payload(r)|);
    if k >= IPC_HEADER_BYTES {
      assert EncodeBytes(r)[1..IPC_HEADER_BYTES] == BigEndian(|Payload(r)|, 4);
      assert EncodeBytes(r)[..k][1..IPC_HEADER_BYTES] == BigEndian(|Payload(r)|, 4);
    }
  }

  /** A finished verdict of `next` does not depend on what arrives later. */
  lemma NextAppend(a: seq<Byte>, b: seq<Byte>)
    ensures NextOf(a).Whole? ==> NextOf(a + b) == NextOf(a).(rest := NextOf(a).rest + b)
    ensures NextOf(a).Malformed? ==> NextOf(a + b) == NextOf(a)
  {
    if |a| >= IPC_HEADER_BYTES {
      assert (a + b)[1..IPC_HEADER_BYTES] == a[1..IPC_HEADER_BYTES];
      var length := FromBigEndian(a[1..IPC_HEADER_BYTES]);
      if length <= MAX_IPC_PAYLOAD_BYTES && IPC_HEADER_BYTES + length <= |a| {
        var n := IPC_HEADER_BYTES + length;
        assert (a + b)[IPC_HEADER_BYTES..n] == a[IPC_HEADER_BYTES..n];
        assert (a + b)[n..] == a[n..] + b;
      }
    }
  }

  /** Parsing a stream is parsing its front and then continuing from what the front left over. */
  lemma {:induction false} ParseAppend(a: seq<Byte>, b: seq<Byte>)
    ensures var p := Parse(a); var q := Parse(p.rest + b);
            p.error == None ==> Parse(a + b) == q.(records := p.records + q.records)
    ensures var p := Parse(a);
            p.error.Some? ==> Parse(a + b) == p.(rest := p.rest + b)
    decreases |a|
  {
    hide NextOf, EncodeBytes;
    NextAppend(a, b);
    match NextOf(a)
    case Incomplete =>
    case Malformed(e) =>
    case Whole(r, rest) =>
      ParseAppend(rest, b);
      var q := Parse(Parse(rest).rest + b);
      assert [r] + Parse(rest).records + q.records == [r] + (Parse(rest).records + q.records);
  }

  /** The consumed part of a stream is the encoding of the records it gave, all of them well formed. */
  lemma {:induction false} ParseSound(s: seq<Byte>)
    ensures AllWellFormed(Parse(s).records)
    ensures s == EncodeAll(Parse(s).records) + Parse(s).rest
    decreases |s|
  {
    hide NextOf, EncodeBytes, WellFormed, Payload;
    match NextOf(s)
    case Incomplete =>
    case Malformed(e) =>
    case Whole(r, rest) =>
      ParseSound(rest);
      NextInvertsEncode(s, r, rest);
      var p := Parse(rest);
      assert ([r] + p.records)[1..] == p.records;
      assert EncodeBytes(r) + (EncodeAll(p.records) + p.rest) == (EncodeBytes(r) + EncodeAll(p.records)) + p.rest;
  }

  /** Concatenated encodings followed by anything parse back to exactly that list and continue. */
  lemma {:induction false} ParseComplete(rs: seq<Record>, s: seq<Byte>)
    requires AllWellFormed(rs)
    ensures var q := Parse(s); Parse(EncodeAll(rs) + s) == q.(records := rs + q.records)
  {
    hide NextOf, EncodeBytes;
    if rs != [] {
      var tail := EncodeAll(rs[1..]) + s;
      assert EncodeAll(rs) + s == EncodeBytes(rs[0]) + tail;
      NextInvertsEncode(EncodeAll(rs) + s, rs[0], tail);
      ParseComplete(rs[1..], s);
      assert rs == [rs[0]] + rs[1..];
      assert [rs[0]] + (rs[1..] + Parse(s).records) == rs + Parse(s).records;
    } else {
      assert EncodeAll(rs) + s == s;
    }
  }

  lemma ParseEmpty()
    ensures Parse([]) == Parsed([], [], None)
  {
  }

  /**
    However a stream of encodings is cut, the part received so far decodes without error to a
    prefix of the list, and the leftover is the start of the next encoding.
   */
  lemma {:induction false} ParseOfPrefix(p: seq<Byte>, rs: seq<Record>)
    requires AllWellFormed(rs)
    requires p <= EncodeAll(rs)
    ensures Parse(p).error == None
    ensures Parse(p).records <= rs
    ensures p == EncodeAll(rs) ==> Parse(p) == Parsed(rs, [], None)
    decreases |rs|
  {
    hide NextOf, EncodeBytes;
    if rs == [] {
      ParseEmpty();
    } else if |p| < |EncodeBytes(rs[0])| {
      assert p == EncodeBytes(rs[0])[..|p|];
      StrictPrefixIncomplete(rs[0], |p|);
    } else {
      var rest := SplitFirst(p, rs);
      NextInvertsEncode(p, rs[0], rest);
      ParseOfPrefix(rest, rs[1..]);
      assert rs == [rs[0]] + rs[1..];
    }
  }

  lemma SplitFirst(p: seq<Byte>, rs: seq<Record>) returns (rest: seq<Byte>)
    requires AllWellFormed(rs) && rs != []
    requires p <= EncodeAll(rs) && |p| >= |EncodeBytes(rs[0])|
    ensures p == EncodeBytes(rs[0]) + rest
    ensures rest <= EncodeAll(rs[1..])
    ensures p == EncodeAll(rs) <==> rest == EncodeAll(rs[1..])
  {
    var first := EncodeBytes(rs[0]);
    rest := p[|first|..];
    assert EncodeAll(rs) == first + EncodeAll(rs[1..]);
    assert EncodeAll(rs)[|first|..] == EncodeAll(rs[1..]);
  }

  /** Two different record lists never have the same encoding. */
  lemma UniquelyDecodable(a: seq<Record>, b: seq<Record>)
    requires AllWellFormed(a) && AllWellFormed(b)
    requires EncodeAll(a) == EncodeAll(b)
    ensures a == b
  {
    ParseComplete(a, []);
    ParseComplete(b, []);
    assert EncodeAll(a) + [] == EncodeAll(a) && EncodeAll(b) + [] == EncodeAll(b);
    assert a + [] == a && b + [] == b;
  }

  lemma {:induction false} EncodeAllAppend(a: seq<Record>, b: seq<Record>)
    requires AllWellFormed(a) && AllWellFormed(b)
    ensures AllWellFormed(a + b)
    ensures EncodeAll(a + b) == EncodeAll(a) + EncodeAll(b)
  {
    hide EncodeBytes, WellFormed, Payload;
    if a == [] {
      assert a + b == b;
    } else {
      EncodeAllAppend(a[1..], b);
      assert (a + b)[0] == a[0] && (a + b)[1..] == a[1..] + b;
      assert EncodeBytes(a[0]) + (EncodeAll(a[1..]) + EncodeAll(b)) == EncodeAll(a) + EncodeAll(b);
    }
  }

  lemma FieldBytes(n: nat)
    ensures n < 0x1_0000 ==> BigEndian(n, 2) == [n / 0x100, n % 0x100]
    ensures n <= MAX_IPC_PAYLOAD_BYTES ==> BigEndian(n, 4) == [0, n / 0x1_0000, n / 0x100 % 0x100, n % 0x100]
  {
    assert n / 0x100 / 0x100 == n / 0x1_0000;
    if n < 0x1_0000 {
      assert BigEndian(n, 2) == BigEndian(n / 0x100, 1) + [n % 0x100] && BigEndian(n / 0x100, 1) == [n / 0x100];
    }
    if n <= MAX_IPC_PAYLOAD_BYTES {
      var m := n / 0x1_0000;
      assert BigEndian(m, 2) == BigEndian(m / 0x100, 1) + [m % 0x100] && BigEndian(m / 0x100, 1) == [0];
      assert BigEndian(n / 0x100, 3) == BigEndian(m, 2) + [n / 0x100 % 0x100];
    }
  }

  /** The bytes of a record: its kind, the length of its payload, and the payload. */
  lemma WireFormat(r: Record)
    requires WellFormed(r)
    ensures var s := EncodeBytes(r);
            match r
            case Attach(rows, columns) =>
              s == [1, 0, 0, 0, 4, rows / 0x100, rows % 0x100, columns / 0x100, columns % 0x100]
            case Input(bytes) =>
              var n := |bytes|;
              s == [2, 0, n / 0x1_0000, n / 0x100 % 0x100, n % 0x100] + bytes
            case Output(bytes) =>
              var n := |bytes|;
              s == [3, 0, n / 0x1_0000, n / 0x100 % 0x100, n % 0x100] + bytes
            case Resize(rows, columns) =>
              s == [4, 0, 0, 0, 4, rows / 0x100, rows % 0x100, columns / 0x100, columns % 0x100]
            case Stop => s == [5, 0, 0, 0, 0]
            case Exit(Code(code)) => s == [6, 0, 0, 0, 2, 0, code]
            case Exit(Signal(signal)) => s == [6, 0, 0, 0, 2, 1, signal]
  {
    hide BigEndian;
    FieldBytes(|Payload(r)|);
    if r.Attach? || r.Resize? {
      FieldBytes(r.rows);
      FieldBytes(r.columns);
    }
  }

  /** Exactly when the front of a buffer is incomplete, and which error it is when it is malformed. */
  lemma FrontIs(s: seq<Byte>)
    ensures |s| < 5 ==> NextOf(s) == Incomplete
    ensures |s| >= 5 ==>
              var length := s[1] as int * 0x100_0000 + s[2] as int * 0x1_0000 + s[3] as int * 0x100 + s[4];
              if length > 0x1_0000 then NextOf(s) == Malformed(PayloadTooLarge)
              else if |s| < 5 + length then NextOf(s) == Incomplete
              else
                var p := s[5..5 + length];
                && (NextOf(s) == Malformed(UnknownKind) <==> !(1 <= s[0] <= 6))
                && (NextOf(s) == Malformed(InvalidPayload) <==>
                      || ((s[0] == 1 || s[0] == 4)
                          && !(length == 4 && 1 <= p[0] as int * 0x100 + p[1] <= 4096
                               && 1 <= p[2] as int * 0x100 + p[3] <= 4096))
                      || (s[0] == 5 && length != 0)
                      || (s[0] == 6 && !(length == 2 && (p[0] == 0 || (p[0] == 1 && 1 <= p[1] <= 127)))))
                && (NextOf(s).Whole? || NextOf(s) in {Malformed(UnknownKind), Malformed(InvalidPayload)})
  {
    if |s| >= 5 {
      BigEndianValue(s[1..5]);
      var length := FromBigEndian(s[1..5]);
      if length <= 0x1_0000 && |s| >= 5 + length && length == 4 {
        var p := s[5..5 + length];
        BigEndianValue(p[..2]);
        BigEndianValue(p[2..]);
      }
    }
  }

  // ---------------------------------------------------------------- capacity and chunking

  /** After a drain that met no error at least one byte of capacity is free again. */
  lemma {:induction false} DrainedLeavesRoom(s: seq<Byte>)
    ensures Parse(s).error == None ==> |Parse(s).rest| < MAX_IPC_RECORD_BYTES
    decreases |s|
  {
    match NextOf(s)
    case Whole(r, rest) => DrainedLeavesRoom(rest);
    case _ =>
  }

  /**
    Feeding a stream chunk by chunk, draining after each push and stopping at the first error.
    `rest` is what has not been consumed, including the chunks that were never pushed.
   */
  function Feed(buffer: seq<Byte>, chunks: seq<seq<Byte>>): Parsed
    decreases |chunks|
  {
    if chunks == [] then Parsed([], buffer, None) else
    var p := Parse(buffer + chunks[0]);
    if p.error.Some? then p.(rest := p.rest + Flatten(chunks[1..])) else
    var q := Feed(p.rest, chunks[1..]);
    q.(records := p.records + q.records)
  }

  /**
    For every way of cutting a stream, feeding the pieces gives the same records, the same
    unconsumed bytes and the same first error as parsing the stream at once.
   */
  lemma {:induction false} ChunkingIndependence(buffer: seq<Byte>, chunks: seq<seq<Byte>>)
    requires Parse(buffer) == Parsed([], buffer, None)
    ensures Feed(buffer, chunks) == Parse(buffer + Flatten(chunks))
    decreases |chunks|
  {
    if chunks == [] {
      assert buffer + Flatten(chunks) == buffer;
    } else {
      var p := Parse(buffer + chunks[0]);
      assert buffer + Flatten(chunks) == (buffer + chunks[0]) + Flatten(chunks[1..]);
      ParseAppend(buffer + chunks[0], Flatten(chunks[1..]));
      if p.error == None {
        RestIsIncomplete(buffer + chunks[0]);
        ChunkingIndependence(p.rest, chunks[1..]);
      }
    }
  }

  /** What an error-free drain leaves over holds no further record. */
  lemma {:induction false} RestIsIncomplete(s: seq<Byte>)
    ensures Parse(s).error == None ==> Parse(Parse(s).rest) == Parsed([], Parse(s).rest, None)
    decreases |s|
  {
    match NextOf(s)
    case Whole(r, rest) => RestIsIncomplete(rest);
    case _ =>
  }

  /** How much a decoder that has drained `received` can still take. */
  function CapacityAfter(received: seq<Byte>): nat {
    var n := |Parse(received).rest|;
    if n <= MAX_IPC_RECORD_BYTES then MAX_IPC_RECORD_BYTES - n else 0
  }

  // ---------------------------------------------------------------- the incremental decoder

  class Decoder {
    var buffer: seq<Byte>

    constructor ()
      ensures buffer == []
    {
      buffer := [];
    }

    /** Between calls the buffer holds less than one record: there is always room to read on. */
    ghost predicate Drained()
      reads this
    {
      Parse(buffer) == Parsed([], buffer, None) && |buffer| < MAX_IPC_RECORD_BYTES
    }

    function RemainingCapacity(): (n: nat)
      reads this
      ensures Drained() ==> n > 0
      ensures |buffer| <= 65541 ==> |buffer| + n == 65541
    {
      if |buffer| <= MAX_IPC_RECORD_BYTES then MAX_IPC_RECORD_BYTES - |buffer| else 0
    }

    method Push(bytes: seq<Byte>) returns (r: Decoded<()>)
      modifies this
      ensures |bytes| > old(RemainingCapacity()) ==> r == Err(BufferLimit) && buffer == old(buffer)
      ensures |bytes| <= old(RemainingCapacity()) ==> r == Ok(()) && buffer == old(buffer) + bytes
    {
      if |bytes| > RemainingCapacity() {
        return Err(BufferLimit);
      }
      buffer := buffer + bytes;
      return Ok(());
    }

    method Next() returns (r: Decoded<Option<Record>>)
      modifies this
      ensures match NextOf(old(buffer))
              case Incomplete => r == Ok(None) && buffer == old(buffer)
              case Malformed(e) => r == Err(e) && buffer == old(buffer)
              case Whole(record, rest) => r == Ok(Some(record)) && buffer == rest
    {
      if |buffer| < IPC_HEADER_BYTES {
        return Ok(None);
      }
      var kind := buffer[0];
      var payloadLength := FromBigEndian(buffer[1..IPC_HEADER_BYTES]);
      if payloadLength > MAX_IPC_PAYLOAD_BYTES {
        return Err(PayloadTooLarge);
      }
      var recordLength := IPC_HEADER_BYTES + payloadLength;
      if |buffer| < recordLength {
        return Ok(None);
      }
      var record := DecodePayload(kind, buffer[IPC_HEADER_BYTES..recordLength]);
      if record.Err? {
        return Err(record.error);
      }
      buffer := buffer[recordLength..];
      return Ok(Some(record.value));
    }

    /**
      The loop both `read_records` functions end with: call `next` until it has nothing more.
      It computes exactly what parsing the buffered bytes at once gives.
     */
    method Drain() returns (r: Decoded<seq<Record>>)
      modifies this
      ensures var p := Parse(old(buffer));
              buffer == p.rest && r == if p.error.Some? then Err(p.error.value) else Ok(p.records)
      ensures r.Ok? ==> Drained()
    {
      hide NextOf;
      var records := [];
      ghost var all := Parse(buffer);
      while true
        invariant var p := Parse(buffer); all == p.(records := records + p.records)
        decreases |buffer|
      {
        ghost var before := buffer;
        var next := Next();
        match next
        case Err(e) =>
          return Err(e);
        case Ok(None) =>
          DrainedLeavesRoom(buffer);
          assert records + [] == records;
          return Ok(records);
        case Ok(Some(record)) =>
          ghost var p := Parse(buffer);
          assert Parse(before) == p.(records := [record] + p.records);
          assert records + ([record] + p.records) == (records + [record]) + p.records;
          records := records + [record];
      }
    }
  }
}
