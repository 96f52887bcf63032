/** The startup handshake between launcher and runner (src/runner.rs, lines 612-685). */
module Startup {
  import opened Limits
  import opened Bytes
  import opened Io
  import opened Cli
  import opened Identity
  import Ipc

  type Argument = seq<Byte>

  datatype Config = Config(rows: U16, columns: U16, trace: bool, command: seq<Argument>)

  const U16_RANGE := 0x1_0000
  const U32_RANGE := 0x1_0000_0000

  /** What the writer can express: counts and lengths that fit their fields. */
  ghost predicate Writable(command: seq<Argument>) {
    |command| < U16_RANGE && forall i | 0 <= i < |command| :: |command[i]| < U32_RANGE
  }

  /** What the reader is meant to accept. */
  predicate Acceptable(c: Config) {
    Ipc.ValidDimension(c.rows) && Ipc.ValidDimension(c.columns) && ValidateCommand(c.command)
  }

  function EncodeArguments(command: seq<Argument>): seq<Byte> {
    if command == [] then [] else BigEndian(|command[0]|, 4) + command[0] + EncodeArguments(command[1..])
  }

  function EncodeConfig(c: Config): seq<Byte> {
    BigEndian(c.rows, 2) + BigEndian(c.columns, 2) + [if c.trace then 1 else 0]
    + BigEndian(|c.command|, 2) + EncodeArguments(c.command)
  }

  /** Reading `count` arguments, `aggregate` bytes having been read before: the arguments and what they took. */
  function ReadArguments(s: seq<Byte>, count: nat, aggregate: nat): (r: Io.IoResult<(seq<Argument>, nat)>)
    ensures r.Ok? ==> r.value.1 <= |s|
    decreases count
  {
    if count == 0 then Ok(([], 0))
    else if |s| < 4 then Err(Afk(UnexpectedEof))
    else
      var length := FromBigEndian(s[..4]);
      if aggregate + length > MAX_COMMAND_BYTES then Err(Afk(InvalidData))
      else if |s| < 4 + length then Err(Afk(UnexpectedEof))
      else match ReadArguments(s[4 + length..], count - 1, aggregate + length)
        case Ok((rest, n)) => Ok(([s[4..4 + length]] + rest, 4 + length + n))
        case Err(e) => Err(e)
  }

  const CONFIG_HEADER_BYTES := 7

  function ReadConfig(s: seq<Byte>): (r: Io.IoResult<(Config, nat)>) {
    if |s| < 5 then Err(Afk(UnexpectedEof)) else
    var rows, columns := FromBigEndian(s[..2]), FromBigEndian(s[2..4]);
    if s[4] !in {0, 1} then Err(Afk(InvalidData))
    else if !Ipc.ValidDimension(rows) || !Ipc.ValidDimension(columns) then Err(Afk(InvalidData))
    else if |s| < CONFIG_HEADER_BYTES then Err(Afk(UnexpectedEof))
    else
      var count := FromBigEndian(s[5..CONFIG_HEADER_BYTES]);
      if count > MAX_COMMAND_ARGUMENTS then Err(Afk(InvalidData))
      else match ReadArguments(s[CONFIG_HEADER_BYTES..], count, 0)
        case Ok((command, n)) => Ok((Config(rows, columns, s[4] == 1, command), CONFIG_HEADER_BYTES + n))
        case Err(e) => Err(e)
  }

  // ---------------------------------------------------------------- the two loops

  method WriteConfig(c: Config) returns (r: Io.IoResult<seq<Byte>>)
    ensures r.Ok? <==> Writable(c.command)
    ensures r.Ok? ==> r.value == EncodeConfig(c)
  {
    hide BigEndian;
    if |c.command| >= U16_RANGE {
      return Err(Afk(InvalidInput));
    }
    var stream := BigEndian(c.rows, 2) + BigEndian(c.columns, 2) + [if c.trace then 1 else 0]
        + BigEndian(|c.command|, 2);
    assert c.command[0..] == c.command;
    for i := 0 to |c.command|
      invariant forall k | 0 <= k < i :: |c.command[k]| < U32_RANGE
      invariant stream + EncodeArguments(c.command[i..]) == EncodeConfig(c)
    {
      if |c.command[i]| >= U32_RANGE {
        return Err(Afk(InvalidInput));
      }
      DropStep(c.command, i);
      assert stream + EncodeArguments(c.command[i..]) ==
             stream + BigEndian(|c.command[i]|, 4) + c.command[i] + EncodeArguments(c.command[i + 1..]);
      stream := stream + BigEndian(|c.command[i]|, 4) + c.command[i];
    }
    assert stream + [] == stream;
    return Ok(stream);
  }

  /** Reads from the bytes that arrive, in the order of the source; `used` is how many it took. */
  method ReadStartupConfig(input: seq<Byte>) returns (r: Io.IoResult<Config>, used: nat)
    ensures match ReadConfig(input)
            case Ok((c, n)) => r == Ok(c) && used == n
            case Err(e) => r == Err(e)
  {
    hide FromBigEndian, ReadArguments;
    used := 0;
    if |input| < 5 {
      return Err(Afk(UnexpectedEof)), used;
    }
    var rows, columns := FromBigEndian(input[..2]), FromBigEndian(input[2..4]);
    if input[4] != 0 && input[4] != 1 {
      return Err(Afk(InvalidData)), used;
    }
    if rows == 0 || columns == 0 || rows > MAX_TERMINAL_DIMENSION || columns > MAX_TERMINAL_DIMENSION {
      return Err(Afk(InvalidData)), used;
    }
    if |input| < CONFIG_HEADER_BYTES {
      return Err(Afk(UnexpectedEof)), used;
    }
    var count := FromBigEndian(input[5..CONFIG_HEADER_BYTES]);
    if count > MAX_COMMAND_ARGUMENTS {
      return Err(Afk(InvalidData)), used;
    }
    var aggregate: nat, command := 0, [];
    used := CONFIG_HEADER_BYTES;
    ContinueNothing(ReadArguments(input[used..], count, 0));
    for i := 0 to count
      invariant CONFIG_HEADER_BYTES <= used <= |input|
      invariant ReadArguments(input[CONFIG_HEADER_BYTES..], count, 0) ==
                Continue(command, used - CONFIG_HEADER_BYTES, ReadArguments(input[used..], count - i, aggregate))
    {
      ReadStep(input, used, count - i, aggregate);
      if |input| < used + 4 {
        return Err(Afk(UnexpectedEof)), used;
      }
      var length := FromBigEndian(input[used..used + 4]);
      if aggregate + length > MAX_COMMAND_BYTES {
        return Err(Afk(InvalidData)), used;
      }
      if |input| < used + 4 + length {
        return Err(Afk(UnexpectedEof)), used;
      }
      var argument := input[used + 4..used + 4 + length];
      ContinueStep(command, used - CONFIG_HEADER_BYTES, argument,
          ReadArguments(input[used + 4 + length..], count - i - 1, aggregate + length));
      aggregate := aggregate + length;
      command := command + [argument];
      used := used + 4 + length;
    }
    ReadNothing(command, used - CONFIG_HEADER_BYTES, input[used..], aggregate);
    return Ok(Config(rows, columns, input[4] == 1, command)), used;
  }

  /** A read that already has `done`, which took `n` bytes, and goes on as `r`. */
  function Continue(done: seq<Argument>, n: nat, r: Io.IoResult<(seq<Argument>, nat)>)
    : Io.IoResult<(seq<Argument>, nat)>
  {
    match r case Ok((rest, m)) => Ok((done + rest, n + m)) case Err(e) => Err(e)
  }

  lemma ContinueNothing(r: Io.IoResult<(seq<Argument>, nat)>)
    ensures Continue([], 0, r) == r
  {
    assert r.Ok? ==> [] + r.value.0 == r.value.0;
  }

  lemma ReadNothing(done: seq<Argument>, n: nat, s: seq<Byte>, aggregate: nat)
    ensures Continue(done, n, ReadArguments(s, 0, aggregate)) == Ok((done, n))
  {
    assert done + [] == done;
  }

  lemma ContinueStep(done: seq<Argument>, n: nat, argument: Argument, r: Io.IoResult<(seq<Argument>, nat)>)
    ensures Continue(done, n, Continue([argument], 4 + |argument|, r)) ==
        Continue(done + [argument], n + 4 + |argument|, r)
  {
    if r.Ok? {
      assert done + ([argument] + r.value.0) == done + [argument] + r.value.0;
    }
  }

  /** How reading arguments goes on from position `used` of the input. */
  lemma ReadStep(input: seq<Byte>, used: nat, count: nat, aggregate: nat)
    requires used <= |input| && count > 0
    ensures var r := ReadArguments(input[used..], count, aggregate);
            if |input| < used + 4 then r == Err(Afk(UnexpectedEof)) else
            var length := FromBigEndian(input[used..used + 4]);
            if aggregate + length > MAX_COMMAND_BYTES then r == Err(Afk(InvalidData))
            else if |input| < used + 4 + length then r == Err(Afk(UnexpectedEof))
            else r == Continue([input[used + 4..used + 4 + length]], 4 + length,
                               ReadArguments(input[used + 4 + length..], count - 1, aggregate + length))
  {
    hide FromBigEndian;
    var s := input[used..];
    if |input| >= used + 4 {
      assert s[..4] == input[used..used + 4];
      var length := FromBigEndian(s[..4]);
      if |input| >= used + 4 + length {
        assert s[4..4 + length] == input[used + 4..used + 4 + length] && s[4 + length..] == input[used + 4 + length..];
      }
    }
  }

  // ---------------------------------------------------------------- round trips

  lemma FieldRanges()
    ensures Range(2) == U16_RANGE && Range(4) == U32_RANGE
  {
    assert Range(2) == 0x100 * Range(1) && Range(3) == 0x100 * Range(2) && Range(4) == 0x100 * Range(3);
  }

  /** Reading on past one written argument. */
  lemma ReadOne(first: Argument, tail: seq<Byte>, count: nat, aggregate: nat)
    requires |first| < U32_RANGE && count > 0
    ensures ReadArguments(BigEndian(|first|, 4) + first + tail, count, aggregate) ==
            if aggregate + |first| > MAX_COMMAND_BYTES then Err(Afk(InvalidData))
            else Continue([first], 4 + |first|, ReadArguments(tail, count - 1, aggregate + |first|))
  {
    hide BigEndian, FromBigEndian, Range;
    var s := BigEndian(|first|, 4) + first + tail;
    FieldRanges();
    BigEndianRoundTrip(|first|, 4);
    assert s[..4] == BigEndian(|first|, 4);
    assert s[4..4 + |first|] == first && s[4 + |first|..] == tail;
  }

  lemma ReadNoArguments(s: seq<Byte>, aggregate: nat)
    ensures ReadArguments(s, 0, aggregate) == Ok(([], 0))
  {
  }

  /** The reader's running check accepts exactly the lists whose total is within the limit. */
  lemma {:induction false} ArgumentsRoundTrip(command: seq<Argument>, rest: seq<Byte>, aggregate: nat)
    requires Writable(command) && aggregate <= MAX_COMMAND_BYTES
    ensures ReadArguments(EncodeArguments(command) + rest, |command|, aggregate) ==
            if aggregate + Total(command) <= MAX_COMMAND_BYTES then Ok((command, |EncodeArguments(command)|))
            else Err(Afk(InvalidData))
    decreases |command|
  {
    hide FromBigEndian, BigEndian, ReadArguments;
    if command == [] {
      ReadNoArguments(EncodeArguments(command) + rest, aggregate);
    } else {
      var first, tail := command[0], EncodeArguments(command[1..]) + rest;
      assert EncodeArguments(command) + rest == BigEndian(|first|, 4) + first + tail;
      ReadOne(first, tail, |command|, aggregate);
      if aggregate + |first| <= MAX_COMMAND_BYTES {
        ArgumentsRoundTrip(command[1..], rest, aggregate + |first|);
        assert [first] + command[1..] == command;
      }
    }
  }

  /**
    Whatever follows it, a written configuration is read back identically and to its last byte
    if it is within the limits of the command line, and is refused otherwise.
   */
  lemma HandshakeRoundTrip(c: Config, rest: seq<Byte>)
    requires Writable(c.command)
    ensures ReadConfig(EncodeConfig(c) + rest) ==
            if Acceptable(c) then Ok((c, |EncodeConfig(c)|)) else Err(Afk(InvalidData))
  {
    hide BigEndian, FromBigEndian, Range, ReadArguments, EncodeArguments, ValidateCommand;
    var s := EncodeConfig(c) + rest;
    FieldRanges();
    BigEndianRoundTrip(c.rows, 2);
    BigEndianRoundTrip(c.columns, 2);
    BigEndianRoundTrip(|c.command|, 2);
    ValidateBounds(c.command);
    assert s[..2] == BigEndian(c.rows, 2) && s[2..4] == BigEndian(c.columns, 2);
    assert s[5..CONFIG_HEADER_BYTES] == BigEndian(|c.command|, 2);
    assert s[CONFIG_HEADER_BYTES..] == EncodeArguments(c.command) + rest;
    ArgumentsRoundTrip(c.command, rest, 0);
  }

  lemma {:induction false} ArgumentsCanonical(s: seq<Byte>, count: nat, aggregate: nat)
    requires ReadArguments(s, count, aggregate).Ok?
    ensures var (command, n) := ReadArguments(s, count, aggregate).value;
            |command| == count && s[..n] == EncodeArguments(command)
            && (aggregate <= MAX_COMMAND_BYTES ==> aggregate + Total(command) <= MAX_COMMAND_BYTES)
    decreases count
  {
    hide FromBigEndian;
    if count == 0 {
    } else {
      var length := FromBigEndian(s[..4]);
      var first, tail := s[4..4 + length], s[4 + length..];
      BigEndianUnique(s[..4]);
      ArgumentsCanonical(tail, count - 1, aggregate + length);
      var (command, n) := ReadArguments(s, count, aggregate).value;
      var (rest, m) := ReadArguments(tail, count - 1, aggregate + length).value;
      assert command[0] == first && command[1..] == rest;
      assert s[..n] == s[..4] + first + tail[..m];
    }
  }

  /** Whatever bytes the reader accepts are the writer's bytes for an acceptable configuration. */
  lemma HandshakeCanonical(s: seq<Byte>)
    requires ReadConfig(s).Ok?
    ensures var (c, n) := ReadConfig(s).value;
            n <= |s| && s[..n] == EncodeConfig(c) && Acceptable(c)
  {
    var (c, n) := ReadConfig(s).value;
    BigEndianUnique(s[..2]);
    BigEndianUnique(s[2..4]);
    BigEndianUnique(s[5..CONFIG_HEADER_BYTES]);
    ArgumentsCanonical(s[CONFIG_HEADER_BYTES..], FromBigEndian(s[5..CONFIG_HEADER_BYTES]), 0);
    ValidateBounds(c.command);
    assert s[..n] == s[..2] + s[2..4] + [s[4]] + s[5..CONFIG_HEADER_BYTES] + s[CONFIG_HEADER_BYTES..n];
    assert s[CONFIG_HEADER_BYTES..][..n - CONFIG_HEADER_BYTES] == s[CONFIG_HEADER_BYTES..n];
  }

  /** Reading on past an argument that has not arrived as a whole. */
  lemma ReadCut(first: Argument, tail: seq<Byte>, k: nat, count: nat, aggregate: nat)
    requires |first| < U32_RANGE && count > 0 && aggregate + |first| <= MAX_COMMAND_BYTES
    requires k <= 4 + |first| + |tail|
    ensures var s := BigEndian(|first|, 4) + first + tail;
            if k < 4 + |first| then ReadArguments(s[..k], count, aggregate) == Err(Afk(UnexpectedEof))
            else ReadArguments(s[..k], count, aggregate) ==
                 Continue([first], 4 + |first|,
                     ReadArguments(tail[..k - 4 - |first|], count - 1, aggregate + |first|))
  {
    hide BigEndian, FromBigEndian, Range;
    var s := BigEndian(|first|, 4) + first + tail;
    FieldRanges();
    BigEndianRoundTrip(|first|, 4);
    if k >= 4 {
      assert s[..k][..4] == BigEndian(|first|, 4);
      if k >= 4 + |first| {
        assert s[..k][4..4 + |first|] == first && s[..k][4 + |first|..] == tail[..k - 4 - |first|];
      }
    }
  }

  lemma {:induction false} ArgumentsCut(command: seq<Argument>, k: nat, aggregate: nat)
    requires Writable(command) && aggregate + Total(command) <= MAX_COMMAND_BYTES && k < |EncodeArguments(command)|
    ensures ReadArguments(EncodeArguments(command)[..k], |command|, aggregate) == Err(Afk(UnexpectedEof))
    decreases |command|
  {
    hide FromBigEndian, BigEndian, ReadArguments;
    if command != [] {
      var first, tail := command[0], EncodeArguments(command[1..]);
      assert EncodeArguments(command) == BigEndian(|first|, 4) + first + tail;
      ReadCut(first, tail, k, |command|, aggregate);
      if k >= 4 + |first| {
        ArgumentsCut(command[1..], k - 4 - |first|, aggregate + |first|);
      }
    }
  }

  /** A configuration that arrives cut short, wherever it is cut, is refused as incomplete. */
  lemma CutConfigRefused(c: Config, k: nat)
    requires Writable(c.command) && Acceptable(c) && k < |EncodeConfig(c)|
    ensures ReadConfig(EncodeConfig(c)[..k]) == Err(Afk(UnexpectedEof))
  {
    hide BigEndian, FromBigEndian, Range, ReadArguments, EncodeArguments, ValidateCommand;
    var s := EncodeConfig(c)[..k];
    FieldRanges();
    BigEndianRoundTrip(c.rows, 2);
    BigEndianRoundTrip(c.columns, 2);
    BigEndianRoundTrip(|c.command|, 2);
    ValidateBounds(c.command);
    if k >= 5 {
      assert s[..2] == BigEndian(c.rows, 2) && s[2..4] == BigEndian(c.columns, 2);
    }
    if k >= CONFIG_HEADER_BYTES {
      assert s[5..CONFIG_HEADER_BYTES] == BigEndian(|c.command|, 2);
      assert s[CONFIG_HEADER_BYTES..] == EncodeArguments(c.command)[..k - CONFIG_HEADER_BYTES];
      ArgumentsCut(c.command, k - CONFIG_HEADER_BYTES, 0);
    }
  }

  /** The bytes of a configuration: size, trace flag, number of arguments, and each argument behind its length. */
  lemma ConfigFormat(c: Config)
    requires Writable(c.command)
    ensures var s, n := EncodeConfig(c), |c.command|;
            && |s| == 7 + 4 * n + Total(c.command)
            && s[..7] == [c.rows / 0x100, c.rows % 0x100, c.columns / 0x100, c.columns % 0x100,
                          if c.trace then 1 else 0, n / 0x100, n % 0x100]
  {
    hide BigEndian;
    Ipc.FieldBytes(c.rows);
    Ipc.FieldBytes(c.columns);
    Ipc.FieldBytes(|c.command|);
    ArgumentsSize(c.command);
  }

  lemma {:induction false} ArgumentsSize(command: seq<Argument>)
    ensures |EncodeArguments(command)| == 4 * |command| + Total(command)
  {
    if command != [] {
      ArgumentsSize(command[1..]);
    }
  }

  /** The arguments of a command line as the bytes they consist of. */
  function Raw(command: seq<string>): (r: seq<Argument>)
    ensures |r| == |command|
  {
    if command == [] then [] else [Ascii(command[0])] + Raw(command[1..])
  }

  lemma {:induction false} RawTotal(command: seq<string>)
    ensures Total(Raw(command)) == Total(command)
  {
    if command == [] {
    } else {
      RawTotal(command[1..]);
      assert Raw(command)[1..] == Raw(command[1..]);
    }
  }

  /** From command line to runner: what `session` accepted arrives unchanged, with nothing left over. */
  lemma AcceptedCommandArrives(arguments: seq<string>, id: SessionId, trace: bool, command: seq<string>, rows: U16,
      columns: U16, rest: seq<Byte>)
    requires ParseSession(arguments) == Ok(Session(id, trace, command))
    requires Ipc.ValidDimension(rows) && Ipc.ValidDimension(columns)
    ensures var c := Config(rows, columns, trace, Raw(command));
            Writable(c.command) && ReadConfig(EncodeConfig(c) + rest) == Ok((c, |EncodeConfig(c)|))
  {
    ParsedIsSpelling(arguments, id, trace, command);
    ValidateBounds(command);
    RawTotal(command);
    ValidateBounds(Raw(command));
    TotalBoundsEach(Raw(command));
    HandshakeRoundTrip(Config(rows, columns, trace, Raw(command)), rest);
  }

  lemma {:induction false} TotalBoundsEach(command: seq<Argument>)
    ensures forall i | 0 <= i < |command| :: |command[i]| <= Total(command)
  {
    if command == [] {
    } else {
      TotalBoundsEach(command[1..]);
      forall i | 0 < i < |command| ensures |command[i]| <= Total(command) {
        assert command[i] == command[1..][i - 1];
      }
    }
  }
}
