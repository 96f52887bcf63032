/** The command line (src/cli.rs). An argument is an OS string, one character for each byte. */
module Cli {
  import opened Limits
  import opened Bytes
  import opened Identity

  datatype ParseError = MissingCommand | UnsupportedCommand | InvalidSessionId | InvalidArguments | CommandTooLarge

  datatype Command =
    | Help
    | Version
    | Session(session: SessionId, trace: bool, command: seq<string>)
    | Sessions(json: bool)
    | Stop(session: SessionId)
    | HiddenRunner(session: SessionId)
    | HiddenChild(command: seq<string>)

  type Parsing<T> = Result<T, ParseError>

  /** The largest value of the platform's `usize`. */
  const USIZE_MAX := 0xFFFF_FFFF_FFFF_FFFF

  /** Adding up the lengths, with the overflow check of `checked_add`. */
  function CheckedTotal<T>(command: seq<seq<T>>, total: nat): Option<nat> {
    if command == [] then Some(total)
    else if total + |command[0]| > USIZE_MAX then None
    else CheckedTotal(command[1..], total + |command[0]|)
  }

  predicate ValidateCommand<T>(command: seq<seq<T>>) {
    && |command| <= MAX_COMMAND_ARGUMENTS
    && CheckedTotal(command, 0).Some?
    && CheckedTotal(command, 0).value <= MAX_COMMAND_BYTES
  }

  function Total<T>(command: seq<seq<T>>): nat {
    if command == [] then 0 else |command[0]| + Total(command[1..])
  }

  lemma {:induction false} CheckedTotalIsTotal<T>(command: seq<seq<T>>, total: nat)
    requires total <= USIZE_MAX
    ensures CheckedTotal(command, total) ==
            if total + Total(command) <= USIZE_MAX then Some(total + Total(command)) else None
  {
    if command == [] || total + |command[0]| > USIZE_MAX {
    } else {
      CheckedTotalIsTotal(command[1..], total + |command[0]|);
    }
  }

  /** The validator bounds the number of arguments and their total length, overflow included. */
  lemma ValidateBounds<T>(command: seq<seq<T>>)
    ensures ValidateCommand(command) <==> |command| <= MAX_COMMAND_ARGUMENTS && Total(command) <= MAX_COMMAND_BYTES
  {
    CheckedTotalIsTotal(command, 0);
  }

  function ParseSession(arguments: seq<string>): Parsing<Command> {
    if arguments == [] then Err(InvalidArguments) else
    match ParseId(arguments[0])
    case None => Err(InvalidSessionId)
    case Some(session) =>
      var trace := |arguments| > 1 && arguments[1] == "--trace";
      var remaining := if trace then arguments[2..] else arguments[1..];
      if remaining == [] then Ok(Session(session, trace, []))
      else if remaining[0] == "--" && |remaining| > 1 then
        if ValidateCommand(remaining[1..]) then Ok(Session(session, trace, remaining[1..]))
        else Err(CommandTooLarge)
      else Err(InvalidArguments)
  }

  /** The rest of a command that takes a session ID and nothing else. */
  function ParseSingleId(arguments: seq<string>): (r: Parsing<SessionId>) {
    if |arguments| != 1 then Err(InvalidArguments) else
    match ParseId(arguments[0])
    case None => Err(InvalidSessionId)
    case Some(session) => Ok(session)
  }

  function ParseSessions(arguments: seq<string>): Parsing<Command> {
    if arguments == [] then Ok(Sessions(false))
    else if |arguments| == 1 && arguments[0] == "--json" then Ok(Sessions(true))
    else Err(InvalidArguments)
  }

  function ParseHiddenChild(arguments: seq<string>): Parsing<Command> {
    if arguments == [] then Err(InvalidArguments)
    else if ValidateCommand(arguments) then Ok(HiddenChild(arguments))
    else Err(CommandTooLarge)
  }

  function Parse(arguments: seq<string>): Parsing<Command> {
    if arguments == [] then Err(MissingCommand) else
    var first, rest := arguments[0], arguments[1..];
    if first in {"--help", "-h"} && rest == [] then Ok(Help)
    else if first in {"--version", "-V"} && rest == [] then Ok(Version)
    else if first == "session" then ParseSession(rest)
    else if first == "sessions" then ParseSessions(rest)
    else if first == "stop" then
      match ParseSingleId(rest) case Ok(id) => Ok(Stop(id)) case Err(e) => Err(e)
    else if first == "__runner" then
      match ParseSingleId(rest) case Ok(id) => Ok(HiddenRunner(id)) case Err(e) => Err(e)
    else if first == "__child" then ParseHiddenChild(rest)
    else Err(UnsupportedCommand)
  }

  // ---------------------------------------------------------------- what is accepted

  /** The spelling of a session command: the ID, the option, and the program after `--`. */
  function Spell(id: SessionId, trace: bool, command: seq<string>): seq<string> {
    [Hex(id)] + (if trace then ["--trace"] else []) + (if command == [] then [] else ["--"] + command)
  }

  /** `session` accepts exactly the spellings of commands within the limits, each as what it spells. */
  lemma ParseSessionExact(arguments: seq<string>, id: SessionId, trace: bool, command: seq<string>)
    ensures ParseSession(arguments) == Ok(Session(id, trace, command))
       <==> arguments == Spell(id, trace, command) && ValidateCommand(command)
  {
    if arguments == Spell(id, trace, command) && ValidateCommand(command) {
      SpellingParses(arguments, id, trace, command);
    } else if ParseSession(arguments) == Ok(Session(id, trace, command)) {
      ParsedIsSpelling(arguments, id, trace, command);
    }
  }

  lemma SpellingParses(arguments: seq<string>, id: SessionId, trace: bool, command: seq<string>)
    requires arguments == Spell(id, trace, command) && ValidateCommand(command)
    ensures ParseSession(arguments) == Ok(Session(id, trace, command))
  {
    ParseInvertsDisplay(arguments[0], id);
    var options := if trace then arguments[2..] else arguments[1..];
    assert options == if command == [] then [] else ["--"] + command;
    assert command != [] ==> options[1..] == command;
    assert !trace && command != [] ==> arguments[1] == "--";
  }

  lemma ParsedIsSpelling(arguments: seq<string>, id: SessionId, trace: bool, command: seq<string>)
    requires ParseSession(arguments) == Ok(Session(id, trace, command))
    ensures arguments == Spell(id, trace, command) && ValidateCommand(command)
  {
    ParseInvertsDisplay(arguments[0], id);
    ValidateBounds(command);
    var options := if trace then arguments[2..] else arguments[1..];
    assert arguments == [arguments[0]] + (if trace then ["--trace"] else []) + options;
    assert command != [] ==> options == ["--"] + command;
  }

  /** A program within the limits: at most 256 arguments of at most 65536 bytes together. */
  predicate WithinLimits(command: seq<string>) {
    |command| <= 256 && Total(command) <= 0x1_0000
  }

  /** The ways to write a command. */
  predicate Spells(arguments: seq<string>, c: Command) {
    match c
    case Help => arguments == ["--help"] || arguments == ["-h"]
    case Version => arguments == ["--version"] || arguments == ["-V"]
    case Session(id, trace, command) =>
      arguments == ["session"] + Spell(id, trace, command) && WithinLimits(command)
    case Sessions(json) => arguments == if json then ["sessions", "--json"] else ["sessions"]
    case Stop(id) => arguments == ["stop", Hex(id)]
    case HiddenRunner(id) => arguments == ["__runner", Hex(id)]
    case HiddenChild(command) => arguments == ["__child"] + command && command != [] && WithinLimits(command)
  }

  /** The command line means a command exactly if it is one of the ways to write that command. */
  lemma ParseExact(arguments: seq<string>, c: Command)
    ensures Parse(arguments) == Ok(c) <==> Spells(arguments, c)
  {
    hide ParseId, Spell, Hex;
    if arguments != [] {
      var rest := arguments[1..];
      assert arguments == [arguments[0]] + rest;
      if rest != [] {
        IdSpelling(rest[0]);
      }
      match c {
        case Session(id, trace, command) =>
          ParseSessionExact(rest, id, trace, command);
          ValidateBounds(command);
        case HiddenChild(command) => ValidateBounds(command);
        case _ =>
      }
    }
  }

  lemma IdSpelling(s: string)
    ensures forall id: SessionId :: ParseId(s) == Some(id) <==> s == Hex(id)
  {
    forall id: SessionId ensures ParseId(s) == Some(id) <==> s == Hex(id) {
      ParseInvertsDisplay(s, id);
    }
  }

  /** Why a command line is refused. */
  lemma RefusedBecause(arguments: seq<string>)
    ensures Parse(arguments) == Err(MissingCommand) <==> arguments == []
    ensures Parse(arguments) == Err(UnsupportedCommand) <==>
              && arguments != []
              && arguments[0] !in {"session", "sessions", "stop", "__runner", "__child"}
              && !(|arguments| == 1 && arguments[0] in {"--help", "-h", "--version", "-V"})
    ensures Parse(arguments) == Err(InvalidSessionId) ==>
              |arguments| > 1 && arguments[0] in {"session", "stop", "__runner"} && ParseId(arguments[1]) == None
    ensures Parse(arguments) == Err(CommandTooLarge) ==>
              arguments[0] in {"session", "__child"} && exists k | 0 < k <= |arguments| :: !WithinLimits(arguments[k..])
  {
    if Parse(arguments) == Err(CommandTooLarge) {
      var k := if arguments[0] == "__child" then 1 else if arguments[2] == "--trace" then 4 else 3;
      var rest := arguments[1..];
      assert arguments[0] == "session" ==>
               rest[1..] == arguments[2..] && (arguments[2] == "--trace" ==> rest[2..] == arguments[3..]);
      assert arguments[0] == "session" ==> arguments[2..][1..] == arguments[3..];
      assert arguments[0] == "session" && arguments[2] == "--trace" ==> arguments[3..][1..] == arguments[4..];
      ValidateBounds(arguments[k..]);
    }
  }

  /** What `session` accepts as a program, the hidden child process started for it accepts too. */
  lemma ChildAcceptsCommand(arguments: seq<string>)
    ensures match ParseSession(arguments)
            case Ok(Session(_, _, command)) =>
              command != [] ==> Parse(["__child"] + command) == Ok(HiddenChild(command))
            case _ => true
  {
    match ParseSession(arguments)
    case Ok(Session(id, trace, command)) =>
      ParsedIsSpelling(arguments, id, trace, command);
      assert (["__child"] + command)[1..] == command;
    case _ =>
  }
}
