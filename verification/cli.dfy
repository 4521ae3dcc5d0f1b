/** The command-line front end: a registry of named commands and the
    decision `Run` takes for each input line. Runners are opaque handles; the
    scanner, the writer, the prompt and the exit channel are not modelled. */
module CommandLine {
  import opened Wrappers
  import Text

  const Help := "help"
  const Exit := "exit"
  const HelpDescription := "Print this help message."
  const ExitDescription := "Exit go-invoice."
  const NameDelim := ' '
  const ArgsDelim := ','
  const HelpNameWidth := 25

  /** The names `Handle` refuses to register. */
  const Reserved: set<string> := {Help, Exit}

  /** A non-nil `Runner` value, identified by an opaque handle. */
  datatype Runner = Runner(handle: nat)

  datatype Command = Command(name: string, desc: string, runner: Runner)

  /** `commands` indexes the commands by name; `scommands` keeps them in registration order. */
  datatype Cli = Cli(commands: map<string, Command>, scommands: seq<Command>)

  /** `NewCli`: no commands registered. */
  function NewCli(): (c: Cli)
    ensures Valid(c)
    ensures HelpText(c) == [HelpLine(Help, HelpDescription), HelpLine(Exit, ExitDescription)]
  {
    Cli(map[], [])
  }

  /** The map's keys are exactly the names in registration order, each name
      appears once, indexes its own command, and is neither empty nor reserved. */
  ghost predicate Valid(c: Cli)
  {
    && c.commands.Keys == (set i | 0 <= i < |c.scommands| :: c.scommands[i].name)
    && (forall i :: 0 <= i < |c.scommands| ==>
          c.scommands[i].name in c.commands && c.commands[c.scommands[i].name] == c.scommands[i])
    && (forall i, j :: 0 <= i < j < |c.scommands| ==> c.scommands[i].name != c.scommands[j].name)
    && (forall i :: 0 <= i < |c.scommands| ==> c.scommands[i].name != "" && c.scommands[i].name !in Reserved)
  }

  /** `Handle`: register `name` with its description and runner (`None` is a
      nil runner). Each refusal is the panic message of the first check that fails. */
  function Handle(c: Cli, name: string, desc: string, runner: Option<Runner>): (r: Result<Cli>)
    ensures r.Err? <==> name == "" || desc == "" || runner.None? || name in c.commands || name in Reserved
    ensures name == "" ==> r == Err("cli: invalid command name")
    ensures name != "" && desc == "" ==> r == Err("cli: invalid command description")
    ensures name != "" && desc != "" && runner.None? ==> r == Err("cli: nil runner")
    ensures name != "" && desc != "" && runner.Some? && name in c.commands ==>
      r == Err("cli: multiple registrations for " + name)
    ensures name != "" && desc != "" && runner.Some? && name !in c.commands && name in Reserved ==>
      r == Err("cli: " + name + " is a reserved command")
    ensures r.Ok? ==>
      && r.value.commands == c.commands[name := Command(name, desc, runner.value)]
      && |r.value.scommands| == |c.scommands| + 1
      && r.value.scommands[..|c.scommands|] == c.scommands
      && r.value.scommands[|c.scommands|] == Command(name, desc, runner.value)
  {
    if name == "" then Err("cli: invalid command name")
    else if desc == "" then Err("cli: invalid command description")
    else if runner.None? then Err("cli: nil runner")
    else if name in c.commands then Err("cli: multiple registrations for " + name)
    else if name in Reserved then Err("cli: " + name + " is a reserved command")
    else
      var cmd := Command(name, desc, runner.value);
      Ok(Cli(c.commands[name := cmd], c.scommands + [cmd]))
  }

  /** Registration keeps the map and the ordered list in step. */
  lemma HandlePreservesValid(c: Cli, name: string, desc: string, runner: Option<Runner>)
    requires Valid(c)
    ensures Handle(c, name, desc, runner).Ok? ==> Valid(Handle(c, name, desc, runner).value)
  {
  }

  /** A parsed input line: the command name and its arguments. */
  datatype Input = Input(name: string, args: seq<string>)

  /** The parse in `Run`: the name is the text before the first space; only
      when a space exists is the rest split on commas into arguments. */
  function ParseLine(line: string): (p: Input)
    ensures NameDelim !in p.name
    ensures NameDelim !in line <==> p.args == []
    ensures NameDelim !in line ==> p.name == line
    ensures NameDelim in line ==>
      && line == p.name + [NameDelim] + Text.Join(p.args, ArgsDelim)
      && forall i :: 0 <= i < |p.args| ==> ArgsDelim !in p.args[i]
  {
    var parts := Text.SplitFirst(line, NameDelim);
    if |parts| == 2 then
      Text.JoinSplit(parts[1], ArgsDelim);
      Input(parts[0], Text.Split(parts[1], ArgsDelim))
    else Input(parts[0], [])
  }

  /** The parse is determined by the line: any name free of spaces and any
      comma-free argument list joined back into a line parse to themselves. */
  lemma ParseOfJoin(name: string, args: seq<string>)
    requires NameDelim !in name
    requires |args| >= 1
    requires forall i :: 0 <= i < |args| ==> ArgsDelim !in args[i]
    ensures ParseLine(name + [NameDelim] + Text.Join(args, ArgsDelim)) == Input(name, args)
  {
    Text.IndexAfterFreePrefix(name, NameDelim, Text.Join(args, ArgsDelim));
    Text.SplitJoin(args, ArgsDelim);
  }

  /** What `Run` does with one line. */
  datatype Action =
    | Quit                                   // signal exit and stop reading
    | ShowHelp                               // print the help text
    | Invoke(command: Command, args: seq<string>)  // run a registered command
    | Unknown(name: string)                  // report an unknown command

  /** The dispatch in `Run`: exit, then help, then a registered command, then unknown. */
  function Dispatch(c: Cli, line: string): (a: Action)
    ensures var p := ParseLine(line);
      && (a == Quit <==> p.name == Exit)
      && (a == ShowHelp <==> p.name == Help)
      && (a.Invoke? <==> p.name != Exit && p.name != Help && p.name in c.commands)
      && (a.Invoke? ==> a.command == c.commands[p.name] && a.args == p.args)
      && (a.Unknown? ==> a.name == p.name)
  {
    var p := ParseLine(line);
    if p.name == Exit then Quit
    else if p.name == Help then ShowHelp
    else if p.name in c.commands then Invoke(c.commands[p.name], p.args)
    else Unknown(p.name)
  }

  /** The message printed for an unknown command: the name, quoted, on a line of its own. */
  function UnknownMessage(name: string): (r: string)
    ensures |r| == |name| + 28
    ensures r[16..|name| + 18] == Text.Quote(name)
    ensures r[|r| - 1] == '\n'
  {
    "Unknown command " + Text.Quote(name) + " entered.\n"
  }

  /** The lines `Run` itself writes for an action, besides the prompt: the
      help text, the unknown-command message, or nothing (an exit, or a
      command whose runner writes its own output). */
  function Reply(c: Cli, a: Action): (lines: seq<string>)
    ensures lines == [] <==> a.Quit? || a.Invoke?
    ensures a.ShowHelp? ==> lines == HelpText(c)
    ensures a.Unknown? ==> lines == [UnknownMessage(a.name)]
  {
    match a
    case ShowHelp => HelpText(c)
    case Unknown(name) => [UnknownMessage(name)]
    case _ => []
  }

  /** A name is unknown until it is registered, and a line naming it then
      runs the new command with the line's arguments. */
  lemma HandleThenDispatch(c: Cli, name: string, desc: string, runner: Option<Runner>, line: string)
    requires Handle(c, name, desc, runner).Ok?
    requires ParseLine(line).name == name
    ensures Dispatch(c, line) == Unknown(name)
    ensures Reply(c, Dispatch(c, line)) == [UnknownMessage(name)]
    ensures Dispatch(Handle(c, name, desc, runner).value, line)
      == Invoke(Command(name, desc, runner.value), ParseLine(line).args)
  {
  }

  /** The actions up to and including the first exit: `Run` returns right after it. */
  function UpToExit(actions: seq<Action>): (trace: seq<Action>)
    ensures |trace| <= |actions| && trace == actions[..|trace|]
    ensures forall i :: 0 <= i < |trace| - 1 ==> trace[i] != Quit
    ensures |trace| < |actions| ==> |trace| > 0 && trace[|trace| - 1] == Quit
    ensures Quit !in actions ==> trace == actions
  {
    if |actions| == 0 then []
    else if actions[0] == Quit then [Quit]
    else [actions[0]] + UpToExit(actions[1..])
  }

  /** The actions `Run` takes for the lines it reads: one per line, in order,
      up to and including the first exit. */
  function Session(c: Cli, lines: seq<string>): (trace: seq<Action>)
    ensures |trace| <= |lines|
    ensures forall i :: 0 <= i < |trace| ==> trace[i] == Dispatch(c, lines[i])
    ensures forall i :: 0 <= i < |trace| - 1 ==> trace[i] != Quit
    ensures |trace| < |lines| ==> |trace| > 0 && trace[|trace| - 1] == Quit
  {
    UpToExit(seq(|lines|, i requires 0 <= i < |lines| => Dispatch(c, lines[i])))
  }

  /** One line of help: the name left-justified in 25 columns, then the description. */
  function HelpLine(name: string, desc: string): (line: string)
    ensures var col := if |name| >= HelpNameWidth then |name| else HelpNameWidth;
      && |line| == col + |desc| + 1
      && line[..|name|] == name
      && (forall i :: |name| <= i < col ==> line[i] == ' ')
      && line[col..col + |desc|] == desc
      && line[col + |desc|] == '\n'
  {
    Text.PadRight(name, HelpNameWidth) + desc + "\n"
  }

  /** The help lines of the registered commands, in the given order. */
  function CommandHelp(cmds: seq<Command>): (lines: seq<string>)
    ensures |lines| == |cmds|
    ensures forall i :: 0 <= i < |cmds| ==> lines[i] == HelpLine(cmds[i].name, cmds[i].desc)
  {
    if |cmds| == 0 then [] else [HelpLine(cmds[0].name, cmds[0].desc)] + CommandHelp(cmds[1..])
  }

  /** `help`: the registered commands in registration order, then `help`, then `exit`. */
  function HelpText(c: Cli): (lines: seq<string>)
    ensures |lines| == |c.scommands| + 2
    ensures forall i :: 0 <= i < |c.scommands| ==>
      lines[i] == HelpLine(c.scommands[i].name, c.scommands[i].desc)
    ensures lines[|c.scommands|] == HelpLine(Help, HelpDescription)
    ensures lines[|c.scommands| + 1] == HelpLine(Exit, ExitDescription)
  {
    CommandHelp(c.scommands) + [HelpLine(Help, HelpDescription), HelpLine(Exit, ExitDescription)]
  }

  /** A new registration adds its help line after all earlier commands and
      before the `help` and `exit` lines, leaving the rest unchanged. */
  lemma HandleExtendsHelp(c: Cli, name: string, desc: string, runner: Option<Runner>)
    requires Handle(c, name, desc, runner).Ok?
    ensures var n := |c.scommands|;
      HelpText(Handle(c, name, desc, runner).value)
        == HelpText(c)[..n] + [HelpLine(name, desc)] + HelpText(c)[n..]
  {
  }
}
