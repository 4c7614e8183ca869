/** `BrewServiceManager` of the application and command-line tool: locating `brew`, running it,
    classifying a failed run, the argument vectors of each action, and the list parser. The
    child process itself is not modelled: a run is the `ProcessOutcome` it produced. */
module CoreManager {
  import opened Basics
  import opened Text
  import opened Models
  import opened Listing
  import opened ServiceLine
  import SwiftInt

  /** The errors the manager throws. */
  datatype BrewError =
    | BrewNotFound
    | ExecutionFailed(message: string)
    | InvalidOutput(message: string)
    | OperationCancelled
    | RequiresAuthentication(command: string)

  /** What a caller catches: a `BrewError`, or any other error (the one `Process.run()` throws
      when the executable cannot be started, or the cancellation error of `Task.sleep`). */
  datatype Failure = Brew(error: BrewError) | Other(description: string)

  /** What running `brew` yielded: it could not be started (or its Swift `Task` was cancelled before
      it was), or it exited with a status and with its standard output and standard error,
      each `None` when the bytes are not valid UTF-8. */
  datatype ProcessOutcome =
    | LaunchFailed(description: string)
    | Exited(status: int, stdout: Option<string>, stderr: Option<string>)

  // ---------------------------------------------------------------------------------------
  // Locating brew
  // ---------------------------------------------------------------------------------------

  /** The paths tried, in order; the last one, the bare name, is accepted without being
      checked, and as a file URL it names `brew` relative to the working directory. */
  const Candidates: seq<string> :=
    ["/opt/homebrew/bin/brew", "/usr/local/bin/brew", "/bin/brew", "/usr/bin/brew", "brew"]

  /** The first absolute candidate that `isExecutable` accepts, else `"brew"`. */
  function FirstExecutable(isExecutable: string -> bool, i: nat := 0): (path: string)
    requires i <= 4
    ensures path in Candidates[i..]
    ensures path == "brew" || isExecutable(path)
    ensures path == "brew" <==> forall j :: i <= j < 4 ==> !isExecutable(Candidates[j])
    ensures forall j :: i <= j < 4 && Candidates[j] == path ==>
      forall k :: i <= k < j ==> !isExecutable(Candidates[k])
    decreases 4 - i
  {
    if Candidates[i] == "brew" then "brew"
    else if isExecutable(Candidates[i]) then Candidates[i]
    else FirstExecutable(isExecutable, i + 1)
  }

  /** `brewPath()` with the manager's cache: a cached path is returned as is; otherwise the
      candidates are probed in order and the one found is cached. It never returns `nil`, so
      the `brewNotFound` guards in front of every command cannot fire, and once a path is
      cached every later call returns it whatever the file system then says. */
  method BrewPath(cache: Option<string>, isExecutable: string -> bool)
    returns (path: Option<string>, newCache: Option<string>)
    ensures path.Some? && newCache == path
    ensures cache.Some? ==> path == cache
    ensures cache.None? ==> path == Some(FirstExecutable(isExecutable))
  {
    if cache.Some? {
      return cache, cache;
    }
    var i := 0;
    while Candidates[i] != "brew" && !isExecutable(Candidates[i])
      invariant 0 <= i <= 4
      invariant forall j :: 0 <= j < i ==> !isExecutable(Candidates[j])
      decreases 4 - i
    {
      i := i + 1;
    }
    path := Some(Candidates[i]);
    newCache := path;
  }

  // ---------------------------------------------------------------------------------------
  // Running brew
  // ---------------------------------------------------------------------------------------

  /** The stderr text reported for a failed run: trimmed of whitespace and newlines, or
      "Unknown error" when it is not valid UTF-8. */
  function ErrorText(stderr: Option<string>): string
  {
    match stderr
    case Some(text) => Trim(text, IsWhiteSpace)
    case None => "Unknown error"
  }

  /** `executeBrewCommand(arguments:)` once the process has run. A non-zero exit is an
      authentication failure when the stderr text mentions "requires authentication" and an
      execution failure carrying that text otherwise; a zero exit gives stdout, or
      `invalidOutput` when stdout is not valid UTF-8. */
  function Execute(arguments: seq<string>, outcome: ProcessOutcome): (r: Result<string, Failure>)
    ensures r.Ok? <==> outcome.Exited? && outcome.status == 0 && outcome.stdout.Some?
    ensures r.Ok? ==> r.value == outcome.stdout.value
    ensures outcome.LaunchFailed? <==> r.Err? && r.error.Other?
    ensures r.Err? && r.error.Other? ==> r.error.description == outcome.description
    ensures r.Err? && r.error.Brew? ==> !r.error.error.BrewNotFound? && !r.error.error.OperationCancelled?
    ensures r == Err(Brew(InvalidOutput("Cannot decode command output")))
      <==> outcome.Exited? && outcome.status == 0 && outcome.stdout.None?
    ensures (r.Err? && r.error.Brew? && r.error.error.RequiresAuthentication?)
      <==> outcome.Exited? && outcome.status != 0 && Contains(ErrorText(outcome.stderr), "requires authentication")
    ensures r.Err? && r.error.Brew? && r.error.error.RequiresAuthentication? ==>
      r.error.error.command == Join(arguments, " ")
    ensures r.Err? && r.error.Brew? && r.error.error.ExecutionFailed? ==>
      && outcome.Exited? && outcome.status != 0
      && r.error.error.message == ErrorText(outcome.stderr)
      && !Contains(r.error.error.message, "requires authentication")
    ensures (outcome.Exited? && outcome.status != 0
             && !Contains(ErrorText(outcome.stderr), "requires authentication")) ==>
      r == Err(Brew(ExecutionFailed(ErrorText(outcome.stderr))))
  {
    match outcome
    case LaunchFailed(description) => Err(Other(description))
    case Exited(status, stdout, stderr) =>
      if status != 0 then
        var message := ErrorText(stderr);
        if Contains(message, "requires authentication") then
          Err(Brew(RequiresAuthentication(Join(arguments, " "))))
        else
          Err(Brew(ExecutionFailed(message)))
      else
        match stdout
        case None => Err(Brew(InvalidOutput("Cannot decode command output")))
        case Some(text) => Ok(text)
  }

  /** The message of an execution failure never starts or ends with whitespace, and an
      undecodable stderr reads "Unknown error". */
  lemma ExecutionFailedMessage(arguments: seq<string>, outcome: ProcessOutcome, m: string)
    requires Execute(arguments, outcome) == Err(Brew(ExecutionFailed(m)))
    ensures && (m != [] ==> !IsWhiteSpace(m[0]) && !IsWhiteSpace(m[|m| - 1]))
      && (outcome.stderr.None? ==> m == "Unknown error")
  {
  }

  /** The command carried by `requiresAuthentication` gives back the argument vector when it is
      split at its spaces, provided no argument is empty or contains a space. */
  lemma AuthenticationCommandSplits(arguments: seq<string>)
    requires |arguments| >= 1
    requires forall k :: 0 <= k < |arguments| ==> arguments[k] != [] && NoneSatisfy(arguments[k], IsSpaceChar)
    ensures NonEmpty(Components(Join(arguments, " "), IsSpaceChar)) == arguments
  {
    ComponentsOfJoin(arguments, ' ', IsSpaceChar);
    NonEmptyKeeps(arguments);
  }

  /** Filtering out empty pieces keeps a list without empty pieces. */
  lemma {:induction false} NonEmptyKeeps(parts: seq<string>)
    requires forall k :: 0 <= k < |parts| ==> parts[k] != []
    ensures NonEmpty(parts) == parts
    decreases |parts|
  {
    if |parts| > 0 {
      NonEmptyKeeps(parts[1..]);
    }
  }

  // ---------------------------------------------------------------------------------------
  // Commands
  // ---------------------------------------------------------------------------------------

  /** The commands the manager sends to `brew`. */
  datatype Command =
    | ListServices
    | RunService(action: string, service: string)
    | StartAll
    | StopAll

  /** The argument vector of each command. */
  function Arguments(c: Command): (args: seq<string>)
    ensures 2 <= |args| <= 3 && args[0] == "services"
  {
    match c
    case ListServices => ["services", "list"]
    case RunService(action, service) => ["services", action, service]
    case StartAll => ["services", "start", "--all"]
    case StopAll => ["services", "stop", "--all"]
  }

  function Start(service: string): Command { RunService("start", service) }
  function Stop(service: string): Command { RunService("stop", service) }
  function Restart(service: string): Command { RunService("restart", service) }
  function Reload(service: string): Command { RunService("reload", service) }
  function Info(service: string): Command { RunService("info", service) }

  /** The argument vectors of the named actions. */
  lemma ActionArguments(service: string)
    ensures Arguments(Start(service)) == ["services", "start", service]
    ensures Arguments(Stop(service)) == ["services", "stop", service]
    ensures Arguments(Restart(service)) == ["services", "restart", service]
    ensures Arguments(Reload(service)) == ["services", "reload", service]
    ensures Arguments(Info(service)) == ["services", "info", service]
    ensures Arguments(StartAll) == ["services", "start", "--all"]
    ensures Arguments(StopAll) == ["services", "stop", "--all"]
  {
  }

  /** Reading an argument vector back as a command; `--all` as the service of `start` or `stop`
      reads as `startAll` or `stopAll`, which send the very same vectors. */
  function DecodeArguments(args: seq<string>): Option<Command>
  {
    if |args| == 2 && args[0] == "services" && args[1] == "list" then Some(ListServices)
    else if |args| == 3 && args[0] == "services" then
      if args[1] == "start" && args[2] == "--all" then Some(StartAll)
      else if args[1] == "stop" && args[2] == "--all" then Some(StopAll)
      else Some(RunService(args[1], args[2]))
    else None
  }

  /** The command a vector stands for, with `runService` on `--all` folded into the bulk forms. */
  function Canonical(c: Command): Command
  {
    match c
    case RunService("start", "--all") => StartAll
    case RunService("stop", "--all") => StopAll
    case _ => c
  }

  /** Every argument vector reads back as the command that produced it, up to `Canonical`. */
  lemma DecodeArgumentsRoundTrip(c: Command)
    ensures DecodeArguments(Arguments(c)) == Some(Canonical(c))
  {
  }

  /** Two commands send the same vector exactly when they agree up to `Canonical`; so the
      vectors of `runService` with different actions or services all differ, and `startAll`
      is indistinguishable from `runService("start", "--all")`. */
  lemma ArgumentsInjective(c: Command, d: Command)
    ensures Arguments(c) == Arguments(d) <==> Canonical(c) == Canonical(d)
  {
    DecodeArgumentsRoundTrip(c);
    DecodeArgumentsRoundTrip(d);
    if Canonical(c) == Canonical(d) {
      match c
      case ListServices =>
      case StartAll =>
      case StopAll =>
      case RunService(a, s) =>
    }
  }

  // ---------------------------------------------------------------------------------------
  // Parsing and the public operations
  // ---------------------------------------------------------------------------------------

  /** `parseBrewServicesList(output:)`: the non-empty `\n`-separated lines; nothing unless there
      are at least two and one of them is a header; then the records of the lines after the
      first header. */
  function ParseServicesList(output: string): seq<BrewService>
  {
    ParseTable(CoreLines(output))
  }

  /** The parser once the output is cut into lines. */
  function ParseTable(lines: seq<string>): seq<BrewService>
  {
    if |lines| <= 1 then []
    else
      match FirstHeader(lines)
      case None => []
      case Some(h) => ParseLines(lines[h + 1..])
  }

  /** `servicesList()`: runs `services list` and parses a successful output; every failure of
      the run is passed on unchanged. */
  function ServicesList(outcome: ProcessOutcome): (r: Result<seq<BrewService>, Failure>)
    ensures r.Ok? <==> Execute(Arguments(ListServices), outcome).Ok?
    ensures r.Ok? ==> r.value == ParseServicesList(outcome.stdout.value)
    ensures r.Err? ==> r.error == Execute(Arguments(ListServices), outcome).error
  {
    match Execute(Arguments(ListServices), outcome)
    case Ok(text) => Ok(ParseServicesList(text))
    case Err(e) => Err(e)
  }

  /** `runService(action:service:)`, `start(service:)` … `stopAll()`: the command's stdout. */
  function RunCommand(c: Command, outcome: ProcessOutcome): Result<string, Failure>
  {
    Execute(Arguments(c), outcome)
  }

  /** A failed action that needs authentication names the exact command line it sent. */
  lemma RunCommandAuthentication(action: string, service: string, outcome: ProcessOutcome)
    requires outcome.Exited? && outcome.status != 0
    requires Contains(ErrorText(outcome.stderr), "requires authentication")
    ensures RunCommand(RunService(action, service), outcome)
      == Err(Brew(RequiresAuthentication("services" + " " + (action + " " + service))))
  {
    var args := ["services", action, service];
    assert args[1..] == [action, service] && args[1..][1..] == [service];
    assert Join([service], " ") == service;
    assert Join([action, service], " ") == action + " " + service;
    assert Join(args, " ") == "services" + " " + (action + " " + service);
  }

  // ---------------------------------------------------------------------------------------
  // Properties of the parser
  // ---------------------------------------------------------------------------------------

  /** Fewer than two non-empty lines, or no header line, gives no records; the empty output
      is one such case. */
  lemma ParseEmptyCases(output: string)
    ensures |CoreLines(output)| < 2 ==> ParseServicesList(output) == []
    ensures FirstHeader(CoreLines(output)).None? ==> ParseServicesList(output) == []
    ensures ParseServicesList("") == []
  {
    assert CharacterLines("") == [""];
  }

  /** The records come only from lines strictly after the first header, one line each, in the
      order of those lines, with every parsable line among them used. */
  lemma ParseAfterFirstHeader(output: string) returns (h: nat, idx: seq<nat>)
    requires |CoreLines(output)| >= 2 && FirstHeader(CoreLines(output)).Some?
    ensures h == FirstHeader(CoreLines(output)).value
    ensures DrawnFrom(ParseServicesList(output), CoreLines(output), h + 1, idx)
    ensures |ParseServicesList(output)| <= |CoreLines(output)| - h - 1
  {
    h := FirstHeader(CoreLines(output)).value;
    idx := ParseLinesDrawn(CoreLines(output), h + 1);
  }

  /** A header line followed by data lines, none holding a line terminator: the records are
      exactly those of the data lines, and the header itself never becomes a record. */
  lemma ParseTableAfterHeader(header: string, rows: seq<string>)
    requires IsHeader(header) && NoneSatisfy(header, IsNewline)
    requires forall k :: 0 <= k < |rows| ==> NoneSatisfy(rows[k], IsNewline)
    ensures ParseServicesList(Join([header] + rows, "\n")) == ParseLines(rows)
  {
    CoreLinesAfterHeader(header, rows);
    TableAfterHeader(header, NonEmpty(rows));
    ParseLinesNonEmpty(rows);
  }

  lemma TableAfterHeader(header: string, rows: seq<string>)
    requires IsHeader(header)
    ensures ParseTable([header] + rows) == ParseLines(rows)
  {
    var lines := [header] + rows;
    if |lines| > 1 {
      assert FirstHeader(lines) == Some(0);
      assert lines[1..] == rows;
    } else {
      assert rows == [];
    }
  }

  lemma CoreLinesAfterHeader(header: string, rows: seq<string>)
    requires IsHeader(header) && NoneSatisfy(header, IsNewline)
    requires forall k :: 0 <= k < |rows| ==> NoneSatisfy(rows[k], IsNewline)
    ensures CoreLines(Join([header] + rows, "\n")) == [header] + NonEmpty(rows)
  {
    var parts := [header] + rows;
    LinesWithHeader(header, rows);
    CharacterLinesOfJoin(parts);
    HeaderNonEmpty(header);
    NonEmptyAppend([header], rows);
  }

  lemma LinesWithHeader(header: string, rows: seq<string>)
    requires NoneSatisfy(header, IsNewline)
    requires forall k :: 0 <= k < |rows| ==> NoneSatisfy(rows[k], IsNewline)
    ensures forall k :: 0 <= k < |[header] + rows| ==> NoneSatisfy(([header] + rows)[k], IsNewline)
  {
    assert forall k :: 1 <= k < |[header] + rows| ==> ([header] + rows)[k] == rows[k - 1];
  }

  lemma HeaderNonEmpty(header: string)
    requires IsHeader(header)
    ensures header != []
  {
    ContainsIffOccurs(Lower(header), "status");
  }

  /** The table of the unit test: a header, `mysql` with no tail and `nginx` with a user and a
      plist path. Two records come out; `nginx` has no pid, since the path is not a number. */
  lemma TestTable(header: string, mysql: string, nginx: string)
    requires header == "Name" + "    " + "Status" + "  User File"
    requires mysql == "mysql" + "   " + "none"
    requires nginx == "nginx" + "   " + ("started" + " " + ("dchichmarev" + " "
      + ("~/Library/" + "LaunchAgents/" + "homebrew.mxcl." + "nginx.plist")))
    ensures var r := ParseServicesList(header + "\n" + (mysql + "\n" + nginx));
      && |r| == 2
      && r[0] == BrewService("mysql", "none", "", None, false, None)
      && r[1] == BrewService("nginx", "started", "dchichmarev", None, true, None)
  {
    HeaderExample(header);
    var m := MysqlRow(mysql);
    var n := NginxRow(nginx);
    TableOfTwo(header, mysql, nginx, m, n);
  }

  /** A header and two data lines that each give one record. */
  lemma TableOfTwo(header: string, a: string, b: string, ra: BrewService, rb: BrewService)
    requires IsHeader(header) && NoneSatisfy(header, IsNewline)
    requires NoneSatisfy(a, IsNewline) && NoneSatisfy(b, IsNewline)
    requires ParseLines([a]) == [ra] && ParseLines([b]) == [rb]
    ensures ParseServicesList(header + "\n" + (a + "\n" + b)) == [ra, rb]
  {
    TwoPlainRows(a, b);
    ParseTableAfterHeader(header, [a, b]);
    TwoRows(header, a, b);
  }

  lemma TwoPlainRows(a: string, b: string)
    requires NoneSatisfy(a, IsNewline) && NoneSatisfy(b, IsNewline)
    ensures forall k :: 0 <= k < |[a, b]| ==> NoneSatisfy([a, b][k], IsNewline)
  {
  }

  lemma TwoRows(header: string, a: string, b: string)
    ensures Join([header] + [a, b], "\n") == header + "\n" + (a + "\n" + b)
    ensures ParseLines([a, b]) == ParseLines([a]) + ParseLines([b])
  {
    var parts := [header] + [a, b];
    assert parts[1..] == [a, b] && parts[1..][1..] == [b];
    assert Join([b], "\n") == b;
    assert Join([a, b], "\n") == a + "\n" + b;
    ParseLinesAppend([a], [b]);
    assert [a] + [b] == [a, b];
  }

  lemma MysqlRow(line: string) returns (r: BrewService)
    requires line == "mysql" + "   " + "none"
    ensures r == BrewService("mysql", "none", "", None, false, None)
    ensures NoneSatisfy(line, IsNewline) && ParseLines([line]) == [r]
  {
    assert IsField("mysql") && IsGap("   ") && IsField("none");
    ParseNameStatus("mysql", "   ", "none");
    ContainsIffOccurs(Lower("none"), "started");
    r := BrewService("mysql", "none", "", None, false, None);
    ParseLinesSingle(line);
  }

  lemma NginxRow(line: string) returns (r: BrewService)
    requires line == "nginx" + "   " + ("started" + " " + ("dchichmarev" + " "
      + ("~/Library/" + "LaunchAgents/" + "homebrew.mxcl." + "nginx.plist")))
    ensures r == BrewService("nginx", "started", "dchichmarev", None, true, None)
    ensures NoneSatisfy(line, IsNewline) && ParseLines([line]) == [r]
  {
    var path := "~/Library/" + "LaunchAgents/" + "homebrew.mxcl." + "nginx.plist";
    NginxFields();
    PathField(path);
    ParseFourFields("nginx", "   ", "started", "dchichmarev", path);
    r := BrewService("nginx", "started", "dchichmarev", None, true, None);
    ParseLinesSingle(line);
  }

  lemma NginxFields()
    ensures IsField("nginx") && IsGap("   ") && IsField("started") && IsField("dchichmarev")
    ensures Contains(Lower("started"), "started")
  {
    assert Lower("started") == "started";
    ContainsAt("started", "started", 0);
  }

  lemma PathField(path: string)
    requires path == ("~/Library/" + "LaunchAgents/" + "homebrew.mxcl." + "nginx.plist")
    ensures IsField(path) && SwiftInt.Parse(path) == None
  {
    PathPieces();
    FieldConcat("~/Library/", "LaunchAgents/");
    FieldConcat("~/Library/" + "LaunchAgents/", "homebrew.mxcl.");
    FieldConcat("~/Library/" + "LaunchAgents/" + "homebrew.mxcl.", "nginx.plist");
    NotANumber(path);
  }

  lemma PathPieces()
    ensures IsField("~/Library/") && IsField("LaunchAgents/")
    ensures IsField("homebrew.mxcl.") && IsField("nginx.plist")
  {
    VisibleIsField("~/Library/");
    VisibleIsField("LaunchAgents/");
    VisibleIsField("homebrew.mxcl.");
    VisibleIsField("nginx.plist");
  }

  /** A piece that starts with neither a digit nor a sign is not an `Int`. */
  lemma NotANumber(s: string)
    requires s != [] && s[0] == '~'
    ensures SwiftInt.Parse(s) == None
  {
  }

  lemma HeaderExample(header: string)
    requires header == "Name" + "    " + "Status" + "  User File"
    ensures IsHeader(header) && NoneSatisfy(header, IsNewline)
  {
    var a, b, c, d := "Name", "    ", "Status", "  User File";
    HeaderPieces();
    LowerConcat(a + b + c, d);
    LowerConcat(a + b, c);
    LowerConcat(a, b);
    HeaderContains(Lower(header), b, Lower(d));
    NoneSatisfyConcat(a, b, IsNewline);
    NoneSatisfyConcat(a + b, c, IsNewline);
    NoneSatisfyConcat(a + b + c, d, IsNewline);
  }

  lemma HeaderPieces()
    ensures Lower("Name") == "name" && Lower("    ") == "    " && Lower("Status") == "status"
    ensures NoneSatisfy("Name", IsNewline) && NoneSatisfy("    ", IsNewline)
    ensures NoneSatisfy("Status", IsNewline) && NoneSatisfy("  User File", IsNewline)
  {
  }

  lemma HeaderContains(lower: string, gap: string, rest: string)
    requires lower == "name" + gap + "status" + rest
    ensures Contains(lower, "name") && Contains(lower, "status")
  {
    assert lower == "" + "name" + (gap + "status" + rest);
    ContainsMiddle("", "name", gap + "status" + rest);
    ContainsMiddle("name" + gap, "status", rest);
  }
}
