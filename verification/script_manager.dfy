/** The older, synchronous `BrewServiceManager` kept next to the build scripts: the same search
    for `brew` without a cache, two error cases only, and a parser that cuts the output at every
    line terminator and parses every line when no header is found. */
module ScriptManager {
  import opened Basics
  import opened Text
  import opened Models
  import opened Listing
  import opened ServiceLine
  import CoreManager

  /** The two errors of this version. */
  datatype ScriptError = BrewNotFound | ExecutionFailed(message: string)

  /** A `ScriptError`, or the error `Process.run()` throws when `brew` cannot be started. */
  datatype ScriptFailure = Script(error: ScriptError) | Other(description: string)

  /** `brewPath()`: the same candidates in the same order as the cached version, re-probed on
      every call. It never returns `nil`. */
  function BrewPath(isExecutable: string -> bool): (path: Option<string>)
    ensures path.Some? && path.value in CoreManager.Candidates
    ensures path.value == "brew" || isExecutable(path.value)
  {
    Some(CoreManager.FirstExecutable(isExecutable))
  }

  /** Without a cache the version found follows the file system: when an earlier candidate
      becomes executable, the next call returns it. */
  lemma BrewPathFollowsFileSystem(isExecutable: string -> bool, j: nat)
    requires j < 4 && isExecutable(CoreManager.Candidates[j])
    ensures BrewPath(isExecutable).value != "brew"
    ensures BrewPath(isExecutable).value in CoreManager.Candidates[..j + 1]
  {
    var p := CoreManager.FirstExecutable(isExecutable);
    assert p != "brew";
    var i :| 0 <= i < 4 && CoreManager.Candidates[i] == p;
    assert i <= j;
    assert CoreManager.Candidates[..j + 1][i] == p;
  }

  // ---------------------------------------------------------------------------------------
  // The parser
  // ---------------------------------------------------------------------------------------

  /** What `parseBrewServicesList(output:)` returns: nothing when the output is a single line;
      otherwise the records of the lines after the first header, or of all lines when there is
      no header. */
  function ParsedListing(output: string): seq<BrewService>
  {
    var lines := NewlineComponents(output);
    if |lines| <= 1 then []
    else
      ParseLines(lines[StartIndex(lines)..])
  }

  /** Where the data lines start: after the first header, or at the first line. */
  function StartIndex(lines: seq<string>): (start: nat)
    ensures start <= |lines|
  {
    match FirstHeader(lines) case None => 0 case Some(h) => h + 1
  }

  /** The parser as written: a search loop for the header, then a loop over the remaining
      lines that appends each record. */
  method ParseServicesList(output: string) returns (results: seq<BrewService>)
    ensures results == ParsedListing(output)
  {
    var lines := NewlineComponents(output);
    if |lines| <= 1 {
      return [];
    }
    var startIndex := FindStart(lines);
    results := ParseFrom(lines, startIndex, ParseLine);
  }

  /** The header search loop: stops at the first header, or runs off the end. */
  method FindStart(lines: seq<string>) returns (startIndex: nat)
    ensures startIndex == StartIndex(lines)
  {
    startIndex := 0;
    var i := 0;
    while i < |lines|
      invariant 0 <= i <= |lines|
      invariant forall j :: 0 <= j < i ==> !IsHeader(lines[j])
    {
      if IsHeader(lines[i]) {
        return i + 1;
      }
      i := i + 1;
    }
  }

  /** The loop that appends what the line parser `parse` returns for each line from
      `startIndex` on (the parser passes `ParseLine`). */
  method ParseFrom(lines: seq<string>, startIndex: nat, parse: string -> Option<BrewService>)
    returns (results: seq<BrewService>)
    requires startIndex <= |lines|
    ensures results == Somes(Map(parse, lines[startIndex..]))
  {
    results := [];
    var k := startIndex;
    while k < |lines|
      invariant startIndex <= k <= |lines|
      invariant results == Somes(Map(parse, lines[startIndex..k]))
    {
      var row := parse(lines[k]);
      CompactMapStep(parse, lines, startIndex, k);
      if row.Some? {
        results := results + [row.value];
      }
      k := k + 1;
    }
    assert lines[startIndex..k] == lines[startIndex..];
  }

  /** Text with no line terminator is a single line and gives no records. */
  lemma SingleLineGivesNothing(output: string)
    requires NoneSatisfy(output, IsNewline)
    ensures ParsedListing(output) == []
    ensures CoreManager.ParseServicesList(output) == []
  {
    ComponentsNone(output, IsNewline);
    assert forall i :: 0 <= i < |output| ==> output[i] != '\n';
    CharacterLinesSingle(output);
  }

  /** With no header and more than one line, every line is parsed as a service, including the
      first. */
  lemma NoHeaderParsesEverything(output: string)
    requires |NewlineComponents(output)| > 1 && FirstHeader(NewlineComponents(output)).None?
    ensures ParsedListing(output) == ParseLines(NewlineComponents(output))
  {
    var lines := NewlineComponents(output);
    assert lines[0..] == lines;
  }

  // ---------------------------------------------------------------------------------------
  // The two parsers compared
  // ---------------------------------------------------------------------------------------

  /** When the output has a header and `\n` is its only line terminator, both parsers return
      the same records. */
  lemma ParsersAgreeWithHeader(output: string)
    requires forall i :: 0 <= i < |output| ==> (IsNewline(output[i]) ==> output[i] == '\n')
    requires FirstHeader(NewlineComponents(output)).Some?
    ensures CoreManager.ParseServicesList(output) == ParsedListing(output)
  {
    var lines := NewlineComponents(output);
    var h := FirstHeader(lines).value;
    CharacterLinesAreComponents(output);
    NonEmptyAroundHeader(lines, h);
    NoHeaderAmongNonEmpty(lines[..h]);
    TableAfterPrefix(NonEmpty(lines[..h]), lines[h], NonEmpty(lines[h + 1..]));
    ParseLinesNonEmpty(lines[h + 1..]);
  }

  /** Dropping empty lines keeps the header and splits around it. */
  lemma NonEmptyAroundHeader(lines: seq<string>, h: nat)
    requires h < |lines| && IsHeader(lines[h])
    ensures NonEmpty(lines) == NonEmpty(lines[..h]) + [lines[h]] + NonEmpty(lines[h + 1..])
  {
    CoreManager.HeaderNonEmpty(lines[h]);
    NonEmptyAround(lines, h);
  }

  /** The current parser on lines whose first header follows `before`: the records of the
      lines after it. */
  lemma TableAfterPrefix(before: seq<string>, header: string, after: seq<string>)
    requires forall j :: 0 <= j < |before| ==> !IsHeader(before[j])
    requires IsHeader(header)
    ensures CoreManager.ParseTable(before + [header] + after) == ParseLines(after)
  {
    var lines := before + [header] + after;
    FirstHeaderAfter(before, header, after);
    if |lines| > 1 {
      assert lines[|before| + 1..] == after;
    } else {
      assert after == [];
    }
  }

  lemma NoHeaderAmongNonEmpty(lines: seq<string>)
    requires forall j :: 0 <= j < |lines| ==> !IsHeader(lines[j])
    ensures forall j :: 0 <= j < |NonEmpty(lines)| ==> !IsHeader(NonEmpty(lines)[j])
  {
  }

  lemma FirstHeaderAfter(before: seq<string>, header: string, after: seq<string>)
    requires forall j :: 0 <= j < |before| ==> !IsHeader(before[j])
    requires IsHeader(header)
    ensures FirstHeader(before + [header] + after) == Some(|before|)
  {
    var lines := before + [header] + after;
    assert lines[|before|] == header;
    assert forall j :: 0 <= j < |before| ==> lines[j] == before[j];
  }

  /** Without a header the parsers disagree: two service lines separated by `\n` give nothing
      in the current parser and both records in the older one. */
  lemma ParsersDisagreeWithoutHeader(a: string, b: string)
    requires NoneSatisfy(a, IsNewline) && NoneSatisfy(b, IsNewline)
    requires !IsHeader(a) && !IsHeader(b)
    requires ParseLine(a).Some? && ParseLine(b).Some?
    ensures CoreManager.ParseServicesList(a + "\n" + b) == []
    ensures ParsedListing(a + "\n" + b) == [ParseLine(a).value, ParseLine(b).value]
  {
    TwoLines(a, b);
    NoHeaderInPair(a, b);
    CurrentIgnoresPair(a, b);
    PairRecords(a, b);
  }

  lemma CurrentIgnoresPair(a: string, b: string)
    requires !IsHeader(a) && !IsHeader(b)
    ensures CoreManager.ParseTable(NonEmpty([a, b])) == []
  {
    NoHeaderAmongNonEmpty([a, b]);
    assert FirstHeader(NonEmpty([a, b])).None?;
  }

  lemma NoHeaderInPair(a: string, b: string)
    requires !IsHeader(a) && !IsHeader(b)
    ensures FirstHeader([a, b]) == None && StartIndex([a, b]) == 0
  {
    assert [a, b][1..] == [b];
  }

  lemma PairRecords(a: string, b: string)
    requires ParseLine(a).Some? && ParseLine(b).Some?
    ensures ParseLines([a, b][0..]) == [ParseLine(a).value, ParseLine(b).value]
  {
    assert [a, b][0..] == [a] + [b];
    calc {
      ParseLines([a] + [b]);
      { ParseLinesAppend([a], [b]); }
      ParseLines([a]) + ParseLines([b]);
      { ParseLinesSingle(a); ParseLinesSingle(b); }
      [ParseLine(a).value] + [ParseLine(b).value];
    }
  }

  /** Two lines without terminators joined by `\n` are cut back into those two lines. */
  lemma TwoLines(a: string, b: string)
    requires NoneSatisfy(a, IsNewline) && NoneSatisfy(b, IsNewline)
    ensures NewlineComponents(a + "\n" + b) == [a, b]
    ensures CharacterLines(a + "\n" + b) == [a, b]
  {
    ComponentsStep(a, '\n', b, IsNewline);
    ComponentsNone(b, IsNewline);
    assert forall i :: 0 <= i < |a| ==> a[i] != '\n';
    assert forall i :: 0 <= i < |b| ==> b[i] != '\n';
    CharacterLinesStep(a, b);
    CharacterLinesSingle(b);
  }

  /** A header ended by `\r\n`: the current parser sees one `Character` `"\r\n"`, not `"\n"`,
      so the whole output is one line and gives nothing, while the older parser cuts at both
      terminators and parses the service line. */
  lemma ParsersDisagreeOnCarriageReturn(header: string, line: string)
    requires NoneSatisfy(header, IsNewline) && NoneSatisfy(line, IsNewline)
    requires IsHeader(header) && ParseLine(line).Some?
    ensures CoreManager.ParseServicesList(header + "\r\n" + line) == []
    ensures ParsedListing(header + "\r\n" + line) == [ParseLine(line).value]
  {
    CarriageReturnIsOneLine(header, line);
    CarriageReturnComponents(header, line);
    var empty: string := [];
    var lines := [header, empty, line];
    assert FirstHeader(lines) == Some(0);
    assert lines[1..] == [empty] + [line];
    ParseLinesAppend([empty], [line]);
    ParseLinesSingle(empty);
    ParseLinesSingle(line);
  }

  lemma CarriageReturnComponents(header: string, line: string)
    requires NoneSatisfy(header, IsNewline) && NoneSatisfy(line, IsNewline)
    ensures NewlineComponents(header + "\r\n" + line) == [header, [], line]
  {
    var s := header + "\r\n" + line;
    var empty: string := [];
    assert s == header + ['\r'] + (empty + ['\n'] + line);
    ComponentsStep(header, '\r', empty + ['\n'] + line, IsNewline);
    ComponentsStep(empty, '\n', line, IsNewline);
    ComponentsNone(line, IsNewline);
  }

  lemma CarriageReturnIsOneLine(header: string, line: string)
    requires NoneSatisfy(header, IsNewline) && NoneSatisfy(line, IsNewline)
    ensures CharacterLines(header + "\r\n" + line) == [header + "\r\n" + line]
  {
    var s := header + "\r\n" + line;
    assert s[|header|] == '\r' && s[|header| + 1] == '\n';
    assert forall k :: 0 <= k < |s| && k != |header| + 1 ==> s[k] != '\n';
    assert forall k :: 0 <= k < |s| ==> !IsLineBreak(s, k);
    assert NextLineBreak(s, 0) == |s|;
  }

  // ---------------------------------------------------------------------------------------
  // Running brew
  // ---------------------------------------------------------------------------------------

  /** `servicesList()` once the process has run: a non-zero exit fails with the stderr text
      ("error" when it is not valid UTF-8), otherwise stdout is parsed (an undecodable stdout
      reads as empty, which gives no records). */
  function ServicesList(outcome: CoreManager.ProcessOutcome): (r: Result<seq<BrewService>, ScriptFailure>)
    ensures outcome.LaunchFailed? <==> r.Err? && r.error.Other?
    ensures r.Err? && r.error.Script? ==>
      r.error.error == ExecutionFailed(outcome.stderr.OrElse("error")) && outcome.status != 0
    ensures r.Ok? <==> outcome.Exited? && outcome.status == 0
    ensures r.Ok? ==> r.value == ParsedListing(outcome.stdout.OrElse(""))
    ensures r.Ok? && outcome.stdout.None? ==> r.value == []
  {
    match outcome
    case LaunchFailed(description) => Err(Other(description))
    case Exited(status, stdout, stderr) =>
      if status != 0 then Err(Script(ExecutionFailed(stderr.OrElse("error"))))
      else
        var text := stdout.OrElse("");
        assert text == [] ==> NewlineComponents(text) == [[]];
        Ok(ParsedListing(text))
  }

  /** `runService(action:service:)` once the process has run: a non-zero exit fails with the
      stderr text, or with the stdout text when stderr is not valid UTF-8; a zero exit returns
      stdout, empty when it is not valid UTF-8. It never reports an authentication failure. */
  function RunService(action: string, service: string, outcome: CoreManager.ProcessOutcome): (r: Result<string, ScriptFailure>)
    ensures outcome.LaunchFailed? <==> r.Err? && r.error.Other?
    ensures r.Ok? <==> outcome.Exited? && outcome.status == 0
    ensures r.Ok? ==> r.value == outcome.stdout.OrElse("")
    ensures r.Err? && r.error.Script? ==>
      r.error.error == ExecutionFailed(outcome.stderr.OrElse(outcome.stdout.OrElse("")))
  {
    match outcome
    case LaunchFailed(description) => Err(Other(description))
    case Exited(status, stdout, stderr) =>
      var outText := stdout.OrElse("");
      if status != 0 then Err(Script(ExecutionFailed(stderr.OrElse(outText))))
      else Ok(outText)
  }

  /** Where both versions succeed on a run they return the same stdout, and where the current
      one reports an execution failure with decodable stderr the older one reports the same
      stderr untrimmed. */
  lemma RunServiceAgainstCurrent(action: string, service: string, outcome: CoreManager.ProcessOutcome)
    ensures var now := CoreManager.RunCommand(CoreManager.RunService(action, service), outcome);
      var earlier := RunService(action, service, outcome);
      && (now.Ok? ==> earlier == Ok(now.value))
      && (now.Err? && now.error.Brew? && now.error.error.ExecutionFailed? && outcome.stderr.Some? ==>
            earlier == Err(Script(ExecutionFailed(outcome.stderr.value)))
            && now.error.error.message == Trim(outcome.stderr.value, IsWhiteSpace))
  {
  }
}
