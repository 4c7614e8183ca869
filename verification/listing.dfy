/** What both versions of the `brew services list` parser share: the header test, the search
    for the first header line, the `compactMap` over data lines, and the two ways of cutting
    the output into lines. */
module Listing {
  import opened Basics
  import opened Text
  import opened Models
  import opened ServiceLine

  /** A header line mentions both "status" and "name", in any case. */
  predicate IsHeader(line: string)
  {
    Contains(Lower(line), "status") && Contains(Lower(line), "name")
  }

  /** `firstIndex(where: IsHeader)`. */
  function FirstHeader(lines: seq<string>): (r: Option<nat>)
    ensures r.Some? ==> r.value < |lines| && IsHeader(lines[r.value])
    ensures r.Some? ==> forall j :: 0 <= j < r.value ==> !IsHeader(lines[j])
    ensures r.None? <==> forall j :: 0 <= j < |lines| ==> !IsHeader(lines[j])
  {
    if |lines| == 0 then None
    else if IsHeader(lines[0]) then Some(0)
    else match FirstHeader(lines[1..])
      case None => None
      case Some(h) => Some(h + 1)
  }

  /** The values of the `Some`s, in order: what `compactMap` keeps of its closure's results. */
  function Somes<T>(xs: seq<Option<T>>): (r: seq<T>)
    ensures |r| <= |xs|
  {
    if |xs| == 0 then []
    else
      match xs[0]
      case None => Somes(xs[1..])
      case Some(v) => [v] + Somes(xs[1..])
  }

  lemma {:induction false} SomesAppend<T>(a: seq<Option<T>>, b: seq<Option<T>>)
    ensures Somes(a + b) == Somes(a) + Somes(b)
    decreases |a|
  {
    if |a| == 0 {
      assert a + b == b;
    } else {
      assert (a + b)[0] == a[0] && (a + b)[1..] == a[1..] + b;
      SomesAppend(a[1..], b);
    }
  }

  lemma SomesSnoc<T>(xs: seq<Option<T>>, x: Option<T>)
    ensures Somes(xs + [x]) == Somes(xs) + (if x.Some? then [x.value] else [])
  {
    SomesAppend(xs, [x]);
    assert [x][1..] == [];
  }

  /** `r` is exactly what `xs[from..]` keeps, position by position: `idx[k]` is the position
      that produced `r[k]`, the positions increase, and every other position from `from` on
      holds `None`. */
  ghost predicate KeptFrom<T>(r: seq<T>, xs: seq<Option<T>>, from: nat, idx: seq<nat>)
  {
    && |idx| == |r|
    && (forall k :: 0 <= k < |idx| ==> from <= idx[k] < |xs| && xs[idx[k]] == Some(r[k]))
    && (forall k :: 0 < k < |idx| ==> idx[k - 1] < idx[k])
    && (forall j :: from <= j < |xs| && j !in idx ==> xs[j].None?)
  }

  lemma {:induction false} SomesKept<T>(xs: seq<Option<T>>, from: nat) returns (idx: seq<nat>)
    requires from <= |xs|
    ensures KeptFrom(Somes(xs[from..]), xs, from, idx)
    decreases |xs| - from
  {
    if from == |xs| {
      idx := [];
    } else {
      var rest := SomesKept(xs, from + 1);
      var tail := Somes(xs[from + 1..]);
      assert xs[from..][0] == xs[from] && xs[from..][1..] == xs[from + 1..];
      match xs[from]
      case None =>
        assert Somes(xs[from..]) == tail;
        idx := rest;
      case Some(v) =>
        assert Somes(xs[from..]) == [v] + tail;
        idx := [from] + rest;
        assert forall k :: 0 < k < |idx| ==> idx[k] == rest[k - 1];
    }
  }

  /** `f` applied to every element, in order. */
  function Map<T, U>(f: T -> U, xs: seq<T>): (r: seq<U>)
    ensures |r| == |xs|
  {
    if |xs| == 0 then [] else [f(xs[0])] + Map(f, xs[1..])
  }

  lemma {:induction false} MapIndex<T, U>(f: T -> U, xs: seq<T>)
    ensures forall i :: 0 <= i < |xs| ==> Map(f, xs)[i] == f(xs[i])
    decreases |xs|
  {
    if |xs| > 0 {
      MapIndex(f, xs[1..]);
      assert forall i :: 1 <= i < |xs| ==> xs[1..][i - 1] == xs[i];
    }
  }

  lemma {:induction false} MapAppend<T, U>(f: T -> U, a: seq<T>, b: seq<T>)
    ensures Map(f, a + b) == Map(f, a) + Map(f, b)
    decreases |a|
  {
    if |a| == 0 {
      assert a + b == b;
    } else {
      assert (a + b)[0] == a[0] && (a + b)[1..] == a[1..] + b;
      MapAppend(f, a[1..], b);
    }
  }

  lemma MapSlice<T, U>(f: T -> U, xs: seq<T>, from: nat)
    requires from <= |xs|
    ensures Map(f, xs[from..]) == Map(f, xs)[from..]
  {
    assert xs == xs[..from] + xs[from..];
    MapAppend(f, xs[..from], xs[from..]);
  }

  lemma MapSingle<T, U>(f: T -> U, x: T)
    ensures Map(f, [x]) == [f(x)]
  {
    assert [x][1..] == [];
  }

  /** What `compactMap(f)` returns on `xs[from..k + 1]`: what it returned on `xs[from..k]`,
      then the value of `f(xs[k])` when there is one. */
  lemma CompactMapStep<T, U>(f: T -> Option<U>, xs: seq<T>, from: nat, k: nat)
    requires from <= k < |xs|
    ensures Somes(Map(f, xs[from..k + 1]))
      == Somes(Map(f, xs[from..k])) + (if f(xs[k]).Some? then [f(xs[k]).value] else [])
  {
    assert xs[from..k + 1] == xs[from..k] + [xs[k]];
    MapAppend(f, xs[from..k], [xs[k]]);
    MapSingle(f, xs[k]);
    SomesSnoc(Map(f, xs[from..k]), f(xs[k]));
  }

  /** `compactMap(ParseLine)`: the records of the lines that parse, in line order. */
  function ParseLines(lines: seq<string>): (r: seq<BrewService>)
    ensures |r| <= |lines|
  {
    Somes(Map(ParseLine, lines))
  }

  /** `r` is exactly what `lines[from..]` yields, position by position: `idx[k]` is the line
      that produced `r[k]`, the positions increase, and every other line from `from` on is one
      that `ParseLine` drops. */
  ghost predicate DrawnFrom(r: seq<BrewService>, lines: seq<string>, from: nat, idx: seq<nat>)
  {
    && |idx| == |r|
    && (forall k :: 0 <= k < |idx| ==> from <= idx[k] < |lines| && ParseLine(lines[idx[k]]) == Some(r[k]))
    && (forall k :: 0 < k < |idx| ==> idx[k - 1] < idx[k])
    && (forall j :: from <= j < |lines| && j !in idx ==> ParseLine(lines[j]).None?)
  }

  /** The records of `ParseLines(lines[from..])` come from the lines at or after `from`, one
      line each, in the order of those lines, and no parsable line is skipped. */
  lemma ParseLinesDrawn(lines: seq<string>, from: nat) returns (idx: seq<nat>)
    requires from <= |lines|
    ensures DrawnFrom(ParseLines(lines[from..]), lines, from, idx)
  {
    MapSlice(ParseLine, lines, from);
    MapIndex(ParseLine, lines);
    idx := SomesKept(Map(ParseLine, lines), from);
  }

  /** Every record keeps the invariants `ParseLine` promises: a non-empty name and status,
      `autostart` derived from the status, and no version. */
  lemma ParseLinesRecords(lines: seq<string>)
    ensures var r := ParseLines(lines);
      && (forall k :: 0 <= k < |r| ==> r[k].name != [] && r[k].status != [])
      && (forall k :: 0 <= k < |r| ==> r[k].autostart == Contains(Lower(r[k].status), "started"))
      && (forall k :: 0 <= k < |r| ==> r[k].version == None)
  {
    var idx := ParseLinesDrawn(lines, 0);
    assert lines[0..] == lines;
  }

  /** Splitting the input and parsing commute: `compactMap` is applied line by line. */
  lemma ParseLinesAppend(a: seq<string>, b: seq<string>)
    ensures ParseLines(a + b) == ParseLines(a) + ParseLines(b)
  {
    MapAppend(ParseLine, a, b);
    SomesAppend(Map(ParseLine, a), Map(ParseLine, b));
  }

  /** A single line gives its record, or nothing. */
  lemma ParseLinesSingle(line: string)
    ensures var row := ParseLine(line);
      ParseLines([line]) == if row.Some? then [row.value] else []
  {
    var empty: seq<Option<BrewService>> := [];
    MapSingle(ParseLine, line);
    assert Map(ParseLine, [line]) == empty + [ParseLine(line)];
    SomesSnoc(empty, ParseLine(line));
  }

  /** Empty lines produce no record, so dropping them changes nothing. */
  lemma {:induction false} ParseLinesNonEmpty(lines: seq<string>)
    ensures ParseLines(NonEmpty(lines)) == ParseLines(lines)
    decreases |lines|
  {
    if |lines| > 0 {
      var first, rest := lines[0], lines[1..];
      assert lines == [first] + rest;
      calc {
        ParseLines(NonEmpty(lines));
        { NonEmptyAppend([first], rest); }
        ParseLines(NonEmpty([first]) + NonEmpty(rest));
        { ParseLinesAppend(NonEmpty([first]), NonEmpty(rest)); }
        ParseLines(NonEmpty([first])) + ParseLines(NonEmpty(rest));
        { ParseLinesNonEmpty(rest); ParseLinesNonEmptySingle(first); }
        ParseLines([first]) + ParseLines(rest);
        { ParseLinesAppend([first], rest); }
        ParseLines(lines);
      }
    }
  }

  /** The same for a single line. */
  lemma ParseLinesNonEmptySingle(line: string)
    ensures ParseLines(NonEmpty([line])) == ParseLines([line])
  {
    NonEmptySingle(line);
    if line == [] {
      ParseLinesSingle(line);
      assert ParseLines([]) == [];
    }
  }

  // ---------------------------------------------------------------------------------------
  // Cutting the output into lines
  // ---------------------------------------------------------------------------------------

  /** A `\n` that is a Swift `Character` of its own: one that directly follows `\r` is part of
      the single `Character` `"\r\n"` and does not equal `"\n"`. */
  predicate IsLineBreak(s: string, i: nat)
    requires i < |s|
  {
    s[i] == '\n' && (i == 0 || s[i - 1] != '\r')
  }

  function NextLineBreak(s: string, i: nat): (j: nat)
    requires i <= |s|
    ensures i <= j <= |s|
    ensures forall k :: i <= k < j ==> !IsLineBreak(s, k)
    ensures j < |s| ==> IsLineBreak(s, j)
    decreases |s| - i
  {
    if i < |s| && !IsLineBreak(s, i) then NextLineBreak(s, i + 1) else i
  }

  /** `split(separator: "\n", omittingEmptySubsequences: false)` over Swift `Character`s. After
      a break the next character follows a `\n`, never a `\r`, so the cut remainder is
      scanned with the same rule. */
  function CharacterLines(s: string): (lines: seq<string>)
    ensures |lines| >= 1
    decreases |s|
  {
    var j := NextLineBreak(s, 0);
    if j == |s| then [s] else [s[..j]] + CharacterLines(s[j + 1..])
  }

  /** The lines of the current parser: `split(separator: "\n")`, empty lines omitted. */
  function CoreLines(s: string): seq<string>
  {
    NonEmpty(CharacterLines(s))
  }

  /** The lines of the older parser: `components(separatedBy: .newlines)`, empty lines kept. */
  function NewlineComponents(s: string): seq<string>
  {
    Components(s, IsNewline)
  }

  /** On text whose only line terminator is `\n`, both ways of cutting agree before empty lines
      are dropped. */
  lemma {:induction false} CharacterLinesAreComponents(s: string)
    requires forall i :: 0 <= i < |s| ==> (IsNewline(s[i]) ==> s[i] == '\n')
    ensures CharacterLines(s) == NewlineComponents(s)
    decreases |s|
  {
    var j := NextLineBreak(s, 0);
    var f := FindFirst(s, 0, IsNewline);
    if f < j {
      assert IsLineBreak(s, f);
    }
    assert j == f;
    if j < |s| {
      CharacterLinesAreComponents(s[j + 1..]);
    }
  }

  /** A line and a separating `\n` (not after `\r`), then the rest. */
  lemma CharacterLinesStep(line: string, rest: string)
    requires forall i :: 0 <= i < |line| ==> line[i] != '\n'
    requires line != [] ==> line[|line| - 1] != '\r'
    ensures CharacterLines(line + "\n" + rest) == [line] + CharacterLines(rest)
  {
    var s := line + "\n" + rest;
    assert s[|line|] == '\n';
    assert forall k :: 0 <= k < |line| ==> s[k] == line[k];
    assert IsLineBreak(s, |line|);
    assert forall k :: 0 <= k < |line| ==> !IsLineBreak(s, k);
    assert NextLineBreak(s, 0) == |line|;
    assert s[..|line|] == line && s[|line| + 1..] == rest;
  }

  /** Text without `\n` is one line. */
  lemma CharacterLinesSingle(line: string)
    requires forall i :: 0 <= i < |line| ==> line[i] != '\n'
    ensures CharacterLines(line) == [line]
  {
  }

  /** A line without line terminators, a `\n`, then the rest. */
  lemma PlainLineStep(line: string, rest: string)
    requires NoneSatisfy(line, IsNewline)
    ensures CharacterLines(line + "\n" + rest) == [line] + CharacterLines(rest)
  {
    assert forall i :: 0 <= i < |line| ==> !IsNewline(line[i]);
    CharacterLinesStep(line, rest);
  }

  /** Lines without line terminators, joined with `\n`, are cut back into the same lines. */
  lemma {:induction false} CharacterLinesOfJoin(parts: seq<string>)
    requires |parts| >= 1
    requires forall k :: 0 <= k < |parts| ==> NoneSatisfy(parts[k], IsNewline)
    ensures CharacterLines(Join(parts, "\n")) == parts
    decreases |parts|
  {
    if |parts| == 1 {
      CharacterLinesSingle(parts[0]);
    } else {
      var rest := parts[1..];
      assert forall k :: 0 <= k < |rest| ==> rest[k] == parts[k + 1];
      CharacterLinesOfJoin(rest);
      assert parts == [parts[0]] + rest;
      JoinCons(parts[0], rest, "\n");
      PlainLineStep(parts[0], Join(rest, "\n"));
    }
  }
}
