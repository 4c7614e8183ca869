/** One data line of the `brew services list` table turned into a `BrewService`: the body of the
    `compactMap` closure in the parser (identical in both versions of the parser). */
module ServiceLine {
  import opened Basics
  import opened Text
  import SwiftInt
  import opened Models

  /** The capture groups of `^(\S+)\s+(\S+)(?:\s+(.*))?$`; `tail` is `None` when the optional
      third group took no part in the match (`NSNotFound`). */
  datatype Captures = Captures(name: string, status: string, tail: Option<string>)

  /** Where ICU's `$` matches without the multi-line option: at the end of the input, or just
      before a line terminator (a single one, or `\r\n`) that ends the input. */
  predicate AtInputEnd(t: string, p: nat)
    requires p <= |t|
  {
    || p == |t|
    || (p + 1 == |t| && IsNewline(t[p]))
    || (p + 2 == |t| && t[p] == '\r' && t[p + 1] == '\n')
  }

  /** The first match of `^(\S+)\s+(\S+)(?:\s+(.*))?$` in `t`, evaluated greedily as the
      regular expression engine does. Group 1 is the whole leading run of `\S` (it must be
      followed by `\s`), group 2 likewise; the optional group takes all the whitespace after
      the status and then `.*` runs to the first line terminator. When `$` fails there, no
      shorter choice can succeed: a shorter `\s+` or `.*` ends before a character that is
      neither the end of the input nor a final terminator, and skipping the group leaves `$`
      before whitespace that the greedy attempt would already have consumed. */
  function Match(t: string): (r: Option<Captures>)
    ensures r.Some? ==> r.value.name != [] && NoneSatisfy(r.value.name, IsWhiteSpace)
    ensures r.Some? ==> r.value.status != [] && NoneSatisfy(r.value.status, IsWhiteSpace)
    ensures r.Some? ==> StartsWith(t, r.value.name)
    ensures r.Some? && r.value.tail.Some? ==> NoneSatisfy(r.value.tail.value, IsNewline)
  {
    var n := SkipWhile(t, 0, IsTokenChar);
    var g := SkipWhile(t, n, IsWhiteSpace);
    var k := SkipWhile(t, g, IsTokenChar);
    if n == 0 || g == n || k == g then None
    else if k == |t| then Some(Captures(t[..n], t[g..k], None))
    else
      var m := SkipWhile(t, k, IsWhiteSpace);
      var p := SkipWhile(t, m, IsLineChar);
      if AtInputEnd(t, p) then Some(Captures(t[..n], t[g..k], Some(t[m..p]))) else None
  }

  /** `user` and `pid` from the third group: the tail is split on `' '` only, the first piece is
      the user, and the second piece is the pid when `Int(_:)` accepts it. */
  function TailFields(tail: Option<string>): (r: (string, Option<int>))
    ensures NoneSatisfy(r.0, IsSpaceChar)
    ensures r.1.Some? ==> SwiftInt.InRange(r.1.value) && r.0 != []
    ensures tail.None? ==> r == ("", None)
  {
    match tail
    case None => ("", None)
    case Some(rest) =>
      var parts := NonEmpty(Components(rest, IsSpaceChar));
      if |parts| == 0 then ("", None)
      else (parts[0], if |parts| > 1 then SwiftInt.Parse(parts[1]) else None)
  }

  /** One line of the table: trimmed of blanks, dropped when empty or when the pattern does not
      match, otherwise a record whose `autostart` is derived from the status and whose `version`
      is left unset. */
  function ParseLine(line: string): (r: Option<BrewService>)
    ensures r.Some? ==> r.value.name != [] && NoneSatisfy(r.value.name, IsWhiteSpace)
    ensures r.Some? ==> r.value.status != [] && NoneSatisfy(r.value.status, IsWhiteSpace)
    ensures r.Some? ==> r.value.autostart == Contains(Lower(r.value.status), "started")
    ensures r.Some? ==> r.value.version == None
    ensures r.Some? ==> NoneSatisfy(r.value.user, IsSpaceChar)
    ensures r.Some? && r.value.pid.Some? ==> SwiftInt.InRange(r.value.pid.value) && r.value.user != []
    ensures AllSatisfy(line, IsWhiteSpace) ==> r.None?
  {
    var t := Trim(line, IsBlank);
    if t == [] then None
    else
      match Match(t)
      case None => None
      case Some(c) =>
        var (user, pid) := TailFields(c.tail);
        Some(BrewService(c.name, c.status, user, pid, Contains(Lower(c.status), "started"), None))
  }

  // ---------------------------------------------------------------------------------------
  // The match against a whitespace tokenizer
  // ---------------------------------------------------------------------------------------

  /** The words of an all-whitespace string: none. */
  lemma WordsOfSpace(ws: string)
    requires AllSatisfy(ws, IsWhiteSpace)
    ensures Words(ws) == []
  {
    WordsSkipSpace(ws, []);
    assert ws + [] == ws;
    assert Components([], IsWhiteSpace) == [[]];
  }

  /** Trailing whitespace contributes no word. */
  lemma {:induction false} WordsDropTrailing(t: string, ws: string)
    requires AllSatisfy(ws, IsWhiteSpace)
    ensures Words(t + ws) == Words(t)
    decreases |t|
  {
    var j := FindFirst(t, 0, IsWhiteSpace);
    if j == |t| {
      WordThenSpace(t, ws);
    } else {
      var front, rest := t[..j], t[j + 1..];
      assert t == front + [t[j]] + rest;
      assert t + ws == front + [t[j]] + (rest + ws);
      WordsStep(front, t[j], rest + ws);
      WordsStep(front, t[j], rest);
      WordsDropTrailing(rest, ws);
    }
  }

  lemma WordThenSpace(t: string, ws: string)
    requires NoneSatisfy(t, IsWhiteSpace) && AllSatisfy(ws, IsWhiteSpace)
    ensures Words(t + ws) == Words(t)
  {
    ComponentsNone(t, IsWhiteSpace);
    if ws == [] {
      assert t + ws == t;
    } else {
      assert t + ws == t + [ws[0]] + ws[1..];
      WordsStep(t, ws[0], ws[1..]);
      WordsOfSpace(ws[1..]);
    }
  }

  /** Two words separated by whitespace, then whatever follows the second word. */
  lemma TwoWordsThenRest(t: string, n: nat, g: nat, k: nat)
    requires 0 < n < g < k <= |t|
    requires NoneSatisfy(t[..n], IsWhiteSpace) && AllSatisfy(t[n..g], IsWhiteSpace)
    requires NoneSatisfy(t[g..k], IsWhiteSpace)
    requires k < |t| ==> IsWhiteSpace(t[k])
    ensures Words(t) == [t[..n], t[g..k]] + Words(t[k..])
  {
    FirstWordThenSpace(t, n, g);
    var u := t[g..];
    assert u[..k - g] == t[g..k] && u[k - g..] == t[k..];
    assert k < |t| ==> u[k - g] == t[k];
    LeadingWord(u, k - g);
    SeqConsTwo(t[..n], t[g..k], Words(t[k..]));
  }

  /** A first word, then whitespace up to position `g`. */
  lemma FirstWordThenSpace(t: string, n: nat, g: nat)
    requires 0 < n < g <= |t|
    requires NoneSatisfy(t[..n], IsWhiteSpace) && AllSatisfy(t[n..g], IsWhiteSpace)
    ensures Words(t) == [t[..n]] + Words(t[g..])
  {
    assert t[n] == t[n..g][0];
    LeadingWord(t, n);
    assert t[n..] == t[n..g] + t[g..];
    WordsSkipSpace(t[n..g], t[g..]);
  }

  lemma SeqConsTwo(a: string, b: string, rest: seq<string>)
    ensures [a] + ([b] + rest) == [a, b] + rest
  {
  }

  /** A word at the front of `u`, ended by whitespace or by the end of `u`. */
  lemma LeadingWord(u: string, k: nat)
    requires 0 < k <= |u|
    requires NoneSatisfy(u[..k], IsWhiteSpace)
    requires k < |u| ==> IsWhiteSpace(u[k])
    ensures Words(u) == [u[..k]] + Words(u[k..])
  {
    if k == |u| {
      assert u[..k] == u;
      WordsSingle(u);
      WordsOfSpace(u[k..]);
    } else {
      assert u == u[..k] + [u[k]] + u[k + 1..];
      WordsCons(u[..k], [u[k]], u[k + 1..]);
      assert u[k..] == [u[k]] + u[k + 1..];
      WordsSkipSpace([u[k]], u[k + 1..]);
    }
  }

  /** The words after the status are the words of the tail: the whitespace before the tail and
      the line terminator after it add none. */
  lemma TailWords(t: string, k: nat, m: nat, p: nat)
    requires k <= m <= p <= |t|
    requires AllSatisfy(t[k..m], IsWhiteSpace) && AtInputEnd(t, p)
    ensures Words(t[k..]) == Words(t[m..p])
  {
    AfterInputEnd(t, p);
    var a, b, c := t[k..m], t[m..p], t[p..];
    assert t[k..] == a + (b + c);
    WordsSkipSpace(a, b + c);
    WordsDropTrailing(b, c);
  }

  /** What follows the position where `$` matched is whitespace. */
  lemma AfterInputEnd(t: string, p: nat)
    requires p <= |t| && AtInputEnd(t, p)
    ensures AllSatisfy(t[p..], IsWhiteSpace)
  {
  }

  /** Whatever `Match` accepts, its name and status are the first two words of the line, and the
      words of its tail are all the remaining words. */
  lemma MatchIsWords(t: string)
    requires Match(t).Some?
    ensures var c := Match(t).value;
      Words(t) == [c.name, c.status] + (if c.tail.Some? then Words(c.tail.value) else [])
  {
    var n := SkipWhile(t, 0, IsTokenChar);
    var g := SkipWhile(t, n, IsWhiteSpace);
    var k := SkipWhile(t, g, IsTokenChar);
    TwoWordsThenRest(t, n, g, k);
    if k == |t| {
      WordsOfSpace(t[k..]);
    } else {
      var m := SkipWhile(t, k, IsWhiteSpace);
      var p := SkipWhile(t, m, IsLineChar);
      TailWords(t, k, m, p);
    }
  }

  /** On a line free of line terminators that does not start with whitespace, the pattern
      matches exactly when there are at least two words. */
  lemma MatchIffTwoWords(t: string)
    requires NoneSatisfy(t, IsNewline)
    requires t != [] ==> !IsWhiteSpace(t[0])
    ensures Match(t).Some? <==> |Words(t)| >= 2
  {
    var n := SkipWhile(t, 0, IsTokenChar);
    var g := SkipWhile(t, n, IsWhiteSpace);
    var k := SkipWhile(t, g, IsTokenChar);
    if Match(t).Some? {
      MatchIsWords(t);
    } else if n == 0 {
      assert t == [];
      WordsOfSpace(t);
    } else if g == n {
      assert t[..n] == t;
      WordsSingle(t);
    } else if k == g {
      assert t == t[..n] + t[n..] + [];
      WordsCons(t[..n], t[n..], []);
      WordsOfSpace([]);
    } else {
      var m := SkipWhile(t, k, IsWhiteSpace);
      var p := SkipWhile(t, m, IsLineChar);
      assert p == |t|;
    }
  }

  // ---------------------------------------------------------------------------------------
  // Records against the words of the line
  // ---------------------------------------------------------------------------------------

  /** Blank trimming removes no word. */
  lemma WordsOfTrimmed(line: string)
    ensures Words(Trim(line, IsBlank)) == Words(line)
  {
    var i := SkipWhile(line, 0, IsBlank);
    var t := Trim(line, IsBlank);
    var after := line[i + |t|..];
    assert line == line[..i] + (t + after);
    WordsSkipSpace(line[..i], t + after);
    WordsDropTrailing(t, after);
  }

  /** The first piece of a split that does not start at a separator is not empty. */
  lemma FirstPieceNonEmpty(x: string, isSep: char -> bool)
    requires x != [] && !isSep(x[0])
    ensures var parts := NonEmpty(Components(x, isSep));
      |parts| > 0 && parts[0] == Components(x, isSep)[0]
  {
  }

  /** For a line without line terminators, a record is produced exactly when the line has at
      least two words; its name and status are the first two words, and its user is empty
      exactly when there is no third word, in which case there is no pid either. */
  lemma ParseLineIsWords(line: string)
    requires NoneSatisfy(line, IsNewline)
    ensures var w := Words(line);
      var r := ParseLine(line);
      && (r.Some? <==> |w| >= 2)
      && (r.Some? ==> r.value.name == w[0] && r.value.status == w[1])
      && (r.Some? ==> (r.value.user == [] <==> |w| == 2))
      && (r.Some? && |w| == 2 ==> r.value.pid == None)
  {
    var t := Trim(line, IsBlank);
    TrimKeepsOthers(line, IsBlank, IsNewline);
    WordsOfTrimmed(line);
    TrimmedMatch(t);
  }

  /** The same, stated of the trimmed line and the match. */
  lemma TrimmedMatch(t: string)
    requires NoneSatisfy(t, IsNewline)
    requires t != [] ==> !IsWhiteSpace(t[0])
    ensures var w := Words(t);
      && (Match(t).Some? <==> |w| >= 2)
      && (Match(t).Some? ==>
            var c := Match(t).value;
            && c.name == w[0] && c.status == w[1]
            && (TailFields(c.tail).0 == [] <==> |w| == 2)
            && (|w| == 2 ==> TailFields(c.tail).1 == None))
  {
    MatchIffTwoWords(t);
    if Match(t).Some? {
      MatchIsWords(t);
      MatchTailStarts(t);
      TailUser(Match(t).value.tail);
    }
  }

  /** A non-empty third group starts with a non-whitespace character: `\s+` took all of the
      whitespace before it. */
  lemma MatchTailStarts(t: string)
    ensures Match(t).Some? && Match(t).value.tail.Some? && Match(t).value.tail.value != [] ==>
      !IsWhiteSpace(Match(t).value.tail.value[0])
  {
    var n := SkipWhile(t, 0, IsTokenChar);
    var g := SkipWhile(t, n, IsWhiteSpace);
    var k := SkipWhile(t, g, IsTokenChar);
    if n != 0 && g != n && k != g && k < |t| {
      var m := SkipWhile(t, k, IsWhiteSpace);
      var p := SkipWhile(t, m, IsLineChar);
      if m < p {
        assert t[m..p][0] == t[m];
      }
    }
  }

  /** The user is empty exactly when the tail is missing or holds no word, and then there is no
      pid. */
  lemma TailUser(tail: Option<string>)
    requires tail.Some? && tail.value != [] ==> !IsWhiteSpace(tail.value[0])
    ensures TailFields(tail).0 == [] <==> tail.None? || Words(tail.value) == []
    ensures TailFields(tail).0 == [] ==> TailFields(tail).1 == None
  {
    if tail.Some? {
      var x := tail.value;
      if x == [] {
        assert Components(x, IsSpaceChar) == [[]];
        assert Components(x, IsWhiteSpace) == [[]];
      } else {
        FirstPieceNonEmpty(x, IsSpaceChar);
        FirstPieceNonEmpty(x, IsWhiteSpace);
      }
    }
  }

  /** Whitespace in `s` is only ever the space character. */
  predicate SpaceSeparated(s: string)
  {
    forall i :: 0 <= i < |s| ==> (IsWhiteSpace(s[i]) ==> s[i] == ' ')
  }

  /** Line-terminator-free, space-separated text stays so under concatenation. */
  lemma PlainConcat(a: string, b: string)
    requires NoneSatisfy(a, IsNewline) && SpaceSeparated(a)
    requires NoneSatisfy(b, IsNewline) && SpaceSeparated(b)
    ensures NoneSatisfy(a + b, IsNewline) && SpaceSeparated(a + b)
  {
    assert forall i :: 0 <= i < |a + b| ==> (a + b)[i] == if i < |a| then a[i] else b[i - |a|];
  }

  lemma SpaceSeparatedSlice(s: string, a: nat, b: nat)
    requires a <= b <= |s| && SpaceSeparated(s)
    ensures SpaceSeparated(s[a..b])
  {
    assert forall j :: 0 <= j < b - a ==> s[a..b][j] == s[a + j];
  }

  /** On a tail whose only whitespace is the space character, the split pieces are its words. */
  lemma TailFieldsSpaceSeparated(x: string)
    requires SpaceSeparated(x)
    ensures var w := Words(x);
      TailFields(Some(x)) == (if |w| > 0 then w[0] else "", if |w| > 1 then SwiftInt.Parse(w[1]) else None)
  {
    ComponentsAgree(x, IsSpaceChar, IsWhiteSpace);
  }

  /** The general rule of the split, tabs included: after any leading spaces, the user is the
      text up to the next run of spaces and the pid is `Int(_:)` of the piece after that. A
      tab is not a separator, so it stays inside its piece. */
  lemma TailFieldsPieces(lead: string, user: string, gap: string, pidText: string, rest: string)
    requires AllSatisfy(lead, IsSpaceChar)
    requires user != [] && NoneSatisfy(user, IsSpaceChar)
    requires gap != [] && AllSatisfy(gap, IsSpaceChar)
    requires pidText != [] && NoneSatisfy(pidText, IsSpaceChar)
    requires rest == [] || rest[0] == ' '
    ensures TailFields(Some(lead + user + gap + pidText + rest)) == (user, SwiftInt.Parse(pidText))
  {
    var tail := lead + user + gap + pidText + rest;
    assert tail == lead + (user + gap + (pidText + rest));
    PiecesSkip(lead, user + gap + (pidText + rest), IsSpaceChar);
    PiecesCons(user, gap, pidText + rest, IsSpaceChar);
    if rest == [] {
      assert pidText + rest == pidText;
      PiecesSingle(pidText, IsSpaceChar);
    } else {
      assert pidText + rest == pidText + [rest[0]] + rest[1..];
      PiecesCons(pidText, [rest[0]], rest[1..], IsSpaceChar);
    }
  }

  /** A tail with a single piece names the user and no pid; a tail of spaces names neither. */
  lemma TailFieldsOnePiece(lead: string, user: string, trail: string)
    requires AllSatisfy(lead, IsSpaceChar) && AllSatisfy(trail, IsSpaceChar)
    requires NoneSatisfy(user, IsSpaceChar)
    ensures TailFields(Some(lead + user + trail)) == (user, None)
  {
    PiecesSkip(lead, user + trail, IsSpaceChar);
    assert lead + user + trail == lead + (user + trail);
    if user == [] {
      assert user + trail == trail + [];
      PiecesSkip(trail, [], IsSpaceChar);
      assert Components([], IsSpaceChar) == [[]];
      NonEmptySingle([]);
    } else if trail == [] {
      assert user + trail == user;
      PiecesSingle(user, IsSpaceChar);
    } else {
      assert user + trail == user + trail + [];
      PiecesCons(user, trail, [], IsSpaceChar);
      assert Components([], IsSpaceChar) == [[]];
      NonEmptySingle([]);
    }
  }

  /** A tab does not separate the user from the pid: "alice\t42" is all user, and in
      "root\t1 42" the user is "root\t1" and the pid 42. */
  lemma TailFieldsKeepTabs()
    ensures TailFields(Some("alice\t42")) == ("alice\t42", None)
    ensures TailFields(Some("root\t1 42")) == ("root\t1", Some(42))
  {
    TailFieldsOnePiece("", "alice\t42", "");
    assert "root\t1 42" == "" + "root\t1" + " " + "42" + "";
    TailFieldsPieces("", "root\t1", " ", "42", "");
    assert "42"[..1] == "4" && "4"[..0] == "";
    SwiftInt.ParseSignedNumeral("", "42");
    assert "" + "42" == "42";
  }

  /** When the only whitespace on the line is the space character (no tabs), the user is the
      third word and the pid is the fourth word read as an `Int`, when those words exist. */
  lemma ParseLineSpaceSeparated(line: string)
    requires SpaceSeparated(line)
    ensures var w := Words(line);
      var r := ParseLine(line);
      r.Some? ==>
        && r.value.user == (if |w| > 2 then w[2] else "")
        && r.value.pid == (if |w| > 3 then SwiftInt.Parse(w[3]) else None)
  {
    var t := Trim(line, IsBlank);
    WordsOfTrimmed(line);
    TrimSpaceSeparated(line);
    if t != [] && Match(t).Some? {
      MatchTailFields(t);
      var fields := TailFields(Match(t).value.tail);
      assert ParseLine(line).value.user == fields.0 && ParseLine(line).value.pid == fields.1;
    }
  }

  /** The same, stated of the trimmed line and the fields taken from its third group. */
  lemma MatchTailFields(t: string)
    requires SpaceSeparated(t) && Match(t).Some?
    ensures var w := Words(t);
      TailFields(Match(t).value.tail)
        == (if |w| > 2 then w[2] else "", if |w| > 3 then SwiftInt.Parse(w[3]) else None)
  {
    var c := Match(t).value;
    MatchIsWords(t);
    MatchTailSpaceSeparated(t);
    if c.tail.Some? {
      TailFieldsSpaceSeparated(c.tail.value);
      var tw := Words(c.tail.value);
      assert Words(t) == [c.name, c.status] + tw;
      assert forall j :: 0 <= j < |tw| ==> Words(t)[j + 2] == tw[j];
    }
  }

  /** Trimming keeps a line space-separated. */
  lemma TrimSpaceSeparated(line: string)
    requires SpaceSeparated(line)
    ensures SpaceSeparated(Trim(line, IsBlank))
  {
    var i := SkipWhile(line, 0, IsBlank);
    SpaceSeparatedSlice(line, i, i + |Trim(line, IsBlank)|);
  }

  /** The third group of a space-separated line is space-separated. */
  lemma MatchTailSpaceSeparated(t: string)
    requires SpaceSeparated(t)
    ensures Match(t).Some? && Match(t).value.tail.Some? ==> SpaceSeparated(Match(t).value.tail.value)
  {
    var n := SkipWhile(t, 0, IsTokenChar);
    var g := SkipWhile(t, n, IsWhiteSpace);
    var k := SkipWhile(t, g, IsTokenChar);
    if k < |t| {
      var m := SkipWhile(t, k, IsWhiteSpace);
      var p := SkipWhile(t, m, IsLineChar);
      SpaceSeparatedSlice(t, m, p);
    }
  }

  // ---------------------------------------------------------------------------------------
  // Lines laid out as fields separated by spaces
  // ---------------------------------------------------------------------------------------

  /** A field of the table: non-empty and free of whitespace. */
  predicate IsField(w: string)
  {
    w != [] && NoneSatisfy(w, IsWhiteSpace)
  }

  /** A run of one or more space characters. */
  predicate IsGap(g: string)
  {
    g != [] && forall i :: 0 <= i < |g| ==> g[i] == ' '
  }

  /** Printable ASCII other than the space is never whitespace. */
  lemma VisibleIsField(w: string)
    requires w != [] && forall i :: 0 <= i < |w| ==> '!' <= w[i] <= '~'
    ensures IsField(w)
  {
  }

  lemma FieldConcat(a: string, b: string)
    requires IsField(a) && IsField(b)
    ensures IsField(a + b)
  {
    assert forall i :: 0 <= i < |a + b| ==> (a + b)[i] == if i < |a| then a[i] else b[i - |a|];
  }

  lemma FieldIsPlain(w: string)
    requires NoneSatisfy(w, IsWhiteSpace)
    ensures NoneSatisfy(w, IsNewline) && SpaceSeparated(w)
  {
  }

  lemma GapIsPlain(g: string)
    requires IsGap(g)
    ensures NoneSatisfy(g, IsNewline) && SpaceSeparated(g) && AllSatisfy(g, IsWhiteSpace)
  {
  }

  /** `name gap status`: a record with no user and no pid. */
  lemma ParseNameStatus(name: string, gap: string, status: string)
    requires IsField(name) && IsGap(gap) && IsField(status)
    ensures NoneSatisfy(name + gap + status, IsNewline)
    ensures ParseLine(name + gap + status)
      == Some(BrewService(name, status, "", None, Contains(Lower(status), "started"), None))
  {
    var line := name + gap + status;
    FieldIsPlain(name);
    GapIsPlain(gap);
    FieldIsPlain(status);
    PlainConcat(name, gap);
    PlainConcat(name + gap, status);
    WordsCons(name, gap, status);
    WordsSingle(status);
    ParseLineIsWords(line);
    ParseLineSpaceSeparated(line);
  }

  /** `name gap status user file` with single spaces after the status: the user is the third
      field and the pid is the fourth read as an `Int`. */
  lemma ParseFourFields(name: string, gap: string, status: string, user: string, file: string)
    requires IsField(name) && IsGap(gap) && IsField(status) && IsField(user) && IsField(file)
    ensures NoneSatisfy(name + gap + (status + " " + (user + " " + file)), IsNewline)
    ensures ParseLine(name + gap + (status + " " + (user + " " + file)))
      == Some(BrewService(name, status, user, SwiftInt.Parse(file), Contains(Lower(status), "started"), None))
  {
    var line := name + gap + (status + " " + (user + " " + file));
    FourFieldsPlain(name, gap, status, user, file);
    FourFieldsWords(name, gap, status, user, file);
    ParseLineIsWords(line);
    ParseLineSpaceSeparated(line);
  }

  lemma FourFieldsWords(name: string, gap: string, status: string, user: string, file: string)
    requires IsField(name) && IsGap(gap) && IsField(status) && IsField(user) && IsField(file)
    ensures Words(name + gap + (status + " " + (user + " " + file))) == [name, status, user, file]
  {
    var third := user + " " + file;
    var second := status + " " + third;
    WordsCons(name, gap, second);
    WordsCons(status, " ", third);
    WordsCons(user, " ", file);
    WordsSingle(file);
  }

  lemma FourFieldsPlain(name: string, gap: string, status: string, user: string, file: string)
    requires IsField(name) && IsGap(gap) && IsField(status) && IsField(user) && IsField(file)
    ensures var line := name + gap + (status + " " + (user + " " + file));
      NoneSatisfy(line, IsNewline) && SpaceSeparated(line)
  {
    var space := " ";
    assert IsGap(space);
    GapIsPlain(space);
    GapIsPlain(gap);
    FieldIsPlain(name);
    FieldIsPlain(status);
    FieldIsPlain(user);
    FieldIsPlain(file);
    PlainConcat(user, space);
    PlainConcat(user + space, file);
    PlainConcat(status, space);
    PlainConcat(status + space, user + space + file);
    PlainConcat(name, gap);
    PlainConcat(name + gap, status + space + (user + space + file));
  }
}
