/** The string primitives of Swift and Foundation that the parser and the views rely on:
    character classes, ASCII case folding, substring search, trimming, splitting and joining. */
module Text {

  // ---------------------------------------------------------------------------------------
  // Character classes
  // ---------------------------------------------------------------------------------------

  /** Foundation's `CharacterSet.whitespaces`: general category Zs plus CHARACTER TABULATION. */
  predicate IsBlank(c: char)
  {
    || c == '\t' || c == ' ' || c == '\U{00A0}' || c == '\U{1680}'
    || ('\U{2000}' <= c <= '\U{200A}')
    || c == '\U{202F}' || c == '\U{205F}' || c == '\U{3000}'
  }

  /** Foundation's `CharacterSet.newlines` (U+000A to U+000D, U+0085, U+2028, U+2029). ICU's
      regular expressions use the same characters as line terminators for `.` and `$`. */
  predicate IsNewline(c: char)
  {
    ('\n' <= c <= '\r') || c == '\U{0085}' || c == '\U{2028}' || c == '\U{2029}'
  }

  /** The Unicode White_Space property: ICU's `\s`, and also Foundation's
      `CharacterSet.whitespacesAndNewlines`. */
  predicate IsWhiteSpace(c: char)
  {
    IsBlank(c) || IsNewline(c)
  }

  /** A character `\S` matches. */
  predicate IsTokenChar(c: char)
  {
    !IsWhiteSpace(c)
  }

  /** A character `.` matches. */
  predicate IsLineChar(c: char)
  {
    !IsNewline(c)
  }

  /** The separator of `split(separator: " ")`. */
  predicate IsSpaceChar(c: char)
  {
    c == ' '
  }

  /** No character of `s` satisfies `p`. */
  predicate NoneSatisfy(s: string, p: char -> bool)
  {
    forall i :: 0 <= i < |s| ==> !p(s[i])
  }

  /** A property no character has stays absent from a concatenation. */
  lemma NoneSatisfyConcat(a: string, b: string, p: char -> bool)
    requires NoneSatisfy(a, p) && NoneSatisfy(b, p)
    ensures NoneSatisfy(a + b, p)
  {
  }

  /** Every character of `s` satisfies `p`. */
  predicate AllSatisfy(s: string, p: char -> bool)
  {
    forall i :: 0 <= i < |s| ==> p(s[i])
  }

  // ---------------------------------------------------------------------------------------
  // Case folding and substring search
  // ---------------------------------------------------------------------------------------

  /** `lowercased()` on one character, restricted to ASCII letters. */
  function LowerChar(c: char): char
  {
    if 'A' <= c <= 'Z' then (c as int + 32) as char else c
  }

  /** `lowercased()`, restricted to ASCII letters. */
  function Lower(s: string): (r: string)
    ensures |r| == |s|
    ensures forall i :: 0 <= i < |s| ==> r[i] == LowerChar(s[i])
  {
    seq(|s|, i requires 0 <= i < |s| => LowerChar(s[i]))
  }

  /** Lower-casing works piece by piece. */
  lemma LowerConcat(a: string, b: string)
    ensures Lower(a + b) == Lower(a) + Lower(b)
  {
  }

  predicate StartsWith(s: string, prefix: string)
  {
    |prefix| <= |s| && s[..|prefix|] == prefix
  }

  /** `s.contains(needle)`: `needle` occurs in `s` at some position. */
  predicate Contains(s: string, needle: string)
    decreases |s|
  {
    StartsWith(s, needle) || (|s| > 0 && Contains(s[1..], needle))
  }

  /** `localizedCaseInsensitiveContains`, with ASCII case folding. It asks Foundation for the
      range of the needle, and an empty needle has no range, so no text contains it. */
  predicate ContainsIgnoringCase(s: string, needle: string)
  {
    |needle| > 0 && Contains(Lower(s), Lower(needle))
  }

  /** `needle` sits in `s` at position `i`. */
  predicate OccursAt(s: string, needle: string, i: int)
  {
    0 <= i && i + |needle| <= |s| && s[i..i + |needle|] == needle
  }

  /** `Contains` holds exactly when the needle sits at some position of `s`. */
  lemma {:induction false} ContainsIffOccurs(s: string, needle: string)
    ensures Contains(s, needle) <==> exists i :: OccursAt(s, needle, i)
    decreases |s|
  {
    if StartsWith(s, needle) {
      assert OccursAt(s, needle, 0);
    }
    if |s| > 0 {
      ContainsIffOccurs(s[1..], needle);
      if Contains(s[1..], needle) {
        var i :| OccursAt(s[1..], needle, i);
        assert s[i + 1..i + 1 + |needle|] == s[1..][i..i + |needle|];
        assert OccursAt(s, needle, i + 1);
      }
      if exists i :: OccursAt(s, needle, i) {
        var i :| OccursAt(s, needle, i);
        if i > 0 {
          assert s[1..][i - 1..i - 1 + |needle|] == s[i..i + |needle|];
          assert OccursAt(s[1..], needle, i - 1);
        }
      }
    } else if exists i :: OccursAt(s, needle, i) {
      var i :| OccursAt(s, needle, i);
      assert i == 0;
    }
  }

  /** A needle placed at position `i` is found. */
  lemma ContainsAt(s: string, needle: string, i: nat)
    requires OccursAt(s, needle, i)
    ensures Contains(s, needle)
  {
    ContainsIffOccurs(s, needle);
  }

  /** `needle` is found in `a + needle + b`. */
  lemma ContainsMiddle(a: string, needle: string, b: string)
    ensures Contains(a + needle + b, needle)
  {
    assert OccursAt(a + needle + b, needle, |a|);
    ContainsAt(a + needle + b, needle, |a|);
  }

  /** Containment survives extending the haystack on either side. */
  lemma ContainsInConcat(a: string, s: string, b: string, needle: string)
    requires Contains(s, needle)
    ensures Contains(a + s + b, needle)
  {
    ContainsIffOccurs(s, needle);
    var i :| OccursAt(s, needle, i);
    assert (a + s + b)[|a| + i..|a| + i + |needle|] == s[i..i + |needle|];
    ContainsAt(a + s + b, needle, |a| + i);
  }

  // ---------------------------------------------------------------------------------------
  // Trimming
  // ---------------------------------------------------------------------------------------

  function TrimEnd(s: string, p: char -> bool): (r: string)
    ensures |r| <= |s| && r == s[..|r|]
    ensures |r| > 0 ==> !p(r[|r| - 1])
    ensures AllSatisfy(s[|r|..], p)
    decreases |s|
  {
    if |s| > 0 && p(s[|s| - 1]) then TrimEnd(s[..|s| - 1], p) else s
  }

  /** `trimmingCharacters(in:)`: drops the characters satisfying `p` from both ends. The result
      is the slice of `s` that starts after its leading run of `p`-characters and is followed
      only by `p`-characters, and it neither starts nor ends with a `p`-character. */
  function Trim(s: string, p: char -> bool): (r: string)
    ensures var i := SkipWhile(s, 0, p);
      i + |r| <= |s| && r == s[i..i + |r|] && AllSatisfy(s[i + |r|..], p)
    ensures |r| > 0 ==> !p(r[0]) && !p(r[|r| - 1])
  {
    var i := SkipWhile(s, 0, p);
    var r := TrimEnd(s[i..], p);
    assert s[i + |r|..] == s[i..][|r|..];
    r
  }

  /** Trimming a string that already neither starts nor ends with a `p`-character changes nothing. */
  lemma TrimIdempotent(s: string, p: char -> bool)
    requires |s| > 0 ==> !p(s[0]) && !p(s[|s| - 1])
    ensures Trim(s, p) == s
  {
  }

  /** Trimming only removes `p`-characters, so characters outside `p` are all kept. */
  lemma TrimKeepsOthers(s: string, p: char -> bool, q: char -> bool)
    requires NoneSatisfy(s, q)
    ensures NoneSatisfy(Trim(s, p), q)
  {
    var r := Trim(s, p);
    var i := SkipWhile(s, 0, p);
    forall k | 0 <= k < |r|
      ensures !q(r[k])
    {
      assert r[k] == s[i + k];
    }
  }

  // ---------------------------------------------------------------------------------------
  // Scanning, splitting and joining
  // ---------------------------------------------------------------------------------------

  /** The end of the run of `p`-characters that starts at `i`. */
  function SkipWhile(s: string, i: nat, p: char -> bool): (j: nat)
    requires i <= |s|
    ensures i <= j <= |s|
    ensures forall k :: i <= k < j ==> p(s[k])
    ensures j < |s| ==> !p(s[j])
    decreases |s| - i
  {
    if i < |s| && p(s[i]) then SkipWhile(s, i + 1, p) else i
  }

  /** The first position at or after `i` holding a `p`-character, or `|s|`. */
  function FindFirst(s: string, i: nat, p: char -> bool): (j: nat)
    requires i <= |s|
    ensures i <= j <= |s|
    ensures forall k :: i <= k < j ==> !p(s[k])
    ensures j < |s| ==> p(s[j])
    decreases |s| - i
  {
    if i < |s| && !p(s[i]) then FindFirst(s, i + 1, p) else i
  }

  /** `components(separatedBy:)`: the pieces between separator characters, empty pieces kept.
      There is always at least one piece. */
  function Components(s: string, isSep: char -> bool): (parts: seq<string>)
    ensures |parts| >= 1
    ensures forall k :: 0 <= k < |parts| ==> NoneSatisfy(parts[k], isSep)
    decreases |s|
  {
    var j := FindFirst(s, 0, isSep);
    if j == |s| then [s] else [s[..j]] + Components(s[j + 1..], isSep)
  }

  /** The `omittingEmptySubsequences: true` filter. */
  function NonEmpty(parts: seq<string>): (r: seq<string>)
    ensures |r| <= |parts|
    ensures forall k :: 0 <= k < |r| ==> r[k] != [] && r[k] in parts
    ensures forall x :: x in parts && x != [] ==> x in r
  {
    if |parts| == 0 then []
    else if parts[0] == [] then NonEmpty(parts[1..])
    else [parts[0]] + NonEmpty(parts[1..])
  }

  /** A single piece is kept exactly when it is not empty. */
  lemma NonEmptySingle(x: string)
    ensures NonEmpty([x]) == if x == [] then [] else [x]
  {
    assert [x][1..] == [];
  }

  /** Dropping empty pieces keeps a non-empty piece and splits around it. */
  lemma NonEmptyAround(parts: seq<string>, h: nat)
    requires h < |parts| && parts[h] != []
    ensures NonEmpty(parts) == NonEmpty(parts[..h]) + [parts[h]] + NonEmpty(parts[h + 1..])
  {
    var before, piece, after := parts[..h], [parts[h]], parts[h + 1..];
    assert parts == before + piece + after;
    NonEmptySingle(parts[h]);
    NonEmptyAppend(before + piece, after);
    NonEmptyAppend(before, piece);
  }

  /** The maximal runs of non-whitespace characters, in order. */
  function Words(s: string): seq<string>
  {
    NonEmpty(Components(s, IsWhiteSpace))
  }

  /** `joined(separator:)`. */
  function Join(parts: seq<string>, sep: string): string
  {
    if |parts| == 0 then ""
    else if |parts| == 1 then parts[0]
    else parts[0] + sep + Join(parts[1..], sep)
  }

  lemma {:induction false} NonEmptyAppend(a: seq<string>, b: seq<string>)
    ensures NonEmpty(a + b) == NonEmpty(a) + NonEmpty(b)
    decreases |a|
  {
    if |a| > 0 {
      assert (a + b)[0] == a[0];
      assert (a + b)[1..] == a[1..] + b;
      NonEmptyAppend(a[1..], b);
    } else {
      assert a + b == b;
    }
  }

  /** Splitting a separator-free piece, one separator and the rest. */
  lemma ComponentsStep(piece: string, sep: char, rest: string, isSep: char -> bool)
    requires NoneSatisfy(piece, isSep) && isSep(sep)
    ensures Components(piece + [sep] + rest, isSep) == [piece] + Components(rest, isSep)
  {
    var s := piece + [sep] + rest;
    assert s[|piece|] == sep;
    assert forall k :: 0 <= k < |piece| ==> s[k] == piece[k];
    assert FindFirst(s, 0, isSep) == |piece|;
    assert s[..|piece|] == piece && s[|piece| + 1..] == rest;
  }

  /** A whitespace character ends the first piece; the piece is a word unless it is empty. */
  lemma WordsStep(piece: string, c: char, rest: string)
    requires NoneSatisfy(piece, IsWhiteSpace) && IsWhiteSpace(c)
    ensures Words(piece + [c] + rest) == NonEmpty([piece]) + Words(rest)
  {
    ComponentsStep(piece, c, rest, IsWhiteSpace);
    NonEmptyAppend([piece], Components(rest, IsWhiteSpace));
  }

  /** A separator-free string is a single piece. */
  lemma ComponentsNone(s: string, isSep: char -> bool)
    requires NoneSatisfy(s, isSep)
    ensures Components(s, isSep) == [s]
  {
  }

  /** Two predicates that agree on every character of `s` find the same first position. */
  lemma {:induction false} FindFirstAgree(s: string, i: nat, p: char -> bool, q: char -> bool)
    requires i <= |s|
    requires forall k :: i <= k < |s| ==> p(s[k]) == q(s[k])
    ensures FindFirst(s, i, p) == FindFirst(s, i, q)
    decreases |s| - i
  {
    if i < |s| && !p(s[i]) {
      FindFirstAgree(s, i + 1, p, q);
    }
  }

  /** Two separator predicates that agree on every character of `s` split it alike. */
  lemma {:induction false} ComponentsAgree(s: string, p: char -> bool, q: char -> bool)
    requires forall i :: 0 <= i < |s| ==> p(s[i]) == q(s[i])
    ensures Components(s, p) == Components(s, q)
    decreases |s|
  {
    FindFirstAgree(s, 0, p, q);
    var j := FindFirst(s, 0, p);
    if j < |s| {
      var rest := s[j + 1..];
      assert forall i :: 0 <= i < |rest| ==> rest[i] == s[j + 1 + i];
      ComponentsAgree(rest, p, q);
    }
  }

  /** Leading separators contribute no non-empty piece. */
  lemma {:induction false} PiecesSkip(ws: string, rest: string, isSep: char -> bool)
    requires AllSatisfy(ws, isSep)
    ensures NonEmpty(Components(ws + rest, isSep)) == NonEmpty(Components(rest, isSep))
    decreases |ws|
  {
    if |ws| > 0 {
      var empty: string := [];
      ComponentsStep(empty, ws[0], ws[1..] + rest, isSep);
      assert ws + rest == empty + [ws[0]] + (ws[1..] + rest);
      var tail := Components(ws[1..] + rest, isSep);
      NonEmptyAppend([empty], tail);
      assert NonEmpty([empty]) == [];
      assert AllSatisfy(ws[1..], isSep);
      PiecesSkip(ws[1..], rest, isSep);
    } else {
      assert ws + rest == rest;
    }
  }

  /** A separator-free piece followed by at least one separator is the first non-empty piece. */
  lemma PiecesCons(word: string, ws: string, rest: string, isSep: char -> bool)
    requires word != [] && NoneSatisfy(word, isSep)
    requires ws != [] && AllSatisfy(ws, isSep)
    ensures NonEmpty(Components(word + ws + rest, isSep)) == [word] + NonEmpty(Components(rest, isSep))
  {
    assert word + ws + rest == word + [ws[0]] + (ws[1..] + rest);
    ComponentsStep(word, ws[0], ws[1..] + rest, isSep);
    NonEmptyAppend([word], Components(ws[1..] + rest, isSep));
    PiecesSkip(ws[1..], rest, isSep);
  }

  /** A non-empty separator-free string is one piece. */
  lemma PiecesSingle(word: string, isSep: char -> bool)
    requires word != [] && NoneSatisfy(word, isSep)
    ensures NonEmpty(Components(word, isSep)) == [word]
  {
    ComponentsNone(word, isSep);
    NonEmptySingle(word);
  }

  /** Leading whitespace contributes no word. */
  lemma WordsSkipSpace(ws: string, rest: string)
    requires AllSatisfy(ws, IsWhiteSpace)
    ensures Words(ws + rest) == Words(rest)
  {
    PiecesSkip(ws, rest, IsWhiteSpace);
  }

  /** A word followed by at least one whitespace character. */
  lemma WordsCons(word: string, ws: string, rest: string)
    requires word != [] && NoneSatisfy(word, IsWhiteSpace)
    requires ws != [] && AllSatisfy(ws, IsWhiteSpace)
    ensures Words(word + ws + rest) == [word] + Words(rest)
  {
    PiecesCons(word, ws, rest, IsWhiteSpace);
  }

  /** A single word. */
  lemma WordsSingle(word: string)
    requires word != [] && NoneSatisfy(word, IsWhiteSpace)
    ensures Words(word) == [word]
  {
    ComponentsNone(word, IsWhiteSpace);
  }

  /** Splitting undoes joining when the pieces are free of the separator. */
  lemma {:induction false} ComponentsOfJoin(parts: seq<string>, sep: char, isSep: char -> bool)
    requires |parts| >= 1 && isSep(sep)
    requires forall k :: 0 <= k < |parts| ==> NoneSatisfy(parts[k], isSep)
    ensures Components(Join(parts, [sep]), isSep) == parts
    decreases |parts|
  {
    if |parts| == 1 {
      ComponentsNone(parts[0], isSep);
    } else {
      ComponentsStep(parts[0], sep, Join(parts[1..], [sep]), isSep);
      ComponentsOfJoin(parts[1..], sep, isSep);
    }
  }

  /** Joining a first piece in front of at least one more. */
  lemma JoinCons(first: string, parts: seq<string>, sep: string)
    requires |parts| >= 1
    ensures Join([first] + parts, sep) == first + sep + Join(parts, sep)
  {
    assert ([first] + parts)[1..] == parts;
  }

  /** Joining undoes splitting when every separator character is `sep`. */
  lemma {:induction false} JoinOfComponents(s: string, sep: char, isSep: char -> bool)
    requires forall i :: 0 <= i < |s| && isSep(s[i]) ==> s[i] == sep
    ensures Join(Components(s, isSep), [sep]) == s
    decreases |s|
  {
    var j := FindFirst(s, 0, isSep);
    if j < |s| {
      var rest := s[j + 1..];
      SuffixKeeps(s, j + 1, sep, isSep);
      JoinOfComponents(rest, sep, isSep);
      JoinCons(s[..j], Components(rest, isSep), [sep]);
      Reassemble(s, j, sep);
    }
  }

  /** The separator condition holds of every suffix. */
  lemma SuffixKeeps(s: string, from: nat, sep: char, isSep: char -> bool)
    requires from <= |s|
    requires forall i :: 0 <= i < |s| && isSep(s[i]) ==> s[i] == sep
    ensures forall i :: 0 <= i < |s[from..]| && isSep(s[from..][i]) ==> s[from..][i] == sep
  {
    assert forall i :: 0 <= i < |s[from..]| ==> s[from..][i] == s[from + i];
  }

  /** A string is the part before position `j`, the character there, and the rest. */
  lemma Reassemble(s: string, j: nat, c: char)
    requires j < |s| && s[j] == c
    ensures s == s[..j] + [c] + s[j + 1..]
  {
  }
}
