/** The colours the views give a service's status: the status dot of the popover row, the dot
    of the detail pane and of the main list, and the status text of the list row. Every rule
    works on the lower-cased status and tests for substrings in a fixed order. */
module Palette {
  import opened Text
  import opened Models
  import Listing

  datatype Color = Green | Red | Gray | Orange | Yellow | Secondary

  /** `statusColor` of the popover's service row: "start" wins over "error", which wins over
      "none" and "stopped"; any other status is orange. */
  function PopoverDot(status: string): (c: Color)
    ensures c != Yellow && c != Secondary
    ensures c == Green <==> Contains(Lower(status), "start")
    ensures c == Red <==> !Contains(Lower(status), "start") && Contains(Lower(status), "error")
    ensures c == Gray <==>
      && !Contains(Lower(status), "start") && !Contains(Lower(status), "error")
      && (Contains(Lower(status), "none") || Contains(Lower(status), "stopped"))
    ensures c == Orange <==>
      && !Contains(Lower(status), "start") && !Contains(Lower(status), "error")
      && !Contains(Lower(status), "none") && !Contains(Lower(status), "stopped")
  {
    var s := Lower(status);
    if Contains(s, "start") then Green
    else if Contains(s, "error") then Red
    else if Contains(s, "none") || Contains(s, "stopped") then Gray
    else Orange
  }

  /** `color(for:)` of the detail pane and of the main window's list (the two are the same
      code). Its first test also asks for "started", which "start" already covers, so the
      order is that of `PopoverDot` with yellow as the fallback. */
  function DetailDot(status: string): (c: Color)
    ensures c != Orange && c != Secondary
    ensures c == Green <==> Contains(Lower(status), "start")
    ensures c == Red <==> !Contains(Lower(status), "start") && Contains(Lower(status), "error")
    ensures c == Gray <==>
      && !Contains(Lower(status), "start") && !Contains(Lower(status), "error")
      && (Contains(Lower(status), "none") || Contains(Lower(status), "stopped"))
    ensures c == Yellow <==>
      && !Contains(Lower(status), "start") && !Contains(Lower(status), "error")
      && !Contains(Lower(status), "none") && !Contains(Lower(status), "stopped")
  {
    var s := Lower(status);
    StartedContainsStart(s);
    if Contains(s, "start") || Contains(s, "started") then Green
    else if Contains(s, "error") then Red
    else if Contains(s, "none") || Contains(s, "stopped") then Gray
    else Yellow
  }

  /** The text colour of `ServiceRowView`: green only for "started", not for a bare "start". */
  function RowText(status: string): (c: Color)
    ensures c == Green || c == Red || c == Secondary
    ensures c == Green <==> Contains(Lower(status), "started")
    ensures c == Red <==> !Contains(Lower(status), "started") && Contains(Lower(status), "error")
  {
    var s := Lower(status);
    if Contains(s, "started") then Green
    else if Contains(s, "error") then Red
    else Secondary
  }

  /** A needle longer than the text is never found. */
  lemma {:induction false} ContainsTooLong(s: string, needle: string)
    requires |needle| > |s|
    ensures !Contains(s, needle)
  {
    ContainsIffOccurs(s, needle);
  }

  /** Whatever contains "started" contains "start". */
  lemma StartedContainsStart(s: string)
    ensures Contains(s, "started") ==> Contains(s, "start")
  {
    if Contains(s, "started") {
      ContainsIffOccurs(s, "started");
      var i :| OccursAt(s, "started", i);
      assert s[i..i + 5] == s[i..i + 7][..5] == "started"[..5] == "start";
      ContainsAt(s, "start", i);
    }
  }

  /** The two dots agree except for the fallback colour: orange in the popover, yellow in the
      detail pane and the list. In particular the redundant "started" test changes nothing. */
  lemma DotsAgree(status: string)
    ensures DetailDot(status) == (if PopoverDot(status) == Orange then Yellow else PopoverDot(status))
    ensures DetailDot(status) == Green <==> Contains(Lower(status), "start")
  {
    StartedContainsStart(Lower(status));
  }

  /** A green status text comes with a green dot everywhere, and a red text with a red dot
      unless the status also mentions "start". */
  lemma TextAgreesWithDot(status: string)
    ensures RowText(status) == Green ==> PopoverDot(status) == Green && DetailDot(status) == Green
    ensures RowText(status) == Red ==>
      PopoverDot(status) == Red || Contains(Lower(status), "start")
  {
    StartedContainsStart(Lower(status));
  }

  /** The status "start" shows a green dot next to secondary text: the dot and the text disagree. */
  lemma StartIsGreenDotOnly()
    ensures PopoverDot("start") == Green && DetailDot("start") == Green
    ensures RowText("start") == Secondary
  {
    assert Lower("start") == "start";
    assert StartsWith("start", "start");
    ContainsTooLong("start", "started");
    ContainsIffOccurs("start", "error");
  }

  /** For every record the parser produces, the status text is green exactly when the service
      is marked to start automatically. */
  lemma RowTextMatchesAutostart(lines: seq<string>)
    ensures forall r :: r in Listing.ParseLines(lines) ==> (RowText(r.status) == Green <==> r.autostart)
  {
    Listing.ParseLinesRecords(lines);
    forall r | r in Listing.ParseLines(lines)
      ensures RowText(r.status) == Green <==> r.autostart
    {
      var k :| 0 <= k < |Listing.ParseLines(lines)| && Listing.ParseLines(lines)[k] == r;
    }
  }
}
