/** The text lines of `ServiceDetailView` for a selected service. Its status dot is
    `Palette.DetailDot`. */
module ServiceDetail {
  import opened Basics
  import opened Text
  import opened Models
  import SwiftInt

  /** `"User: \(svc.user)"`. */
  function UserLine(user: string): string
  {
    "User: " + user
  }

  /** `"PID: \(svc.pid.map(String.init) ?? "-")"`. */
  function PidLine(pid: Option<int>): string
  {
    "PID: " + (match pid case Some(n) => SwiftInt.Render(n) case None => "-")
  }

  /** `"Autostart: \(svc.autostart ? "Yes" : "No")"`. */
  function AutostartLine(autostart: bool): string
  {
    "Autostart: " + (if autostart then "Yes" else "No")
  }

  /** `"Version: \(svc.version ?? "-")"`. */
  function VersionLine(version: Option<string>): string
  {
    "Version: " + version.OrElse("-")
  }

  /** The four lines, in the order the pane stacks them. */
  function DetailLines(s: BrewService): seq<string>
  {
    [UserLine(s.user), PidLine(s.pid), AutostartLine(s.autostart), VersionLine(s.version)]
  }

  /** The pane tells services apart by what it shows: two services with the same four lines
      have the same user, pid and autostart flag, and the same version when both have one. */
  lemma DetailLinesTellApart(s: BrewService, t: BrewService)
    requires s.pid.Some? ==> SwiftInt.InRange(s.pid.value)
    requires t.pid.Some? ==> SwiftInt.InRange(t.pid.value)
    ensures DetailLines(s) == DetailLines(t) ==>
      && s.user == t.user && s.pid == t.pid && s.autostart == t.autostart
      && (s.version.Some? && t.version.Some? ==> s.version == t.version)
  {
    if DetailLines(s) == DetailLines(t) {
      assert s.user == UserLine(s.user)[6..] == UserLine(t.user)[6..] == t.user;
      PidLineRoundTrip(s.pid);
      PidLineRoundTrip(t.pid);
      AutostartLineInjective(s.autostart, t.autostart);
      VersionLineAmbiguity(s.version, t.version);
    }
  }

  /** Reading a pid back from its line: the text after the label, as `Int(_:)` parses it. */
  function ReadPid(line: string): (pid: Option<int>)
    ensures pid.Some? ==> SwiftInt.InRange(pid.value)
  {
    if StartsWith(line, "PID: ") then SwiftInt.Parse(line[5..]) else None
  }

  /** The pid line loses nothing: reading it back gives the pid, a missing pid included, for
      every value an `Int` can hold. */
  lemma PidLineRoundTrip(pid: Option<int>)
    requires pid.Some? ==> SwiftInt.InRange(pid.value)
    ensures ReadPid(PidLine(pid)) == pid
  {
    var line := PidLine(pid);
    assert StartsWith(line, "PID: ");
    match pid
    case Some(n) =>
      assert line[5..] == SwiftInt.Render(n);
      SwiftInt.ParseRender(n);
    case None =>
      assert line[5..] == "-";
  }

  /** The autostart line tells the two values apart. */
  lemma AutostartLineInjective(a: bool, b: bool)
    ensures AutostartLine(a) == AutostartLine(b) <==> a == b
  {
    if a != b {
      assert |AutostartLine(a)| != |AutostartLine(b)|;
    }
  }

  /** The version line tells versions apart, except that a missing version and the version
      string "-" read the same. */
  lemma VersionLineAmbiguity(v: Option<string>, w: Option<string>)
    ensures VersionLine(None) == VersionLine(Some("-"))
    ensures v.Some? && w.Some? ==> (VersionLine(v) == VersionLine(w) <==> v == w)
  {
    if v.Some? && w.Some? && VersionLine(v) == VersionLine(w) {
      assert v.value == VersionLine(v)[9..] == VersionLine(w)[9..] == w.value;
    }
  }
}
