/** The `BrewService` record: one row of the `brew services list` table. */
module Models {
  import opened Basics

  /** A service as the parser and the views see it. `pid` is a Swift `Int`; only `version` is a
      `var` in the source, so `WithVersion` is the one way to derive a changed copy. */
  datatype BrewService = BrewService(
    name: string,
    status: string,
    user: string,
    pid: Option<int>,
    autostart: bool,
    version: Option<string>)

  /** `Identifiable.id`: the service name. */
  function Id(s: BrewService): string
  {
    s.name
  }

  /** Assigning `version` on a copy: the version is replaced and nothing else changes. */
  function WithVersion(s: BrewService, v: Option<string>): (r: BrewService)
    ensures r.version == v
    ensures r.name == s.name && r.status == s.status && r.user == s.user
    ensures r.pid == s.pid && r.autostart == s.autostart
  {
    s.(version := v)
  }

  /** Setting the version twice keeps only the last write, and writing back the current
      version gives the same record. */
  lemma WithVersionLastWins(s: BrewService, a: Option<string>, b: Option<string>)
    ensures WithVersion(WithVersion(s, a), b) == WithVersion(s, b)
    ensures WithVersion(s, s.version) == s
  {
  }

  /** The memberwise initializer stores each argument in its field, `id` is the name, and two
      records are equal exactly when all six fields are (the synthesised `Hashable`). */
  lemma RecordIdentity(name: string, status: string, user: string, pid: Option<int>,
                       autostart: bool, version: Option<string>, other: BrewService)
    ensures var s := BrewService(name, status, user, pid, autostart, version);
      && s.name == name && s.status == status && s.user == user
      && s.pid == pid && s.autostart == autostart && s.version == version
      && Id(s) == name
      && (s == other <==>
           && other.name == name && other.status == status && other.user == user
           && other.pid == pid && other.autostart == autostart && other.version == version)
  {
  }
}
