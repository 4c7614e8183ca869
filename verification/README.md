# Homebrew services manager — a Dafny model of its core

homebrew-services-manager is a macOS menu-bar app with a command-line tool. It lists the
services Homebrew manages (`brew services list`) and starts, stops and restarts them. This
project models the parts of the app that decide what it does, and proves properties of them:

- **The `brew services list` parser, in both versions.**
  - Cutting the output into lines.
  - Finding the first header line, one that mentions "status" and "name" in any case.
  - The regular expression `^(\S+)\s+(\S+)(?:\s+(.*))?$` that takes a line apart.
  - The user and pid in the rest of the line.
  - The `autostart` flag.
  - The current version drops empty lines and returns nothing when there is no header. The
    older version keeps empty lines and then parses every line. The two are compared: where
    they agree, and two concrete ways in which they differ.
- **The manager around the parser.**
  - Locating `brew`: the current version caches the path; the older one re-probes on every call.
  - Classifying a failed run: `requiresAuthentication`, `executionFailed` or `invalidOutput`.
  - The argument vector of every command.
  - The failure handling of the older `runService`.
- **The command-line tool.** Its exit status for every `BrewError`, and the catch-all status 1.
- **The app's view model.**
  - `refresh`, `perform` and `clearToast` as transitions over its published fields.
  - The toast or user notification that reports each action.
- **The views' pure logic.**
  - The status colours.
  - The search filter.
  - Which content the menu-bar popover shows.
  - The popover's `isInitialLoad` latch, its back button and its disabled action buttons.
  - The text lines of the detail pane.
  - The toast flag of the main window.

Running `brew` is not modelled. A run is represented by what it produced (`ProcessOutcome`):
either it could not be started, or it exited with a status, a stdout and a stderr. Stdout and
stderr are each absent when the bytes are not valid UTF-8. The file system's "is executable"
test is a predicate parameter.

Strings are sequences of Unicode scalars. Swift compares `Character`s (grapheme clusters), and
this matters in one place that the model keeps: `split(separator: "\n")` does not cut at a
`\n` that follows `\r`, because `"\r\n"` is a single `Character`. Case-insensitive comparisons
fold ASCII letters only.

Files:

| file | module | what it holds |
|---|---|---|
| basics.dfy | `Basics` | `Option`, `Result` |
| text.dfy | `Text` | character classes, lower-casing, `contains`, trimming, `split`/`components`, `joined` |
| swift_int.dfy | `SwiftInt` | `Int(_: String)` and `String(_: Int)` over the 64-bit `Int` |
| models.dfy | `Models` | the `BrewService` record |
| service_line.dfy | `ServiceLine` | one table line to one record: the regular expression, the tail fields |
| listing.dfy | `Listing` | the header test, `compactMap` over lines, the two ways of cutting lines |
| core_manager.dfy | `CoreManager` | the current `BrewServiceManager` and its parser |
| script_manager.dfy | `ScriptManager` | the older `BrewServiceManager` and its parser, compared with the current one |
| cli.dfy | `Cli` | the command-line tool's exit statuses |
| view_model.dfy | `ServiceListViewModel` | `refresh`, `perform`, `clearToast` |
| palette.dfy | `Palette` | the status colours |
| search.dfy | `Search` | `filteredServices` / `filtered` |
| popover.dfy | `MenuBarPopover` | content selection, the `isInitialLoad` latch, the detail pane's buttons |
| detail_view.dfy | `ServiceDetail` | the detail pane's text lines |
| list_view.dfy | `ServiceListView` | the main window's toast flag and overlay |

## Model

| member | source | states |
|---|---|---|
| Models.WithVersion | Scripts/SourcesCoreModels.swift:4-9 | Assigning `version` on a copy replaces the version and leaves name, status, user, pid and autostart unchanged. |
| Models.WithVersionLastWins | Scripts/SourcesCoreModels.swift:9 | Only the last assignment of `version` counts, and writing back the current version gives the same record. |
| Models.RecordIdentity | Scripts/SourcesCoreModels.swift:3-20 | The initializer stores every argument unchanged, `id` is the name, and two records are equal exactly when all six fields are. |
| SwiftInt.Parse | Sources/Core/BrewServiceManager.swift:146 | A parsed `Int` lies in the 64-bit range, and the text is an optional sign followed by at least one digit, digits only. |
| SwiftInt.ParseSignedNumeral | Sources/Core/BrewServiceManager.swift:146 | The converse, with the value: an optional sign and a non-empty digit run parse exactly when the signed value fits in `Int`, to that value. Leading zeros, `+` and `-0` included. |
| SwiftInt.ParseExamples | Sources/Core/BrewServiceManager.swift:146 | "+7" and "007" read as 7 and "-0" as 0. The empty text, a lone "-" and "7a" read as no number. |
| SwiftInt.ParseRejectsOverflow | Sources/Core/BrewServiceManager.swift:146 | A numeral beyond `Int.max` gives no pid, with or without a sign, and one only "-" can rescue gives `Int.min`. |
| SwiftInt.ParseRender | Sources/App/Views/ServiceDetailView.swift:26 | Parsing the decimal rendering of any 64-bit `Int` gives the number back. |
| SwiftInt.RenderInjective | Sources/App/Views/ServiceDetailView.swift:26 | Two 64-bit `Int`s render to the same text exactly when they are equal. |
| ServiceLine.Match | Sources/Core/BrewServiceManager.swift:121 | The captured name and status are non-empty and hold no whitespace, the name starts the line, and the optional third group holds no line terminator. |
| ServiceLine.TailFields | Sources/Core/BrewServiceManager.swift:137-149 | Without a third group the user is "" and there is no pid. The user holds no space. A pid exists only when there is a user, and it lies in the `Int` range. |
| ServiceLine.TailFieldsPieces | Sources/Core/BrewServiceManager.swift:140-149 | For any tail, tabs included: after leading spaces, the user is the text up to the next run of spaces, and the pid is `Int(_:)` of the piece after that. |
| ServiceLine.TailFieldsOnePiece | Sources/Core/BrewServiceManager.swift:140-149 | A tail with a single space-free piece gives that user and no pid. A tail of spaces only gives the user "" and no pid. |
| ServiceLine.TailFieldsKeepTabs | Sources/Core/BrewServiceManager.swift:142 | A tab does not separate: "alice\t42" is all user with no pid, and "root\t1 42" gives the user "root\t1" and the pid 42. |
| ServiceLine.ParseLine | Sources/Core/BrewServiceManager.swift:123-160 | A produced record has a non-empty name and status without whitespace, `autostart` equal to whether the lower-cased status contains "started", and no version. A blank line produces nothing. |
| ServiceLine.MatchIsWords | Sources/Core/BrewServiceManager.swift:121-135 | Whenever the pattern matches, name and status are the first two whitespace-separated words of the line, and the words of the third group are all the remaining words. |
| ServiceLine.MatchIffTwoWords | Sources/Core/BrewServiceManager.swift:121-132 | On a trimmed line without line terminators, the pattern matches exactly when the line has at least two words. |
| ServiceLine.ParseLineIsWords | Sources/Core/BrewServiceManager.swift:124-149 | A line without line terminators gives a record exactly when it has at least two words. Name and status are the first two words. The user is empty exactly when there is no third word, and then there is no pid. |
| ServiceLine.ParseLineSpaceSeparated | Sources/Core/BrewServiceManager.swift:137-149 | When spaces are the only whitespace, the user is the third word and the pid is the fourth word read as an `Int`, when those words exist. |
| ServiceLine.ParseNameStatus | Sources/Core/BrewServiceManager.swift:152-159 | `name gap status` gives a record with that name and status, no user, no pid, and `autostart` from the status. |
| ServiceLine.ParseFourFields | Sources/Core/BrewServiceManager.swift:137-159 | `name gap status user file` gives the user, and gives as pid the fourth field read as an `Int`. |
| Listing.FirstHeader | Sources/Core/BrewServiceManager.swift:113-115 | The index found holds a header and no earlier line does; no index is found exactly when no line is a header. |
| Listing.ParseLinesDrawn | Sources/Core/BrewServiceManager.swift:123-160 | Each record comes from its own line at or after the start, in the order of those lines, and every line from the start on that parses contributes its record. |
| Listing.ParseLinesRecords | Sources/Core/BrewServiceManager.swift:152-159 | Every record has a non-empty name and status, `autostart` derived from the status, and no version. |
| Listing.ParseLinesAppend | Sources/Core/BrewServiceManager.swift:123 | Parsing is line by line: the records of two blocks of lines are the records of each block, concatenated. |
| Listing.ParseLinesNonEmpty | Sources/Core/BrewServiceManager.swift:124-125 | Empty lines give no record, so dropping them leaves the records unchanged. |
| Listing.CharacterLinesAreComponents | Scripts/SourcesCoreBrewServiceManager.swift:52 | On text whose only line terminator is `\n`, splitting on `\n` Characters and `components(separatedBy: .newlines)` give the same lines. |
| Listing.CharacterLinesOfJoin | Sources/Core/BrewServiceManager.swift:110 | Lines without line terminators, joined with `\n`, split back into the same lines. |
| CoreManager.FirstExecutable | Sources/Core/BrewServiceManager.swift:52-62 | The path is a candidate. It is "brew" exactly when none of the four absolute candidates is executable; otherwise it is executable and no earlier candidate is. |
| CoreManager.BrewPath | Sources/Core/BrewServiceManager.swift:47-64 | The probing loop never yields `nil`. A cached path is returned as is; otherwise the result is the first executable candidate or "brew", and it becomes the cache. |
| CoreManager.Execute | Sources/Core/BrewServiceManager.swift:93-106 | Each case, in both directions. A zero exit with decodable stdout succeeds with stdout. A zero exit with undecodable stdout is `invalidOutput`. A non-zero exit is `requiresAuthentication` carrying the arguments joined by spaces exactly when the trimmed stderr mentions "requires authentication", and `executionFailed` with that text otherwise. A launch failure is passed on unchanged. |
| CoreManager.ExecutionFailedMessage | Sources/Core/BrewServiceManager.swift:94 | An execution failure's message neither starts nor ends with whitespace, and reads "Unknown error" for an undecodable stderr. |
| CoreManager.AuthenticationCommandSplits | Sources/Core/BrewServiceManager.swift:97 | Arguments that are non-empty and hold no space can be read back from the joined command by splitting it at spaces. |
| CoreManager.Arguments | Sources/Core/BrewServiceManager.swift:163-193 | Every argument vector has two or three entries and starts with "services". |
| CoreManager.ActionArguments | Sources/Core/BrewServiceManager.swift:163-193 | `start`…`info` send `["services", <own name>, service]`. `startAll` and `stopAll` send `["services", "start"/"stop", "--all"]`. |
| CoreManager.DecodeArgumentsRoundTrip | Sources/Core/BrewServiceManager.swift:163-193 | Every argument vector reads back as the command that sent it, with `runService` on "--all" identified with the bulk commands. |
| CoreManager.ArgumentsInjective | Sources/Core/BrewServiceManager.swift:163-193 | Two commands send the same vector exactly when they agree up to that identification. |
| CoreManager.ServicesList | Sources/Core/BrewServiceManager.swift:66-71 | `services list` succeeds exactly when the run does, with the parsed stdout; otherwise it fails with the run's own error. |
| CoreManager.ParseServicesList | Sources/Core/BrewServiceManager.swift:109-161 | `parseBrewServicesList`: the table parser applied to the non-empty `\n`-separated lines. Its behaviour is stated by `CoreManager.ParseEmptyCases`, `CoreManager.ParseAfterFirstHeader` and `CoreManager.ParseTableAfterHeader`. |
| CoreManager.ParseTable | Sources/Core/BrewServiceManager.swift:111-160 | No records from fewer than two lines or without a header; otherwise the records of the lines after the first header. Stated by `CoreManager.ParseEmptyCases`, `CoreManager.ParseAfterFirstHeader` and `CoreManager.ParseTableAfterHeader`. |
| CoreManager.RunCommand | Sources/Core/BrewServiceManager.swift:163-193 | `runService` and `start` … `stopAll` run the command's argument vector. The outcome classification is `CoreManager.Execute`'s contract, and the vectors are stated by `CoreManager.ActionArguments`. `CoreManager.RunCommandAuthentication` states the authentication case. |
| CoreManager.RunCommandAuthentication | Sources/Core/BrewServiceManager.swift:96-97 | A failed `runService` whose stderr asks for authentication reports the exact command line `services <action> <service>`. |
| CoreManager.ParseEmptyCases | Sources/Core/BrewServiceManager.swift:110-117 | Fewer than two non-empty lines, or no header line, gives no records. The empty output is one such case. |
| CoreManager.ParseAfterFirstHeader | Sources/Core/BrewServiceManager.swift:113-123 | The records come only from lines strictly after the first header, one line each, in order, with no parsable line skipped. There are at most as many records as those lines. |
| CoreManager.ParseTableAfterHeader | Sources/Core/BrewServiceManager.swift:109-161 | A header followed by data lines gives exactly the records of the data lines; the header never becomes a record. |
| CoreManager.TestTable | Scripts/TestsCoreTestsBrewServiceManagerTests.swift:14-35 | The table of the unit test gives two records: mysql/none, not autostarted; nginx/started, autostarted, user "dchichmarev", no pid. |
| ScriptManager.BrewPath | Scripts/SourcesCoreBrewServiceManager.swift:11-20 | The older `brewPath` never returns `nil`, and its path is "brew" or an executable candidate. |
| ScriptManager.BrewPathFollowsFileSystem | Scripts/SourcesCoreBrewServiceManager.swift:11-20 | Without a cache, once a candidate is executable the path is never "brew" and is that candidate or an earlier one. |
| ScriptManager.ParseServicesList | Scripts/SourcesCoreBrewServiceManager.swift:50-106 | The older parser's loops compute the records of the lines after the first header, or of all lines when there is none, and nothing for a single line. |
| ScriptManager.FindStart | Scripts/SourcesCoreBrewServiceManager.swift:56-62 | The header search stops right after the first header, or yields 0 when there is none. |
| ScriptManager.ParseFrom | Scripts/SourcesCoreBrewServiceManager.swift:76-103 | The appending loop yields exactly the `compactMap` of the line parser over the lines from the start index on. |
| ScriptManager.SingleLineGivesNothing | Scripts/SourcesCoreBrewServiceManager.swift:52-53 | Output without a line terminator gives no records, in both parsers. |
| ScriptManager.NoHeaderParsesEverything | Scripts/SourcesCoreBrewServiceManager.swift:56-62 | Without a header the older parser parses every line, the first included. |
| ScriptManager.ParsersAgreeWithHeader | Scripts/SourcesCoreBrewServiceManager.swift:50-106 | With a header, and `\n` as the only line terminator, both parsers return the same records. |
| ScriptManager.ParsersDisagreeWithoutHeader | Scripts/SourcesCoreBrewServiceManager.swift:56-62 | Two service lines without a header give nothing in the current parser and both records in the older one. |
| ScriptManager.ParsersDisagreeOnCarriageReturn | Scripts/SourcesCoreBrewServiceManager.swift:52 | A header ended by `\r\n`: the current parser sees one line and returns nothing, while the older one parses the service line. |
| ScriptManager.ServicesList | Scripts/SourcesCoreBrewServiceManager.swift:22-47 | A non-zero exit fails with the stderr text, or "error" when it is undecodable. A zero exit parses stdout, and an undecodable stdout gives no records. |
| ScriptManager.RunService | Scripts/SourcesCoreBrewServiceManager.swift:109-134 | A non-zero exit fails with stderr, falling back to stdout when stderr is undecodable. A zero exit returns stdout, or "" when it is undecodable. No authentication case exists. |
| ScriptManager.RunServiceAgainstCurrent | Scripts/SourcesCoreBrewServiceManager.swift:127-133 | Where the current `runService` succeeds, the older one returns the same stdout. Where the current one fails with decodable stderr, the older one carries that stderr untrimmed. |
| Cli.ExitCode | Sources/CLI/CLI.swift:28-41 | brewNotFound → 2, executionFailed → 3, invalidOutput → 4, operationCancelled → 130, requiresAuthentication → 77, in both directions; none is 0 or 1, and all fit `Int32`. |
| Cli.ExitCodesDistinct | Sources/CLI/CLI.swift:28-41 | Two errors share an exit status exactly when they are the same case. |
| Cli.RunTool | Sources/CLI/CLI.swift:6-26 | JSON is printed exactly when the listing and the encoding succeed. A `BrewError` exits with its code. Status 1 is used exactly for another error or an encoder that throws. An undecodable JSON text exits with status 4, the status of `invalidOutput`. |
| Cli.RunToolOnServicesList | Sources/CLI/CLI.swift:9-24 | The tool exits with 3 exactly when `brew` fails without asking for authentication, with 77 exactly when it asks, and never with 2 or 130. |
| ServiceListViewModel.Refresh | Sources/App/ViewModels/ServiceListViewModel.swift:21-33 | `isLoading` ends false. Success replaces the list and clears the error. Failure keeps the list and sets the error's description. Nothing else changes. |
| ServiceListViewModel.RefreshIdempotent | Sources/App/ViewModels/ServiceListViewModel.swift:21-33 | Refreshing twice with the same result is refreshing once. |
| ServiceListViewModel.RefreshLastSuccessWins | Sources/App/ViewModels/ServiceListViewModel.swift:26-32 | A successful refresh erases all earlier refreshes. A failed one keeps the previously stored list and replaces only the error. |
| ServiceListViewModel.Perform | Sources/App/ViewModels/ServiceListViewModel.swift:41-72 | `actionInProgress` ends false and `lastActionMessage` nil. A failure leaves list, error and loading flag alone, while a success refreshes. The menu bar leaves the toast alone and sends one notification. The main window sets a toast and sends none. |
| ServiceListViewModel.PerformFailureIgnoresRefresh | Sources/App/ViewModels/ServiceListViewModel.swift:56-71 | A failed action does not depend on what a refresh would fetch: it never refreshes. |
| ServiceListViewModel.PerformSuccessRefreshes | Sources/App/ViewModels/ServiceListViewModel.swift:46-56 | A successful action ends in the state a plain refresh reaches from the state with its toast reported. |
| ServiceListViewModel.SuccessMessageNames | Sources/App/ViewModels/ServiceListViewModel.swift:49 | The success toast contains the action and the service name. |
| ServiceListViewModel.FailureMessageNames | Sources/App/ViewModels/ServiceListViewModel.swift:62 | The `BrewError` toast contains the action, the service name and the error's description. |
| ServiceListViewModel.OtherFailureMessageNames | Sources/App/ViewModels/ServiceListViewModel.swift:65 | The message for any other error contains the action and the service name. |
| ServiceListViewModel.ToastNamesActionAndService | Sources/App/ViewModels/ServiceListViewModel.swift:49-70 | From the main window every outcome's toast names the action and the service, and a `BrewError` toast carries its description. |
| ServiceListViewModel.SourcesReportAlike | Sources/App/ViewModels/ServiceListViewModel.swift:49-70 | Menu bar and main window end with the same list and error. The notification of a success is "✓ action" with the service name. The notification body of another error is the main window's toast text. |
| ServiceListViewModel.PerformNeedsAuthentication | Sources/App/ViewModels/ServiceListViewModel.swift:57-63 | A run that asks for authentication ends in a toast describing `requiresAuthentication` of the exact command, and the list stays as it was. |
| ServiceListViewModel.ClearToast | Sources/App/ViewModels/ServiceListViewModel.swift:74-76 | The toast is cleared and nothing else changes. |
| ServiceListViewModel.ClearToastCommutes | Sources/App/ViewModels/ServiceListViewModel.swift:74-76 | Clearing is idempotent and commutes with refreshing, and a main-window action overrides any earlier toast. |
| Palette.PopoverDot | Sources/App/Views/MenuBarPopoverView.swift:400-411 | In the lower-cased status, "start" gives green, else "error" gives red, else "none" or "stopped" gives gray, else orange. Each colour is stated as an if-and-only-if. |
| Palette.DetailDot | Sources/App/Views/ServiceDetailView.swift:51-57 | The same priority order as the popover, with yellow as the fallback. The extra "started" test never changes the colour. |
| Palette.RowText | Scripts/SourcesAppServiceListView.swift:11 | The row text is green exactly when the lower-cased status contains "started", red exactly when it contains "error" but not "started", and otherwise secondary. |
| Palette.DotsAgree | Scripts/SourcesAppServiceListView.swift:121-127 | The detail/list dot equals the popover dot except that the fallback is yellow, not orange. It is green exactly when the status contains "start", so the extra "started" test changes nothing. |
| Palette.TextAgreesWithDot | Scripts/SourcesAppServiceListView.swift:11 | Green text implies green dots. Red text implies a red dot, unless the status contains "start". |
| Palette.StartIsGreenDotOnly | Scripts/SourcesAppServiceListView.swift:11 | The status "start" shows a green dot next to secondary text. |
| Palette.RowTextMatchesAutostart | Scripts/SourcesAppServiceListView.swift:11 | For every parsed record, the row text is green exactly when the record is autostarted. |
| Search.Filter | Sources/App/Views/MenuBarPopoverView.swift:16-21 | An empty query shows the whole list, and the result is never longer than the list. |
| Search.MatchingExactly | Sources/App/Views/MenuBarPopoverView.swift:20 | The filtered list is an order-preserving subsequence, and holds exactly the services whose name contains the query, ignoring case. |
| Search.FilterExactly | Scripts/SourcesAppServiceListView.swift:27-30 | For `filtered`: the empty query gives the whole list. Any other query gives an order-preserving subsequence holding exactly the services whose name contains it, ignoring case. |
| Search.MatchingEmptyQuery | Sources/App/Views/MenuBarPopoverView.swift:17-20 | No name contains the empty query, so the filter alone would keep nothing. The `isEmpty` shortcut is what shows the whole list. |
| Search.FilterAppend | Sources/App/Views/MenuBarPopoverView.swift:20 | Filtering distributes over concatenation, so each occurrence is kept or dropped on its own. |
| Search.FilterIdempotent | Sources/App/Views/MenuBarPopoverView.swift:16-21 | Filtering twice with the same query is filtering once. |
| MenuBarPopover.Shown | Sources/App/Views/MenuBarPopoverView.swift:33-41 | A selection shows its detail. The spinner shows exactly when nothing is selected, the first load has not ended and loading is on. An empty filter result shows the empty view. Otherwise the filtered list shows. |
| MenuBarPopover.ShownWithoutQuery | Sources/App/Views/MenuBarPopoverView.swift:33-41 | After the first load, with no selection and no query, the popover shows every service, or the empty view when there are none. |
| MenuBarPopover.OnServicesChange | Sources/App/Views/MenuBarPopoverView.swift:50-54 | Only `isInitialLoad` can change, and it never rises. |
| MenuBarPopover.LatchStaysUp | Sources/App/Views/MenuBarPopoverView.swift:50-54 | `isInitialLoad` stays up exactly as long as every observed change of the list was to an empty list, and nothing else changes. |
| MenuBarPopover.LatchNeverRises | Sources/App/Views/MenuBarPopoverView.swift:50-54 | Once lowered, `isInitialLoad` stays down, so the spinner never returns. |
| MenuBarPopover.Back | Sources/App/Views/MenuBarPopoverView.swift:63-66 | The back button clears the selection, the operation and its status, and keeps the search text and the latch. |
| MenuBarPopover.Press | Sources/App/Views/MenuBarPopoverView.swift:182-184 | A disabled button does nothing. An enabled one records its action and status line, which disables all three. |
| MenuBarPopover.ActionFinished | Sources/App/Views/MenuBarPopoverView.swift:187-188 | After `perform` the operation and its status are cleared and the selection is kept. |
| MenuBarPopover.PauseOver | Sources/App/Views/MenuBarPopoverView.swift:189-190 | After the pause the detail pane closes. |
| MenuBarPopover.OneOperationAtATime | Sources/App/Views/MenuBarPopoverView.swift:182-216 | While an operation runs, pressing any button changes nothing. |
| MenuBarPopover.ActionEndsLikeBack | Sources/App/Views/MenuBarPopoverView.swift:185-190 | A completed action ends where the back button leads, and the back button undoes a press entirely. |
| ServiceDetail.PidLineRoundTrip | Sources/App/Views/ServiceDetailView.swift:26 | The pid line gives back its pid, a missing pid ("-") included. |
| ServiceDetail.AutostartLineInjective | Sources/App/Views/ServiceDetailView.swift:27 | "Yes" and "No" tell the two autostart values apart. |
| ServiceDetail.VersionLineAmbiguity | Sources/App/Views/ServiceDetailView.swift:28 | Present versions are told apart, but a missing version and the version "-" read the same. |
| ServiceDetail.DetailLinesTellApart | Sources/App/Views/ServiceDetailView.swift:25-28 | Two services with the same four lines have the same user, pid and autostart flag, and the same version when both have one. |
| ServiceListView.OnToast | Scripts/SourcesAppServiceListView.swift:98-107 | The flag is raised exactly when a toast message is published. |
| ServiceListView.Overlay | Scripts/SourcesAppServiceListView.swift:109-117 | With the flag up, the overlay shows the current toast, if there is one. With the flag down, it shows nothing. |
| ServiceListView.OverlayShowsToast | Scripts/SourcesAppServiceListView.swift:98-117 | With the flag following the published message, the overlay shows exactly that message. |
| ServiceListView.FlagFollowsViewModel | Scripts/SourcesAppServiceListView.swift:98-107 | A main-window action always raises the flag and clearing lowers it. Menu-bar actions and refreshes leave it unchanged. |

## Left out

- Starting `brew`, the pipes, `waitUntilExit` and reading the file handles are left out
  (Sources/Core/BrewServiceManager.swift:76-91, Scripts/SourcesCoreBrewServiceManager.swift:25-38,
  112-125). A run is the `ProcessOutcome` it produced, and UTF-8 decoding is its `Option` fields.
- `FileManager.isExecutableFile` is an uninterpreted predicate parameter.
- `async`, `Task.detached`, `Task.sleep` and `@MainActor` are not modelled. Each `refresh` and
  `perform` is one atomic step, so interleavings of concurrent calls are not modelled. The
  cancellation error of `Task.sleep(nanoseconds: 0)` is one more `Other` failure.
- The current `servicesList` and `executeBrewCommand` check `brewPath() != nil` before running
  `brew`. `CoreManager.BrewPath` proves that path is never nil, so `brewNotFound` is never
  produced; `Cli.ExitCode` still maps it. The same holds for the older version's guards.
- `NotificationsManager.send` is not delivered: `perform` returns the notifications it would send
  as (title, body) records.
- `BrewError.errorDescription` and `recoverySuggestion` are localised text, so the description of a
  `BrewError` is an opaque parameter `describe`. The description of any other error (Swift's
  `String(describing:)`) is an abstract string carried by `Failure.Other`.
- The command-line tool's printing to stdout and stderr is not modelled. `JSONEncoder` is an
  abstract `Encoding`: the text, bytes that are not UTF-8, or a thrown error.
- The older command-line entry point (Scripts/SourcesCLImain.swift) is not part of this model.
- `refreshSync` (Sources/App/ViewModels/ServiceListViewModel.swift:35-39) only starts a task
  that runs `refresh`, so it is not modelled separately.
- `lowercased()` and `localizedCaseInsensitiveContains` are locale-sensitive, but the model
  folds ASCII letters only. Unicode case folding and locale rules are not modelled.
- Grapheme clusters other than `"\r\n"` are not modelled. A combining mark after a space
  would merge with it into one Swift `Character`, and the model treats the two scalars
  separately.
- A regular expression that fails to compile is not modelled: the pattern is a constant that
  compiles, so that branch of the older parser (`return []`) and the `regex?` of the current one
  are unreachable.
- The popover's information rows (Sources/App/Views/MenuBarPopoverView.swift:130-138), the
  progress view shown while an operation runs, hovering, the pulse animation and all layout
  are not modelled.
- `getServicePlist` and `getServiceLogsDirectory` are called by the popover but not defined in the
  repository's files, so the configuration and log buttons are not modelled.
- The main window's automatic `clearToast()` three seconds after a toast is not modelled as a
  timer. `ServiceListView.FlagFollowsViewModel` states what the clear does to the flag.
- The half-second pause between finishing an action and closing the detail pane is split into
  two steps, `MenuBarPopover.ActionFinished` and `MenuBarPopover.PauseOver`. Other events that
  arrive between them are not modelled.
- `MenuBarPopover.OnServicesChange` models SwiftUI's `onChange`, which runs only when the list
  changed. The latch therefore stays up when the popover is created with a list that is already
  non-empty.
