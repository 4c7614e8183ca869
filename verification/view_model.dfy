/** `ServiceListViewModel`: the published fields of the application's view model and the
    three transitions that change them. Each `async` call is one atomic step; the manager call
    inside it is given as the result it produced, and a notification sent to the user is
    returned as a record instead of being delivered. */
module ServiceListViewModel {
  import opened Basics
  import opened Text
  import opened Models
  import opened CoreManager

  /** The published fields. */
  datatype State = State(
    services: seq<BrewService>,
    selectedService: Option<BrewService>,
    isLoading: bool,
    errorMessage: Option<string>,
    actionInProgress: bool,
    lastActionMessage: Option<string>,
    toastMessage: Option<string>)

  /** The state a fresh view model starts in. */
  const Initial: State := State([], None, false, None, false, None, None)

  /** Where an action was requested: the main window or the menu-bar popover. */
  datatype ActionSource = App | MenuBar

  /** A user notification: its title and body. */
  datatype Notification = Notification(title: string, body: string)

  /** The state after `perform` together with the notifications it sent. */
  datatype Outcome = Outcome(state: State, notifications: seq<Notification>)

  /** The text shown for an error: a `BrewError`'s `errorDescription` (its localised strings are
      left abstract as `describe`), or whatever another error describes itself as. */
  function Description(f: Failure, describe: BrewError -> string): string
  {
    match f
    case Brew(e) => describe(e)
    case Other(description) => description
  }

  // ---------------------------------------------------------------------------------------
  // refresh
  // ---------------------------------------------------------------------------------------

  /** `refresh()`: clears the error and raises `isLoading`, then stores the fetched list or the
      error's description; the deferred reset leaves `isLoading` false on both paths. */
  function Refresh(st: State, fetched: Result<seq<BrewService>, Failure>,
                   describe: BrewError -> string): (r: State)
    ensures !r.isLoading
    ensures fetched.Ok? ==> r.services == fetched.value && r.errorMessage == None
    ensures fetched.Err? ==>
      r.services == st.services && r.errorMessage == Some(Description(fetched.error, describe))
    ensures r.selectedService == st.selectedService && r.actionInProgress == st.actionInProgress
    ensures r.lastActionMessage == st.lastActionMessage && r.toastMessage == st.toastMessage
  {
    var entered := st.(isLoading := true, errorMessage := None);
    var stored :=
      match fetched
      case Ok(list) => entered.(services := list)
      case Err(f) => entered.(errorMessage := Some(Description(f, describe)));
    stored.(isLoading := false)
  }

  /** Refreshing twice with the same result is refreshing once. */
  lemma RefreshIdempotent(st: State, fetched: Result<seq<BrewService>, Failure>,
                          describe: BrewError -> string)
    ensures Refresh(Refresh(st, fetched, describe), fetched, describe) == Refresh(st, fetched, describe)
  {
  }

  /** A successful refresh erases every trace of the refreshes before it, failed or not; a
      failed refresh keeps the list the previous one stored and only replaces the error. */
  lemma RefreshLastSuccessWins(st: State, earlier: Result<seq<BrewService>, Failure>,
                               list: seq<BrewService>, f: Failure, describe: BrewError -> string)
    ensures Refresh(Refresh(st, earlier, describe), Ok(list), describe) == Refresh(st, Ok(list), describe)
    ensures Refresh(Refresh(st, Ok(list), describe), Err(f), describe).services == list
    ensures Refresh(Refresh(st, earlier, describe), Err(f), describe).errorMessage
      == Refresh(st, Err(f), describe).errorMessage
  {
  }

  // ---------------------------------------------------------------------------------------
  // perform
  // ---------------------------------------------------------------------------------------

  /** The toast of a successful action started from the main window. */
  function SuccessMessage(action: string, name: string): string
  {
    "✓ Действие '" + action + "' для '" + name + "' выполнено"
  }

  /** The toast of an action that failed with a `BrewError`. */
  function FailureMessage(action: string, name: string, description: string): string
  {
    "✗ " + action + " на '" + name + "' не удалась: " + description
  }

  /** The message of an action that failed with any other error; the error itself is dropped. */
  function OtherFailureMessage(action: string, name: string): string
  {
    "Ошибка при выполнении " + action + " на " + name
  }

  /** Report the result of an action: as a toast for the main window, as a notification for the
      menu bar. */
  function Report(st: State, source: ActionSource, toast: string, note: Notification): (r: Outcome)
    ensures source == App ==> r == Outcome(st.(toastMessage := Some(toast)), [])
    ensures source == MenuBar ==> r == Outcome(st, [note])
  {
    if source == MenuBar then Outcome(st, [note]) else Outcome(st.(toastMessage := Some(toast)), [])
  }

  /** `perform(action:for:source:)`. `run` is what `runService` returned or threw and `fetched`
      what the `refresh` that follows a success fetched. `actionInProgress` is raised on entry
      and lowered by the deferred reset, `lastActionMessage` is cleared, and only a successful
      action refreshes the list. */
  function Perform(st: State, action: string, service: BrewService, source: ActionSource,
                   run: Result<string, Failure>, fetched: Result<seq<BrewService>, Failure>,
                   describe: BrewError -> string): (r: Outcome)
    ensures !r.state.actionInProgress && r.state.lastActionMessage == None
    ensures r.state.selectedService == st.selectedService
    ensures run.Err? ==>
      && r.state.services == st.services && r.state.errorMessage == st.errorMessage
      && r.state.isLoading == st.isLoading
    ensures run.Ok? ==>
      && !r.state.isLoading
      && r.state.services == (if fetched.Ok? then fetched.value else st.services)
      && r.state.errorMessage == (if fetched.Ok? then None else Some(Description(fetched.error, describe)))
    ensures source == MenuBar ==> r.state.toastMessage == st.toastMessage && |r.notifications| == 1
    ensures source == App ==> r.notifications == [] && r.state.toastMessage.Some?
  {
    var entered := st.(actionInProgress := true, lastActionMessage := None);
    var reported :=
      match run
      case Ok(_) =>
        var told := Report(entered, source, SuccessMessage(action, service.name),
                           Notification("✓ " + action, service.name));
        Outcome(Refresh(told.state, fetched, describe), told.notifications)
      case Err(Brew(e)) =>
        Report(entered, source, FailureMessage(action, service.name, describe(e)),
               Notification("✗ Ошибка " + action, service.name + ": " + describe(e)))
      case Err(Other(_)) =>
        var message := OtherFailureMessage(action, service.name);
        Report(entered, source, message, Notification("✗ Ошибка", message));
    reported.(state := reported.state.(actionInProgress := false))
  }

  /** A failed action never looks at what a refresh would have fetched. */
  lemma PerformFailureIgnoresRefresh(st: State, action: string, service: BrewService,
                                     source: ActionSource, f: Failure,
                                     a: Result<seq<BrewService>, Failure>,
                                     b: Result<seq<BrewService>, Failure>,
                                     describe: BrewError -> string)
    ensures Perform(st, action, service, source, Err(f), a, describe)
      == Perform(st, action, service, source, Err(f), b, describe)
  {
  }

  /** A successful action ends in the state a plain refresh reaches from the reported state. */
  lemma PerformSuccessRefreshes(st: State, action: string, service: BrewService,
                                source: ActionSource, output: string,
                                fetched: Result<seq<BrewService>, Failure>,
                                describe: BrewError -> string)
    ensures var r := Perform(st, action, service, source, Ok(output), fetched, describe);
      var toast := if source == App then Some(SuccessMessage(action, service.name)) else st.toastMessage;
      r.state == Refresh(st.(actionInProgress := false, lastActionMessage := None, toastMessage := toast),
                       fetched, describe)
  {
  }

  /** The success toast names the action and the service. */
  lemma SuccessMessageNames(action: string, name: string)
    ensures Contains(SuccessMessage(action, name), action)
    ensures Contains(SuccessMessage(action, name), name)
  {
    var m := SuccessMessage(action, name);
    assert m == "✓ Действие '" + action + ("' для '" + name + "' выполнено");
    ContainsMiddle("✓ Действие '", action, "' для '" + name + "' выполнено");
    assert m == ("✓ Действие '" + action + "' для '") + name + "' выполнено";
    ContainsMiddle("✓ Действие '" + action + "' для '", name, "' выполнено");
  }

  /** The failure toast names the action and the service and carries the description. */
  lemma FailureMessageNames(action: string, name: string, d: string)
    ensures Contains(FailureMessage(action, name, d), action)
    ensures Contains(FailureMessage(action, name, d), name)
    ensures Contains(FailureMessage(action, name, d), d)
  {
    var m := FailureMessage(action, name, d);
    assert m == "✗ " + action + (" на '" + name + "' не удалась: " + d);
    ContainsMiddle("✗ ", action, " на '" + name + "' не удалась: " + d);
    assert m == ("✗ " + action + " на '") + name + ("' не удалась: " + d);
    ContainsMiddle("✗ " + action + " на '", name, "' не удалась: " + d);
    assert m == ("✗ " + action + " на '" + name + "' не удалась: ") + d + "";
    ContainsMiddle("✗ " + action + " на '" + name + "' не удалась: ", d, "");
  }

  /** The message of any other failure names the action and the service. */
  lemma OtherFailureMessageNames(action: string, name: string)
    ensures Contains(OtherFailureMessage(action, name), action)
    ensures Contains(OtherFailureMessage(action, name), name)
  {
    var m := OtherFailureMessage(action, name);
    assert m == "Ошибка при выполнении " + action + (" на " + name);
    ContainsMiddle("Ошибка при выполнении ", action, " на " + name);
    assert m == ("Ошибка при выполнении " + action + " на ") + name + "";
    ContainsMiddle("Ошибка при выполнении " + action + " на ", name, "");
  }

  /** From the main window, every toast names the action and the service, and the toast of a
      `BrewError` failure also carries the error's description. */
  lemma ToastNamesActionAndService(st: State, action: string, service: BrewService,
                                   run: Result<string, Failure>,
                                   fetched: Result<seq<BrewService>, Failure>,
                                   describe: BrewError -> string)
    ensures var toast := Perform(st, action, service, App, run, fetched, describe).state.toastMessage.value;
      && Contains(toast, action) && Contains(toast, service.name)
      && (run.Err? && run.error.Brew? ==> Contains(toast, describe(run.error.error)))
  {
    match run
    case Ok(_) => SuccessMessageNames(action, service.name);
    case Err(Brew(e)) => FailureMessageNames(action, service.name, describe(e));
    case Err(Other(_)) => OtherFailureMessageNames(action, service.name);
  }

  /** The menu bar and the main window report the same action alike: the notification body of a
      failure that is not a `BrewError` is the toast, and a success is announced by its
      action and the service name. */
  lemma SourcesReportAlike(st: State, action: string, service: BrewService,
                           run: Result<string, Failure>,
                           fetched: Result<seq<BrewService>, Failure>,
                           describe: BrewError -> string)
    ensures var app := Perform(st, action, service, App, run, fetched, describe);
      var bar := Perform(st, action, service, MenuBar, run, fetched, describe);
      && (run.Err? && run.error.Other? ==>
            bar.notifications == [Notification("✗ Ошибка", app.state.toastMessage.value)])
      && (run.Ok? ==> bar.notifications == [Notification("✓ " + action, service.name)])
      && app.state.services == bar.state.services
      && app.state.errorMessage == bar.state.errorMessage
  {
  }

  /** The whole chain for an action that needs an administrator: the manager classifies the
      failed run, and the toast carries the description of that classification. */
  lemma PerformNeedsAuthentication(st: State, action: string, service: BrewService,
                                   outcome: ProcessOutcome,
                                   fetched: Result<seq<BrewService>, Failure>,
                                   describe: BrewError -> string)
    requires outcome.Exited? && outcome.status != 0
    requires Contains(ErrorText(outcome.stderr), "requires authentication")
    ensures var run := RunCommand(RunService(action, service.name), outcome);
      var r := Perform(st, action, service, App, run, fetched, describe);
      var e := RequiresAuthentication("services" + " " + (action + " " + service.name));
      && r.state.toastMessage == Some(FailureMessage(action, service.name, describe(e)))
      && r.state.services == st.services
  {
    RunCommandAuthentication(action, service.name, outcome);
  }

  // ---------------------------------------------------------------------------------------
  // clearToast
  // ---------------------------------------------------------------------------------------

  /** `clearToast()`. */
  function ClearToast(st: State): (r: State)
    ensures r.toastMessage == None
    ensures r.(toastMessage := st.toastMessage) == st
  {
    st.(toastMessage := None)
  }

  /** Clearing is idempotent and independent of refreshing, and a toast from the main window
      replaces whatever toast was showing. */
  lemma ClearToastCommutes(st: State, fetched: Result<seq<BrewService>, Failure>,
                           action: string, service: BrewService, run: Result<string, Failure>,
                           describe: BrewError -> string)
    ensures ClearToast(ClearToast(st)) == ClearToast(st)
    ensures ClearToast(Refresh(st, fetched, describe)) == Refresh(ClearToast(st), fetched, describe)
    ensures Perform(ClearToast(st), action, service, App, run, fetched, describe)
      == Perform(st, action, service, App, run, fetched, describe)
  {
  }
}
