/** `MenuBarPopoverView`: which content the popover shows, the `isInitialLoad` latch, the back
    button of the detail pane and its three action buttons. Only the view's own `@State`
    fields are modelled; the view model's `services` and `isLoading` are passed in. */
module MenuBarPopover {
  import opened Basics
  import opened Models
  import opened Search

  /** The view's own state. */
  datatype Popover = Popover(
    searchText: string,
    selectedService: Option<BrewService>,
    operationInProgress: Option<string>,
    operationStatus: string,
    isInitialLoad: bool)

  /** The state a freshly created popover starts in. */
  const Opened: Popover := Popover("", None, None, "", true)

  /** What the middle of the popover shows. */
  datatype Content =
    | Detail(service: BrewService)
    | Loading
    | EmptyList
    | ServiceList(shown: seq<BrewService>)

  // ---------------------------------------------------------------------------------------
  // Content selection
  // ---------------------------------------------------------------------------------------

  /** The `if`/`else if` chain of `body`: a selected service wins, the spinner is shown only
      while the very first load is running, and an empty search result gets its own view. */
  function Shown(p: Popover, services: seq<BrewService>, isLoading: bool): (c: Content)
    ensures c.Detail? <==> p.selectedService.Some?
    ensures c.Detail? ==> c.service == p.selectedService.value
    ensures c.Loading? <==> p.selectedService.None? && p.isInitialLoad && isLoading
    ensures c.ServiceList? ==> c.shown == Filter(services, p.searchText) && c.shown != []
    ensures c.EmptyList? ==> Filter(services, p.searchText) == []
  {
    if p.selectedService.Some? then Detail(p.selectedService.value)
    else if p.isInitialLoad && isLoading then Loading
    else if Filter(services, p.searchText) == [] then EmptyList
    else ServiceList(Filter(services, p.searchText))
  }

  /** With nothing selected and no search text, once the first load is over the popover lists
      every service, or says there are none. */
  lemma ShownWithoutQuery(p: Popover, services: seq<BrewService>, isLoading: bool)
    requires p.selectedService.None? && p.searchText == [] && !p.isInitialLoad
    ensures Shown(p, services, isLoading) == if services == [] then EmptyList else ServiceList(services)
  {
  }

  // ---------------------------------------------------------------------------------------
  // The isInitialLoad latch
  // ---------------------------------------------------------------------------------------

  /** `.onChange(of: viewModel.services)`: the action runs only when the list changed, and
      it lowers `isInitialLoad` when the new list is non-empty. Nothing ever raises it. */
  function OnServicesChange(p: Popover, previous: seq<BrewService>, current: seq<BrewService>): (r: Popover)
    ensures r == p.(isInitialLoad := r.isInitialLoad)
    ensures r.isInitialLoad ==> p.isInitialLoad
  {
    if previous == current then p
    else if p.isInitialLoad && current != [] then p.(isInitialLoad := false)
    else p
  }

  /** The list the `i`-th observed value replaced. */
  function Before(previous: seq<BrewService>, history: seq<seq<BrewService>>, i: nat): seq<BrewService>
    requires i < |history|
  {
    if i == 0 then previous else history[i - 1]
  }

  /** The popover after observing the lists in `history`, starting from `previous`. */
  function Observe(p: Popover, previous: seq<BrewService>, history: seq<seq<BrewService>>): Popover
    decreases |history|
  {
    if history == [] then p
    else Observe(OnServicesChange(p, previous, history[0]), history[0], history[1..])
  }

  /** The latch stays up exactly as long as every change of the list was to an empty list, and
      observing changes nothing else. A list that is already non-empty when the popover is
      created does not lower it, since no change is observed. */
  lemma {:induction false} LatchStaysUp(p: Popover, previous: seq<BrewService>,
                                        history: seq<seq<BrewService>>)
    ensures var q := Observe(p, previous, history);
      && q == p.(isInitialLoad := q.isInitialLoad)
      && (q.isInitialLoad <==>
            p.isInitialLoad
            && forall i :: 0 <= i < |history| ==>
                 history[i] == [] || history[i] == Before(previous, history, i))
    decreases |history|
  {
    if history != [] {
      var p' := OnServicesChange(p, previous, history[0]);
      LatchStaysUp(p', history[0], history[1..]);
      forall i | 1 <= i < |history|
        ensures history[i] == history[1..][i - 1]
        ensures Before(previous, history, i) == Before(history[0], history[1..], i - 1)
      {
      }
      if Observe(p, previous, history).isInitialLoad {
        forall i | 0 <= i < |history|
          ensures history[i] == [] || history[i] == Before(previous, history, i)
        {
          if i > 0 {
            assert history[1..][i - 1] == [] || history[1..][i - 1] == Before(history[0], history[1..], i - 1);
          }
        }
      } else if p.isInitialLoad {
        if p'.isInitialLoad {
          var j :| 0 <= j < |history[1..]|
            && !(history[1..][j] == [] || history[1..][j] == Before(history[0], history[1..], j));
          assert !(history[j + 1] == [] || history[j + 1] == Before(previous, history, j + 1));
        } else {
          assert !(history[0] == [] || history[0] == Before(previous, history, 0));
        }
      }
    }
  }

  /** Once lowered the latch stays down, so the spinner never comes back. */
  lemma {:induction false} LatchNeverRises(p: Popover, previous: seq<BrewService>,
                                           history: seq<seq<BrewService>>,
                                           services: seq<BrewService>, isLoading: bool)
    requires !p.isInitialLoad
    ensures !Observe(p, previous, history).isInitialLoad
    ensures Shown(Observe(p, previous, history), services, isLoading) != Loading
  {
    LatchStaysUp(p, previous, history);
  }

  // ---------------------------------------------------------------------------------------
  // The detail pane
  // ---------------------------------------------------------------------------------------

  /** The back button. */
  function Back(p: Popover): (r: Popover)
    ensures r.selectedService == None && r.operationInProgress == None && r.operationStatus == ""
    ensures r.searchText == p.searchText && r.isInitialLoad == p.isInitialLoad
  {
    p.(selectedService := None, operationInProgress := None, operationStatus := "")
  }

  /** The three buttons of the detail pane. */
  datatype DetailAction = StartAction | StopAction | RestartAction

  /** The action name handed to `perform`. */
  function ActionName(a: DetailAction): string
  {
    match a
    case StartAction => "start"
    case StopAction => "stop"
    case RestartAction => "restart"
  }

  /** The status line shown while the action runs. */
  function StatusText(a: DetailAction): string
  {
    match a
    case StartAction => "Запуск сервиса..."
    case StopAction => "Остановка сервиса..."
    case RestartAction => "Перезагрузка сервиса..."
  }

  /** The buttons are disabled while an operation is in progress. */
  predicate ButtonsDisabled(p: Popover)
  {
    p.operationInProgress.Some?
  }

  /** Pressing a button: a disabled button does nothing; an enabled one records the operation
      and its status line, which disables all three. */
  function Press(p: Popover, a: DetailAction): (r: Popover)
    ensures ButtonsDisabled(p) ==> r == p
    ensures !ButtonsDisabled(p) ==>
      && ButtonsDisabled(r)
      && r.operationInProgress == Some(ActionName(a)) && r.operationStatus == StatusText(a)
    ensures r.selectedService == p.selectedService && r.searchText == p.searchText
    ensures r.isInitialLoad == p.isInitialLoad
  {
    if ButtonsDisabled(p) then p
    else p.(operationInProgress := Some(ActionName(a)), operationStatus := StatusText(a))
  }

  /** What the Swift `Task` does once `perform` returned: the operation is cleared. */
  function ActionFinished(p: Popover): (r: Popover)
    ensures r.operationInProgress == None && r.operationStatus == ""
    ensures r.selectedService == p.selectedService
  {
    p.(operationInProgress := None, operationStatus := "")
  }

  /** And after the half-second pause: the detail pane is closed. */
  function PauseOver(p: Popover): (r: Popover)
    ensures r.selectedService == None
    ensures r.operationInProgress == p.operationInProgress
  {
    p.(selectedService := None)
  }

  /** While one operation runs, a second press of any button is ignored. */
  lemma OneOperationAtATime(p: Popover, a: DetailAction, b: DetailAction)
    ensures Press(Press(p, a), b) == Press(p, a)
    ensures !ButtonsDisabled(p) ==> Press(p, a).operationInProgress == Some(ActionName(a))
  {
  }

  /** A completed action ends where the back button would have taken the popover, and the
      back button undoes a press entirely. */
  lemma ActionEndsLikeBack(p: Popover, a: DetailAction)
    ensures PauseOver(ActionFinished(Press(p, a))) == Back(p)
    ensures Back(Press(p, a)) == Back(p)
    ensures !ButtonsDisabled(Back(p))
  {
  }
}
