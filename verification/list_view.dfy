/** The toast overlay of the main window (`ServiceListView`): the view keeps a flag,
    `showingActionResult`, that follows the view model's `toastMessage`. The list's filter is
    `Search.Filter`, its dots `Palette.DetailDot` and its row text `Palette.RowText`. */
module ServiceListView {
  import opened Basics
  import opened Models
  import opened CoreManager
  import opened ServiceListViewModel

  /** `.onReceive(viewModel.$toastMessage)`: the flag is raised for a message and lowered for
      `nil`. Scheduling the automatic `clearToast()` is left to the caller. */
  function OnToast(toast: Option<string>): (showing: bool)
    ensures showing <==> toast != None
  {
    toast.Some?
  }

  /** The overlay: the message, when the flag is up and there is one. */
  function Overlay(showing: bool, toast: Option<string>): (shown: Option<string>)
    ensures showing ==> shown == toast
    ensures !showing ==> shown == None
  {
    if showing && toast.Some? then toast else None
  }

  /** With the flag following the published message, the overlay shows exactly that message. */
  lemma OverlayShowsToast(toast: Option<string>)
    ensures Overlay(OnToast(toast), toast) == toast
  {
  }

  /** An action from the main window always raises the flag, the automatic clear always
      lowers it, and refreshes and actions from the menu bar leave it as it was. */
  lemma FlagFollowsViewModel(st: State, action: string, service: BrewService,
                             run: Result<string, Failure>,
                             fetched: Result<seq<BrewService>, Failure>,
                             describe: BrewError -> string)
    ensures OnToast(Perform(st, action, service, App, run, fetched, describe).state.toastMessage)
    ensures !OnToast(ClearToast(st).toastMessage)
    ensures OnToast(Perform(st, action, service, MenuBar, run, fetched, describe).state.toastMessage)
      == OnToast(st.toastMessage)
    ensures OnToast(Refresh(st, fetched, describe).toastMessage) == OnToast(st.toastMessage)
  {
  }
}
