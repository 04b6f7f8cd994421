/** The hand-written `ui` reducer (src/store/ui.slide.js): it handles only the
    "ui/toggleSidebar" action, by spreading the state with the flag negated. */
module UiSlide {
  import opened Wrappers
  import opened Json
  import opened UiState
  import UiSlice

  /** `toggleSidebar()`: the action object `{ type: "ui/toggleSidebar" }`. */
  function ToggleSidebar(): (a: Action)
    ensures a.kind == ToggleSidebarType && a.payload == None
  {
    Action(ToggleSidebarType, None)
  }

  /** `uiReducer(state = initialState, action)` */
  function Reducer(s: Option<State>, a: Action): (r: State)
    ensures a.kind == ToggleSidebarType ==> SidebarOpen(r) == Some(JBool(!Truthy(SidebarOpen(OrInitial(s)))))
    ensures a.kind == ToggleSidebarType ==> forall k :: k in OrInitial(s) && k != SidebarKey ==> k in r && r[k] == OrInitial(s)[k]
    ensures a.kind != ToggleSidebarType ==> r == OrInitial(s)
  {
    var state := OrInitial(s);
    if a.kind == ToggleSidebarType then state[SidebarKey := Some(JBool(!Truthy(SidebarOpen(state))))]
    else state
  }

  /** Both modules' creators make the same toggle action, and both reducers treat it
      alike. */
  lemma TogglesAgree(s: Option<State>)
    ensures ToggleSidebar() == UiSlice.ToggleSidebar()
    ensures Reducer(s, ToggleSidebar()) == UiSlice.Reducer(s, UiSlice.ToggleSidebar())
  {
  }

  /** The reducers differ on `setSidebarOpen`, which this one ignores. */
  lemma SetSidebarOpenIgnored(s: State, payload: Val)
    ensures Reducer(Some(s), UiSlice.SetSidebarOpen(payload)) == s
  {
  }

  /** Dispatching the toggle twice gives a boolean flag back. */
  lemma ToggleTwice(s: State)
    requires SidebarOpen(s).Some? && SidebarOpen(s).value.JBool?
    ensures Reducer(Some(Reducer(Some(s), ToggleSidebar())), ToggleSidebar()) == s
  {
    NegatedTwice(s);
  }

  /** The sidebar starts open. */
  lemma InitiallyOpen(a: Action)
    requires a.kind != ToggleSidebarType
    ensures SidebarOpen(Reducer(None, a)) == Some(JBool(true))
  {
  }
}
