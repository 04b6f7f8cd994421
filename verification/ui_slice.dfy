/** The `ui` slice created with Redux Toolkit (src/store/ui.slice.js): the
    `toggleSidebar` and `setSidebarOpen` case reducers and their action creators. */
module UiSlice {
  import opened Wrappers
  import opened Json
  import opened UiState

  const SetSidebarOpenType: string := "ui/setSidebarOpen"

  /** The generated action creators: `toggleSidebar()` carries no payload. */
  function ToggleSidebar(): (a: Action)
    ensures a.kind == ToggleSidebarType && a.payload == None
  {
    Action(ToggleSidebarType, None)
  }

  function SetSidebarOpen(payload: Val): (a: Action)
    ensures a.kind == SetSidebarOpenType && a.payload == payload
  {
    Action(SetSidebarOpenType, payload)
  }

  /** `state.isSidebarOpen = action.payload`, the rest of the state kept. */
  function SetOpen(s: State, payload: Val): (r: State)
    ensures SidebarOpen(r) == payload
    ensures forall k :: k in s && k != SidebarKey ==> k in r && r[k] == s[k]
  {
    s[SidebarKey := payload]
  }

  /** The slice reducer: the two case reducers by action type, any other action leaves
      the state as it is. */
  function Reducer(s: Option<State>, a: Action): (r: State)
    ensures a.kind == ToggleSidebarType ==> r == Negated(OrInitial(s))
    ensures a.kind == SetSidebarOpenType ==> SidebarOpen(r) == a.payload
    ensures a.kind == SetSidebarOpenType ==> r == SetOpen(OrInitial(s), a.payload)
    ensures a.kind == SetSidebarOpenType ==>
      forall k :: k in OrInitial(s) && k != SidebarKey ==> k in r && r[k] == OrInitial(s)[k]
    ensures a.kind != ToggleSidebarType && a.kind != SetSidebarOpenType ==> r == OrInitial(s)
  {
    var state := OrInitial(s);
    if a.kind == ToggleSidebarType then Negated(state)
    else if a.kind == SetSidebarOpenType then SetOpen(state, a.payload)
    else state
  }

  /** The sidebar starts open. */
  lemma InitiallyOpen(a: Action)
    requires a.kind != ToggleSidebarType && a.kind != SetSidebarOpenType
    ensures SidebarOpen(Reducer(None, a)) == Some(JBool(true))
  {
  }

  /** Two toggles give a boolean flag back. */
  lemma ToggleTwice(s: State)
    requires SidebarOpen(s).Some? && SidebarOpen(s).value.JBool?
    ensures Reducer(Some(Reducer(Some(s), ToggleSidebar())), ToggleSidebar()) == s
  {
    NegatedTwice(s);
  }

  /** Setting the flag ignores its previous value and is idempotent. */
  lemma SetSidebarOpenIdempotent(s: State, t: State, payload: Val)
    ensures var once := Reducer(Some(s), SetSidebarOpen(payload));
            Reducer(Some(once), SetSidebarOpen(payload)) == once
    ensures SidebarOpen(Reducer(Some(s), SetSidebarOpen(payload))) == SidebarOpen(Reducer(Some(t), SetSidebarOpen(payload)))
  {
    var once := Reducer(Some(s), SetSidebarOpen(payload));
    assert once[SidebarKey := payload] == once;
  }
}
