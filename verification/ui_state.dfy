/** The `ui` slice of the Redux store as both reducers see it: a plain object whose
    `isSidebarOpen` property drives the sidebar, and the actions dispatched to it. */
module UiState {
  import opened Wrappers
  import opened Json

  /** The state object; a property may hold `undefined` (None). */
  type State = map<string, Val>

  /** A Redux action: its `type` and its `payload` (None when absent). */
  datatype Action = Action(kind: string, payload: Val)

  const SidebarKey: string := "isSidebarOpen"

  const ToggleSidebarType: string := "ui/toggleSidebar"

  /** `{ isSidebarOpen: true }` */
  const Initial: State := map[SidebarKey := Some(JBool(true))]

  /** `state.isSidebarOpen` */
  function SidebarOpen(s: State): Val {
    if SidebarKey in s then s[SidebarKey] else None
  }

  /** A reducer called with `undefined` state starts from the initial state. */
  function OrInitial(s: Option<State>): State {
    if s.Some? then s.value else Initial
  }

  /** `!state.isSidebarOpen` stored back: the flag becomes a boolean, the other
      properties are untouched. */
  function Negated(s: State): (r: State)
    ensures r.Keys == s.Keys + {SidebarKey}
    ensures SidebarOpen(r) == Some(JBool(!Truthy(SidebarOpen(s))))
    ensures forall k :: k in s && k != SidebarKey ==> k in r && r[k] == s[k]
  {
    s[SidebarKey := Some(JBool(!Truthy(SidebarOpen(s))))]
  }

  /** Negating twice keeps a boolean flag and turns any other flag into its truthiness. */
  lemma NegatedTwice(s: State)
    ensures Negated(Negated(s)) == s[SidebarKey := Some(JBool(Truthy(SidebarOpen(s))))]
    ensures (SidebarOpen(s).Some? && SidebarOpen(s).value.JBool?) ==> Negated(Negated(s)) == s
  {
    if SidebarOpen(s).Some? && SidebarOpen(s).value.JBool? {
      assert s[SidebarKey := Some(JBool(Truthy(SidebarOpen(s))))] == s;
    }
  }
}
