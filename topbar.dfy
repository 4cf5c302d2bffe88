/** `Topbar.jsx`: the sidebar button steps the sidebar through three states,
    the layout button flips between two layouts. Both return a copy of the UI
    state with one field replaced. */
module Topbar {
  import opened Wrappers
  import opened ParamChange

  const SidebarKey := "sidebarState"
  const LayoutKey := "layout"

  /** The `transitions` table: open, reduced, collapsed, and round again.
      None for a state that is not in the table. */
  function Transition(current: JsVal): Option<JsVal> {
    match current
    case Str(s) =>
      if s == "open" then Some(Str("reduced"))
      else if s == "reduced" then Some(Str("collapsed"))
      else if s == "collapsed" then Some(Str("open"))
      else None
    case _ => None
  }

  /** The next sidebar state: the table's entry, or the state itself. */
  function NextSidebar(current: JsVal): JsVal {
    match Transition(current)
    case Some(next) => next
    case None => current
  }

  predicate InTable(v: JsVal) {
    v == Str("open") || v == Str("reduced") || v == Str("collapsed")
  }

  /** `toggleSidebar`: the next state is computed from `rendered`, the state
      the component last rendered with, and written into `prev`, the state
      the setter passes to the updater. */
  function ToggleSidebar(rendered: State, prev: State): (r: State)
    ensures r.Keys == prev.Keys + {SidebarKey}
    ensures r[SidebarKey] == NextSidebar(Lookup(rendered, SidebarKey))
    ensures forall k :: k in prev && k != SidebarKey ==> r[k] == prev[k]
  {
    prev[SidebarKey := NextSidebar(Lookup(rendered, SidebarKey))]
  }

  /** `toggleLayout`: `row-main` becomes `col-main`, anything else `row-main`. */
  function ToggleLayout(prev: State): (r: State)
    ensures r.Keys == prev.Keys + {LayoutKey}
    ensures forall k :: k in prev && k != LayoutKey ==> r[k] == prev[k]
  {
    var next := if Lookup(prev, LayoutKey) == Str("row-main") then "col-main" else "row-main";
    prev[LayoutKey := Str(next)]
  }

  /** The table is a cycle of length three. */
  lemma SidebarCycle(s: JsVal)
    requires InTable(s)
    ensures InTable(NextSidebar(s))
    ensures NextSidebar(s) != s && NextSidebar(NextSidebar(s)) != s
    ensures NextSidebar(NextSidebar(NextSidebar(s))) == s
  {
  }

  /** A state outside the table stays as it is. */
  lemma SidebarUnknownStays(s: JsVal)
    requires !InTable(s)
    ensures NextSidebar(s) == s
  {
  }

  /** Three toggles, each from a freshly rendered state, return to the start;
      no other field changes on the way. */
  lemma ToggleSidebarThrice(u: State)
    requires InTable(Lookup(u, SidebarKey))
    ensures var u1 := ToggleSidebar(u, u);
      var u2 := ToggleSidebar(u1, u1);
      ToggleSidebar(u2, u2) == u
  {
    var s := Lookup(u, SidebarKey);
    SidebarCycle(s);
    var u3 := ToggleSidebar(ToggleSidebar(ToggleSidebar(u, u), ToggleSidebar(u, u)), ToggleSidebar(ToggleSidebar(u, u), ToggleSidebar(u, u)));
    assert u3[SidebarKey] == s;
    assert u3.Keys == u.Keys;
  }

  /** Two toggles before a re-render both read the same rendered state, so
      the sidebar moves one step, not two. */
  lemma ToggleSidebarStale(rendered: State, prev: State)
    ensures ToggleSidebar(rendered, ToggleSidebar(rendered, prev)) == ToggleSidebar(rendered, prev)
  {
  }

  /** The layout toggle always leaves one of the two layouts, and on those
      two it is its own inverse. */
  lemma ToggleLayoutInvolution(u: State)
    ensures var l := Lookup(ToggleLayout(u), LayoutKey);
      l == Str("row-main") || l == Str("col-main")
    ensures Lookup(u, LayoutKey) == Str("row-main") || Lookup(u, LayoutKey) == Str("col-main") ==>
      ToggleLayout(ToggleLayout(u)) == u
  {
    if Lookup(u, LayoutKey) == Str("row-main") || Lookup(u, LayoutKey) == Str("col-main") {
      var t := ToggleLayout(ToggleLayout(u));
      assert t[LayoutKey] == u[LayoutKey];
      assert t.Keys == u.Keys;
    }
  }
}
