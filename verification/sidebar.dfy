/** `Sidebar.tsx`: the navigation rail. Its state is whether it is expanded
    and, from the router, the current path. Clicks are modelled with the
    React event propagation the component relies on: the header toggle and
    the nav buttons of the collapsed rail stop propagation, the nav buttons
    of the expanded rail let the click reach the `<aside>`, whose handler
    expands a collapsed rail. The mobile toggle sits outside the `<aside>`. */
module Sidebar {
  import opened Text

  const DashboardPath: string := "/"
  const NewRequirementPath: string := "/requirements/new"
  const ShortlistPath: string := "/shortlist"

  /** The paths of the three nav items, in display order. */
  const NavPaths: seq<string> := [DashboardPath, NewRequirementPath, ShortlistPath]

  datatype SidebarState = SidebarState(open: bool, pathname: string)

  /** The rail starts expanded. */
  function Initial(pathname: string): (s: SidebarState)
    ensures s.open && s.pathname == pathname
  {
    SidebarState(true, pathname)
  }

  /** `isActiveRoute`: the dashboard only on exactly "/", every other item
      whenever the path starts with its own. */
  predicate IsActiveRoute(pathname: string, path: string) {
    if path == DashboardPath then pathname == DashboardPath
    else StartsWith(pathname, path)
  }

  /** The element a click lands on. */
  datatype Target =
    | HeaderToggle
    | MobileToggle
    | NavButton(path: string)
    | AsideArea

  /** The effect of the clicked element's own handler. */
  function OwnEffect(s: SidebarState, t: Target): SidebarState {
    match t
    case HeaderToggle => s.(open := !s.open)
    case MobileToggle => s.(open := !s.open)
    case NavButton(p) => s.(pathname := p)
    case AsideArea => s
  }

  /** Whether the click reaches the `<aside>` handler, given whether the rail
      was expanded when it was rendered. */
  predicate ReachesAside(t: Target, open: bool) {
    match t
    case HeaderToggle => false
    case MobileToggle => false
    case NavButton(_) => open
    case AsideArea => true
  }

  /** One click: the target's handler, then the `<aside>` handler if the
      click bubbles there. Both read `open` as rendered before the click. */
  function Click(s: SidebarState, t: Target): SidebarState {
    var own := OwnEffect(s, t);
    if ReachesAside(t, s.open) && !s.open then own.(open := true) else own
  }

  /** Either toggle flips the rail and leaves the route alone. */
  lemma TogglesFlip(s: SidebarState)
    ensures Click(s, HeaderToggle) == s.(open := !s.open)
    ensures Click(s, MobileToggle) == s.(open := !s.open)
  {
  }

  /** A click anywhere else on the rail expands it. */
  lemma AsideExpands(s: SidebarState)
    ensures Click(s, AsideArea) == s.(open := true)
  {
  }

  /** A nav click navigates and never expands or collapses the rail: the
      expanded rail bubbles to a handler that does nothing when expanded, the
      collapsed one stops propagation. */
  lemma NavKeepsOpen(s: SidebarState, p: string)
    ensures Click(s, NavButton(p)) == s.(pathname := p)
  {
  }

  /** Only the two toggles collapse the rail, and only nav buttons change the
      route. */
  lemma WhoChangesWhat(s: SidebarState, t: Target)
    ensures s.open && !Click(s, t).open ==> t == HeaderToggle || t == MobileToggle
    ensures Click(s, t).pathname != s.pathname ==> t.NavButton?
  {
  }

  /** After navigating to a nav item's own path, that item is highlighted. */
  lemma NavigatedItemActive(s: SidebarState, i: nat)
    requires i < |NavPaths|
    ensures IsActiveRoute(Click(s, NavButton(NavPaths[i])).pathname, NavPaths[i])
  {
    ContainsSelfPrefix(NavPaths[i]);
  }

  lemma ContainsSelfPrefix(s: string)
    ensures StartsWith(s, s)
  {
  }

  /** The two paths other than the dashboard differ at their second
      character, so no path starts with both. */
  lemma AtMostOneActive(pathname: string, i: nat, j: nat)
    requires i < j < |NavPaths|
    ensures !(IsActiveRoute(pathname, NavPaths[i]) && IsActiveRoute(pathname, NavPaths[j]))
  {
    if IsActiveRoute(pathname, NewRequirementPath) {
      assert pathname[1] == 'r';
    }
  }

  /** The prefix test is not path-aware: "/shortlisted" and
      "/requirements/newer" highlight the Shortlist and New Requirement items,
      while the dashboard is highlighted nowhere but on "/". */
  lemma PrefixMatchIsTextual()
    ensures IsActiveRoute("/shortlisted", ShortlistPath)
    ensures IsActiveRoute("/requirements/newer", NewRequirementPath)
    ensures !IsActiveRoute("/shortlist", DashboardPath)
  {
  }
}
