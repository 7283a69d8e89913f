/**
 * The navigation sidebar component: its open and mobile flags follow the
 * window width, it writes its state to storage once mounted, it toggles and
 * closes from the overlay, and it highlights the nav item for the current
 * path.
 */
module SidebarNav {
  import opened Common
  import SidebarContext

  datatype Sidebar = Sidebar(isOpen: bool, isMobile: bool, mounted: bool)

  const InitialSidebar: Sidebar := Sidebar(false, false, false)

  /** `checkScreenSize`: mobile below the breakpoint, open at or above it. */
  function CheckScreenSize(s: Sidebar, width: int): (r: Sidebar)
    ensures r.isMobile <==> width < SidebarContext.MobileBreakpoint
    ensures r.isOpen == !r.isMobile
    ensures r.mounted == s.mounted
  {
    s.(isMobile := SidebarContext.IsMobileWidth(width), isOpen := width >= 1024)
  }

  /** The mount effect: mark mounted and check the screen, so a wide window starts open and a narrow one closed. */
  function Mount(s: Sidebar, width: int): (r: Sidebar)
    ensures r.mounted
    ensures r.isMobile <==> width < SidebarContext.MobileBreakpoint
    ensures r.isOpen <==> !r.isMobile
  {
    CheckScreenSize(s.(mounted := true), width)
  }

  /** What the persistence effect does: the value written to storage and the state broadcast as `sidebarChange`. */
  datatype Persisted = Persisted(stored: string, broadcast: bool)

  /** The persistence effect: nothing before mount, then the encoded state is stored and the state broadcast. */
  function Persist(s: Sidebar): (r: Option<Persisted>)
    ensures !s.mounted ==> r.None?
    ensures s.mounted ==> r.Some? && SidebarContext.Decode(Some(r.value.stored), !s.isOpen) == s.isOpen
    ensures s.mounted ==> r.Some? && r.value.broadcast == s.isOpen
  {
    if s.mounted then Some(Persisted(SidebarContext.Encode(s.isOpen), s.isOpen)) else None
  }

  /** After mounting, the stored state says open iff the window is wide. */
  lemma MountPersistsWidth(width: int)
    ensures Persist(Mount(InitialSidebar, width)).value.stored == if width >= 1024 then "open" else "closed"
  {
  }

  /** A provider that hears the effect, by its storage event or by the broadcast, adopts the sidebar's state. */
  lemma PersistReachesProvider(s: Sidebar, p: SidebarContext.Provider)
    requires s.mounted
    ensures SidebarContext.OnStorage(p, SidebarContext.StorageKey, Some(Persist(s).value.stored)).isOpen == s.isOpen
    ensures SidebarContext.OnSidebarChange(p, Persist(s).value.broadcast).isOpen == s.isOpen
  {
  }

  /** `toggleSidebar`. */
  function ToggleSidebar(s: Sidebar): (r: Sidebar)
    ensures r.isOpen == !s.isOpen && r.(isOpen := s.isOpen) == s
  {
    s.(isOpen := !s.isOpen)
  }

  /** The overlay is drawn over the page on a mounted mobile sidebar that is open. */
  predicate OverlayShown(s: Sidebar) {
    s.mounted && s.isMobile && s.isOpen
  }

  /** A click on the overlay closes the sidebar, which removes the overlay. */
  function OverlayClick(s: Sidebar): (r: Sidebar)
    ensures !r.isOpen && !OverlayShown(r)
    ensures r.(isOpen := s.isOpen) == s
  {
    s.(isOpen := false)
  }

  /** On a shown overlay, a click does what the toggle does. */
  lemma OverlayClickIsToggle(s: Sidebar)
    requires OverlayShown(s)
    ensures OverlayClick(s) == ToggleSidebar(s)
  {
  }

  datatype NavItem = NavItem(name: string, path: string)

  const NavItems: seq<NavItem> := [NavItem("Dashboard", "/"), NavItem("Menu", "/menu"), NavItem("Order", "/order")]

  /** An item is highlighted iff the path is exactly its own. */
  predicate IsActive(pathname: string, item: NavItem) {
    pathname == item.path
  }

  /** The indices of the highlighted items. */
  function ActiveItems(pathname: string): (r: set<nat>)
    ensures forall i: nat :: i in r <==> i < |NavItems| && IsActive(pathname, NavItems[i])
  {
    set i: nat | i < |NavItems| && IsActive(pathname, NavItems[i])
  }

  /** At most one item is highlighted, and one is iff the path is one of the three. */
  lemma AtMostOneActive(pathname: string)
    ensures |ActiveItems(pathname)| <= 1
    ensures |ActiveItems(pathname)| == 1 <==> pathname in ["/", "/menu", "/order"]
  {
    var r := ActiveItems(pathname);
    if pathname == "/" {
      assert r == {0};
    } else if pathname == "/menu" {
      assert r == {1};
    } else if pathname == "/order" {
      assert r == {2};
    } else {
      assert r == {};
    }
  }
}
