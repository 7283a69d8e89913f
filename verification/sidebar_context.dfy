/**
 * The shared sidebar state: open or closed, mobile or not, the `'open'` /
 * `'closed'` value kept under the `sidebarState` storage key, and the
 * handlers that keep the provider in step with it. Storage, the window width
 * and the broadcast event are parameters and results.
 */
module SidebarContext {
  import opened Common

  const StorageKey: string := "sidebarState"
  const MobileBreakpoint: int := 1024

  /** The value stored for an open or closed sidebar. */
  function Encode(isOpen: bool): (r: string)
    ensures r == "open" <==> isOpen
    ensures r != ""
  {
    if isOpen then "open" else "closed"
  }

  /** How a stored value is read: a present value is open iff it is `'open'`; otherwise `current` stays. */
  function Decode(stored: Option<string>, current: bool): (r: bool)
    ensures Present(stored) ==> (r <==> stored.value == "open")
    ensures !Present(stored) ==> r == current
  {
    if Present(stored) then stored.value == "open" else current
  }

  /** What is stored reads back as the state it came from, whatever the reader held before. */
  lemma DecodeEncode(isOpen: bool, current: bool)
    ensures Decode(Some(Encode(isOpen)), current) == isOpen
  {
  }

  function IsMobileWidth(width: int): (r: bool)
    ensures r <==> width < MobileBreakpoint
  {
    width < 1024
  }

  datatype Provider = Provider(mounted: bool, isOpen: bool, isMobile: bool)

  const InitialProvider: Provider := Provider(false, true, false)

  /** What the context exposes: the defaults (open, not mobile) until mounted. */
  function Exposed(p: Provider): (r: (bool, bool))
    ensures !p.mounted ==> r == (true, false)
    ensures p.mounted ==> r == (p.isOpen, p.isMobile)
  {
    if p.mounted then (p.isOpen, p.isMobile) else (true, false)
  }

  /** The mount effect: read the stored state (if any) and the width. */
  function Mount(p: Provider, stored: Option<string>, width: int): (r: Provider)
    ensures r.mounted
    ensures r.isOpen == Decode(stored, p.isOpen)
    ensures r.isMobile <==> width < MobileBreakpoint
  {
    Provider(true, Decode(stored, p.isOpen), IsMobileWidth(width))
  }

  /** Mounting with nothing stored leaves the sidebar open. */
  lemma MountWithoutStoredStateIsOpen(width: int)
    ensures Exposed(Mount(InitialProvider, None, width)).0
  {
  }

  /** `toggle`: the new state, the value written to storage, and the state broadcast. */
  datatype Toggled = Toggled(provider: Provider, stored: string, broadcast: bool)

  function Toggle(p: Provider): (r: Toggled)
    ensures r.provider.isOpen == !p.isOpen
    ensures r.provider.(isOpen := p.isOpen) == p
    ensures r.broadcast == r.provider.isOpen
    ensures Decode(Some(r.stored), p.isOpen) == r.provider.isOpen
  {
    var newState := !p.isOpen;
    Toggled(p.(isOpen := newState), Encode(newState), newState)
  }

  /** Toggling twice restores the state and stores the original value. */
  lemma ToggleTwice(p: Provider)
    ensures Toggle(Toggle(p).provider).provider == p
    ensures Toggle(Toggle(p).provider).stored == Encode(p.isOpen)
  {
  }

  /** A storage event: only the `sidebarState` key matters, and then the state is open iff the new value is `'open'`. */
  function OnStorage(p: Provider, key: string, newValue: Option<string>): (r: Provider)
    ensures key != StorageKey ==> r == p
    ensures key == StorageKey ==> r == p.(isOpen := (newValue == Some("open")))
  {
    if key == StorageKey then p.(isOpen := newValue == Some("open")) else p
  }

  /** The resize handler. */
  function OnResize(p: Provider, width: int): (r: Provider)
    ensures r == p.(isMobile := width < MobileBreakpoint)
  {
    p.(isMobile := IsMobileWidth(width))
  }

  /** The broadcast handler adopts the sender's state. */
  function OnSidebarChange(p: Provider, isOpen: bool): (r: Provider)
    ensures r.isOpen == isOpen && r.(isOpen := p.isOpen) == p
  {
    p.(isOpen := isOpen)
  }

  /** A toggle's stored value, seen by another provider as a storage event, brings it to the same state. */
  lemma StorageEventFollowsToggle(p: Provider, other: Provider)
    ensures var t := Toggle(p);
            OnStorage(other, StorageKey, Some(t.stored)).isOpen == t.provider.isOpen
    ensures var t := Toggle(p);
            OnSidebarChange(other, t.broadcast).isOpen == t.provider.isOpen
  {
  }
}
