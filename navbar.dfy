/**
 * The top navigation bar (src/components/react/Navbar.tsx): the mobile menu
 * flag `isOpen` and the body overflow it controls, the `scrolled` flag, and
 * the `active` section fed by an intersection observer.
 *
 * Calls to `scrollToSection` are recorded in `scrollRequests`. The 50 ms
 * timer that `handleNav` starts is the queue `pendingScrolls`, fired by
 * `NavTimerFires`; all such timers have the same delay, so they fire in the
 * order they were started.
 */
module Navbar {
  import opened SectionTracking

  /** The ids the observer is asked to watch, in order. */
  const Sections: seq<string> := ["home", "about", "projects", "social"]

  const ScrollThreshold: real := 50.0

  /** One link of the bar: its label and the section it jumps to. */
  datatype Link = Link(name: string, id: string)

  const Links: seq<Link> := [Link("Home", "home"), Link("About", "about"), Link("Work", "projects"), Link("Contact", "social")]

  /** The style the open menu puts on the page body. */
  function Overflow(isOpen: bool): (r: string)
    ensures r == "hidden" <==> isOpen
    ensures !isOpen ==> r == ""
  {
    if isOpen then "hidden" else ""
  }

  /** The links that carry `aria-current`: those whose id is the active one. */
  function CurrentLinks(active: string): (r: set<int>)
    ensures forall i :: i in r <==> 0 <= i < |Links| && Links[i].id == active
    ensures active in Sections ==> exists i :: r == {i}
    ensures active !in Sections ==> r == {}
  {
    var r := set i | 0 <= i < |Links| && Links[i].id == active;
    if active == "home" then assert r == {0}; r
    else if active == "about" then assert r == {1}; r
    else if active == "projects" then assert r == {2}; r
    else if active == "social" then assert r == {3}; r
    else assert r == {}; r
  }

  class Navbar {
    var isOpen: bool
    var scrolled: bool
    var active: string
    var bodyOverflow: string
    var observed: set<string>
    var mounted: bool
    var pendingScrolls: seq<string>
    var scrollRequests: seq<string>

    /**
     * The active id is one of the sections; only sections are observed;
     * while mounted the body overflow follows the menu, and after unmounting
     * it is reset and nothing is observed.
     */
    ghost predicate Valid() reads this {
      && active in Sections
      && (forall id :: id in observed ==> id in Sections)
      && (mounted ==> bodyOverflow == Overflow(isOpen))
      && (!mounted ==> bodyOverflow == "" && observed == {})
    }

    /**
     * Mount: the menu is closed, the bar is not yet marked scrolled (no
     * scroll event has fired), "home" is active, and the observer watches
     * the sections whose elements exist (`present`).
     */
    constructor (present: set<string>)
      ensures Valid() && mounted
      ensures !isOpen && !scrolled && active == "home" && bodyOverflow == ""
      ensures forall id :: id in observed <==> id in Sections && id in present
      ensures pendingScrolls == [] && scrollRequests == []
    {
      isOpen := false;
      scrolled := false;
      active := "home";
      bodyOverflow := "";
      observed := set id | id in Sections && id in present;
      mounted := true;
      pendingScrolls := [];
      scrollRequests := [];
    }

    /** The observer callback for one batch of entries, which report observed elements only. */
    method OnIntersect(entries: seq<Entry>)
      requires Valid() && mounted
      requires forall i :: 0 <= i < |entries| ==> entries[i].targetId in observed
      modifies this
      ensures Valid()
      ensures active == AfterBatch(entries, old(active))
      ensures isOpen == old(isOpen) && scrolled == old(scrolled) && bodyOverflow == old(bodyOverflow)
      ensures observed == old(observed) && mounted == old(mounted)
      ensures pendingScrolls == old(pendingScrolls) && scrollRequests == old(scrollRequests)
    {
      var i := 0;
      while i < |entries|
        invariant 0 <= i <= |entries|
        invariant active == AfterBatch(entries[..i], old(active))
        invariant active in Sections
        invariant isOpen == old(isOpen) && scrolled == old(scrolled) && bodyOverflow == old(bodyOverflow)
        invariant observed == old(observed) && mounted == old(mounted)
        invariant pendingScrolls == old(pendingScrolls) && scrollRequests == old(scrollRequests)
      {
        assert entries[..i + 1][..i] == entries[..i];
        if entries[i].isIntersecting {
          active := entries[i].targetId;
        }
        i := i + 1;
      }
      assert entries[..i] == entries;
    }

    /** The scroll listener. */
    method OnScroll(scrollY: real)
      requires Valid() && mounted
      modifies this
      ensures Valid()
      ensures scrolled <==> scrollY > ScrollThreshold
      ensures isOpen == old(isOpen) && active == old(active) && bodyOverflow == old(bodyOverflow)
      ensures observed == old(observed) && mounted == old(mounted)
      ensures pendingScrolls == old(pendingScrolls) && scrollRequests == old(scrollRequests)
    {
      scrolled := scrollY > ScrollThreshold;
    }

    /** The menu button, followed by the overflow effect. */
    method ToggleMenu()
      requires Valid() && mounted
      modifies this
      ensures Valid()
      ensures isOpen == !old(isOpen)
      ensures bodyOverflow == "hidden" <==> isOpen
      ensures scrolled == old(scrolled) && active == old(active)
      ensures observed == old(observed) && mounted == old(mounted)
      ensures pendingScrolls == old(pendingScrolls) && scrollRequests == old(scrollRequests)
    {
      isOpen := !isOpen;
      bodyOverflow := Overflow(isOpen);
    }

    /** `handleNav`: close the menu, then start the timer that scrolls to `id`. */
    method HandleNav(id: string)
      requires Valid() && mounted
      modifies this
      ensures Valid()
      ensures !isOpen && bodyOverflow == ""
      ensures pendingScrolls == old(pendingScrolls) + [id]
      ensures scrollRequests == old(scrollRequests)
      ensures scrolled == old(scrolled) && active == old(active)
      ensures observed == old(observed) && mounted == old(mounted)
    {
      isOpen := false;
      bodyOverflow := Overflow(isOpen);
      pendingScrolls := pendingScrolls + [id];
    }

    /**
     * The oldest `handleNav` timer fires and the scroll is requested. The
     * source never cancels these timers, so they can fire after unmounting.
     */
    method NavTimerFires()
      requires Valid() && pendingScrolls != []
      modifies this
      ensures Valid()
      ensures scrollRequests == old(scrollRequests) + [old(pendingScrolls)[0]]
      ensures pendingScrolls == old(pendingScrolls)[1..]
      ensures isOpen == old(isOpen) && scrolled == old(scrolled) && active == old(active)
      ensures bodyOverflow == old(bodyOverflow) && observed == old(observed) && mounted == old(mounted)
    {
      scrollRequests := scrollRequests + [pendingScrolls[0]];
      pendingScrolls := pendingScrolls[1..];
    }

    /** Unmount: the effects' clean-ups reset the overflow and disconnect the observer. */
    method Unmount()
      requires Valid()
      modifies this
      ensures Valid() && !mounted
      ensures bodyOverflow == "" && observed == {}
      ensures isOpen == old(isOpen) && scrolled == old(scrolled) && active == old(active)
      ensures pendingScrolls == old(pendingScrolls) && scrollRequests == old(scrollRequests)
    {
      mounted := false;
      bodyOverflow := "";
      observed := {};
    }
  }
}
