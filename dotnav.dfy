/**
 * The side dot navigation (src/components/react/DotNav.tsx): one dot per
 * section, the `active` section fed by an intersection observer, the
 * `visible` flag that shows the dots once the page is scrolled past 30% of
 * the viewport height, and the `hovered` dot whose label tooltip is shown.
 * Clicks call `scrollToSection`, recorded in `scrollRequests`.
 */
module DotNav {
  import opened Wrappers
  import opened SectionTracking

  /** One dot: the section it stands for and its tooltip caption. */
  datatype Dot = Dot(id: string, caption: string)

  const Dots: seq<Dot> := [Dot("home", "Home"), Dot("about", "About"), Dot("projects", "Work"), Dot("social", "Contact")]

  const VisibleFraction: real := 0.3

  /** The ids of the dots, in order. */
  const SectionIds: seq<string> := [Dots[0].id, Dots[1].id, Dots[2].id, Dots[3].id]

  /** Whether `id` names one of the dots. */
  predicate IsSectionId(id: string) {
    id in SectionIds
  }

  /** No two dots share an id. */
  lemma DotIdsDistinct()
    ensures forall i, j :: 0 <= i < |Dots| && 0 <= j < |Dots| && Dots[i].id == Dots[j].id ==> i == j
  {
  }

  /** The position of the dot for a section id. */
  function DotIndex(id: string): (i: int)
    requires IsSectionId(id)
    ensures 0 <= i < |Dots| && Dots[i].id == id
  {
    if id == "home" then 0
    else if id == "about" then 1
    else if id == "projects" then 2
    else 3
  }

  /** The dots whose id equals `key`: because the ids are distinct, at most one. */
  function DotsWithId(key: string): (r: set<int>)
    ensures forall i :: i in r ==> 0 <= i < |Dots| && Dots[i].id == key
    ensures IsSectionId(key) ==> r == {DotIndex(key)}
    ensures !IsSectionId(key) ==> r == {}
  {
    var r := set i | 0 <= i < |Dots| && Dots[i].id == key;
    DotIdsDistinct();
    if IsSectionId(key) then
      assert DotIndex(key) in r;
      assert r == {DotIndex(key)};
      r
    else
      assert r == {};
      r
  }

  /** `handleScroll`: the dots show once the page is scrolled past 30% of the viewport. */
  function IsVisible(scrollY: real, innerHeight: real): (r: bool)
    // at the top of the page the dots are hidden
    ensures scrollY <= 0.0 && innerHeight >= 0.0 ==> !r
    // in a viewport of no height, any downward scroll shows them
    ensures innerHeight == 0.0 ==> (r <==> scrollY > 0.0)
  {
    scrollY > innerHeight * VisibleFraction
  }

  /**
   * Visibility is a threshold on the scroll offset: scrolling further down
   * never hides the dots, and scrolling back up never shows them.
   */
  lemma VisibilityIsMonotone(y1: real, y2: real, innerHeight: real)
    requires y1 <= y2
    ensures IsVisible(y1, innerHeight) ==> IsVisible(y2, innerHeight)
    ensures !IsVisible(y2, innerHeight) ==> !IsVisible(y1, innerHeight)
  {
  }

  class DotNav {
    var active: string
    var visible: bool
    var hovered: Option<string>
    var observed: set<string>
    var scrollRequests: seq<string>

    /** The active id and a hovered id are dot ids; only dot ids are observed. */
    ghost predicate Valid() reads this {
      && IsSectionId(active)
      && (hovered.Some? ==> IsSectionId(hovered.value))
      && (forall id :: id in observed ==> IsSectionId(id))
    }

    /**
     * Mount: "home" is active, no dot is hovered, the observer watches the
     * sections whose elements exist, and the scroll handler runs once.
     */
    constructor (present: set<string>, scrollY: real, innerHeight: real)
      ensures Valid()
      ensures active == "home" && hovered == None && scrollRequests == []
      ensures visible <==> scrollY > innerHeight * VisibleFraction
      ensures forall id :: id in observed <==> IsSectionId(id) && id in present
    {
      active := "home";
      hovered := None;
      scrollRequests := [];
      visible := IsVisible(scrollY, innerHeight);
      observed := set id | id in SectionIds && id in present;
    }

    /** The observer callback for one batch of entries, which report observed elements only. */
    method OnIntersect(entries: seq<Entry>)
      requires Valid()
      requires forall i :: 0 <= i < |entries| ==> entries[i].targetId in observed
      modifies this
      ensures Valid()
      ensures active == AfterBatch(entries, old(active))
      ensures visible == old(visible) && hovered == old(hovered)
      ensures observed == old(observed) && scrollRequests == old(scrollRequests)
    {
      var i := 0;
      while i < |entries|
        invariant 0 <= i <= |entries|
        invariant active == AfterBatch(entries[..i], old(active))
        invariant IsSectionId(active)
        invariant visible == old(visible) && hovered == old(hovered)
        invariant observed == old(observed) && scrollRequests == old(scrollRequests)
      {
        assert entries[..i + 1][..i] == entries[..i];
        if entries[i].isIntersecting {
          active := entries[i].targetId;
        }
        i := i + 1;
      }
      assert entries[..i] == entries;
    }

    /** The scroll listener. */
    method OnScroll(scrollY: real, innerHeight: real)
      requires Valid()
      modifies this
      ensures Valid()
      ensures visible <==> scrollY > innerHeight * VisibleFraction
      ensures active == old(active) && hovered == old(hovered)
      ensures observed == old(observed) && scrollRequests == old(scrollRequests)
    {
      visible := IsVisible(scrollY, innerHeight);
    }

    /** The mouse enters the dot for `id`. */
    method MouseEnter(id: string)
      requires Valid() && IsSectionId(id)
      modifies this
      ensures Valid()
      ensures hovered == Some(id)
      ensures active == old(active) && visible == old(visible)
      ensures observed == old(observed) && scrollRequests == old(scrollRequests)
    {
      hovered := Some(id);
    }

    /** The mouse leaves a dot. */
    method MouseLeave()
      requires Valid()
      modifies this
      ensures Valid()
      ensures hovered == None
      ensures active == old(active) && visible == old(visible)
      ensures observed == old(observed) && scrollRequests == old(scrollRequests)
    {
      hovered := None;
    }

    /** A click on the dot for `id` requests the scroll; the active dot is left to the observer. */
    method Click(id: string)
      requires Valid() && IsSectionId(id)
      modifies this
      ensures Valid()
      ensures scrollRequests == old(scrollRequests) + [id]
      ensures active == old(active) && visible == old(visible) && hovered == old(hovered)
      ensures observed == old(observed)
    {
      scrollRequests := scrollRequests + [id];
    }

    /** The dots drawn as active: exactly one. */
    function ActiveDots(): (r: set<int>)
      requires Valid()
      reads this
      ensures |r| == 1
      ensures forall i :: i in r ==> 0 <= i < |Dots| && Dots[i].id == active
    {
      DotsWithId(active)
    }

    /** The dots showing their tooltip: at most one. */
    function TooltipDots(): (r: set<int>)
      requires Valid()
      reads this
      ensures |r| <= 1
      ensures hovered.None? ==> r == {}
      ensures hovered.Some? ==> r == {DotIndex(hovered.value)}
      ensures forall i :: i in r ==> 0 <= i < |Dots| && hovered == Some(Dots[i].id)
    {
      match hovered
      case None => {}
      case Some(id) => DotsWithId(id)
    }
  }
}
