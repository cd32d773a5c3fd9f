/**
 * The page as App.tsx composes it: the two navigations look up their section
 * elements once, when their mount effects run, and those elements exist only
 * once the page body is rendered, which the `mounted` flag holds back until
 * the first animation frame after the effects have run.
 */
module Page {
  import opened SectionTracking
  import App
  import Navbar
  import DotNav

  /** The section element each page-section component renders. */
  const SectionOf: map<string, string> :=
    map["Hero" := "home", "About" := "about", "Projects" := "projects", "Social" := "social"]

  /** The ids of the section elements that the rendered components put on the page. */
  function SectionIdsOf(components: seq<string>): (ids: set<string>)
    ensures (forall c :: c in App.BodySections ==> c !in components) ==> ids == {}
    ensures (forall c :: c in App.BodySections ==> c in components) ==> ids == set id | id in Navbar.Sections
  {
    var ids := set c | c in components && c in SectionOf :: SectionOf[c];
    assert forall c :: c in SectionOf <==> c in App.BodySections;
    if forall c :: c in App.BodySections ==> c in components then
      assert SectionOf["Hero"] in ids && SectionOf["About"] in ids;
      assert SectionOf["Projects"] in ids && SectionOf["Social"] in ids;
      ids
    else
      ids
  }

  /**
   * As the source is written: both navigations mount, and run their observer
   * effects, before the first animation frame, so no section element exists
   * yet. Nothing is observed, the only batch an observer can deliver is the
   * empty one, and both active ids stay "home".
   */
  method MountBeforeFrame(entries: seq<Entry>, scrollY: real, innerHeight: real)
    returns (delivered: bool, navActive: string, dotActive: string, observed: set<string>)
    ensures observed == {}
    ensures delivered <==> entries == []
    ensures navActive == "home" && dotActive == "home"
  {
    var page := new App.PageMount();
    var present := SectionIdsOf(page.Components());
    var nav := new Navbar.Navbar(present);
    var dots := new DotNav.DotNav(present, scrollY, innerHeight);
    assert nav.observed == {} && dots.observed == {};
    delivered := forall i :: 0 <= i < |entries| ==> entries[i].targetId in nav.observed;
    if entries != [] {
      assert entries[0].targetId !in nav.observed;
    }
    if delivered {
      nav.OnIntersect(entries);
      dots.OnIntersect(entries);
    }
    navActive, dotActive := nav.active, dots.active;
    observed := nav.observed + dots.observed;
  }

  /**
   * As evidently intended: the observers look up the sections once the body
   * is rendered. All four sections are observed, and after a batch both
   * navigations mark the section of the last intersecting entry.
   */
  method MountAfterFrame(entries: seq<Entry>, scrollY: real, innerHeight: real)
    returns (navActive: string, dotActive: string, observed: set<string>)
    requires forall i :: 0 <= i < |entries| ==> entries[i].targetId in Navbar.Sections
    ensures observed == set id | id in Navbar.Sections
    ensures navActive == AfterBatch(entries, "home") && dotActive == navActive
    ensures navActive in Navbar.Sections
  {
    var page := new App.PageMount();
    page.AnimationFrame();
    var present := SectionIdsOf(page.Components());
    var nav := new Navbar.Navbar(present);
    var dots := new DotNav.DotNav(present, scrollY, innerHeight);
    assert forall id :: id in Navbar.Sections <==> DotNav.IsSectionId(id);
    nav.OnIntersect(entries);
    dots.OnIntersect(entries);
    navActive, dotActive := nav.active, dots.active;
    observed := nav.observed;
  }
}
