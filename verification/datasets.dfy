/**
 * The two hard-coded configurations of the controller: the home page
 * (assets/js/main.js, five projects) and the projects page
 * (assets/js/myprojects.js, nine projects), both with the same category list,
 * and the concrete behaviour each page shows.
 */
module Datasets {
  import opened Wrappers
  import opened Gallery
  import opened Modal
  import opened Controller

  const Categories: seq<string> := ["all", "digital marketing", "photography", "videography", "video editing"]

  const Placeholder: string := "This is a temporary placeholder for an upcoming project."

  /** The project list of the home page. */
  const HomeProjects: seq<Project> := [
    Project(1, "digital marketing", "Marketing Campaign 1", "A digital marketing campaign focused on social media engagement."),
    Project(2, "photography", "Portrait Shoot", "A professional portrait session using natural lighting techniques."),
    Project(3, "videography", "Promo Video", "A short promotional video crafted for a product launch."),
    Project(4, "video editing", "Short Film Edit", "A cinematic short film editing project focusing on color grading and pacing."),
    Project(5, "digital marketing", "Ad Design", "A digital ad series created for an online campaign.")
  ]

  /** The project list of the projects page: the home list plus four placeholders. */
  const PortfolioProjects: seq<Project> := HomeProjects + Upcoming

  /** The four placeholder entries that only the projects page lists. */
  const Upcoming: seq<Project> := [
    Project(6, "digital marketing", "Coming Soon Project", Placeholder),
    Project(7, "digital marketing", "Coming Soon Project", Placeholder),
    Project(8, "photography", "Coming Soon Project", Placeholder),
    Project(9, "video editing", "Coming Soon Project", Placeholder)
  ]

  function Ids(view: seq<Project>): (ids: seq<int>)
    ensures |ids| == |view| && forall i :: 0 <= i < |view| ==> ids[i] == view[i].id
  {
    seq(|view|, i requires 0 <= i < |view| => view[i].id)
  }

  /** Both datasets satisfy the assumptions the navigation lemmas rely on. */
  lemma DatasetsWellFormed()
    ensures Distinct(Categories) && All in Categories
    ensures DistinctIds(HomeProjects) && DistinctIds(PortfolioProjects)
    ensures |HomeProjects| == 5 && |PortfolioProjects| == 9
  {
  }

  /** The filter button row of the home page on load. */
  lemma InitialButtons()
    ensures FilterButtons(Categories, All) == [
      FilterButton("all", "All", true),
      FilterButton("digital marketing", "Digital marketing", false),
      FilterButton("photography", "Photography", false),
      FilterButton("videography", "Videography", false),
      FilterButton("video editing", "Video editing", false)]
  {
    CategoryLabels();
    TwoWordCategoryLabels();
    var row := FilterButtons(Categories, All);
    assert row[0] == FilterButton("all", "All", true);
    assert row[1] == FilterButton("digital marketing", "Digital marketing", false);
    assert row[2] == FilterButton("photography", "Photography", false);
    assert row[3] == FilterButton("videography", "Videography", false);
    assert row[4] == FilterButton("video editing", "Video editing", false);
  }

  /** The captions of the one-word categories: the first letter upper-cased. */
  lemma CategoryLabels()
    ensures Label("all") == "All" && Label("photography") == "Photography"
    ensures Label("videography") == "Videography"
  {
    assert Label("all") == "All" by {
      assert Upper('a') == 'A';
      assert "All" == ['A'] + "ll";
    }
    assert Label("photography") == "Photography" by {
      assert Upper('p') == 'P';
      assert "Photography" == ['P'] + "hotography";
    }
    assert Label("videography") == "Videography" by {
      assert Upper('v') == 'V';
      assert "Videography" == ['V'] + "ideography";
    }
  }

  /** Only the first word of a two-word category is capitalised. */
  lemma TwoWordCategoryLabels()
    ensures Label("digital marketing") == "Digital marketing"
    ensures Label("video editing") == "Video editing"
  {
    assert Label("digital marketing") == "Digital marketing" by {
      assert Upper('d') == 'D';
      assert "Digital marketing" == ['D'] + "igital marketing";
    }
    assert Label("video editing") == "Video editing" by {
      assert Upper('v') == 'V';
      assert "Video editing" == ['V'] + "ideo editing";
    }
  }

  /** The home page's "photography" view holds project 2 only. */
  lemma HomePhotography()
    ensures Filter(HomeProjects, "photography") == [HomeProjects[1]]
  {
  }

  /** The projects page's "digital marketing" view: ids 1, 5, 6, 7 in that order. */
  lemma PortfolioDigitalMarketing()
    ensures Ids(Filter(PortfolioProjects, "digital marketing")) == [1, 5, 6, 7]
  {
    MatchingAppend(HomeProjects, Upcoming, "digital marketing");
    assert Matching(HomeProjects, "digital marketing") == [HomeProjects[0], HomeProjects[4]];
    var c, u := "digital marketing", Upcoming;
    assert Matching(u[2..], c) == [];
    assert Matching(u[1..], c) == [u[1]];
  }

  /** The projects page's "photography" view: ids 2, 8. */
  lemma PortfolioPhotography()
    ensures Ids(Filter(PortfolioProjects, "photography")) == [2, 8]
  {
    MatchingAppend(HomeProjects, Upcoming, "photography");
    assert Matching(HomeProjects, "photography") == [HomeProjects[1]];
    var u := Upcoming;
    assert Matching(u[3..], "photography") == [];
    assert Matching(u[2..], "photography") == [u[2]];
  }

  /** The projects page's initial view is the whole nine-project list. */
  lemma PortfolioAll()
    ensures Ids(Filter(PortfolioProjects, All)) == [1, 2, 3, 4, 5, 6, 7, 8, 9]
  {
  }

  /**
   * Home page: choose "photography", open project 2, press ArrowRight (the
   * one-project view wraps to itself), press Escape (closed, scroll restored).
   */
  lemma HomePhotographyWalk()
    ensures var g0 := CategorySelected(Initial(HomeProjects), HomeProjects, "photography");
      var g1 := ProjectOpened(g0, HomeProjects[1]);
      var g2 := KeyHandled(g1, "ArrowRight");
      var g3 := KeyHandled(g2, "Escape");
      && g2.selected == Some(HomeProjects[1]) && g2.attached == 1 && g2.scrollLocked
      && g3.selected == None && g3.attached == 0 && !g3.scrollLocked
  {
    var g0 := CategorySelected(Initial(HomeProjects), HomeProjects, "photography");
    HomePhotography();
    var g1 := ProjectOpened(g0, HomeProjects[1]);
    SingletonNavigation(g1, HomeProjects[1]);
    KeyWhileOpen(g1, "ArrowRight");
  }

  /** Home page, "all": next from project 1 visits 2, 3, 4, 5 and then returns to 1. */
  lemma HomeNextCycle()
    ensures var g := ProjectOpened(Initial(HomeProjects), HomeProjects[0]);
      && NextTimes(g, 1).selected.value.id == 2
      && NextTimes(g, 4).selected.value.id == 5
      && NextTimes(g, 5).selected.value.id == 1
  {
    var g := ProjectOpened(Initial(HomeProjects), HomeProjects[0]);
    assert g == GalleryState(All, HomeProjects, Some(HomeProjects[0]), true, 1, true);
    DatasetsWellFormed();
    NextAdvance(g, 0, 1);
    assert Advance(0, 1, 5) == 1;
    NextAdvance(g, 0, 4);
    assert Advance(0, 4, 5) == 4;
    NextFullCycle(g, 0);
  }

  /** Projects page, "all": next from 9 wraps to 1 and prev from 1 wraps to 9. */
  lemma PortfolioWrap()
    ensures NextSelected(ProjectOpened(Initial(PortfolioProjects), PortfolioProjects[8])).selected.value.id == 1
    ensures PrevSelected(ProjectOpened(Initial(PortfolioProjects), PortfolioProjects[0])).selected.value.id == 9
  {
    DatasetsWellFormed();
    NextStep(ProjectOpened(Initial(PortfolioProjects), PortfolioProjects[8]), 8);
    PrevStep(ProjectOpened(Initial(PortfolioProjects), PortfolioProjects[0]), 0);
  }

  /** On both pages every filter button leads to a non-empty view. */
  lemma EveryCategoryShown()
    ensures forall c :: c in Categories ==> Filter(HomeProjects, c) != [] && Filter(PortfolioProjects, c) != []
  {
    var cs := Categories;
    assert forall c :: c in cs ==> c == cs[0] || c == cs[1] || c == cs[2] || c == cs[3] || c == cs[4];
    ShownOnBothPages(cs[0], 0);
    ShownOnBothPages(cs[1], 0);
    ShownOnBothPages(cs[2], 1);
    ShownOnBothPages(cs[3], 2);
    ShownOnBothPages(cs[4], 3);
  }

  /** A category that the `k`-th home project carries is shown on both pages. */
  lemma ShownOnBothPages(c: string, k: int)
    requires 0 <= k < |HomeProjects| && (c == All || HomeProjects[k].category == c)
    ensures Filter(HomeProjects, c) != [] && Filter(PortfolioProjects, c) != []
  {
    FilterExact(HomeProjects, c);
    FilterExact(PortfolioProjects, c);
    assert HomeProjects[k] == PortfolioProjects[k];
  }

  /** So a filter click never leaves an open modal over an empty view, and next/prev stay defined. */
  lemma SelectionKeepsNavigation(g: GalleryState, c: string)
    requires c in Categories
    ensures CanNavigate(CategorySelected(g, HomeProjects, c))
    ensures CanNavigate(CategorySelected(g, PortfolioProjects, c))
  {
    EveryCategoryShown();
  }

  /** The home page walk of HomePhotographyWalk, driven through the controller object. */
  method HomePageSession() returns (c: GalleryController)
    ensures c.selected == None && c.attached == 0 && !c.scrollLocked
    ensures c.selectedCategory == "photography" && c.filtered == [HomeProjects[1]]
  {
    c := new GalleryController(HomeProjects, Categories);
    var row, grid := c.SelectCategory("photography");
    HomePhotography();
    assert c.filtered == [HomeProjects[1]];
    c.OpenProject(HomeProjects[1]);
    SingletonNavigation(c.State(), HomeProjects[1]);
    c.KeyDown("ArrowRight");
    assert c.selected == Some(HomeProjects[1]);
    c.KeyDown("Escape");
  }

  /** Projects page: open project 9 under "all"; ArrowRight wraps to 1, ArrowLeft back to 9. */
  method ProjectsPageSession() returns (c: GalleryController)
    ensures c.selected == Some(PortfolioProjects[8]) && c.attached == 1 && c.scrollLocked
  {
    c := new GalleryController(PortfolioProjects, Categories);
    DatasetsWellFormed();
    c.OpenProject(PortfolioProjects[8]);
    NextStep(c.State(), 8);
    c.KeyDown("ArrowRight");
    assert c.selected == Some(PortfolioProjects[0]);
    PrevStep(c.State(), 0);
    c.KeyDown("ArrowLeft");
  }
}
