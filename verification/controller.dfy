/**
 * The gallery controller: the closure variables of the page script as the
 * fields of one object, parameterised by the project list and the category
 * list. Each handler is proved to make exactly the transition that module
 * Modal specifies.
 */
module Controller {
  import opened Wrappers
  import Html
  import opened Gallery
  import opened Modal

  class GalleryController {
    const projects: seq<Project>
    const categories: seq<string>

    var selectedCategory: string
    var filtered: seq<Project>
    var selected: Option<Project>
    /** The `modalOverlay` reference is set. */
    var overlay: bool
    /** Overlay elements attached to the page. */
    var attached: nat
    /** Root and body `overflow` are 'hidden'. */
    var scrollLocked: bool

    ghost function State(): GalleryState
      reads this
    {
      GalleryState(selectedCategory, filtered, selected, overlay, attached, scrollLocked)
    }

    ghost predicate Valid()
      reads this
    {
      && Consistent(State())
      && filtered == Filter(projects, selectedCategory)
      && (selectedCategory == All || selectedCategory in categories)
    }

    /** Page load: the initial closure variables, then `applyFilter()`. */
    constructor (projects: seq<Project>, categories: seq<string>)
      ensures Valid()
      ensures this.projects == projects && this.categories == categories
      ensures State() == Initial(projects)
    {
      this.projects := projects;
      this.categories := categories;
      selectedCategory := All;
      selected := None;
      filtered := projects;
      overlay := false;
      attached := 0;
      scrollLocked := false;
      new;
      ApplyFilter();
    }

    /** `applyFilter`. */
    method ApplyFilter()
      modifies this`filtered
      ensures filtered == Filter(projects, selectedCategory)
    {
      filtered := if selectedCategory == All then projects else Matching(projects, selectedCategory);
    }

    /** `renderFilterButtons`: one button per category, in order. */
    method RenderFilterButtons() returns (row: seq<FilterButton>)
      ensures row == FilterButtons(categories, selectedCategory)
    {
      row := [];
      for i := 0 to |categories|
        invariant |row| == i
        invariant forall j :: 0 <= j < i ==> row[j] == ButtonFor(categories[j], selectedCategory)
      {
        var cat := categories[i];
        var button := FilterButton(cat, Label(cat), selectedCategory == cat);
        row := row + [button];
      }
    }

    /** `renderProjects`: one card per project of the filtered view, in order. */
    method RenderProjects() returns (grid: seq<Card>)
      ensures grid == Cards(filtered)
    {
      grid := [];
      for i := 0 to |filtered|
        invariant |grid| == i
        invariant forall j :: 0 <= j < i ==> grid[j] == CardFor(filtered[j])
      {
        var project := filtered[i];
        var card := Card(project.id, Html.Escape(project.title), Html.Escape(project.category));
        grid := grid + [card];
      }
    }

    /** A filter-button click: set the category, re-filter, re-render buttons and grid. */
    method SelectCategory(category: string) returns (row: seq<FilterButton>, grid: seq<Card>)
      requires Valid() && category in categories
      modifies this
      ensures Valid() && State() == CategorySelected(old(State()), projects, category)
      ensures row == FilterButtons(categories, category) && grid == Cards(filtered)
    {
      selectedCategory := category;
      ApplyFilter();
      row := RenderFilterButtons();
      grid := RenderProjects();
    }

    /** `showModal`: replaces any overlay by a new one and locks scrolling. */
    method ShowModal()
      requires OverlayTracked(State())
      modifies this
      ensures State() == ModalShown(old(State()))
    {
      if selected.None? {
        return;
      }
      if overlay {
        attached := attached - 1;
      }
      overlay := true;
      attached := attached + 1;
      scrollLocked := true;
    }

    /** `openProject(project)`, a card click. */
    method OpenProject(project: Project)
      requires Valid()
      modifies this
      ensures Valid() && State() == ProjectOpened(old(State()), project)
    {
      selected := Some(project);
      ShowModal();
    }

    /** `closeModal`. */
    method CloseModal()
      requires Valid()
      modifies this
      ensures Valid() && State() == ModalClosed(old(State()))
    {
      if overlay {
        attached := attached - 1;
        overlay := false;
      }
      selected := None;
      scrollLocked := false;
    }

    /** `nextProject`. */
    method NextProject()
      requires Valid() && CanNavigate(State())
      modifies this
      ensures Valid() && State() == NextSelected(old(State()))
    {
      if selected.None? {
        return;
      }
      var idx := FindIndex(filtered, selected.value.id);
      var nextIdx := NextIndex(idx, |filtered|);
      selected := Some(filtered[nextIdx]);
      ShowModal();
    }

    /** `prevProject`. */
    method PrevProject()
      requires Valid() && CanNavigate(State())
      modifies this
      ensures Valid() && State() == PrevSelected(old(State()))
    {
      if selected.None? {
        return;
      }
      var idx := FindIndex(filtered, selected.value.id);
      var prevIdx := PrevIndex(idx, |filtered|);
      selected := Some(filtered[prevIdx]);
      ShowModal();
    }

    /** The window `keydown` listener. */
    method KeyDown(key: string)
      requires Valid() && CanNavigate(State())
      modifies this
      ensures Valid() && State() == KeyHandled(old(State()), key)
    {
      if selected.None? {
        return;
      }
      if key == "Escape" {
        CloseModal();
      }
      if key == "ArrowRight" {
        NextProject();
      }
      if key == "ArrowLeft" {
        PrevProject();
      }
    }
  }
}
