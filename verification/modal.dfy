/**
 * The selection/modal state machine of the gallery, as functions on a
 * snapshot of the controller's closure variables. The controller class
 * (module Controller) is proved to follow these transitions step by step;
 * the lemmas here state what the transitions promise.
 */
module Modal {
  import opened Wrappers
  import opened Gallery

  /**
   * `selectedCategory`, `filteredProjects`, `selectedProject`, whether the
   * `modalOverlay` reference is set, how many overlay elements are attached to
   * the page, and whether page scrolling is disabled (both the root and the
   * body `overflow` styles are written together).
   */
  datatype GalleryState = GalleryState(
    category: string,
    filtered: seq<Project>,
    selected: Option<Project>,
    overlay: bool,
    attached: nat,
    scrollLocked: bool)

  /** The overlay reference tracks the one attached overlay element. */
  predicate OverlayTracked(g: GalleryState) {
    g.attached == if g.overlay then 1 else 0
  }

  /** Open (a project selected) exactly when an overlay is shown and scrolling is locked. */
  predicate Consistent(g: GalleryState) {
    && OverlayTracked(g)
    && (g.overlay <==> g.selected.Some?)
    && (g.scrollLocked <==> g.selected.Some?)
  }

  /** Navigation only divides by the view's length when the view is non-empty. */
  predicate CanNavigate(g: GalleryState) {
    g.selected.Some? ==> g.filtered != []
  }

  /** The state after the page loads: category "all", the whole list, modal closed. */
  function Initial(projects: seq<Project>): (g: GalleryState)
    ensures Consistent(g) && CanNavigate(g)
    ensures g.category == All && g.filtered == projects
    ensures g.selected == None && g.attached == 0 && !g.scrollLocked
  {
    GalleryState(All, Filter(projects, All), None, false, 0, false)
  }

  /** A filter-button click: the category changes and the view is recomputed. */
  function CategorySelected(g: GalleryState, projects: seq<Project>, category: string): (r: GalleryState)
    ensures r.category == category
    ensures r.filtered == Filter(projects, category)
    ensures category == All ==> r.filtered == projects
    ensures r.selected == g.selected && r.overlay == g.overlay && r.attached == g.attached
    ensures r.scrollLocked == g.scrollLocked
    ensures Consistent(g) ==> Consistent(r)
  {
    g.(category := category, filtered := Filter(projects, category))
  }

  /** `showModal`: drop the old overlay, attach a new one, lock scrolling; nothing when closed. */
  function ModalShown(g: GalleryState): (r: GalleryState)
    requires OverlayTracked(g)
    ensures OverlayTracked(r)
    ensures r.category == g.category && r.filtered == g.filtered && r.selected == g.selected
    ensures g.selected.None? ==> r == g
    ensures g.selected.Some? ==> r.overlay && r.attached == 1 && r.scrollLocked
  {
    if g.selected.None? then g
    else
      var removed := if g.overlay then g.(attached := g.attached - 1) else g;
      removed.(overlay := true, attached := removed.attached + 1, scrollLocked := true)
  }

  /** `openProject(p)`. */
  function ProjectOpened(g: GalleryState, p: Project): (r: GalleryState)
    requires OverlayTracked(g)
    ensures Consistent(r)
    ensures r.selected == Some(p) && r.attached == 1 && r.scrollLocked
    ensures r.category == g.category && r.filtered == g.filtered
  {
    ModalShown(g.(selected := Some(p)))
  }

  /** `closeModal`. */
  function ModalClosed(g: GalleryState): (r: GalleryState)
    requires OverlayTracked(g)
    ensures Consistent(r) && CanNavigate(r)
    ensures r.selected == None && r.attached == 0 && !r.scrollLocked
    ensures r.category == g.category && r.filtered == g.filtered
  {
    var removed := if g.overlay then g.(attached := g.attached - 1, overlay := false) else g;
    removed.(selected := None, scrollLocked := false)
  }

  /** `nextProject`: locate the selection by id in the view and step forward, wrapping. */
  function NextSelected(g: GalleryState): (r: GalleryState)
    requires Consistent(g) && CanNavigate(g)
    ensures Consistent(r) && CanNavigate(r)
    ensures r.category == g.category && r.filtered == g.filtered
    ensures r.selected.Some? == g.selected.Some?
    ensures r.selected.Some? ==> r.selected.value in g.filtered
  {
    match g.selected
    case None => g
    case Some(p) =>
      var n := |g.filtered|;
      var i := NextIndex(FindIndex(g.filtered, p.id), n);
      ModalShown(g.(selected := Some(g.filtered[i])))
  }

  /** `prevProject`: locate the selection by id in the view and step back, wrapping. */
  function PrevSelected(g: GalleryState): (r: GalleryState)
    requires Consistent(g) && CanNavigate(g)
    ensures Consistent(r) && CanNavigate(r)
    ensures r.category == g.category && r.filtered == g.filtered
    ensures r.selected.Some? == g.selected.Some?
    ensures r.selected.Some? ==> r.selected.value in g.filtered
  {
    match g.selected
    case None => g
    case Some(p) =>
      var n := |g.filtered|;
      var i := PrevIndex(FindIndex(g.filtered, p.id), n);
      ModalShown(g.(selected := Some(g.filtered[i])))
  }

  /** The window `keydown` handler: ignored while closed, otherwise three independent tests. */
  function KeyHandled(g: GalleryState, key: string): (r: GalleryState)
    requires Consistent(g) && CanNavigate(g)
    ensures Consistent(r) && CanNavigate(r)
    ensures r.category == g.category && r.filtered == g.filtered
  {
    if g.selected.None? then g
    else
      var g1 := if key == "Escape" then ModalClosed(g) else g;
      var g2 := if key == "ArrowRight" then NextSelected(g1) else g1;
      if key == "ArrowLeft" then PrevSelected(g2) else g2
  }

  /** Closing twice leaves the same state as closing once. */
  lemma CloseIdempotent(g: GalleryState)
    requires OverlayTracked(g)
    ensures ModalClosed(ModalClosed(g)) == ModalClosed(g)
  {
  }

  /** Opening while already open replaces the overlay: still exactly one is attached. */
  lemma ReopenKeepsOneOverlay(g: GalleryState, p: Project, q: Project)
    requires OverlayTracked(g)
    ensures ProjectOpened(ProjectOpened(g, p), q).attached == 1
    ensures ProjectOpened(ProjectOpened(g, p), q) == ProjectOpened(g, q)
  {
  }

  /** Navigation does nothing while no project is selected. */
  lemma NavigationWhileClosed(g: GalleryState)
    requires Consistent(g) && g.selected.None?
    ensures NextSelected(g) == g && PrevSelected(g) == g
  {
  }

  /** From position `i` of a view with distinct ids, next moves to `(i + 1) mod n`. */
  lemma NextStep(g: GalleryState, i: int)
    requires Consistent(g) && DistinctIds(g.filtered)
    requires 0 <= i < |g.filtered| && g.selected == Some(g.filtered[i])
    ensures NextSelected(g) == g.(selected := Some(g.filtered[(i + 1) % |g.filtered|]))
  {
    FindIndexOfMember(g.filtered, i);
    NextIndexIsMod(i, |g.filtered|);
  }

  /** From position `i` of a view with distinct ids, prev moves to `(i - 1 + n) mod n`. */
  lemma PrevStep(g: GalleryState, i: int)
    requires Consistent(g) && DistinctIds(g.filtered)
    requires 0 <= i < |g.filtered| && g.selected == Some(g.filtered[i])
    ensures PrevSelected(g) == g.(selected := Some(g.filtered[(i - 1 + |g.filtered|) % |g.filtered|]))
  {
    FindIndexOfMember(g.filtered, i);
    NextIndexIsMod(i, |g.filtered|);
  }

  /** Next followed by prev returns to the same project. */
  lemma PrevAfterNext(g: GalleryState)
    requires Consistent(g) && DistinctIds(g.filtered)
    requires g.selected.Some? && g.selected.value in g.filtered
    ensures PrevSelected(NextSelected(g)) == g
  {
    var n := |g.filtered|;
    var i :| 0 <= i < n && g.filtered[i] == g.selected.value;
    var j := (i + 1) % n;
    NextStep(g, i);
    var h := NextSelected(g);
    assert h == g.(selected := Some(g.filtered[j]));
    PrevStep(h, j);
    NextIndexIsMod(i, n);
    NextIndexIsMod(j, n);
    NextPrevInverse(i, n);
    assert (j - 1 + n) % n == i;
  }

  /** Prev followed by next returns to the same project. */
  lemma NextAfterPrev(g: GalleryState)
    requires Consistent(g) && DistinctIds(g.filtered)
    requires g.selected.Some? && g.selected.value in g.filtered
    ensures NextSelected(PrevSelected(g)) == g
  {
    var n := |g.filtered|;
    var i :| 0 <= i < n && g.filtered[i] == g.selected.value;
    var j := (i - 1 + n) % n;
    PrevStep(g, i);
    var h := PrevSelected(g);
    assert h == g.(selected := Some(g.filtered[j]));
    NextStep(h, j);
    NextIndexIsMod(i, n);
    NextIndexIsMod(j, n);
    NextPrevInverse(i, n);
    assert (j + 1) % n == i;
  }

  /** In a one-project view both directions land on that project, whatever was selected. */
  lemma SingletonNavigation(g: GalleryState, p: Project)
    requires Consistent(g) && g.filtered == [p] && g.selected.Some?
    ensures NextSelected(g).selected == Some(p) && PrevSelected(g).selected == Some(p)
    ensures g.selected == Some(p) ==> NextSelected(g) == g && PrevSelected(g) == g
  {
  }

  /** `k` presses of "Next". */
  function NextTimes(g: GalleryState, k: nat): (r: GalleryState)
    requires Consistent(g) && CanNavigate(g)
    ensures Consistent(r) && CanNavigate(r)
    ensures r.filtered == g.filtered
    decreases k
  {
    if k == 0 then g else NextTimes(NextSelected(g), k - 1)
  }

  /** `k` presses of "Next" from position `i` select the project `k` places further round the ring. */
  lemma {:induction false} NextAdvance(g: GalleryState, i: int, k: nat)
    requires Consistent(g) && DistinctIds(g.filtered)
    requires 0 <= i < |g.filtered| && g.selected == Some(g.filtered[i])
    ensures NextTimes(g, k) == g.(selected := Some(g.filtered[Advance(i, k, |g.filtered|)]))
    decreases k
  {
    if k > 0 {
      FindIndexOfMember(g.filtered, i);
      NextAdvance(NextSelected(g), NextIndex(i, |g.filtered|), k - 1);
    }
  }

  /** After `k` presses of "Next" from position `i`, the selection is at `(i + k) mod n`. */
  lemma NextCycle(g: GalleryState, i: int, k: nat)
    requires Consistent(g) && DistinctIds(g.filtered)
    requires 0 <= i < |g.filtered| && g.selected == Some(g.filtered[i])
    ensures NextTimes(g, k) == g.(selected := Some(g.filtered[(i + k) % |g.filtered|]))
  {
    NextAdvance(g, i, k);
    AdvanceIsMod(i, k, |g.filtered|);
  }

  /** `n` presses of "Next" in a view of `n` projects return to the starting state. */
  lemma NextFullCycle(g: GalleryState, i: int)
    requires Consistent(g) && DistinctIds(g.filtered)
    requires 0 <= i < |g.filtered| && g.selected == Some(g.filtered[i])
    ensures NextTimes(g, |g.filtered|) == g
  {
    NextAdvance(g, i, |g.filtered|);
    AdvanceFullTurn(i, |g.filtered|);
    assert g.(selected := Some(g.filtered[i])) == g;
  }

  /** The keyboard is ignored while the modal is closed. */
  lemma KeyWhileClosed(g: GalleryState, key: string)
    requires Consistent(g) && g.selected.None?
    ensures KeyHandled(g, key) == g
  {
  }

  /** While open, Escape closes, ArrowRight goes next, ArrowLeft goes back, other keys do nothing. */
  lemma KeyWhileOpen(g: GalleryState, key: string)
    requires Consistent(g) && CanNavigate(g) && g.selected.Some?
    ensures key == "Escape" ==> KeyHandled(g, key) == ModalClosed(g)
    ensures key == "ArrowRight" ==> KeyHandled(g, key) == NextSelected(g)
    ensures key == "ArrowLeft" ==> KeyHandled(g, key) == PrevSelected(g)
    ensures key != "Escape" && key != "ArrowRight" && key != "ArrowLeft" ==> KeyHandled(g, key) == g
  {
  }
}
