# Portfolio project gallery — a Dafny model

The portfolio site's page scripts `assets/js/main.js` (home page, five
projects) and `assets/js/myprojects.js` (projects page, nine projects) carry
the same gallery controller: a row of category filter buttons, a grid of
project cards built from the filtered view, and a modal viewer with
close / previous / next buttons and keyboard control. This project models
that controller once, parameterised by the project list and the category
list, and proves what it promises.

- `wrappers.dfy` — `Option`, for "no project selected".
- `html.dfy` (module `Html`) — `escapeHtml` as a per-character table, with its
  inverse `Unescape` and the round trip, concatenation and identity laws.
- `gallery.dfy` (module `Gallery`) — the project record, `applyFilter`
  (`Matching`, `Filter`), `findIndex` by id, JavaScript's truncating `%`
  (`JsRem`) and the wrap-around indices of next/prev, the button labels, and
  the escaped card text.
- `modal.dfy` (module `Modal`) — the controller's closure variables as a value
  `GalleryState` and each handler as a transition function; the lemmas about
  the selection/modal state machine (closed, or open on a project).
- `controller.dfy` (module `Controller`) — class `GalleryController`, whose
  fields are the closure variables and whose methods are the handlers; each
  method is proved to perform exactly the transition of module `Modal`.
- `datasets.dfy` (module `Datasets`) — the two pages' data and their concrete
  behaviour, on the transition functions and through the class.

The overlay is modelled by two fields: `overlay` (the `modalOverlay`
variable is set) and `attached` (how many overlay elements hang in the page),
so that "the old overlay is removed before a new one is attached" is a
checked statement (`attached == 1` after every open). `scrollLocked` stands
for the two `overflow` styles, which the code always writes together.

`findIndex` can return -1 when the selected project is not in the current
view (the filter changed after it was opened). The model keeps that case:
next then moves to the first project, prev to position `n - 2` (or 0 when
`n == 1`, since `-1 % 1` is `-0` in JavaScript and indexes position 0).

## Model

| member | source | states |
|---|---|---|
| `Html.EscapeChar` | assets/js/main.js:70 | each of `& < > " '` becomes an entity starting with `&` and ending with `;`; every other character is copied; no raw `< > " '` is produced |
| `Html.Escape` | assets/js/main.js:70 | the output contains no raw `<`, `>`, `"` or `'` and is at least as long as the input |
| `Html.EscapeAppend` | assets/js/main.js:70 | escaping distributes over concatenation |
| `Html.EscapeIdentity` | assets/js/myprojects.js:75-77 | text without any of the five special characters is unchanged |
| `Html.UnescapeEscape` | assets/js/myprojects.js:75-77 | decoding the five entities recovers the original text: nothing is lost |
| `Html.EscapeInjective` | assets/js/main.js:70 | different texts never render to the same markup |
| `Html.EscapeTagExample` | assets/js/main.js:61-62 | the pieces `<b>`, `X`, `</b>` escape to `&lt;b&gt;`, `X`, `&lt;/b&gt;`, and a title escapes piece by piece |
| `Html.EscapeTagRendered` | assets/js/main.js:61-62 | a title `<b>X</b>` is rendered as `&lt;b&gt;X&lt;/b&gt;` |
| `Gallery.Matching` | assets/js/main.js:48 | the projects of the category, in list order, never more than the list holds (meaning in `MatchingExact`, `MatchingIsSubsequence`) |
| `Gallery.MatchingKeepsDistinctIds` | assets/js/main.js:48 | filtering a list with distinct ids gives a view with distinct ids |
| `Gallery.FilterKeepsDistinctIds` | assets/js/main.js:47-49 | every view of a list with distinct ids has distinct ids, so the navigation lemmas apply to any category |
| `Gallery.MatchingExact` | assets/js/main.js:48 | the category filter keeps a project iff its category matches, with the same multiplicity as in the list |
| `Gallery.Filter` | assets/js/main.js:47-49 | `"all"` yields the whole list; no view is longer than the list |
| `Gallery.FilterExact` | assets/js/myprojects.js:53-55 | for `"all"` the view is the list; otherwise a project is in the view iff it is in the list with that category |
| `Gallery.MatchingIsSubsequence` | assets/js/main.js:48 | the category filter keeps declaration order (its result is a subsequence of the list) |
| `Gallery.FilterIsSubsequence` | assets/js/myprojects.js:53-55 | every filtered view is a subsequence of the project list |
| `Gallery.MatchingAppend` | assets/js/myprojects.js:54 | filtering a concatenation filters each part |
| `Gallery.FindIndex` | assets/js/main.js:136 | the answer is -1 or a position in the view whose project has the id |
| `Gallery.FindIndexExact` | assets/js/main.js:136 | no earlier position has the id, and the answer is -1 exactly when no position has it |
| `Gallery.FindIndexOfMember` | assets/js/main.js:136 | with distinct ids the lookup finds each project at its own position |
| `Gallery.JsRem` | assets/js/main.js:137 | JavaScript `%`: the remainder has the sign of the dividend, magnitude below the divisor, and differs from the dividend by a multiple of the divisor |
| `Gallery.JsRemUnique` | assets/js/main.js:137 | those three properties determine the truncated remainder: any value meeting them is `JsRem` |
| `Gallery.NextIndex` | assets/js/main.js:137 | the next index stays in the view and wraps from the last position to 0 (and from "not found" to 0) |
| `Gallery.PrevIndex` | assets/js/main.js:144 | the previous index stays in the view and wraps from 0 to the last position; from "not found" it is `n - 2`, or 0 when `n == 1` |
| `Gallery.NextPrevInverse` | assets/js/myprojects.js:138-146 | the forward and backward index steps undo each other |
| `Gallery.AdvanceIsMod` | assets/js/myprojects.js:138 | repeating the wrapping forward step `k` times from `i` lands on `(i + k) mod n` |
| `Gallery.AdvanceFullTurn` | assets/js/myprojects.js:138 | `n` wrapping forward steps in a view of `n` return to the start |
| `Gallery.NextIndexIsMod` | assets/js/main.js:137-144 | for a found index the steps are `(i + 1) mod n` and `(i - 1 + n) mod n` |
| `Gallery.Upper` | assets/js/main.js:36 | ASCII `toUpperCase`: `a`..`z` move to `A`..`Z`, all else is unchanged |
| `Gallery.Label` | assets/js/main.js:36 | a label has the category's length, its first character upper-cased and the rest unchanged |
| `Gallery.ButtonFor` | assets/js/main.js:34-36 | a category's button carries that category, is active exactly when it is the selected one, and is captioned with the category's label |
| `Gallery.FilterButtons` | assets/js/main.js:31-36 | one button per category, in order, each active exactly when its category is the selected one |
| `Gallery.ExactlyOneActive` | assets/js/main.js:33-36 | with distinct categories exactly one button is active, the selected category's; each button carries its category and label |
| `Gallery.CardFor` | assets/js/main.js:56-62 | a card carries its project's id as `data-id`, and its title and category text contain no raw markup |
| `Gallery.Cards` | assets/js/main.js:51-63 | one card per project of the view (ids, order and decoding in `CardsAreEscaped`) |
| `Gallery.CardsAreEscaped` | assets/js/main.js:53-63 | one card per project of the view, in order, carrying its id; card text is free of raw markup and decodes to the project's title and category |
| `Modal.Initial` | assets/js/main.js:27-29 | on load: category `"all"`, the view is the whole list, modal closed, no overlay, scroll unlocked |
| `Modal.CategorySelected` | assets/js/main.js:37-48 | a filter click sets the category, makes the view exactly `Filter(projects, category)` (the whole list for `"all"`), and leaves the selection, overlay and scroll lock alone |
| `Modal.ModalShown` | assets/js/main.js:80-122 | nothing happens while nothing is selected; otherwise exactly one overlay is attached and scrolling is locked |
| `Modal.ProjectOpened` | assets/js/main.js:75-78 | after opening `p`: `p` is selected, exactly one overlay is attached, scrolling is locked, category and view unchanged |
| `Modal.ModalClosed` | assets/js/main.js:124-132 | after closing: no selection, no overlay, scroll unlocked, category and view unchanged |
| `Modal.NextSelected` | assets/js/main.js:134-140 | next keeps the state consistent, stays open or closed, and selects a project of the view |
| `Modal.PrevSelected` | assets/js/main.js:141-147 | prev keeps the state consistent, stays open or closed, and selects a project of the view |
| `Modal.KeyHandled` | assets/js/main.js:150-155 | the keydown handler keeps the state consistent and never changes the category or view |
| `Modal.CloseIdempotent` | assets/js/myprojects.js:125-133 | closing twice gives the same state as closing once |
| `Modal.ReopenKeepsOneOverlay` | assets/js/myprojects.js:87-89 | opening while open removes the old overlay: one overlay remains, as if opened once |
| `Modal.NavigationWhileClosed` | assets/js/main.js:135 | next and prev do nothing while no project is selected |
| `Modal.NextStep` | assets/js/main.js:134-140 | from position `i` (distinct ids) next selects position `(i + 1) mod n`, nothing else changes |
| `Modal.PrevStep` | assets/js/main.js:141-147 | from position `i` (distinct ids) prev selects position `(i - 1 + n) mod n`, nothing else changes |
| `Modal.PrevAfterNext` | assets/js/main.js:134-147 | with distinct ids and the selection in the view, next then prev returns to the same state |
| `Modal.NextAfterPrev` | assets/js/myprojects.js:135-149 | with distinct ids and the selection in the view, prev then next returns to the same state |
| `Modal.SingletonNavigation` | assets/js/main.js:137-145 | in a one-project view both directions select that project; when it is already selected the state is unchanged |
| `Modal.NextTimes` | assets/js/myprojects.js:135-141 | repeated next keeps the state consistent and the view unchanged |
| `Modal.NextAdvance` | assets/js/myprojects.js:135-141 | `k` presses of next from position `i` select the project reached by `k` wrapping forward steps, and change nothing else |
| `Modal.NextCycle` | assets/js/myprojects.js:135-141 | `k` presses of next from position `i` select position `(i + k) mod n` |
| `Modal.NextFullCycle` | assets/js/myprojects.js:135-141 | `n` presses of next in a view of `n` projects return to the starting state |
| `Modal.KeyWhileClosed` | assets/js/main.js:151 | keys are ignored while the modal is closed |
| `Modal.KeyWhileOpen` | assets/js/myprojects.js:151-156 | while open: Escape closes, ArrowRight is next, ArrowLeft is prev, any other key does nothing |
| `Controller.GalleryController.constructor` | assets/js/main.js:27-29 | the controller starts in the initial state for its project list |
| `Controller.GalleryController.ApplyFilter` | assets/js/main.js:47-49 | the view becomes the filter of the list by the current category |
| `Controller.GalleryController.RenderFilterButtons` | assets/js/main.js:31-45 | the loop draws the row `Gallery.FilterButtons` describes, one button per category |
| `Controller.GalleryController.RenderProjects` | assets/js/main.js:51-67 | the loop draws one escaped card per project of the view |
| `Controller.GalleryController.SelectCategory` | assets/js/main.js:37-42 | a filter click makes the `CategorySelected` transition and returns the re-rendered row and grid |
| `Controller.GalleryController.ShowModal` | assets/js/main.js:80-122 | performs the `ModalShown` transition |
| `Controller.GalleryController.OpenProject` | assets/js/main.js:75-78 | performs the `ProjectOpened` transition and keeps the invariant |
| `Controller.GalleryController.CloseModal` | assets/js/main.js:124-132 | performs the `ModalClosed` transition and keeps the invariant |
| `Controller.GalleryController.NextProject` | assets/js/main.js:134-140 | performs the `NextSelected` transition and keeps the invariant |
| `Controller.GalleryController.PrevProject` | assets/js/main.js:141-147 | performs the `PrevSelected` transition and keeps the invariant |
| `Controller.GalleryController.KeyDown` | assets/js/main.js:150-155 | performs the `KeyHandled` transition and keeps the invariant |
| `Datasets.DatasetsWellFormed` | assets/js/main.js:4-11 | the categories are distinct and include `"all"`; project ids are distinct on both pages |
| `Datasets.InitialButtons` | assets/js/main.js:31-36 | on load the row reads All, Digital marketing, Photography, Videography, Video editing, with All active |
| `Datasets.CategoryLabels` | assets/js/main.js:36 | the one-word categories are captioned All, Photography, Videography |
| `Datasets.TwoWordCategoryLabels` | assets/js/main.js:36 | only the first word of a two-word category is capitalised: Digital marketing, Video editing |
| `Datasets.HomePhotography` | assets/js/main.js:4-11 | the home page's photography view is project 2 alone |
| `Datasets.PortfolioDigitalMarketing` | assets/js/myprojects.js:5-16 | the projects page's digital marketing view is ids 1, 5, 6, 7 in that order |
| `Datasets.PortfolioPhotography` | assets/js/myprojects.js:5-16 | the projects page's photography view is ids 2, 8 |
| `Datasets.PortfolioAll` | assets/js/myprojects.js:33-35 | the projects page starts with all nine projects in order |
| `Datasets.HomePhotographyWalk` | assets/js/main.js:150-155 | photography, open id 2, ArrowRight keeps id 2, Escape closes and unlocks scroll |
| `Datasets.HomeNextCycle` | assets/js/main.js:134-140 | under "all", next from id 1 reaches id 2, then id 5 after four presses, and id 1 after five |
| `Datasets.EveryCategoryShown` | assets/js/myprojects.js:4-15 | every category of the button row has at least one project, on the home page and on the projects page |
| `Datasets.SelectionKeepsNavigation` | assets/js/main.js:37-48 | on either page a filter click leaves a state where next and prev are defined, even with a project open |
| `Datasets.PortfolioWrap` | assets/js/myprojects.js:135-149 | under "all", next from id 9 gives id 1 and prev from id 1 gives id 9 |
| `Datasets.HomePageSession` | assets/js/main.js:150-155 | the photography walk through the controller object ends closed with scroll unlocked |
| `Datasets.ProjectsPageSession` | assets/js/myprojects.js:151-156 | through the controller, ArrowRight from id 9 and then ArrowLeft leave id 9 open |

## Left out

- Building markup with `innerHTML`, `createElement` and `appendChild`, and the event-listener wiring: buttons, cards and the overlay are values (`FilterButton`, `Card`, the overlay counter), and the close, previous and next buttons and the outside click are the same `CloseModal`, `PrevProject` and `NextProject` methods. The `stopPropagation` on the modal content is not modelled.
- The modal's own text (escaped title and description) is not modelled; only the card text is.
- Focus handling (`modalContent.focus()` and the capture-phase focus trap): browser focus plumbing.
- The education timeline (`IntersectionObserver`, `updateLine`): browser callbacks and floating-point geometry.
- The hero and about smooth-scroll buttons and the empty footer click handler: no state.
- The initial render at page load is not returned by the constructor; `RenderFilterButtons` and `RenderProjects` give the same rows on the initial state.
- Gallery.Label: upper-cases ASCII `a`..`z` only, not the full Unicode `toUpperCase`.
- Controller.GalleryController.NextProject: requires a non-empty view while a project is selected; the JavaScript `NaN` index of an empty view (which leaves the overlay attached with no selection) is not modelled. On the site's own data that path cannot be reached, since every category shows at least one project (`Datasets.EveryCategoryShown`). The same holds for `PrevProject`, `KeyDown`, `Modal.NextSelected`, `Modal.PrevSelected` and `Modal.KeyHandled`.
- Controller.GalleryController.SelectCategory: requires one of the listed categories, as only the filter buttons call it; the code has no error path for an unknown category.
- `escapeHtml` first converts its argument with `s + ''`; the model takes strings.
