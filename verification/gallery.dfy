/**
 * The pure parts of the project gallery: the project record, the category
 * filter, the id lookup and the wrap-around index arithmetic used by
 * next/previous navigation, the filter-button labels and the escaped text of
 * a project card.
 */
module Gallery {
  import Html

  /** One entry of the hard-coded project list. */
  datatype Project = Project(id: int, category: string, title: string, description: string)

  /** The synthetic category whose filter keeps every project. */
  const All: string := "all"

  predicate DistinctIds(projects: seq<Project>) {
    forall i, j :: 0 <= i < j < |projects| ==> projects[i].id != projects[j].id
  }

  predicate Distinct(categories: seq<string>) {
    forall i, j :: 0 <= i < j < |categories| ==> categories[i] != categories[j]
  }

  /** `xs` can be obtained from `ys` by deleting elements. */
  ghost predicate IsSubsequence<T>(xs: seq<T>, ys: seq<T>)
    decreases |ys|
  {
    if xs == [] then true
    else if ys == [] then false
    else (xs[0] == ys[0] && IsSubsequence(xs[1..], ys[1..])) || IsSubsequence(xs, ys[1..])
  }

  /** `projects.filter(p => p.category === category)`. */
  function Matching(projects: seq<Project>, category: string): (view: seq<Project>)
    ensures |view| <= |projects|
  {
    if projects == [] then []
    else
      var rest := Matching(projects[1..], category);
      if projects[0].category == category then [projects[0]] + rest else rest
  }

  /**
   * The filter keeps exactly the projects of the category, each as often as
   * the list holds it.
   */
  lemma {:induction false} MatchingExact(projects: seq<Project>, category: string)
    ensures forall p :: p in Matching(projects, category) <==> p in projects && p.category == category
    ensures forall p :: multiset(Matching(projects, category))[p] == if p.category == category then multiset(projects)[p] else 0
  {
    if projects != [] {
      MatchingExact(projects[1..], category);
      assert projects == [projects[0]] + projects[1..];
    }
  }

  /** Filtering keeps the ids of a list distinct. */
  lemma {:induction false} MatchingKeepsDistinctIds(projects: seq<Project>, category: string)
    requires DistinctIds(projects)
    ensures DistinctIds(Matching(projects, category))
  {
    if projects != [] {
      var tail := projects[1..];
      MatchingKeepsDistinctIds(tail, category);
      if projects[0].category == category {
        var rest := Matching(tail, category);
        MatchingExact(tail, category);
        forall q | q in rest
          ensures q.id != projects[0].id
        {
          var j :| 0 <= j < |tail| && tail[j] == q;
          assert projects[j + 1] == q;
        }
        ConsDistinctIds(projects[0], rest);
      }
    }
  }

  lemma ConsDistinctIds(p: Project, rest: seq<Project>)
    requires DistinctIds(rest) && forall q :: q in rest ==> q.id != p.id
    ensures DistinctIds([p] + rest)
  {
    var view := [p] + rest;
    forall i, j | 0 <= i < j < |view|
      ensures view[i].id != view[j].id
    {
      assert view[j] == rest[j - 1];
      if i > 0 {
        assert view[i] == rest[i - 1];
      }
    }
  }

  /** Every view of a list with distinct ids has distinct ids, as the navigation lemmas require. */
  lemma FilterKeepsDistinctIds(projects: seq<Project>, category: string)
    requires DistinctIds(projects)
    ensures DistinctIds(Filter(projects, category))
  {
    if category != All {
      MatchingKeepsDistinctIds(projects, category);
    }
  }

  /** `applyFilter`: the whole list for "all", otherwise the matching projects. */
  function Filter(projects: seq<Project>, category: string): (view: seq<Project>)
    ensures category == All ==> view == projects
    ensures |view| <= |projects|
  {
    if category == All then projects else Matching(projects, category)
  }

  /** For "all" the view is the list; otherwise exactly the projects of the category. */
  lemma FilterExact(projects: seq<Project>, category: string)
    ensures category == All ==> Filter(projects, category) == projects
    ensures category != All ==> forall p :: p in Filter(projects, category) <==> p in projects && p.category == category
    ensures forall p :: p in Filter(projects, category) ==> p in projects
  {
    MatchingExact(projects, category);
  }

  /** The filter keeps declaration order. */
  lemma {:induction false} MatchingIsSubsequence(projects: seq<Project>, category: string)
    ensures IsSubsequence(Matching(projects, category), projects)
  {
    if projects != [] {
      MatchingIsSubsequence(projects[1..], category);
      var rest := Matching(projects[1..], category);
      if projects[0].category == category {
        assert ([projects[0]] + rest)[1..] == rest;
      } else if rest != [] {
        assert IsSubsequence(rest, projects[1..]);
      }
    }
  }

  lemma {:induction false} SubsequenceReflexive<T>(xs: seq<T>)
    ensures IsSubsequence(xs, xs)
  {
    if xs != [] {
      SubsequenceReflexive(xs[1..]);
    }
  }

  /** Every filtered view is the project list with some entries deleted. */
  lemma FilterIsSubsequence(projects: seq<Project>, category: string)
    ensures IsSubsequence(Filter(projects, category), projects)
  {
    if category == All {
      SubsequenceReflexive(projects);
    } else {
      MatchingIsSubsequence(projects, category);
    }
  }

  /** Filtering a concatenation filters each part. */
  lemma {:induction false} MatchingAppend(a: seq<Project>, b: seq<Project>, category: string)
    ensures Matching(a + b, category) == Matching(a, category) + Matching(b, category)
  {
    if a == [] {
      assert a + b == b;
    } else {
      assert (a + b)[0] == a[0];
      assert (a + b)[1..] == a[1..] + b;
      MatchingAppend(a[1..], b, category);
    }
  }

  /** `findIndex(p => p.id === id)`: the first position holding `id`, or -1. */
  function FindIndex(view: seq<Project>, id: int): (r: int)
    ensures -1 <= r < |view|
    ensures 0 <= r ==> view[r].id == id
  {
    if view == [] then -1
    else if view[0].id == id then 0
    else
      var k := FindIndex(view[1..], id);
      if k == -1 then -1 else k + 1
  }

  /** The lookup answers the first position holding `id`, and -1 exactly when no project has it. */
  lemma {:induction false} FindIndexExact(view: seq<Project>, id: int)
    ensures 0 <= FindIndex(view, id) ==> forall j :: 0 <= j < FindIndex(view, id) ==> view[j].id != id
    ensures FindIndex(view, id) == -1 <==> forall j :: 0 <= j < |view| ==> view[j].id != id
  {
    if view != [] && view[0].id != id {
      FindIndexExact(view[1..], id);
      assert forall j :: 1 <= j < |view| ==> view[j] == view[1..][j - 1];
    }
  }

  /** With distinct ids, the lookup finds a project at its own position. */
  lemma FindIndexOfMember(view: seq<Project>, i: int)
    requires DistinctIds(view) && 0 <= i < |view|
    ensures FindIndex(view, view[i].id) == i
  {
    FindIndexExact(view, view[i].id);
  }

  /** JavaScript's `a % n`: truncating, so the remainder takes the sign of `a`. */
  function JsRem(a: int, n: int): (r: int)
    requires n > 0
    ensures 0 <= a ==> 0 <= r < n
    ensures a < 0 ==> -n < r <= 0
    ensures (a - r) % n == 0
  {
    if a >= 0 then
      var q := a / n;
      assert (a - a % n) % n == 0 by { ModUnique(a - a % n, q, 0, n); }
      a % n
    else
      var q := (-a) / n;
      var m := (-a) % n;
      assert a + m == -q * n;
      assert (a + m) % n == 0 by { ModUnique(a + m, -q, 0, n); }
      -m
  }

  /** The sign, magnitude and congruence clauses of `JsRem` pin down the truncated remainder. */
  lemma JsRemUnique(a: int, n: int, r: int)
    requires n > 0
    requires 0 <= a ==> 0 <= r < n
    requires a < 0 ==> -n < r <= 0
    requires (a - r) % n == 0
    ensures r == JsRem(a, n)
  {
    var s := JsRem(a, n);
    var qr, qs := (a - r) / n, (a - s) / n;
    assert a - r == qr * n;
    assert a - s == qs * n;
    var d := s - r;
    assert d == (qr - qs) * n;
    ModUnique(d, qr - qs, 0, n);
    if d > 0 {
      ModUnique(d, 0, d, n);
    } else if d < 0 {
      ModUnique(d, -1, d + n, n);
    }
  }

  /** `(idx + 1) % filteredProjects.length`, where `idx` may be -1 (not found). */
  function NextIndex(idx: int, n: int): (r: int)
    requires 0 < n && -1 <= idx < n
    ensures 0 <= r < n
    ensures r == if idx + 1 == n then 0 else idx + 1
  {
    var a := idx + 1;
    assert JsRem(a, n) == if a == n then 0 else a by {
      if a == n { ModUnique(a, 1, 0, n); } else { ModUnique(a, 0, a, n); }
    }
    JsRem(a, n)
  }

  /** `(idx - 1 + filteredProjects.length) % filteredProjects.length`. */
  function PrevIndex(idx: int, n: int): (r: int)
    requires 0 < n && -1 <= idx < n
    ensures 0 <= r < n
    ensures 0 <= idx ==> r == if idx == 0 then n - 1 else idx - 1
    ensures idx == -1 ==> r == if n == 1 then 0 else n - 2
  {
    var a := idx - 1 + n;
    assert JsRem(a, n) == if a >= n then a - n else if a < 0 then 0 else a by {
      if a >= n { ModUnique(a, 1, a - n, n); }
      else if a < 0 { ModUnique(-a, 1, 0, n); }
      else { ModUnique(a, 0, a, n); }
    }
    JsRem(a, n)
  }

  /** Stepping forward and then back (or back and then forward) is the identity. */
  lemma NextPrevInverse(i: int, n: int)
    requires 0 <= i < n
    ensures PrevIndex(NextIndex(i, n), n) == i
    ensures NextIndex(PrevIndex(i, n), n) == i
  {
  }

  /** The forward step is addition modulo the length of the view. */
  lemma NextIndexIsMod(i: int, n: int)
    requires 0 <= i < n
    ensures NextIndex(i, n) == (i + 1) % n
    ensures PrevIndex(i, n) == (i - 1 + n) % n
  {
  }

  lemma {:induction false} MulAtLeast(k: int, n: int)
    requires 1 <= k && 0 < n
    ensures n <= k * n
    decreases k
  {
    if k > 1 {
      MulAtLeast(k - 1, n);
      assert k * n == (k - 1) * n + n;
    }
  }

  /** The remainder is determined by any quotient/remainder split of `x`. */
  lemma ModUnique(x: int, q: int, r: int, n: int)
    requires 0 < n && 0 <= r < n && x == q * n + r
    ensures x % n == r
  {
    var q', r' := x / n, x % n;
    assert x == q' * n + r';
    assert (q - q') * n == r' - r;
    if q > q' {
      MulAtLeast(q - q', n);
    } else if q < q' {
      MulAtLeast(q' - q, n);
    }
  }

  /** The position reached from `i` after `k` forward steps round a ring of `n`. */
  ghost function Advance(i: int, k: nat, n: int): (r: int)
    requires 0 <= i < n
    ensures 0 <= r < n
    decreases k
  {
    if k == 0 then i else Advance(if i + 1 == n then 0 else i + 1, k - 1, n)
  }

  /** `k` forward steps from `i` land on `(i + k) mod n`. */
  lemma {:induction false} AdvanceIsMod(i: int, k: nat, n: int)
    requires 0 <= i < n
    ensures Advance(i, k, n) == (i + k) % n
    decreases k
  {
    if k == 0 {
      ModUnique(i, 0, i, n);
    } else if i + 1 == n {
      AdvanceIsMod(0, k - 1, n);
      var r := (k - 1) % n;
      ModUnique(k - 1, (k - 1) / n, r, n);
      ModUnique(i + k, (k - 1) / n + 1, r, n);
    } else {
      AdvanceIsMod(i + 1, k - 1, n);
    }
  }

  /** `n` forward steps round a ring of `n` come back to the start. */
  lemma AdvanceFullTurn(i: int, n: int)
    requires 0 <= i < n
    ensures Advance(i, n, n) == i
  {
    AdvanceIsMod(i, n, n);
    ModUnique(i + n, 1, i, n);
  }

  /** ASCII upper-casing (`toUpperCase` restricted to `a`..`z`). */
  function Upper(c: char): (u: char)
    ensures 'a' <= c <= 'z' ==> 'A' <= u <= 'Z' && u as int == c as int - 32
    ensures !('a' <= c <= 'z') ==> u == c
  {
    if 'a' <= c <= 'z' then (c as int - 32) as char else c
  }

  /** `cat.charAt(0).toUpperCase() + cat.slice(1)`. */
  function Label(category: string): (text: string)
    ensures |text| == |category|
    ensures forall i :: 1 <= i < |category| ==> text[i] == category[i]
    ensures 0 < |category| ==> text[0] == Upper(category[0])
  {
    if category == [] then [] else [Upper(category[0])] + category[1..]
  }

  /** One button of the filter row. */
  datatype FilterButton = FilterButton(category: string, caption: string, active: bool)

  /** The button of one category: captioned with its label, active exactly when selected. */
  function ButtonFor(category: string, selected: string): (b: FilterButton)
    ensures b.category == category && (b.active <==> selected == category)
    ensures b.caption == Label(category)
  {
    FilterButton(category, Label(category), selected == category)
  }

  /** The row `renderFilterButtons` draws, one button per category. */
  function FilterButtons(categories: seq<string>, selected: string): (row: seq<FilterButton>)
    ensures |row| == |categories|
    ensures forall i :: 0 <= i < |row| ==> row[i].category == categories[i]
    ensures forall i :: 0 <= i < |row| ==> (row[i].active <==> categories[i] == selected)
  {
    seq(|categories|, i requires 0 <= i < |categories| => ButtonFor(categories[i], selected))
  }

  /** With distinct categories, exactly the button of the selected category is active. */
  lemma ExactlyOneActive(categories: seq<string>, selected: string)
    requires Distinct(categories) && selected in categories
    ensures var row := FilterButtons(categories, selected);
      && |row| == |categories|
      && (exists i :: 0 <= i < |row| && row[i].active && row[i].category == selected)
      && (forall i, j :: 0 <= i < |row| && 0 <= j < |row| && row[i].active && row[j].active ==> i == j)
      && (forall i :: 0 <= i < |row| ==> row[i].category == categories[i] && row[i].caption == Label(categories[i]))
  {
    var row := FilterButtons(categories, selected);
    var k :| 0 <= k < |categories| && categories[k] == selected;
    assert row[k].active;
  }

  /** The escaped text of one project card. */
  datatype Card = Card(id: int, title: string, category: string)

  /** The card of one project: its id, and its title and category as safe markup. */
  function CardFor(p: Project): (c: Card)
    ensures c.id == p.id
    ensures Html.NoRawMarkup(c.title) && Html.NoRawMarkup(c.category)
  {
    Card(p.id, Html.Escape(p.title), Html.Escape(p.category))
  }

  /** The grid `renderProjects` draws, one card per project of the view. */
  function Cards(view: seq<Project>): (cards: seq<Card>)
    ensures |cards| == |view|
  {
    seq(|view|, i requires 0 <= i < |view| => CardFor(view[i]))
  }

  /** Card text is safe markup that still decodes to the project's own text. */
  lemma CardsAreEscaped(view: seq<Project>)
    ensures |Cards(view)| == |view|
    ensures forall i :: 0 <= i < |view| ==>
      && Cards(view)[i].id == view[i].id
      && Html.NoRawMarkup(Cards(view)[i].title) && Html.NoRawMarkup(Cards(view)[i].category)
      && Html.Unescape(Cards(view)[i].title) == view[i].title
      && Html.Unescape(Cards(view)[i].category) == view[i].category
  {
    forall i | 0 <= i < |view|
      ensures Html.Unescape(Html.Escape(view[i].title)) == view[i].title
      ensures Html.Unescape(Html.Escape(view[i].category)) == view[i].category
    {
      Html.UnescapeEscape(view[i].title);
      Html.UnescapeEscape(view[i].category);
    }
  }
}
