/**
 * The filter state each selection panel owns: the search box text and the
 * categories chosen in its slicer, and the edits the panel lets the user make.
 */
module Browse {

  import opened Basics
  import opened Catalog
  import CategorySlicer

  datatype Filters = Filters(searchTerm: string, selected: seq<string>)

  /** A fresh panel: empty search, nothing selected. */
  const NoFilters := Filters("", [])

  datatype Event =
    | SetSearch(term: string)
    | ClickCategory(category: string)
    | ClearCategories

  /** The search box accepts any text; the slicer offers only its own buttons. */
  predicate Enabled(e: Event) {
    match e
    case ClickCategory(category) => category in CategorySlicer.AllCategories
    case _ => true
  }

  /** The selection is well formed and holds only categories the slicer lists. */
  ghost predicate Inv(f: Filters) {
    CategorySlicer.WellFormed(f.selected) &&
    forall c :: c in f.selected ==> c in CategorySlicer.AllCategories
  }

  /**
   * Typing replaces the term verbatim and leaves the selection alone; the
   * slicer edits the selection and leaves the term alone.
   */
  function Apply(f: Filters, e: Event): (r: Filters)
    ensures e.SetSearch? ==> r.searchTerm == e.term && r.selected == f.selected
    ensures !e.SetSearch? ==> r.searchTerm == f.searchTerm
    ensures e.ClickCategory? ==> r.selected == CategorySlicer.Click(f.selected, e.category)
    ensures e.ClearCategories? ==> r.selected == []
    ensures Inv(f) && Enabled(e) ==> Inv(r)
  {
    match e
    case SetSearch(term) => f.(searchTerm := term)
    case ClickCategory(category) =>
      CategorySlicer.ClickKeepsWellFormed(f.selected, category);
      f.(selected := CategorySlicer.Click(f.selected, category))
    case ClearCategories => f.(selected := CategorySlicer.ClearAll(f.selected))
  }

  /** The cards a panel shows for the given filters. */
  function Visible(groups: seq<SalesGroup>, f: Filters, searchTags: bool): seq<SalesGroup> {
    Filter(groups, f.searchTerm, f.selected, searchTags)
  }

  /** A fresh panel lists the whole catalog. */
  lemma VisibleWithoutFilters(groups: seq<SalesGroup>, f: Filters, searchTags: bool)
    ensures f == NoFilters ==> Visible(groups, f, searchTags) == groups
  {
    if f == NoFilters {
      FilterWithoutFiltersIsIdentity(groups, searchTags);
    }
  }

  lemma InitInv()
    ensures Inv(NoFilters)
  {
  }

  /**
   * Under the invariant the slicer's highlights agree: "All" is lit exactly
   * when no category button is.
   */
  lemma HighlightsAgree(f: Filters)
    requires Inv(f)
    ensures CategorySlicer.IsActive(f.selected, CategorySlicer.All) <==>
              forall i :: 1 <= i < |CategorySlicer.AllCategories| ==>
                !CategorySlicer.IsActive(f.selected, CategorySlicer.AllCategories[i])
  {
    CategorySlicer.AllLitIffNoneLit(f.selected);
  }
}
