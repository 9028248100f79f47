/**
 * The analytics dashboard panel: pick a sales group (name-only search) and
 * view its analytics; the selection step shows a "no sales groups found"
 * message when the filters leave nothing.
 */
module DashboardPanel {

  import opened Basics
  import opened Catalog
  import Browse
  import CategorySlicer

  datatype Step = ChooseGroup | Analytics

  datatype State = State(
    groups: seq<SalesGroup>,
    step: Step,
    selectedGroup: Option<SalesGroup>,
    filters: Browse.Filters)

  function Init(groups: seq<SalesGroup>): State {
    State(groups, ChooseGroup, None, Browse.NoFilters)
  }

  /** The cards on the selection step: name-only search AND category match, in catalog order. */
  function FilteredGroups(s: State): (r: seq<SalesGroup>)
    ensures Subseq(r, s.groups)
    ensures forall g :: g in r <==>
              g in s.groups && NameMatches(g, s.filters.searchTerm) && MatchesCategory(g, s.filters.selected)
    ensures s.filters == Browse.NoFilters ==> r == s.groups
  {
    Browse.VisibleWithoutFilters(s.groups, s.filters, false);
    Browse.Visible(s.groups, s.filters, false)
  }

  /** The empty-result message of the selection step. */
  predicate ShowsNoResults(s: State) {
    s.step == ChooseGroup && |FilteredGroups(s)| == 0
  }

  datatype Event =
    | Browse(e: Browse.Event)
    | Pick(g: SalesGroup)
    | Back

  predicate Enabled(s: State, e: Event) {
    match e
    case Browse(be) => s.step == ChooseGroup && Browse.Enabled(be)
    case Pick(g) => s.step == ChooseGroup && g in FilteredGroups(s)
    case Back => s.step == Analytics
  }

  /** The message is shown exactly when the selection step offers no card to pick. */
  lemma NoResultsIffNothingToPick(s: State)
    requires s.step == ChooseGroup
    ensures ShowsNoResults(s) <==> forall g :: !Enabled(s, Pick(g))
  {
    var r := FilteredGroups(s);
    if |r| > 0 {
      assert Enabled(s, Pick(r[0]));
    }
  }

  ghost predicate Inv(s: State) {
    && Browse.Inv(s.filters)
    && (s.step == Analytics ==> s.selectedGroup.Some?)
    && (s.selectedGroup.Some? ==> s.selectedGroup.value in s.groups)
  }

  /** One user action; the catalog never changes and the invariant is kept. */
  function Next(s: State, e: Event): (r: State)
    ensures r.groups == s.groups
    ensures Inv(s) ==> Inv(r)
    ensures !Enabled(s, e) ==> r == s
  {
    if !Enabled(s, e) then s
    else
      match e
      case Browse(be) => s.(filters := Browse.Apply(s.filters, be))
      case Pick(g) => s.(selectedGroup := Some(g), step := Analytics)
      case Back => s.(step := ChooseGroup)
  }

  function Run(s: State, events: seq<Event>): State
    decreases |events|
  {
    if events == [] then s else Run(Next(s, events[0]), events[1..])
  }

  /** Every state reachable from a state satisfying the invariant satisfies it. */
  lemma {:induction false} RunKeepsInv(s: State, events: seq<Event>)
    requires Inv(s)
    ensures Inv(Run(s, events))
    ensures Run(s, events).groups == s.groups
    decreases |events|
  {
    if events != [] {
      RunKeepsInv(Next(s, events[0]), events[1..]);
    }
  }

  lemma InitInv(groups: seq<SalesGroup>)
    ensures Inv(Init(groups))
  {
  }

  /** Picking a card shows that group's analytics; back returns to the cards with the filters kept. */
  lemma PickThenBack(s: State, g: SalesGroup)
    requires s.step == ChooseGroup && g in FilteredGroups(s)
    ensures Next(s, Pick(g)).step == Analytics && Next(s, Pick(g)).selectedGroup == Some(g)
    ensures Next(Next(s, Pick(g)), Back).step == ChooseGroup
    ensures Next(Next(s, Pick(g)), Back).filters == s.filters
  {
  }

  /** In every state reached from a fresh panel, the slicer lights "All" exactly when it lights no category. */
  lemma SlicerHighlightsAgree(groups: seq<SalesGroup>, events: seq<Event>)
    ensures var f := Run(Init(groups), events).filters;
      CategorySlicer.IsActive(f.selected, CategorySlicer.All) <==>
      forall i :: 1 <= i < |CategorySlicer.AllCategories| ==>
        !CategorySlicer.IsActive(f.selected, CategorySlicer.AllCategories[i])
  {
    InitInv(groups);
    RunKeepsInv(Init(groups), events);
    Browse.HighlightsAgree(Run(Init(groups), events).filters);
  }
}
