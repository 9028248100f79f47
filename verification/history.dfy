/**
 * The history panel: pick a sales group (name-only search), list its past
 * forecasts, and open one of them in a detail dialog.
 */
module HistoryPanel {

  import opened Basics
  import opened Catalog
  import Browse
  import CategorySlicer

  /** One row of the forecast history table. */
  datatype ForecastRecord = ForecastRecord(
    id: string,
    date: string,
    horizon: string,
    modelVersion: string,
    accuracy: string,
    growth: string)

  datatype Step = ChooseGroup | ListHistory

  datatype State = State(
    groups: seq<SalesGroup>,
    records: seq<ForecastRecord>,
    step: Step,
    selectedGroup: Option<SalesGroup>,
    filters: Browse.Filters,
    selectedForecast: Option<ForecastRecord>,
    dialogOpen: bool)

  function Init(groups: seq<SalesGroup>, records: seq<ForecastRecord>): State {
    State(groups, records, ChooseGroup, None, Browse.NoFilters, None, false)
  }

  /** The cards on the selection step: name-only search AND category match, in catalog order. */
  function FilteredGroups(s: State): (r: seq<SalesGroup>)
    ensures Subseq(r, s.groups)
    ensures forall g :: g in r <==>
              g in s.groups && NameMatches(g, s.filters.searchTerm) && MatchesCategory(g, s.filters.selected)
    ensures s.filters == Browse.NoFilters ==> r == s.groups
  {
    Browse.VisibleWithoutFilters(s.groups, s.filters, false);
    Browse.Visible(s.groups, s.filters, false)
  }

  /** The category list computed for the slicer. */
  function Categories(s: State): seq<string> {
    CategoryList(s.groups)
  }

  datatype Event =
    | Browse(e: Browse.Event)
    | Pick(g: SalesGroup)
    | Back
    | View(record: ForecastRecord)
    | CloseDialog

  /**
   * The filters and cards live on the selection step; the history table and
   * its View buttons on the history step; the dialog closes only when open.
   */
  predicate Enabled(s: State, e: Event) {
    match e
    case Browse(be) => s.step == ChooseGroup && Browse.Enabled(be)
    case Pick(g) => s.step == ChooseGroup && g in FilteredGroups(s)
    case Back => s.step == ListHistory && !s.dialogOpen
    case View(record) => s.step == ListHistory && !s.dialogOpen && record in s.records
    case CloseDialog => s.dialogOpen
  }

  ghost predicate Inv(s: State) {
    && Browse.Inv(s.filters)
    && (s.step == ListHistory ==> s.selectedGroup.Some?)
    && (s.selectedGroup.Some? ==> s.selectedGroup.value in s.groups)
    && (s.dialogOpen ==> s.step == ListHistory && s.selectedForecast.Some?)
    && (s.selectedForecast.Some? ==> s.selectedForecast.value in s.records)
  }

  /** One user action; catalog and history never change and the invariant is kept. */
  function Next(s: State, e: Event): (r: State)
    ensures r.groups == s.groups && r.records == s.records
    ensures Inv(s) ==> Inv(r)
    ensures !Enabled(s, e) ==> r == s
  {
    if !Enabled(s, e) then s
    else
      match e
      case Browse(be) => s.(filters := Browse.Apply(s.filters, be))
      case Pick(g) => s.(selectedGroup := Some(g), step := ListHistory)
      case Back => s.(step := ChooseGroup)
      case View(record) => s.(selectedForecast := Some(record), dialogOpen := true)
      case CloseDialog => s.(dialogOpen := false)
  }

  function Run(s: State, events: seq<Event>): State
    decreases |events|
  {
    if events == [] then s else Run(Next(s, events[0]), events[1..])
  }

  /** Every state reachable from a state satisfying the invariant satisfies it. */
  lemma {:induction false} RunKeepsInv(s: State, events: seq<Event>)
    requires Inv(s)
    ensures Inv(Run(s, events))
    ensures Run(s, events).groups == s.groups && Run(s, events).records == s.records
    decreases |events|
  {
    if events != [] {
      RunKeepsInv(Next(s, events[0]), events[1..]);
    }
  }

  lemma InitInv(groups: seq<SalesGroup>, records: seq<ForecastRecord>)
    ensures Inv(Init(groups, records))
  {
  }

  /** Picking a card lists that group's history; back returns to the cards with the filters kept. */
  lemma PickThenBack(s: State, g: SalesGroup)
    requires Inv(s) && s.step == ChooseGroup && g in FilteredGroups(s)
    ensures Next(s, Pick(g)).step == ListHistory && Next(s, Pick(g)).selectedGroup == Some(g)
    ensures Next(Next(s, Pick(g)), Back).step == ChooseGroup
    ensures Next(Next(s, Pick(g)), Back).filters == s.filters
  {
  }

  /** Viewing a row opens the dialog on exactly that row, and nothing else changes. */
  lemma ViewOpensDialog(s: State, record: ForecastRecord)
    requires s.step == ListHistory && !s.dialogOpen && record in s.records
    ensures Next(s, View(record)).dialogOpen
    ensures Next(s, View(record)).selectedForecast == Some(record)
    ensures Next(s, View(record)).(selectedForecast := s.selectedForecast, dialogOpen := false) == s
  {
  }

  /** In every state reached from a fresh panel, the slicer lights "All" exactly when it lights no category. */
  lemma SlicerHighlightsAgree(groups: seq<SalesGroup>, records: seq<ForecastRecord>, events: seq<Event>)
    ensures var f := Run(Init(groups, records), events).filters;
      CategorySlicer.IsActive(f.selected, CategorySlicer.All) <==>
      forall i :: 1 <= i < |CategorySlicer.AllCategories| ==>
        !CategorySlicer.IsActive(f.selected, CategorySlicer.AllCategories[i])
  {
    InitInv(groups, records);
    RunKeepsInv(Init(groups, records), events);
    Browse.HighlightsAgree(Run(Init(groups, records), events).filters);
  }
}
