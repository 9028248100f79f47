/**
 * The forecast panel: pick a sales group (name-only search), configure the
 * horizon and effect switches, generate, and view results. The simulated
 * generation delay is the explicit `GenerationDone` event.
 */
module ForecastPanel {

  import opened Basics
  import opened Catalog
  import Browse
  import CategorySlicer

  datatype Step = ChooseGroup | Configure | Results

  datatype Horizon = OneMonth | ThreeMonths | OneYear | Aop

  datatype State = State(
    groups: seq<SalesGroup>,
    step: Step,
    selectedGroup: Option<SalesGroup>,
    filters: Browse.Filters,
    horizon: Horizon,
    includeCalendar: bool,
    includePrice: bool,
    isGenerating: bool)

  function Init(groups: seq<SalesGroup>): State {
    State(groups, ChooseGroup, None, Browse.NoFilters, ThreeMonths, true, true, false)
  }

  /** The cards on the selection step: name-only search AND category match, in catalog order. */
  function FilteredGroups(s: State): (r: seq<SalesGroup>)
    ensures Subseq(r, s.groups)
    ensures forall g :: g in r <==>
              g in s.groups && NameMatches(g, s.filters.searchTerm) && MatchesCategory(g, s.filters.selected)
    ensures s.filters == Browse.NoFilters ==> r == s.groups
  {
    Browse.VisibleWithoutFilters(s.groups, s.filters, false);
    Browse.Visible(s.groups, s.filters, false)
  }

  /** The category list computed for the slicer. */
  function Categories(s: State): seq<string> {
    CategoryList(s.groups)
  }

  datatype Event =
    | Browse(e: Browse.Event)
    | Pick(g: SalesGroup)
    | BackToGroups
    | BackToConfiguration
    | ChooseHorizon(h: Horizon)
    | SetCalendar(on: bool)
    | SetPrice(on: bool)
    | Generate
    | GenerationDone

  /**
   * Which controls are on screen: the search box, slicer and cards only on
   * the selection step, a card only for a listed group, the configuration
   * controls only on the configure step with Generate disabled while a
   * generation is pending, and the completion only while one is pending.
   */
  predicate Enabled(s: State, e: Event) {
    match e
    case Browse(be) => s.step == ChooseGroup && Browse.Enabled(be)
    case Pick(g) => s.step == ChooseGroup && g in FilteredGroups(s)
    case BackToGroups => s.step == Configure
    case BackToConfiguration => s.step == Results
    case ChooseHorizon(_) => s.step == Configure
    case SetCalendar(_) => s.step == Configure
    case SetPrice(_) => s.step == Configure
    case Generate => s.step == Configure && !s.isGenerating
    case GenerationDone => s.isGenerating
  }

  ghost predicate Inv(s: State) {
    && Browse.Inv(s.filters)
    && (s.step != ChooseGroup ==> s.selectedGroup.Some?)
    && (s.isGenerating ==> s.selectedGroup.Some?)
    && (s.selectedGroup.Some? ==> s.selectedGroup.value in s.groups)
  }

  /**
   * One user action or timer completion. A control that is not on screen
   * changes nothing. The catalog never changes, and the invariant is kept:
   * leaving the selection step always carries a group from the catalog.
   */
  function Next(s: State, e: Event): (r: State)
    ensures r.groups == s.groups
    ensures Inv(s) ==> Inv(r)
    ensures !Enabled(s, e) ==> r == s
  {
    if !Enabled(s, e) then s
    else
      match e
      case Browse(be) => s.(filters := Browse.Apply(s.filters, be))
      case Pick(g) => s.(selectedGroup := Some(g), step := Configure)
      case BackToGroups => s.(step := ChooseGroup)
      case BackToConfiguration => s.(step := Configure)
      case ChooseHorizon(h) => s.(horizon := h)
      case SetCalendar(on) => s.(includeCalendar := on)
      case SetPrice(on) => s.(includePrice := on)
      case Generate => s.(isGenerating := true)
      case GenerationDone => s.(isGenerating := false, step := Results)
  }

  function Run(s: State, events: seq<Event>): State
    decreases |events|
  {
    if events == [] then s else Run(Next(s, events[0]), events[1..])
  }

  /** Every state reachable from a fresh panel satisfies the invariant. */
  lemma {:induction false} RunKeepsInv(s: State, events: seq<Event>)
    requires Inv(s)
    ensures Inv(Run(s, events))
    ensures Run(s, events).groups == s.groups
    decreases |events|
  {
    if events != [] {
      RunKeepsInv(Next(s, events[0]), events[1..]);
    }
  }

  lemma InitInv(groups: seq<SalesGroup>)
    ensures Inv(Init(groups))
  {
  }

  /** Picking a card selects that group and moves on to configuration. */
  lemma PickSelects(s: State, g: SalesGroup)
    requires s.step == ChooseGroup && g in FilteredGroups(s)
    ensures Next(s, Pick(g)).selectedGroup == Some(g)
    ensures Next(s, Pick(g)).step == Configure
  {
  }

  /** Going back to the cards keeps the search term and the category selection. */
  lemma PickThenBackKeepsFilters(s: State, g: SalesGroup)
    requires s.step == ChooseGroup && g in FilteredGroups(s)
    ensures Next(Next(s, Pick(g)), BackToGroups).step == ChooseGroup
    ensures Next(Next(s, Pick(g)), BackToGroups).filters == s.filters
    ensures FilteredGroups(Next(Next(s, Pick(g)), BackToGroups)) == FilteredGroups(s)
  {
  }

  /**
   * Generating sets the busy flag; its completion clears it and shows the
   * results for the same group and configuration. Back from the results
   * returns to the configuration.
   */
  lemma GenerateThenDone(s: State)
    requires s.step == Configure && !s.isGenerating
    ensures Next(s, Generate).isGenerating
    ensures var t := Next(Next(s, Generate), GenerationDone);
      t.step == Results && !t.isGenerating && t.selectedGroup == s.selectedGroup &&
      t.horizon == s.horizon && t.includeCalendar == s.includeCalendar && t.includePrice == s.includePrice
    ensures Next(Next(Next(s, Generate), GenerationDone), BackToConfiguration).step == Configure
  {
  }

  /**
   * The results step is entered only by a generation completing, and the
   * selection step is left only by picking a card or by a pending
   * generation completing after the user went back.
   */
  lemma StepEntries(s: State, e: Event)
    ensures s.step != Results && Next(s, e).step == Results ==> e == GenerationDone && s.isGenerating
    ensures s.step == ChooseGroup && Next(s, e).step != ChooseGroup ==> e.Pick? || e == GenerationDone
  {
  }

  /** In every state reached from a fresh panel, the slicer lights "All" exactly when it lights no category. */
  lemma SlicerHighlightsAgree(groups: seq<SalesGroup>, events: seq<Event>)
    ensures var f := Run(Init(groups), events).filters;
      CategorySlicer.IsActive(f.selected, CategorySlicer.All) <==>
      forall i :: 1 <= i < |CategorySlicer.AllCategories| ==>
        !CategorySlicer.IsActive(f.selected, CategorySlicer.AllCategories[i])
  {
    InitInv(groups);
    RunKeepsInv(Init(groups), events);
    Browse.HighlightsAgree(Run(Init(groups), events).filters);
  }
}
