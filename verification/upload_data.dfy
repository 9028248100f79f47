/**
 * The upload panel: pick an existing sales group (name-or-tag search) or
 * start a new one, edit its details, upload a file and confirm. The
 * simulated processing delay is the explicit `UploadDone` event; the drop
 * zone stays clickable while an upload is pending, so several completions
 * may be outstanding at once and `pendingUploads` counts them.
 */
module UploadPanel {

  import opened Basics
  import opened Text
  import opened Catalog
  import Browse
  import CategorySlicer

  datatype Step = ChooseGroup | UploadForm

  datatype State = State(
    groups: seq<SalesGroup>,
    step: Step,
    selectedGroup: Option<SalesGroup>,
    filters: Browse.Filters,
    isUploading: bool,
    uploadComplete: bool,
    groupName: string,
    groupDescription: string,
    groupTags: string,
    pendingUploads: nat)

  function Init(groups: seq<SalesGroup>): State {
    State(groups, ChooseGroup, None, Browse.NoFilters, false, false, "", "", "", 0)
  }

  /** The cards on the selection step: name-or-tag search AND category match, in catalog order. */
  function FilteredGroups(s: State): (r: seq<SalesGroup>)
    ensures Subseq(r, s.groups)
    ensures forall g :: g in r <==>
              g in s.groups && MatchesSearch(g, s.filters.searchTerm, true) && MatchesCategory(g, s.filters.selected)
    ensures s.filters == Browse.NoFilters ==> r == s.groups
  {
    Browse.VisibleWithoutFilters(s.groups, s.filters, true);
    Browse.Visible(s.groups, s.filters, true)
  }

  datatype Mode = Create | Update

  /** The form's header: updating an existing group or creating a new one. */
  function FormMode(s: State): (m: Mode)
    ensures m == Create <==> s.selectedGroup.None?
  {
    if s.selectedGroup.Some? then Update else Create
  }

  datatype Event =
    | Browse(e: Browse.Event)
    | Pick(g: SalesGroup)
    | CreateNew
    | Back
    | EditName(name: string)
    | EditDescription(description: string)
    | EditTags(tags: string)
    | StartUpload
    | UploadDone
    | Cancel
    | Confirm

  /**
   * The filters, cards and "create new" button live on the selection step;
   * the form, drop zone and back button on the upload step; Cancel and
   * Confirm only once an upload has completed. A completion can arrive
   * whenever one is outstanding, on either step.
   */
  predicate Enabled(s: State, e: Event) {
    match e
    case Browse(be) => s.step == ChooseGroup && Browse.Enabled(be)
    case Pick(g) => s.step == ChooseGroup && g in FilteredGroups(s)
    case CreateNew => s.step == ChooseGroup
    case Back => s.step == UploadForm
    case EditName(_) => s.step == UploadForm
    case EditDescription(_) => s.step == UploadForm
    case EditTags(_) => s.step == UploadForm
    case StartUpload => s.step == UploadForm
    case UploadDone => s.pendingUploads > 0
    case Cancel => s.step == UploadForm && s.uploadComplete
    case Confirm => s.step == UploadForm && s.uploadComplete
  }

  ghost predicate Inv(s: State) {
    && Browse.Inv(s.filters)
    && (s.isUploading ==> s.pendingUploads > 0)
    && (s.selectedGroup.Some? ==> s.selectedGroup.value in s.groups)
  }

  /** One user action or upload completion; the catalog never changes and the invariant is kept. */
  function Next(s: State, e: Event): (r: State)
    ensures r.groups == s.groups
    ensures Inv(s) ==> Inv(r)
    ensures !Enabled(s, e) ==> r == s
  {
    if !Enabled(s, e) then s
    else
      match e
      case Browse(be) => s.(filters := Browse.Apply(s.filters, be))
      case Pick(g) =>
        s.(selectedGroup := Some(g), groupName := g.name, groupDescription := "",
           groupTags := Join(g.tags, ", "), uploadComplete := false, step := UploadForm)
      case CreateNew =>
        s.(selectedGroup := None, groupName := "", groupDescription := "",
           groupTags := "", uploadComplete := false, step := UploadForm)
      case Back => s.(step := ChooseGroup)
      case EditName(name) => s.(groupName := name)
      case EditDescription(description) => s.(groupDescription := description)
      case EditTags(tags) => s.(groupTags := tags)
      case StartUpload => s.(isUploading := true, pendingUploads := s.pendingUploads + 1)
      case UploadDone =>
        s.(isUploading := false, uploadComplete := true, pendingUploads := s.pendingUploads - 1)
      case Cancel => s.(uploadComplete := false)
      case Confirm => s.(step := ChooseGroup)
  }

  function Run(s: State, events: seq<Event>): State
    decreases |events|
  {
    if events == [] then s else Run(Next(s, events[0]), events[1..])
  }

  /** Every state reachable from a state satisfying the invariant satisfies it. */
  lemma {:induction false} RunKeepsInv(s: State, events: seq<Event>)
    requires Inv(s)
    ensures Inv(Run(s, events))
    ensures Run(s, events).groups == s.groups
    decreases |events|
  {
    if events != [] {
      RunKeepsInv(Next(s, events[0]), events[1..]);
    }
  }

  lemma InitInv(groups: seq<SalesGroup>)
    ensures Inv(Init(groups))
  {
  }

  /**
   * Picking a card opens the form in Update mode with the group's name and
   * its tags joined by ", ", an empty description and no completed upload;
   * when the group has tags and none of them contains a comma, splitting
   * the tags field on ", " gives the tags back.
   */
  lemma PickPrefills(s: State, g: SalesGroup)
    requires s.step == ChooseGroup && g in FilteredGroups(s)
    ensures var t := Next(s, Pick(g));
      t.step == UploadForm && FormMode(t) == Update && t.selectedGroup == Some(g) &&
      t.groupName == g.name && t.groupDescription == "" && !t.uploadComplete
    ensures |g.tags| >= 1 && (forall i :: 0 <= i < |g.tags| ==> ',' !in g.tags[i]) ==>
              SplitCommaSpace(Next(s, Pick(g)).groupTags) == g.tags
  {
    if |g.tags| >= 1 && (forall i :: 0 <= i < |g.tags| ==> ',' !in g.tags[i]) {
      JoinSplitRoundTrip(g.tags);
    }
  }

  /** "Create new" opens an empty form in Create mode, whatever was picked before. */
  lemma CreateNewClears(s: State)
    requires s.step == ChooseGroup
    ensures var t := Next(s, CreateNew);
      t.step == UploadForm && FormMode(t) == Create &&
      t.groupName == "" && t.groupDescription == "" && t.groupTags == "" && !t.uploadComplete
  {
  }

  /**
   * An upload shows the busy indicator; its completion hides it and shows
   * the preview. Cancel hides the preview and stays on the form; Confirm
   * returns to the cards.
   */
  lemma UploadThenDone(s: State)
    requires s.step == UploadForm
    ensures Next(s, StartUpload).isUploading
    ensures var t := Next(Next(s, StartUpload), UploadDone);
      !t.isUploading && t.uploadComplete && t.step == UploadForm && t.pendingUploads == s.pendingUploads
    ensures var t := Next(Next(s, StartUpload), UploadDone);
      Next(t, Cancel) == t.(uploadComplete := false)
    ensures Next(Next(Next(s, StartUpload), UploadDone), Confirm).step == ChooseGroup
  {
  }

  /**
   * Clicking the drop zone twice before either completion arrives: the first
   * completion already clears the busy indicator although one upload is
   * still outstanding.
   */
  lemma DoubleUploadFirstDoneClearsBusy(s: State)
    requires s.step == UploadForm && s.pendingUploads == 0
    ensures var t := Next(Next(Next(s, StartUpload), StartUpload), UploadDone);
      !t.isUploading && t.pendingUploads == 1 && Enabled(t, UploadDone)
  {
  }

  /** In every state reached from a fresh panel, the slicer lights "All" exactly when it lights no category. */
  lemma SlicerHighlightsAgree(groups: seq<SalesGroup>, events: seq<Event>)
    ensures var f := Run(Init(groups), events).filters;
      CategorySlicer.IsActive(f.selected, CategorySlicer.All) <==>
      forall i :: 1 <= i < |CategorySlicer.AllCategories| ==>
        !CategorySlicer.IsActive(f.selected, CategorySlicer.AllCategories[i])
  {
    InitInv(groups);
    RunKeepsInv(Init(groups), events);
    Browse.HighlightsAgree(Run(Init(groups), events).filters);
  }
}
