/**
 * The sales-group catalog and the filter every selection panel applies to
 * it. The four panels carry the same predicate; the only variation is
 * whether the search term may also match a tag (the upload panel) or only
 * the name (forecast, dashboard, history), which is the `searchTags` flag.
 */
module Catalog {

  import opened Basics
  import opened Text

  datatype Status = Ready | NeedsData | Forecasted

  /** The status as the source spells it. */
  function StatusText(st: Status): string {
    match st
    case Ready => "ready"
    case NeedsData => "needs-data"
    case Forecasted => "forecasted"
  }

  datatype SalesGroup = SalesGroup(
    id: string,
    name: string,
    timeSpan: string,
    lastUpload: string,
    status: Status,
    tags: seq<string>)

  const GreenBadge := "bg-green-100 text-green-800"
  const BlueBadge := "bg-blue-100 text-blue-800"
  const AmberBadge := "bg-amber-100 text-amber-800"
  const GrayBadge := "bg-gray-100 text-gray-800"

  /** The badge colour of a status string; anything unknown falls back to grey. */
  function StatusColor(status: string): (c: string)
    ensures c == GreenBadge <==> status == "forecasted"
    ensures c == BlueBadge <==> status == "ready"
    ensures c == AmberBadge <==> status == "needs-data"
    ensures c == GrayBadge <==> status != "forecasted" && status != "ready" && status != "needs-data"
  {
    assert GreenBadge[3] == 'g' && BlueBadge[3] == 'b' && AmberBadge[3] == 'a' && GrayBadge[3] == 'g';
    assert GreenBadge[4] == 'r' && GrayBadge[4] == 'r' && GreenBadge[5] == 'e' && GrayBadge[5] == 'a';
    match status
    case "forecasted" => GreenBadge
    case "ready" => BlueBadge
    case "needs-data" => AmberBadge
    case _ => GrayBadge
  }

  /** The badge text: `status.replace('-', ' ')`. */
  function StatusLabel(st: Status): string {
    ReplaceFirst(StatusText(st), '-', ' ')
  }

  /** Only the first `-` is replaced: "needs-data" reads "needs data", the others are unchanged. */
  lemma StatusLabels()
    ensures StatusLabel(Ready) == "ready"
    ensures StatusLabel(NeedsData) == "needs data"
    ensures StatusLabel(Forecasted) == "forecasted"
  {
    NoDashUnchanged(StatusText(Ready));
    NoDashUnchanged(StatusText(Forecasted));
    NeedsDataLabel();
  }

  lemma NeedsDataLabel()
    ensures StatusLabel(NeedsData) == "needs data"
  {
    ReplaceDashOfNeedsData(StatusText(NeedsData));
  }

  lemma ReplaceDashOfNeedsData(text: string)
    requires text == "needs-data"
    ensures ReplaceFirst(text, '-', ' ') == "needs data"
  {
    assert text[5] == '-';
    assert forall j :: 0 <= j < 5 ==> text[j] != '-';
    assert IndexOf(text, '-') == 5;
    assert ReplaceFirst(text, '-', ' ') == text[..5] + " " + text[6..];
  }

  /** A string without a dash is its own label. */
  lemma NoDashUnchanged(text: string)
    requires '-' !in text
    ensures ReplaceFirst(text, '-', ' ') == text
  {
    var l := ReplaceFirst(text, '-', ' ');
    assert IndexOf(text, '-') == -1;
    assert forall j :: 0 <= j < |l| ==> l[j] == text[j];
  }

  /** Case-insensitive name search: the lower-cased name contains the lower-cased term. */
  predicate NameMatches(g: SalesGroup, term: string) {
    Contains(Lower(g.name), Lower(term))
  }

  /** Case-insensitive tag search: some lower-cased tag contains the lower-cased term. */
  predicate SomeTagMatches(g: SalesGroup, term: string) {
    exists tag :: tag in g.tags && Contains(Lower(tag), Lower(term))
  }

  predicate MatchesSearch(g: SalesGroup, term: string, searchTags: bool) {
    NameMatches(g, term) || (searchTags && SomeTagMatches(g, term))
  }

  /** No selection matches everything; otherwise one selected tag suffices (OR semantics). */
  predicate MatchesCategory(g: SalesGroup, selected: seq<string>) {
    |selected| == 0 || exists tag :: tag in g.tags && tag in selected
  }

  predicate Keeps(g: SalesGroup, term: string, selected: seq<string>, searchTags: bool) {
    MatchesSearch(g, term, searchTags) && MatchesCategory(g, selected)
  }

  /**
   * `groups.filter(...)`: the groups that match both the search and the
   * category selection, in catalog order.
   */
  function Filter(groups: seq<SalesGroup>, term: string, selected: seq<string>, searchTags: bool)
    : (r: seq<SalesGroup>)
    ensures Subseq(r, groups)
    ensures forall g :: g in r <==> g in groups && Keeps(g, term, selected, searchTags)
    decreases |groups|
  {
    if groups == [] then []
    else
      var rest := Filter(groups[1..], term, selected, searchTags);
      assert forall g :: g in groups <==> g == groups[0] || g in groups[1..];
      if Keeps(groups[0], term, selected, searchTags) then
        var r := [groups[0]] + rest;
        assert r[1..] == rest;
        r
      else rest
  }

  /** Each kept group keeps its multiplicity; each dropped one has none. */
  lemma {:induction false} FilterCounts(groups: seq<SalesGroup>, term: string, selected: seq<string>, searchTags: bool)
    ensures forall g :: multiset(Filter(groups, term, selected, searchTags))[g] ==
                       if Keeps(g, term, selected, searchTags) then multiset(groups)[g] else 0
    decreases |groups|
  {
    if groups != [] {
      FilterCounts(groups[1..], term, selected, searchTags);
      assert groups == [groups[0]] + groups[1..];
    }
  }

  /** An empty term and an empty selection return the catalog unchanged. */
  lemma {:induction false} FilterWithoutFiltersIsIdentity(groups: seq<SalesGroup>, searchTags: bool)
    ensures Filter(groups, "", [], searchTags) == groups
    decreases |groups|
  {
    if groups != [] {
      assert Contains(Lower(groups[0].name), Lower(""));
      FilterWithoutFiltersIsIdentity(groups[1..], searchTags);
      assert groups == [groups[0]] + groups[1..];
    }
  }

  /** Terms that agree after lower-casing filter identically. */
  lemma {:induction false} FilterCaseInsensitive(groups: seq<SalesGroup>, t1: string, t2: string,
                                                 selected: seq<string>, searchTags: bool)
    requires Lower(t1) == Lower(t2)
    ensures Filter(groups, t1, selected, searchTags) == Filter(groups, t2, selected, searchTags)
    decreases |groups|
  {
    if groups != [] {
      FilterCaseInsensitive(groups[1..], t1, t2, selected, searchTags);
    }
  }

  /** Only the members of the selection matter, not their order or repetition. */
  lemma {:induction false} FilterSeesSelectionAsSet(groups: seq<SalesGroup>, term: string,
                                                    s1: seq<string>, s2: seq<string>, searchTags: bool)
    requires forall c :: c in s1 <==> c in s2
    ensures Filter(groups, term, s1, searchTags) == Filter(groups, term, s2, searchTags)
    decreases |groups|
  {
    if groups != [] {
      assert |s1| == 0 <==> |s2| == 0 by {
        if |s1| > 0 { assert s1[0] in s2; }
        if |s2| > 0 { assert s2[0] in s1; }
      }
      assert Keeps(groups[0], term, s1, searchTags) == Keeps(groups[0], term, s2, searchTags);
      FilterSeesSelectionAsSet(groups[1..], term, s1, s2, searchTags);
    }
  }

  /** Name-only search keeps a subsequence of what name-or-tag search keeps. */
  lemma {:induction false} NameSearchWithinTagSearch(groups: seq<SalesGroup>, term: string, selected: seq<string>)
    ensures Subseq(Filter(groups, term, selected, false), Filter(groups, term, selected, true))
    decreases |groups|
  {
    if groups != [] {
      NameSearchWithinTagSearch(groups[1..], term, selected);
      var a := Filter(groups, term, selected, false);
      var b := Filter(groups, term, selected, true);
      var a' := Filter(groups[1..], term, selected, false);
      var b' := Filter(groups[1..], term, selected, true);
      if Keeps(groups[0], term, selected, false) {
        assert a == [groups[0]] + a' && b == [groups[0]] + b';
        assert a[1..] == a' && b[1..] == b';
      } else if Keeps(groups[0], term, selected, true) {
        assert a == a' && b == [groups[0]] + b';
        assert b[1..] == b';
        SubseqDropHead(a', groups[0], b');
      }
    }
  }

  /** A subsequence of `b` is a subsequence of `[x] + b`. */
  lemma SubseqDropHead(a: seq<SalesGroup>, x: SalesGroup, b: seq<SalesGroup>)
    requires Subseq(a, b)
    ensures Subseq(a, [x] + b)
  {
    assert ([x] + b)[1..] == b;
  }

  /** Widening the selection (OR semantics) never loses a result. */
  lemma WiderSelectionKeepsMore(groups: seq<SalesGroup>, term: string, s1: seq<string>, s2: seq<string>,
                                searchTags: bool)
    requires |s1| > 0
    requires forall c :: c in s1 ==> c in s2
    ensures forall g :: g in Filter(groups, term, s1, searchTags) ==> g in Filter(groups, term, s2, searchTags)
  {
    assert s1[0] in s2;
  }

  /** Selecting only a tag that no group carries leaves nothing. */
  lemma UnknownSoleTagFindsNothing(groups: seq<SalesGroup>, term: string, c: string, searchTags: bool)
    requires forall g :: g in groups ==> c !in g.tags
    ensures Filter(groups, term, [c], searchTags) == []
  {
    var r := Filter(groups, term, [c], searchTags);
    FilterCounts(groups, term, [c], searchTags);
    assert multiset(r) == multiset{};
  }

  /** `groups.flatMap(group => group.tags)`. */
  function FlatTags(groups: seq<SalesGroup>): (r: seq<string>)
    ensures forall t :: t in r <==> exists g :: g in groups && t in g.tags
    decreases |groups|
  {
    if groups == [] then []
    else
      var rest := FlatTags(groups[1..]);
      assert forall g :: g in groups <==> g == groups[0] || g in groups[1..];
      groups[0].tags + rest
  }

  /**
   * The category list the forecast and history panels derive: the flattened
   * tags, each kept at its first occurrence only.
   */
  function CategoryList(groups: seq<SalesGroup>): (r: seq<string>)
    ensures NoDup(r)
    ensures forall t :: t in r <==> exists g :: g in groups && t in g.tags
    ensures InFirstOccurrenceOrder(r, FlatTags(groups))
  {
    Dedupe(FlatTags(groups))
  }
}
