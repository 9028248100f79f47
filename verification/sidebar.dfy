/**
 * The navigation sidebar: six fixed entries, a collapse toggle, and a list
 * of favourite entries the user stars and unstars.
 */
module Sidebar {

  import opened Basics

  datatype NavItem = NavItem(id: string, title: string)

  /** The entries, in display order. */
  const NavItems: seq<NavItem> := [
    NavItem("overview", "Overview"),
    NavItem("upload", "Upload Data"),
    NavItem("forecast", "Forecast"),
    NavItem("dashboard", "Dashboard"),
    NavItem("proask", "ProAsk"),
    NavItem("history", "History")
  ]

  /** The ids of some entries, in order. */
  function Ids(items: seq<NavItem>): (r: seq<string>)
    ensures |r| == |items|
    ensures forall i :: 0 <= i < |items| ==> r[i] == items[i].id
  {
    seq(|items|, i requires 0 <= i < |items| => items[i].id)
  }

  /** No two of the entries share an id. */
  ghost predicate DistinctIds(items: seq<NavItem>) {
    forall i, j :: 0 <= i < j < |items| ==> items[i].id != items[j].id
  }

  /** The sidebar's entries have distinct ids. */
  lemma NavIdsDistinct()
    ensures DistinctIds(NavItems)
  {
  }

  /** `navItems.find(n => n.id === id)`: the first entry with that id, if any. */
  function Find(items: seq<NavItem>, id: string): (r: Option<NavItem>)
    ensures r.Some? ==> r.value in items && r.value.id == id
    ensures r.None? <==> forall it :: it in items ==> it.id != id
    ensures r.Some? ==> exists k :: 0 <= k < |items| && items[k] == r.value &&
                          forall j :: 0 <= j < k ==> items[j].id != id
  {
    if items == [] then None
    else if items[0].id == id then
      assert items[0] == items[0];
      Some(items[0])
    else
      var r := Find(items[1..], id);
      assert r.Some? ==> exists k :: 0 < k < |items| && items[k] == r.value &&
                          forall j :: 0 <= j < k ==> items[j].id != id by {
        if r.Some? {
          var k :| 0 <= k < |items[1..]| && items[1..][k] == r.value &&
                   forall j :: 0 <= j < k ==> items[1..][j].id != id;
          assert forall j :: 1 <= j < k + 1 ==> items[j] == items[1..][j - 1];
          assert items[k + 1] == r.value;
        }
      }
      r
  }

  /**
   * The favourites section: for each favourite id in order, the entry with
   * that id; ids that name no entry are skipped.
   */
  function FavoriteItems(items: seq<NavItem>, favorites: seq<string>): (r: seq<NavItem>)
    ensures forall it :: it in r ==> it in items && it.id in favorites
    ensures Subseq(Ids(r), favorites)
  {
    if favorites == [] then []
    else
      var rest := FavoriteItems(items, favorites[1..]);
      match Find(items, favorites[0])
      case None => rest
      case Some(item) =>
        var r := [item] + rest;
        assert Ids(r)[0] == favorites[0] && Ids(r)[1..] == Ids(rest);
        r
  }

  /** Every starred id that names an entry shows that entry among the favourites. */
  lemma {:induction false} FavoriteItemsComplete(items: seq<NavItem>, favorites: seq<string>, item: NavItem)
    requires DistinctIds(items)
    requires item in items && item.id in favorites
    ensures item in FavoriteItems(items, favorites)
  {
    if favorites[0] != item.id {
      FavoriteItemsComplete(items, favorites[1..], item);
    } else {
      var found := Find(items, favorites[0]);
      assert found == Some(item);
    }
  }

  /** `toggleFavorite`: star an unstarred id at the end, unstar a starred one. */
  function ToggleFavorite(favorites: seq<string>, id: string): (r: seq<string>)
    ensures id in r <==> id !in favorites
    ensures forall f :: f != id ==> (f in r <==> f in favorites)
    ensures id !in favorites ==> r == favorites + [id]
  {
    Toggle(favorites, id)
  }

  /** An entry is highlighted when its id is the active section. */
  predicate IsActive(activeSection: string, item: NavItem) {
    activeSection == item.id
  }

  /**
   * At most one entry is highlighted, and one is exactly when the active
   * section is one of the entries' ids.
   */
  lemma ActiveEntryUnique(activeSection: string)
    ensures forall i, j ::
              (0 <= i < |NavItems| && 0 <= j < |NavItems| &&
               IsActive(activeSection, NavItems[i]) && IsActive(activeSection, NavItems[j])) ==> i == j
    ensures (exists i :: 0 <= i < |NavItems| && IsActive(activeSection, NavItems[i])) <==>
              activeSection in Ids(NavItems)
  {
    NavIdsDistinct();
    if activeSection in Ids(NavItems) {
      var i :| 0 <= i < |NavItems| && Ids(NavItems)[i] == activeSection;
      assert IsActive(activeSection, NavItems[i]);
    }
  }

  datatype State = State(collapsed: bool, favorites: seq<string>)

  const Init := State(false, [])

  /** The favourites section is rendered only when expanded and something is starred. */
  predicate ShowFavorites(s: State) {
    !s.collapsed && |s.favorites| > 0
  }

  datatype Event = ToggleCollapsed | Star(id: string)

  /** The star buttons sit next to the entries and are hidden while collapsed. */
  predicate Enabled(s: State, e: Event) {
    match e
    case ToggleCollapsed => true
    case Star(id) => !s.collapsed && id in Ids(NavItems)
  }

  /** The favourites hold no repeats and only ids of entries. */
  ghost predicate Inv(s: State) {
    NoDup(s.favorites) && forall f :: f in s.favorites ==> f in Ids(NavItems)
  }

  function Next(s: State, e: Event): (r: State)
    ensures Inv(s) ==> Inv(r)
    ensures !Enabled(s, e) ==> r == s
    ensures e.ToggleCollapsed? ==> r == s.(collapsed := !s.collapsed)
  {
    if !Enabled(s, e) then s
    else
      match e
      case ToggleCollapsed => s.(collapsed := !s.collapsed)
      case Star(id) =>
        var r := s.(favorites := ToggleFavorite(s.favorites, id));
        assert Inv(s) ==> Inv(r) by {
          if Inv(s) { ToggleKeepsNoDup(s.favorites, id); }
        }
        r
  }

  lemma InitInv()
    ensures Inv(Init)
  {
  }

  /**
   * Starring an id twice gives back the same set of favourites; the list
   * itself comes back exactly when the id was not starred or was the last
   * one starred, since re-starring appends at the end.
   */
  lemma StarTwice(s: State, id: string)
    requires Inv(s) && Enabled(s, Star(id))
    ensures forall f :: f in Next(Next(s, Star(id)), Star(id)).favorites <==> f in s.favorites
    ensures Next(Next(s, Star(id)), Star(id)) == s <==>
              (id !in s.favorites || s.favorites[|s.favorites| - 1] == id)
  {
    ToggleTwiceSameMembers(s.favorites, id);
    ToggleTwiceRestoresIff(s.favorites, id);
  }

  /** Under the invariant the favourites section lists exactly the starred entries. */
  lemma FavoritesShowStarred(s: State)
    requires Inv(s)
    ensures forall it :: it in NavItems ==> (it in FavoriteItems(NavItems, s.favorites) <==> it.id in s.favorites)
  {
    NavIdsDistinct();
    forall it | it in NavItems && it.id in s.favorites
      ensures it in FavoriteItems(NavItems, s.favorites)
    {
      FavoriteItemsComplete(NavItems, s.favorites, it);
    }
  }

  /**
   * While expanded, the favourites heading is shown exactly when the section
   * under it lists at least one entry: every starred id names an entry.
   */
  lemma FavoritesHeadingIffEntries(s: State)
    requires Inv(s) && !s.collapsed
    ensures ShowFavorites(s) <==> |FavoriteItems(NavItems, s.favorites)| > 0
  {
    if |s.favorites| > 0 {
      var f := s.favorites[0];
      assert f in Ids(NavItems);
      var i :| 0 <= i < |NavItems| && Ids(NavItems)[i] == f;
      NavIdsDistinct();
      FavoriteItemsComplete(NavItems, s.favorites, NavItems[i]);
    }
  }
}
