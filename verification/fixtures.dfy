/**
 * Concrete scenarios on a two-group catalog: "APM 1L" tagged Milk and
 * "BJ MS 1L" tagged Juice. The other fields of the groups are arbitrary.
 */
module Fixtures {

  import opened Text
  import opened Catalog
  import CategorySlicer

  predicate TwoGroups(a: SalesGroup, b: SalesGroup) {
    a.name == "APM 1L" && a.tags == ["Milk"] && b.name == "BJ MS 1L" && b.tags == ["Juice"]
  }

  /** Every group matches the empty search term. */
  lemma EmptyTermMatches(g: SalesGroup)
    ensures NameMatches(g, "")
  {
    LowerIs("", "");
    assert Contains(Lower(g.name), Lower(""));
  }

  /** Selecting Milk keeps exactly the Milk group. */
  lemma MilkSelectsFirst(a: SalesGroup, b: SalesGroup)
    requires TwoGroups(a, b)
    ensures Filter([a, b], "", ["Milk"], false) == [a]
  {
    EmptyTermMatches(a);
    assert "Milk" in a.tags && "Milk" in ["Milk"];
    assert MatchesCategory(a, ["Milk"]);
    assert !MatchesCategory(b, ["Milk"]);
    assert [a, b][1..] == [b];
    assert Filter([b], "", ["Milk"], false) == [];
  }

  /** Selecting Milk and Juice keeps both groups: one selected tag suffices. */
  lemma MilkOrJuiceSelectsBoth(a: SalesGroup, b: SalesGroup)
    requires TwoGroups(a, b)
    ensures Filter([a, b], "", ["Milk", "Juice"], false) == [a, b]
  {
    EmptyTermMatches(a);
    EmptyTermMatches(b);
    var sel := ["Milk", "Juice"];
    assert "Milk" in a.tags && "Milk" in sel;
    assert "Juice" in b.tags && "Juice" in sel;
    assert MatchesCategory(a, ["Milk", "Juice"]);
    assert MatchesCategory(b, ["Milk", "Juice"]);
    assert [a, b][1..] == [b];
    assert [b][1..] == [];
  }

  lemma ApmFindsFirstName(a: SalesGroup)
    requires a.name == "APM 1L"
    ensures NameMatches(a, "apm")
  {
    LowerIs(a.name, "apm 1l");
    LowerIs("apm", "apm");
    ContainsAt("apm 1l", "apm", 0);
  }

  lemma ApmMissesSecondName(b: SalesGroup)
    requires b.name == "BJ MS 1L"
    ensures !NameMatches(b, "apm")
  {
    LowerIs(b.name, "bj ms 1l");
    LowerIs("apm", "apm");
    assert 'a' in "apm" && 'a' !in "bj ms 1l";
  }

  /** Searching "apm" finds the upper-case "APM 1L" and not "BJ MS 1L". */
  lemma ApmSearchIgnoresCase(a: SalesGroup, b: SalesGroup)
    requires TwoGroups(a, b)
    ensures Filter([a, b], "apm", [], false) == [a]
  {
    ApmFindsFirstName(a);
    ApmMissesSecondName(b);
    assert [a, b][1..] == [b];
    assert Filter([b], "apm", [], false) == [];
  }

  /** Clicking "All" after selecting Milk clears the selection and lights "All". */
  lemma AllAfterMilkResets()
    ensures CategorySlicer.Click(CategorySlicer.Click([], "Milk"), CategorySlicer.All) == []
    ensures CategorySlicer.IsActive(CategorySlicer.Click(CategorySlicer.Click([], "Milk"), CategorySlicer.All), CategorySlicer.All)
  {
  }
}
