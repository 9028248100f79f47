/**
 * The category slicer: a row of buttons, one per category plus the `"All"`
 * sentinel, that edits the owning panel's list of selected categories.
 */
module CategorySlicer {

  import opened Basics

  /** The sentinel button that stands for "no category filter". */
  const All := "All"

  /** The buttons the slicer renders, in order. */
  const AllCategories: seq<string> := ["All", "Milk", "Juice", "Yogurt", "Cream", "Butter", "importation"]

  /** A selection the slicer can produce: no repeats and never the sentinel. */
  ghost predicate WellFormed(selected: seq<string>) {
    NoDup(selected) && All !in selected
  }

  /**
   * `handleCategoryClick`: the sentinel clears the selection; any other
   * category is appended when absent and filtered out when present.
   */
  function Click(selected: seq<string>, category: string): (r: seq<string>)
    ensures category == All ==> r == []
    ensures category != All && category !in selected ==>
              |r| == |selected| + 1 && r[..|selected|] == selected && r[|selected|] == category
    ensures category != All && category in selected ==>
              category !in r && Subseq(r, selected) &&
              forall c :: c != category ==> (c in r <==> c in selected)
    ensures All in r ==> All in selected
  {
    if category == All then [] else Toggle(selected, category)
  }

  /** `clearAll`: the Clear affordance does what the sentinel button does. */
  function ClearAll(selected: seq<string>): (r: seq<string>)
    ensures r == Click(selected, All)
  {
    []
  }

  /** `isActive`: whether a button is drawn highlighted. */
  predicate IsActive(selected: seq<string>, category: string) {
    if category == All then |selected| == 0 else category in selected
  }

  /** The Clear affordance is rendered only while something is selected. */
  predicate ShowClear(selected: seq<string>) {
    |selected| > 0
  }

  /** Clear is offered exactly when the sentinel is not highlighted. */
  lemma ShowClearIffAllInactive(selected: seq<string>)
    ensures ShowClear(selected) <==> !IsActive(selected, All)
  {
  }

  /**
   * Clicking a real category flips exactly that button's highlight among
   * the real categories, and clicking the sentinel highlights only it.
   */
  lemma ClickFlipsHighlight(selected: seq<string>, category: string)
    ensures category != All ==> IsActive(Click(selected, category), category) == !IsActive(selected, category)
    ensures category != All ==> forall c :: c != All && c != category ==>
              IsActive(Click(selected, category), c) == IsActive(selected, c)
    ensures IsActive(Click(selected, All), All)
    ensures forall c :: c != All ==> !IsActive(Click(selected, All), c)
  {
  }

  /** On selections made of listed categories, "All" is lit iff no category button is lit. */
  lemma AllLitIffNoneLit(selected: seq<string>)
    requires WellFormed(selected)
    requires forall c :: c in selected ==> c in AllCategories
    ensures IsActive(selected, All) <==> forall i :: 1 <= i < |AllCategories| ==> !IsActive(selected, AllCategories[i])
  {
    if |selected| > 0 {
      var c := selected[0];
      assert c in AllCategories;
      var i :| 0 <= i < |AllCategories| && AllCategories[i] == c;
      assert i != 0 && IsActive(selected, AllCategories[i]);
    }
  }

  /** Clicks keep a selection well formed: no duplicates, never the sentinel. */
  lemma ClickKeepsWellFormed(selected: seq<string>, category: string)
    ensures WellFormed(selected) ==> WellFormed(Click(selected, category))
  {
    if category != All && WellFormed(selected) {
      ToggleKeepsNoDup(selected, category);
    }
  }

  /**
   * Clicking the same real category twice restores the selection exactly
   * when it was absent or the last one selected; a category selected
   * earlier comes back at the end. The members are always restored.
   */
  lemma ClickTwice(selected: seq<string>, category: string)
    requires WellFormed(selected) && category != All
    ensures forall c :: c in Click(Click(selected, category), category) <==> c in selected
    ensures Click(Click(selected, category), category) == selected <==>
              (category !in selected || selected[|selected| - 1] == category)
  {
    ToggleTwiceSameMembers(selected, category);
    ToggleTwiceRestoresIff(selected, category);
  }

  /** Deselecting and reselecting "Milk" in ["Milk", "Juice"] moves it to the end. */
  lemma ClickTwiceReorders()
    ensures Click(Click(["Milk", "Juice"], "Milk"), "Milk") == ["Juice", "Milk"]
  {
    var s: seq<string> := ["Milk", "Juice"];
    assert s[0] == "Milk" && s[1] == "Juice" && "Milk" != "Juice";
    assert Remove(s, "Milk") == ["Juice"] by {
      assert s[1..] == ["Juice"];
      RemoveAbsent(s[1..], "Milk");
    }
  }
}
