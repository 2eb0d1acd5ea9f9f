/**
 * The React groceries tab: the filter state, the rows the effect computes
 * from it, and the type dropdown built from the grocery categories.
 */
module GroceriesTab {
  import opened Types
  import opened GroceryFilters

  /** The type dropdown: every category, with its lower-cased name as the value. */
  function TypeOptions(): (options: seq<TypeOption>)
    ensures |options| == 13
    ensures options[0] == TypeOption("Fruit", "fruit")
    ensures options[12] == TypeOption("Bread", "bread")
    ensures forall i :: 0 <= i < |options| ==> options[i].name == GroceryTypes[i] && options[i].value != ""
    ensures forall i :: 0 <= i < |options| ==> options[i].value == Text.Lower(GroceryTypes[i])
  {
    var options := LoweredOptions(GroceryTypes);
    assert GroceryTypes[0] == "Fruit" && GroceryTypes[12] == "Bread";
    assert Text.Lower("Fruit") == "fruit";
    assert Text.Lower("Bread") == "bread";
    assert forall i :: 0 <= i < |GroceryTypes| ==> |GroceryTypes[i]| > 0;
    options
  }

  /** The effect that runs when the groceries or the criteria change. */
  function Refresh(groceries: seq<GroceryItem>, c: GroceryCriteria): (filteredGroceries: seq<GroceryItem>)
    ensures forall g :: g in filteredGroceries <==> g in groceries && Keeps(c, g)
    ensures Seqs.IsSubseq(filteredGroceries, groceries)
  {
    FilterStepsIsOneFilter(groceries, c);
    FilterSteps(groceries, c)
  }

  /** `clearAllFilters`: both criteria reset, so every grocery is shown again. */
  function ClearAllFilters(c: GroceryCriteria): (next: GroceryCriteria)
    ensures next.searchTerm == "" && next.selectedType == ""
    ensures forall groceries :: Refresh(groceries, next) == groceries
  {
    forall groceries: seq<GroceryItem> ensures Refresh(groceries, NoCriteria) == groceries {
      NoCriteriaKeepsAll(groceries);
    }
    NoCriteria
  }
}
