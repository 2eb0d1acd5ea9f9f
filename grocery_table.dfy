/**
 * The Angular grocery table: it receives the groceries and the selected
 * groceries from its parent, keeps the criteria and a fixed list of type
 * options, and shows the groceries that pass the filters.
 */
module GroceryTable {
  import opened Types
  import opened Seqs
  import opened Bookkeeping
  import opened GroceryFilters

  /** The nine type options of the Angular grocery screens. */
  const AngularTypeOptions: seq<TypeOption> := [
    TypeOption("Fruit", "fruit"), TypeOption("Vegetable", "vegetable"), TypeOption("Meat", "meat"),
    TypeOption("Home Goods", "home goods"), TypeOption("Grain", "grain"), TypeOption("Legume", "legume"),
    TypeOption("Nuts/Seeds", "nuts/seeds"), TypeOption("Condiments", "condiments"),
    TypeOption("Seafood", "seafood")]

  /** The Angular options are the first nine categories with lower-cased values. */
  lemma AngularOptionsArePrefix()
    ensures AngularTypeOptions == LoweredOptions(GroceryTypes[..9])
  {
    var types := GroceryTypes[..9];
    var lowered := LoweredOptions(types);
    AngularValuesLowered();
    forall i | 0 <= i < 9
      ensures lowered[i] == AngularTypeOptions[i]
    {
      assert lowered[i] == TypeOption(types[i], Text.Lower(types[i]));
    }
  }

  /** Each Angular option's value is its name lower-cased. */
  lemma AngularValuesLowered()
    ensures forall i :: 0 <= i < 9 ==> AngularTypeOptions[i].name == GroceryTypes[i]
    ensures forall i :: 0 <= i < 9 ==> AngularTypeOptions[i].value == Text.Lower(AngularTypeOptions[i].name)
  {
    assert Text.Lower("Fruit") == "fruit";
    assert Text.Lower("Vegetable") == "vegetable";
    assert Text.Lower("Home Goods") == "home goods";
    assert Text.Lower("Grain") == "grain";
    assert Text.Lower("Nuts/Seeds") == "nuts/seeds";
    assert Text.Lower("Condiments") == "condiments";
  }

  class GroceryTableComponent {
    var groceries: seq<GroceryItem>
    var selectedGroceries: seq<GroceryItem>
    var filteredGroceries: seq<GroceryItem>
    var searchTerm: string
    var selectedType: string
    var typeOptions: seq<TypeOption>

    constructor(groceries: seq<GroceryItem>, selectedGroceries: seq<GroceryItem>)
      ensures this.groceries == groceries && this.selectedGroceries == selectedGroceries
      ensures filteredGroceries == [] && CurrentCriteria() == NoCriteria
      ensures typeOptions == AngularTypeOptions
    {
      this.groceries := groceries;
      this.selectedGroceries := selectedGroceries;
      filteredGroceries := [];
      searchTerm := "";
      selectedType := "";
      typeOptions := AngularTypeOptions;
    }

    function CurrentCriteria(): GroceryCriteria
      reads this
    {
      GroceryCriteria(searchTerm, selectedType)
    }

    /** New inputs: recompute the rows. */
    method NgOnChanges()
      modifies this
      ensures filteredGroceries == FilterSteps(groceries, CurrentCriteria())
      ensures groceries == old(groceries) && selectedGroceries == old(selectedGroceries)
      ensures CurrentCriteria() == old(CurrentCriteria()) && typeOptions == old(typeOptions)
    {
      ApplyFilters();
    }

    /** The rows are the groceries that pass every filter that is set. */
    method ApplyFilters()
      modifies this
      ensures filteredGroceries == FilterSteps(groceries, CurrentCriteria())
      ensures groceries == old(groceries) && selectedGroceries == old(selectedGroceries)
      ensures CurrentCriteria() == old(CurrentCriteria()) && typeOptions == old(typeOptions)
    {
      var filtered := groceries;
      if searchTerm != "" {
        filtered := Filter(filtered, SearchTest(searchTerm));
      }
      if selectedType != "" {
        filtered := Filter(filtered, TypeTest(selectedType));
      }
      filteredGroceries := filtered;
    }

    /** Clearing both criteria shows every grocery again, in its original order. */
    method ClearAllFilters()
      modifies this
      ensures CurrentCriteria() == NoCriteria
      ensures filteredGroceries == groceries
      ensures groceries == old(groceries) && selectedGroceries == old(selectedGroceries)
      ensures typeOptions == old(typeOptions)
    {
      searchTerm := "";
      selectedType := "";
      ApplyFilters();
      NoCriteriaKeepsAll(groceries);
    }

    function IsGrocerySelected(item: GroceryItem): bool
      reads this
    {
      Bookkeeping.IsGrocerySelected(selectedGroceries, item)
    }
  }
}
