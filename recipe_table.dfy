/**
 * The Angular recipe table: it receives the recipes and the selected
 * recipes from its parent, keeps the filter criteria and the dropdown
 * options, and shows the recipes that pass the filters.
 */
module RecipeTable {
  import opened Types
  import opened Seqs
  import opened Bookkeeping
  import opened RecipeFilters

  class RecipeTableComponent {
    var recipes: seq<Recipe>
    var selectedRecipes: seq<Recipe>
    var filteredRecipes: seq<Recipe>
    var searchTerm: string
    var selectedType: string
    var selectedCuisine: string
    var typeOptions: seq<string>
    var cuisineOptions: seq<string>

    constructor(recipes: seq<Recipe>, selectedRecipes: seq<Recipe>)
      ensures this.recipes == recipes && this.selectedRecipes == selectedRecipes
      ensures filteredRecipes == [] && CurrentCriteria() == NoCriteria
      ensures typeOptions == [] && cuisineOptions == []
    {
      this.recipes := recipes;
      this.selectedRecipes := selectedRecipes;
      filteredRecipes := [];
      searchTerm := "";
      selectedType := "";
      selectedCuisine := "";
      typeOptions := [];
      cuisineOptions := [];
    }

    function CurrentCriteria(): Criteria
      reads this
    {
      Criteria(searchTerm, selectedType, selectedCuisine)
    }

    /** New inputs: refresh the options and the rows, or show no rows when there are no recipes. */
    method NgOnChanges()
      modifies this
      ensures |recipes| > 0 ==>
        typeOptions == Options(TypesOf(recipes), true) &&
        cuisineOptions == Options(CuisinesOf(recipes), true) &&
        filteredRecipes == FilterSteps(recipes, CurrentCriteria())
      ensures |recipes| == 0 ==>
        filteredRecipes == [] &&
        typeOptions == old(typeOptions) && cuisineOptions == old(cuisineOptions)
      ensures recipes == old(recipes) && selectedRecipes == old(selectedRecipes)
      ensures CurrentCriteria() == old(CurrentCriteria())
    {
      if |recipes| > 0 {
        UpdateDropdownOptions();
        ApplyFilters();
      } else {
        filteredRecipes := [];
      }
    }

    /** The sorted distinct non-empty parts of every type and of every cuisine. */
    method UpdateDropdownOptions()
      modifies this
      ensures typeOptions == Options(TypesOf(recipes), true)
      ensures cuisineOptions == Options(CuisinesOf(recipes), true)
      ensures recipes == old(recipes) && selectedRecipes == old(selectedRecipes)
      ensures filteredRecipes == old(filteredRecipes) && CurrentCriteria() == old(CurrentCriteria())
    {
      var allTypes := CollectParts(TypesOf(recipes), true);
      typeOptions := SortStrings(allTypes);
      var allCuisines := CollectParts(CuisinesOf(recipes), true);
      cuisineOptions := SortStrings(allCuisines);
    }

    /** The rows are the recipes that pass every filter that is set. */
    method ApplyFilters()
      modifies this
      ensures filteredRecipes == FilterSteps(recipes, CurrentCriteria())
      ensures recipes == old(recipes) && selectedRecipes == old(selectedRecipes)
      ensures typeOptions == old(typeOptions) && cuisineOptions == old(cuisineOptions)
      ensures CurrentCriteria() == old(CurrentCriteria())
    {
      var filtered := recipes;
      if searchTerm != "" {
        filtered := Filter(filtered, SearchTest(searchTerm));
      }
      if selectedType != "" {
        filtered := Filter(filtered, TypeTest(selectedType));
      }
      if selectedCuisine != "" {
        filtered := Filter(filtered, CuisineTest(selectedCuisine));
      }
      filteredRecipes := filtered;
    }

    /** Clearing every criterion shows every recipe again, in its original order. */
    method ClearAllFilters()
      modifies this
      ensures CurrentCriteria() == NoCriteria
      ensures filteredRecipes == recipes
      ensures recipes == old(recipes) && selectedRecipes == old(selectedRecipes)
      ensures typeOptions == old(typeOptions) && cuisineOptions == old(cuisineOptions)
    {
      searchTerm := "";
      selectedType := "";
      selectedCuisine := "";
      ApplyFilters();
      NoCriteriaKeepsAll(recipes);
    }

    function IsRecipeSelected(recipe: Recipe): bool
      reads this
    {
      Bookkeeping.IsRecipeSelected(selectedRecipes, recipe)
    }
  }
}
