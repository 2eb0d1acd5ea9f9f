/**
 * The Angular recipes page: the recipe list and the selected recipes,
 * both updated in place. Network calls appear only as the state change
 * made when they succeed.
 */
module RecipesPage {
  import opened Types
  import opened Bookkeeping

  class Recipes {
    var recipes: seq<Recipe>
    var selectedRecipes: seq<Recipe>

    constructor()
      ensures recipes == [] && selectedRecipes == []
    {
      recipes := [];
      selectedRecipes := [];
    }

    /** `onRecipeSelected`: push the recipe unless one of its name is selected. */
    method OnRecipeSelected(recipe: Recipe)
      modifies this
      ensures selectedRecipes == AddRecipeIfAbsent(old(selectedRecipes), recipe)
      ensures recipes == old(recipes)
    {
      var index := FindIndexByName(selectedRecipes, recipe.name);
      if index == -1 {
        selectedRecipes := selectedRecipes + [recipe];
      }
    }

    /** `onRecipeSaved` on success: the first match by name is overwritten in both lists. */
    method OnRecipeSaved(updated: Recipe)
      modifies this
      ensures recipes == ReplaceFirstByName(old(recipes), updated)
      ensures selectedRecipes == ReplaceFirstByName(old(selectedRecipes), updated)
    {
      var index := FindIndexByName(recipes, updated.name);
      if index != -1 {
        recipes := recipes[index := updated];
      }
      var selectedIndex := FindIndexByName(selectedRecipes, updated.name);
      if selectedIndex != -1 {
        selectedRecipes := selectedRecipes[selectedIndex := updated];
      }
    }
  }
}
