/**
 * The root component of the first Angular front end: a list of selected
 * recipes, and a shopping list built from their ingredients. The HTTP
 * probe and its response fields are not modelled.
 */
module AppRoot {
  import opened Types
  import opened Bookkeeping
  import opened IngredientList

  class App {
    var selectedRecipes: seq<Recipe>
    var showShoppingList: bool
    var shoppingList: string

    constructor()
      ensures selectedRecipes == [] && !showShoppingList && shoppingList == ""
    {
      selectedRecipes := [];
      showShoppingList := false;
      shoppingList := "";
    }

    /** A clicked row joins the selection unless a recipe of that name is already there. */
    method OnRowClick(recipe: Recipe)
      modifies this
      ensures selectedRecipes == AddRecipeIfAbsent(old(selectedRecipes), recipe)
      ensures showShoppingList == old(showShoppingList) && shoppingList == old(shoppingList)
    {
      var index := FindIndexByName(selectedRecipes, recipe.name);
      if index == -1 {
        selectedRecipes := selectedRecipes + [recipe];
      }
    }

    /** Every selected recipe with the given recipe's name leaves the selection. */
    method RemoveRecipe(recipe: Recipe)
      modifies this
      ensures selectedRecipes == RemoveRecipesNamed(old(selectedRecipes), recipe.name)
      ensures showShoppingList == old(showShoppingList) && shoppingList == old(shoppingList)
    {
      selectedRecipes := RemoveRecipesNamed(selectedRecipes, recipe.name);
    }

    /** The unique, sorted, capitalised ingredients one per line, and the dialog opens. */
    method GenerateShoppingList()
      modifies this
      ensures shoppingList == FormatIngredients(AllIngredients(selectedRecipes), "")
      ensures showShoppingList
      ensures selectedRecipes == old(selectedRecipes)
    {
      var allIngredients := CollectIngredients(selectedRecipes);
      shoppingList := FormatIngredients(allIngredients, "");
      showShoppingList := true;
    }
  }
}
