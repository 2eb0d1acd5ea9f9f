/**
 * The shopping-list panel of the Angular container: the selected recipes it
 * is given, removal of one of them, and the dialog text built from their
 * ingredients with a `- ` before each line.
 */
module ShoppingListPanel {
  import opened Types
  import opened Bookkeeping
  import opened IngredientList

  class ShoppingListComponent {
    var selectedRecipes: seq<Recipe>
    var showShoppingListModal: bool
    var shoppingList: string

    constructor(selected: seq<Recipe>)
      ensures selectedRecipes == selected && !showShoppingListModal && shoppingList == ""
    {
      selectedRecipes := selected;
      showShoppingListModal := false;
      shoppingList := "";
    }

    /** Only the first selected recipe with the given recipe's name is removed. */
    method RemoveRecipe(recipe: Recipe)
      modifies this
      ensures selectedRecipes == RemoveFirstByName(old(selectedRecipes), recipe.name)
      ensures showShoppingListModal == old(showShoppingListModal) && shoppingList == old(shoppingList)
    {
      var index := FindIndexByName(selectedRecipes, recipe.name);
      if index > -1 {
        selectedRecipes := selectedRecipes[..index] + selectedRecipes[index + 1..];
      }
    }

    /** The unique, sorted, capitalised ingredients as `- ` lines, and the dialog opens. */
    method GenerateShoppingList()
      modifies this
      ensures shoppingList == FormatIngredients(AllIngredients(selectedRecipes), "- ")
      ensures showShoppingListModal
      ensures selectedRecipes == old(selectedRecipes)
    {
      var allIngredients := CollectIngredients(selectedRecipes);
      shoppingList := FormatIngredients(allIngredients, "- ");
      showShoppingListModal := true;
    }
  }
}
