/**
 * The React recipe edit dialog: opening it copies the recipe and shows its
 * ingredients one per line; saving hands the parent the copy with the
 * parsed ingredients and the chosen date. The date picker and its
 * conversion to `YYYY-MM-DD` text are outside the model: the chosen date
 * arrives as that text, or `None` when the picker is empty.
 */
module RecipeEditModal {
  import opened Wrappers
  import opened Types
  import opened IngredientsText

  /** The dialog's own state: the copy being edited and the text area. */
  datatype EditState = EditState(editedRecipe: Recipe, ingredientsText: string)

  /** The effect on `recipe`: start from a copy and its ingredient lines. */
  function Open(recipe: Recipe): (st: EditState)
    ensures st.editedRecipe == recipe
    ensures recipe.ingredients.None? ==> st.ingredientsText == ""
  {
    EditState(recipe, ShowIngredients(recipe.ingredients))
  }

  /** Clean ingredients read back unchanged from the text the dialog opens with. */
  lemma OpenRoundTrip(recipe: Recipe)
    requires recipe.ingredients.Some?
    requires forall k :: 0 <= k < |recipe.ingredients.value| ==> IsCleanIngredient(recipe.ingredients.value[k])
    ensures ParseIngredients(Open(recipe).ingredientsText) == recipe.ingredients.value
  {
    ParseShowRoundTrip(recipe.ingredients.value);
  }

  /**
   * `handleSave`: the recipe handed to the parent. Only the ingredients and
   * the last-eaten date differ from the copy; with no date chosen the date
   * is cleared.
   */
  function HandleSave(st: EditState, lastEatenDate: Option<string>): (saved: Recipe)
    ensures saved.ingredients == Some(ParseIngredients(st.ingredientsText))
    ensures saved.lastEaten == (if lastEatenDate.Some? then lastEatenDate.value else "")
    ensures saved.(ingredients := st.editedRecipe.ingredients, lastEaten := st.editedRecipe.lastEaten) == st.editedRecipe
  {
    var ingredients := ParseIngredients(st.ingredientsText);
    var lastEaten := if lastEatenDate.Some? then lastEatenDate.value else "";
    st.editedRecipe.(ingredients := Some(ingredients), lastEaten := lastEaten)
  }

  /** Opening and saving a recipe with clean ingredients, date kept, hands back the same recipe. */
  lemma SaveUnchanged(recipe: Recipe)
    requires recipe.ingredients.Some?
    requires forall k :: 0 <= k < |recipe.ingredients.value| ==> IsCleanIngredient(recipe.ingredients.value[k])
    requires recipe.lastEaten != ""
    ensures HandleSave(Open(recipe), Some(recipe.lastEaten)) == recipe
  {
    OpenRoundTrip(recipe);
  }
}
