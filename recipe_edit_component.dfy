/**
 * The Angular recipe edit dialog. The copy under edit is a field that
 * `onSave` updates in place before emitting it. The date picker holds a
 * date; here it holds the text `toISOString` gives for it, which the
 * caller of `NgOnChanges` supplies, because date parsing and time zones are
 * outside the model.
 */
module RecipeEditComponent {
  import opened Wrappers
  import opened Types
  import opened IngredientsText

  const BlankRecipe := Recipe("", "", "", "", "", Some([]), "")

  class RecipeEditModalComponent {
    var visible: bool
    var recipe: Option<Recipe>
    var editedRecipe: Recipe
    var ingredientsText: string
    var lastEatenDate: Option<string>

    constructor(visible: bool, recipe: Option<Recipe>)
      ensures this.visible == visible && this.recipe == recipe
      ensures editedRecipe == BlankRecipe && ingredientsText == "" && lastEatenDate == None
    {
      this.visible := visible;
      this.recipe := recipe;
      editedRecipe := BlankRecipe;
      ingredientsText := "";
      lastEatenDate := None;
    }

    /**
     * `ngOnChanges`: with a recipe, copy it, show its ingredients one per
     * line, and load its date (`isoDate` is the picker's reading of it);
     * with none, nothing changes.
     */
    method NgOnChanges(isoDate: string)
      modifies this
      ensures recipe.None? ==>
        editedRecipe == old(editedRecipe) && ingredientsText == old(ingredientsText) &&
        lastEatenDate == old(lastEatenDate)
      ensures recipe.Some? ==>
        editedRecipe == recipe.value &&
        ingredientsText == ShowIngredients(recipe.value.ingredients) &&
        lastEatenDate == (if recipe.value.lastEaten != "" then Some(isoDate) else None)
      ensures visible == old(visible) && recipe == old(recipe)
    {
      if recipe.Some? {
        editedRecipe := recipe.value;
        ingredientsText := ShowIngredients(recipe.value.ingredients);
        lastEatenDate := if recipe.value.lastEaten != "" then Some(isoDate) else None;
      }
    }

    /** `onCancel`: the dialog closes and no recipe is emitted. */
    method OnCancel()
      modifies this
      ensures !visible
      ensures editedRecipe == old(editedRecipe) && ingredientsText == old(ingredientsText)
      ensures lastEatenDate == old(lastEatenDate) && recipe == old(recipe)
    {
      visible := false;
    }

    /**
     * `onSave`: parse the text into the copy, overwrite its date only when a
     * date is chosen, emit the copy and close.
     */
    method OnSave() returns (saved: Recipe)
      modifies this
      ensures saved == editedRecipe
      ensures saved.ingredients == Some(ParseIngredients(old(ingredientsText)))
      ensures saved.lastEaten == (if old(lastEatenDate).Some? then old(lastEatenDate).value else old(editedRecipe).lastEaten)
      ensures saved.(ingredients := old(editedRecipe).ingredients, lastEaten := old(editedRecipe).lastEaten) == old(editedRecipe)
      ensures !visible
      ensures ingredientsText == old(ingredientsText) && lastEatenDate == old(lastEatenDate) && recipe == old(recipe)
    {
      editedRecipe := editedRecipe.(ingredients := Some(ParseIngredients(ingredientsText)));
      if lastEatenDate.Some? {
        editedRecipe := editedRecipe.(lastEaten := lastEatenDate.value);
      }
      saved := editedRecipe;
      visible := false;
    }
  }
}
