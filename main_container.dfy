/**
 * The Angular main container. It owns the recipe and grocery lists and the
 * selected recipes, and shares the selection service with the shopping-list
 * panel. Its subscription to the service runs synchronously: when a call
 * publishes a new list, the subscriber records it and filters the selected
 * recipes before the caller's next statement. Network calls appear only as
 * the state change made when they succeed.
 */
module MainContainer {
  import opened Wrappers
  import opened Types
  import opened Bookkeeping
  import Selection
  import SelectionStore

  class MainContainerComponent {
    const selection: Selection.SelectionService
    var recipes: seq<Recipe>
    var selectedRecipes: seq<Recipe>
    var groceries: seq<GroceryItem>
    var selectedItems: seq<SelectionItem>
    /** Whether `ngOnInit` has subscribed to the service. */
    var subscribed: bool

    ghost predicate Valid()
      reads this, selection
    {
      selection.Valid()
    }

    constructor(selection: Selection.SelectionService)
      requires selection.Valid()
      ensures Valid() && this.selection == selection
      ensures recipes == [] && selectedRecipes == [] && groceries == [] && selectedItems == []
      ensures !subscribed
    {
      this.selection := selection;
      recipes := [];
      selectedRecipes := [];
      groceries := [];
      selectedItems := [];
      subscribed := false;
    }

    /** The subscriber: record the list, keep only the recipes it still backs. */
    method OnSelectionEmitted(items: seq<SelectionItem>)
      modifies this
      ensures selectedItems == items
      ensures selectedRecipes == SyncRecipes(old(selectedRecipes), items)
      ensures recipes == old(recipes) && groceries == old(groceries) && subscribed == old(subscribed)
    {
      selectedItems := items;
      selectedRecipes := SyncRecipes(selectedRecipes, items);
    }

    /** `ngOnInit`: subscribe; the service replays its current list at once. */
    method NgOnInit()
      requires Valid()
      modifies this
      ensures Valid() && subscribed
      ensures selectedItems == selection.items
      ensures selectedRecipes == SyncRecipes(old(selectedRecipes), selection.items)
      ensures recipes == old(recipes) && groceries == old(groceries)
    {
      subscribed := true;
      OnSelectionEmitted(selection.items);
    }

    /**
     * `onRecipeSelected`: with an ingredient array, add the ingredients (the
     * subscriber runs first if that published a new list), then push the
     * recipe unless one of its name is selected.
     */
    method OnRecipeSelected(recipe: Recipe)
      requires Valid()
      modifies this, selection
      ensures Valid()
      ensures recipe.ingredients.None? ==>
        selection.items == old(selection.items) && selectedRecipes == old(selectedRecipes) &&
        selectedItems == old(selectedItems)
      ensures recipe.ingredients.Some? ==>
        selection.items == old(selection.items) + SelectionStore.NewItems(old(selection.items), recipe.ingredients.value)
      ensures recipe.ingredients.Some? ==>
        var published := subscribed && selection.items != old(selection.items);
        var synced := if published then SyncRecipes(old(selectedRecipes), selection.items) else old(selectedRecipes);
        selectedRecipes == AddRecipeIfAbsent(synced, recipe) &&
        selectedItems == (if published then selection.items else old(selectedItems))
      ensures recipes == old(recipes) && groceries == old(groceries) && subscribed == old(subscribed)
    {
      if recipe.ingredients.Some? {
        var before := selection.items;
        selection.AddItems(recipe.ingredients.value);
        if subscribed && selection.items != before {
          OnSelectionEmitted(selection.items);
        }
        if !HasRecipeNamed(selectedRecipes, recipe.name) {
          selectedRecipes := selectedRecipes + [recipe];
        }
      }
    }

    /** `onRecipeSaved` on success: the first recipe with the saved name is overwritten in place. */
    method OnRecipeSaved(updated: Recipe)
      modifies this
      ensures recipes == ReplaceFirstByName(old(recipes), updated)
      ensures selectedRecipes == old(selectedRecipes) && groceries == old(groceries)
      ensures selectedItems == old(selectedItems) && subscribed == old(subscribed)
    {
      var index := FindIndexByName(recipes, updated.name);
      if index != -1 {
        recipes := recipes[index := updated];
      }
    }

    /** `onGrocerySelected`: exactly `addItem(grocery.name)` on the service. */
    method OnGrocerySelected(grocery: GroceryItem)
      requires Valid()
      modifies this, selection
      ensures Valid()
      ensures selection.items == SelectionStore.AddItem(old(selection.items), grocery.name)
      ensures var published := subscribed && selection.items != old(selection.items);
        selectedItems == (if published then selection.items else old(selectedItems)) &&
        selectedRecipes == (if published then SyncRecipes(old(selectedRecipes), selection.items) else old(selectedRecipes))
      ensures recipes == old(recipes) && groceries == old(groceries) && subscribed == old(subscribed)
    {
      var before := selection.items;
      selection.AddItem(grocery.name);
      if subscribed && selection.items != before {
        OnSelectionEmitted(selection.items);
      }
    }

    /** `onConfirmDelete` on success: every grocery with the id is dropped. */
    method OnConfirmDelete(grocery: GroceryItem)
      modifies this
      ensures groceries == RemoveGroceriesById(old(groceries), grocery.id)
      ensures recipes == old(recipes) && selectedRecipes == old(selectedRecipes)
      ensures selectedItems == old(selectedItems) && subscribed == old(subscribed)
    {
      groceries := RemoveGroceriesById(groceries, grocery.id);
    }

    /** `onItemAdded` on success: the record the service returned is pushed. */
    method OnItemAdded(added: GroceryItem)
      modifies this
      ensures groceries == old(groceries) + [added]
      ensures recipes == old(recipes) && selectedRecipes == old(selectedRecipes)
      ensures selectedItems == old(selectedItems) && subscribed == old(subscribed)
    {
      groceries := groceries + [added];
    }
  }
}
