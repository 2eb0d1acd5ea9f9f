/**
 * The React home page: it holds the recipe and grocery lists, the selected
 * recipes and groceries, and the shopping-list working set of the store.
 * A handler's store update and its state setters are one transition here;
 * whenever the store hands back a new item list, the sync effect then
 * filters the selected recipes and groceries against it. Network calls
 * appear only as the state change made when they succeed.
 */
module Page {
  import opened Wrappers
  import opened Types
  import opened Seqs
  import opened Bookkeeping
  import SelectionStore

  datatype PageState = PageState(
    recipes: seq<Recipe>,
    groceries: seq<GroceryItem>,
    selectedRecipes: seq<Recipe>,
    selectedGroceries: seq<GroceryItem>,
    items: seq<SelectionItem>)

  const Initial := PageState([], [], [], [], SelectionStore.Initial)

  /** Every selected recipe and grocery is still backed by the item list. */
  predicate Synced(st: PageState) {
    (forall r :: r in st.selectedRecipes ==> StillSelected(r, st.items)) &&
    (forall g :: g in st.selectedGroceries ==> Listed(st.items, g.name))
  }

  /** The effect on `items`: both selections keep only what the item list still backs. */
  function SyncEffect(st: PageState): (next: PageState)
    ensures Synced(next)
    ensures IsSubseq(next.selectedRecipes, st.selectedRecipes)
    ensures IsSubseq(next.selectedGroceries, st.selectedGroceries)
    ensures forall r :: r in st.selectedRecipes && StillSelected(r, st.items) ==> r in next.selectedRecipes
    ensures forall g :: g in st.selectedGroceries && Listed(st.items, g.name) ==> g in next.selectedGroceries
    ensures next.recipes == st.recipes && next.groceries == st.groceries && next.items == st.items
  {
    st.(selectedRecipes := SyncRecipes(st.selectedRecipes, st.items),
        selectedGroceries := SyncGroceries(st.selectedGroceries, st.items))
  }

  /** Running the effect again changes nothing. */
  lemma SyncIdempotent(st: PageState)
    ensures SyncEffect(SyncEffect(st)) == SyncEffect(st)
  {
    var rs := st.selectedRecipes;
    var pr := (r: Recipe) => StillSelected(r, st.items);
    FilterThen(rs, pr, pr, pr);
    var gs := st.selectedGroceries;
    var pg := (g: GroceryItem) => Listed(st.items, g.name);
    FilterThen(gs, pg, pg, pg);
  }

  /**
   * The update made by `addItem` and `addItems`, which hand back the old
   * state when nothing is new: when the list is unchanged, the effect does
   * not run.
   */
  function Commit(st: PageState, items: seq<SelectionItem>): (next: PageState)
    ensures items == st.items ==> next == st
    ensures items != st.items ==> next == SyncEffect(st.(items := items))
  {
    if items == st.items then st else SyncEffect(st.(items := items))
  }

  /**
   * The update made by `removeItem`, `setStore` and `clearAll`, which always
   * hand back a new array: the effect runs even when the list reads the same.
   */
  function Publish(st: PageState, items: seq<SelectionItem>): (next: PageState)
    ensures next.items == items && Synced(next)
    ensures forall r :: r in next.selectedRecipes <==> r in st.selectedRecipes && StillSelected(r, items)
    ensures forall g :: g in next.selectedGroceries <==> g in st.selectedGroceries && Listed(items, g.name)
    ensures next.recipes == st.recipes && next.groceries == st.groceries
  {
    SyncEffect(st.(items := items))
  }

  /** The shopping-list tab's remove button: `removeItem(name)`. */
  function HandleRemoveItem(st: PageState, name: string): (next: PageState)
    ensures next.items == SelectionStore.RemoveItem(st.items, name)
    ensures !SelectionStore.HasExactName(next.items, name)
    ensures Synced(next)
  {
    Publish(st, SelectionStore.RemoveItem(st.items, name))
  }

  /** The shopping-list tab's store buttons: `setStore(name, store)`. */
  function HandleSetStore(st: PageState, name: string, store: Store): (next: PageState)
    ensures next.items == SelectionStore.SetStore(st.items, name, store)
    ensures Synced(next)
  {
    Publish(st, SelectionStore.SetStore(st.items, name, store))
  }

  /** The shopping-list tab's Clear All button: `clearAll()`. */
  function HandleClearAll(st: PageState): (next: PageState)
    ensures next.items == [] && Synced(next)
  {
    Publish(st, SelectionStore.ClearAll(st.items))
  }

  /** Clear All also deselects every recipe and every grocery. */
  lemma ClearAllDeselects(st: PageState)
    ensures HandleClearAll(st).selectedRecipes == [] && HandleClearAll(st).selectedGroceries == []
  {
    var none: seq<SelectionItem> := [];
    FilterNone(st.selectedRecipes, (r: Recipe) => StillSelected(r, none));
    FilterNone(st.selectedGroceries, (g: GroceryItem) => Listed(none, g.name));
  }

  /**
   * A store button that matches no entry leaves the list as it reads, yet
   * the effect still runs: a selected recipe without ingredients, which
   * `Commit` keeps after an add, is dropped now.
   */
  lemma SetStoreStillSyncs(st: PageState, name: string, store: Store)
    requires !SelectionStore.HasExactName(st.items, name)
    ensures HandleSetStore(st, name, store).items == st.items
    ensures forall r :: r in HandleSetStore(st, name, store).selectedRecipes ==>
      r.ingredients.Some? && |r.ingredients.value| > 0
  {
    SelectionStore.SetStoreMissing(st.items, name, store);
  }

  /**
   * `handleRecipeSelected`: with an ingredient array, add the ingredients to
   * the store and append the recipe unless one of its name is selected.
   */
  function HandleRecipeSelected(st: PageState, recipe: Recipe): (next: PageState)
    ensures recipe.ingredients.None? ==> next == st
    ensures recipe.ingredients.Some? ==>
      next == Commit(st.(selectedRecipes := AddRecipeIfAbsent(st.selectedRecipes, recipe)),
                     st.items + SelectionStore.NewItems(st.items, recipe.ingredients.value))
  {
    match recipe.ingredients
    case None => st
    case Some(ingredients) =>
      var added := st.(selectedRecipes := AddRecipeIfAbsent(st.selectedRecipes, recipe));
      Commit(added, st.items + SelectionStore.NewItems(st.items, ingredients))
  }

  /** A recipe with at least one ingredient, not selected before, is selected afterwards. */
  lemma RecipeSelectedAfterHandle(st: PageState, recipe: Recipe)
    requires recipe.ingredients.Some? && |recipe.ingredients.value| > 0
    requires !HasRecipeNamed(st.selectedRecipes, recipe.name)
    ensures recipe in HandleRecipeSelected(st, recipe).selectedRecipes
    ensures forall k :: 0 <= k < |recipe.ingredients.value| ==>
      SelectionStore.HasName(HandleRecipeSelected(st, recipe).items, recipe.ingredients.value[k])
  {
    var ings := recipe.ingredients.value;
    var items := st.items + SelectionStore.NewItems(st.items, ings);
    var added := AddRecipeIfAbsent(st.selectedRecipes, recipe);
    assert added[|st.selectedRecipes|] == recipe;
    SelectedRecipeSurvivesSync(st.items, recipe);
    forall k | 0 <= k < |ings| ensures SelectionStore.HasName(items, ings[k]) {
      SelectionStore.NewItemsCover(st.items, ings, k);
    }
    if items == st.items {
      assert recipe in added;
    } else {
      assert StillSelected(recipe, items);
      assert recipe in added;
    }
  }

  /** `handleGrocerySelected`: add its name to the store; append the grocery unless its id is selected. */
  function HandleGrocerySelected(st: PageState, grocery: GroceryItem): (next: PageState)
    ensures next == Commit(st.(selectedGroceries := AddGroceryIfAbsent(st.selectedGroceries, grocery)),
                           SelectionStore.AddItem(st.items, grocery.name))
  {
    var added := st.(selectedGroceries := AddGroceryIfAbsent(st.selectedGroceries, grocery));
    Commit(added, SelectionStore.AddItem(st.items, grocery.name))
  }

  /** A grocery not selected before is selected afterwards, and its name is on the list. */
  lemma GrocerySelectedAfterHandle(st: PageState, grocery: GroceryItem)
    requires !HasGroceryId(st.selectedGroceries, grocery.id)
    ensures grocery in HandleGrocerySelected(st, grocery).selectedGroceries
    ensures SelectionStore.HasName(HandleGrocerySelected(st, grocery).items, grocery.name)
  {
    var items := SelectionStore.AddItem(st.items, grocery.name);
    var added := AddGroceryIfAbsent(st.selectedGroceries, grocery);
    assert added[|st.selectedGroceries|] == grocery;
    assert grocery in added;
    ListedIsHasName(items, grocery.name);
  }

  /** `handleRecipeSaved` on success: every recipe with the saved id is replaced. */
  function HandleRecipeSaved(st: PageState, updated: Recipe): (next: PageState)
    ensures next.recipes == ReplaceById(st.recipes, updated)
    ensures next.(recipes := st.recipes) == st
  {
    st.(recipes := ReplaceById(st.recipes, updated))
  }

  /** `handleGroceryDeleted` on success: every grocery with the id is dropped. */
  function HandleGroceryDeleted(st: PageState, grocery: GroceryItem): (next: PageState)
    ensures !HasGroceryId(next.groceries, grocery.id)
    ensures next.groceries == RemoveGroceriesById(st.groceries, grocery.id)
    ensures next.(groceries := st.groceries) == st
  {
    st.(groceries := RemoveGroceriesById(st.groceries, grocery.id))
  }

  /** `handleGroceryAdded` on success: the record the service returned is appended. */
  function HandleGroceryAdded(st: PageState, added: GroceryItem): (next: PageState)
    ensures next.groceries == st.groceries + [added]
    ensures next.(groceries := st.groceries) == st
  {
    st.(groceries := st.groceries + [added])
  }
}
