/**
 * The list updates the parent components make on the recipe list, the
 * grocery list and the selected recipes and groceries: append when absent
 * (by name or by id), replace after a save (every id match, or the first
 * name match found by `findIndex`), remove after a delete, and the rule that
 * keeps a recipe or grocery selected only while the shopping list still
 * names it.
 */
module Bookkeeping {
  import opened Wrappers
  import opened Text
  import opened Types
  import Seqs
  import SelectionStore

  // ---------------------------------------------------------------- lookups

  /** `rs.some(r => r.name === name)`. */
  predicate HasRecipeNamed(rs: seq<Recipe>, name: string) {
    exists i :: 0 <= i < |rs| && rs[i].name == name
  }

  /** `gs.some(g => g.id === id)`. */
  predicate HasGroceryId(gs: seq<GroceryItem>, id: string) {
    exists i :: 0 <= i < |gs| && gs[i].id == id
  }

  /** `rs.findIndex(r => r.name === name)`: the first match, or -1. */
  function FindIndexByName(rs: seq<Recipe>, name: string): (k: int)
    ensures -1 <= k < |rs|
    ensures k == -1 <==> !HasRecipeNamed(rs, name)
    ensures k >= 0 ==> rs[k].name == name && forall j :: 0 <= j < k ==> rs[j].name != name
  {
    if |rs| == 0 then -1
    else if rs[0].name == name then 0
    else
      var k := FindIndexByName(rs[1..], name);
      assert forall j :: 0 < j < |rs| ==> rs[j] == rs[1..][j - 1];
      if k == -1 then -1 else k + 1
  }

  /** A table row is highlighted when a selected recipe has its name. */
  function IsRecipeSelected(selected: seq<Recipe>, recipe: Recipe): (r: bool)
    ensures r <==> exists s :: s in selected && s.name == recipe.name
  {
    HasRecipeNamed(selected, recipe.name)
  }

  /** A table row is highlighted when a selected grocery has its id. */
  function IsGrocerySelected(selected: seq<GroceryItem>, item: GroceryItem): (r: bool)
    ensures r <==> exists s :: s in selected && s.id == item.id
  {
    HasGroceryId(selected, item.id)
  }

  // ---------------------------------------------------------------- append when absent

  /** Append `r` unless a recipe with its name is already there. */
  function AddRecipeIfAbsent(rs: seq<Recipe>, r: Recipe): (result: seq<Recipe>)
    ensures HasRecipeNamed(result, r.name)
    ensures |rs| <= |result| && result[..|rs|] == rs
    ensures |result| == |rs| + 1 <==> !HasRecipeNamed(rs, r.name)
    ensures |result| > |rs| ==> result[|rs|] == r
  {
    if HasRecipeNamed(rs, r.name) then rs
    else
      var result := rs + [r];
      assert result[|rs|] == r;
      result
  }

  /** Selecting the same recipe again changes nothing. */
  lemma AddRecipeIdempotent(rs: seq<Recipe>, r: Recipe)
    ensures AddRecipeIfAbsent(AddRecipeIfAbsent(rs, r), r) == AddRecipeIfAbsent(rs, r)
  {
  }

  /** Append `g` unless a grocery with its id is already there. */
  function AddGroceryIfAbsent(gs: seq<GroceryItem>, g: GroceryItem): (result: seq<GroceryItem>)
    ensures HasGroceryId(result, g.id)
    ensures |gs| <= |result| && result[..|gs|] == gs
    ensures |result| == |gs| + 1 <==> !HasGroceryId(gs, g.id)
    ensures |result| > |gs| ==> result[|gs|] == g
  {
    if HasGroceryId(gs, g.id) then gs
    else
      var result := gs + [g];
      assert result[|gs|] == g;
      result
  }

  lemma AddGroceryIdempotent(gs: seq<GroceryItem>, g: GroceryItem)
    ensures AddGroceryIfAbsent(AddGroceryIfAbsent(gs, g), g) == AddGroceryIfAbsent(gs, g)
  {
  }

  // ---------------------------------------------------------------- replace after a save

  /** `rs.map(r => r.id === updated.id ? updated : r)`. */
  function ReplaceById(rs: seq<Recipe>, updated: Recipe): (result: seq<Recipe>)
    ensures |result| == |rs|
    ensures forall i :: 0 <= i < |rs| && rs[i].id == updated.id ==> result[i] == updated
    ensures forall i :: 0 <= i < |rs| && rs[i].id != updated.id ==> result[i] == rs[i]
  {
    seq(|rs|, i requires 0 <= i < |rs| => if rs[i].id == updated.id then updated else rs[i])
  }

  /**
   * `findIndex` by name, then `rs[index] = updated`: only the first recipe
   * with the updated recipe's name is overwritten.
   */
  function ReplaceFirstByName(rs: seq<Recipe>, updated: Recipe): (result: seq<Recipe>)
    ensures |result| == |rs|
    ensures !HasRecipeNamed(rs, updated.name) ==> result == rs
    ensures HasRecipeNamed(rs, updated.name) ==>
      var k := FindIndexByName(rs, updated.name);
      result[k] == updated && forall i :: 0 <= i < |rs| && i != k ==> result[i] == rs[i]
  {
    var k := FindIndexByName(rs, updated.name);
    if k != -1 then rs[k := updated] else rs
  }

  // ---------------------------------------------------------------- remove

  /** `rs.filter(r => r.name !== name)`. */
  function RemoveRecipesNamed(rs: seq<Recipe>, name: string): (result: seq<Recipe>)
    ensures forall r :: r in result <==> r in rs && r.name != name
    ensures Seqs.IsSubseq(result, rs)
  {
    Seqs.Filter(rs, (r: Recipe) => r.name != name)
  }

  /** `findIndex` by name, then `splice(index, 1)`: only the first match goes. */
  function RemoveFirstByName(rs: seq<Recipe>, name: string): (result: seq<Recipe>)
    ensures !HasRecipeNamed(rs, name) ==> result == rs
    ensures HasRecipeNamed(rs, name) ==>
      var k := FindIndexByName(rs, name);
      |result| == |rs| - 1 && result == rs[..k] + rs[k + 1..]
  {
    var k := FindIndexByName(rs, name);
    if k > -1 then rs[..k] + rs[k + 1..] else rs
  }

  /** `gs.filter(g => g.id !== id)`. */
  function RemoveGroceriesById(gs: seq<GroceryItem>, id: string): (result: seq<GroceryItem>)
    ensures !HasGroceryId(result, id)
    ensures forall g :: g in result <==> g in gs && g.id != id
    ensures Seqs.IsSubseq(result, gs)
  {
    var result := Seqs.Filter(gs, (g: GroceryItem) => g.id != id);
    assert forall i :: 0 <= i < |result| ==> result[i] in result;
    result
  }

  /** Deleting an id that is not there changes nothing. */
  lemma RemoveMissingId(gs: seq<GroceryItem>, id: string)
    requires !HasGroceryId(gs, id)
    ensures RemoveGroceriesById(gs, id) == gs
  {
    Seqs.FilterAll(gs, (g: GroceryItem) => g.id != id);
  }

  // ---------------------------------------------------------------- selection sync

  /** Some shopping-list entry names `s`, ignoring case. */
  predicate Listed(items: seq<SelectionItem>, s: string) {
    exists j :: 0 <= j < |items| && Lower(items[j].name) == Lower(s)
  }

  /** A recipe stays selected while one of its ingredients is still on the shopping list. */
  predicate StillSelected(recipe: Recipe, items: seq<SelectionItem>) {
    recipe.ingredients.Some? && |recipe.ingredients.value| > 0 &&
    exists k :: 0 <= k < |recipe.ingredients.value| && Listed(items, recipe.ingredients.value[k])
  }

  /** The selected recipes after the shopping list changed to `items`. */
  function SyncRecipes(selected: seq<Recipe>, items: seq<SelectionItem>): (result: seq<Recipe>)
    ensures Seqs.IsSubseq(result, selected)
    ensures forall r :: r in result <==> r in selected && StillSelected(r, items)
  {
    Seqs.Filter(selected, (r: Recipe) => StillSelected(r, items))
  }

  /** The selected groceries after the shopping list changed to `items`. */
  function SyncGroceries(selected: seq<GroceryItem>, items: seq<SelectionItem>): (result: seq<GroceryItem>)
    ensures Seqs.IsSubseq(result, selected)
    ensures forall g :: g in result <==> g in selected && Listed(items, g.name)
  {
    Seqs.Filter(selected, (g: GroceryItem) => Listed(items, g.name))
  }

  /** `Listed` is the store's own case-insensitive lookup. */
  lemma ListedIsHasName(items: seq<SelectionItem>, s: string)
    ensures Listed(items, s) <==> SelectionStore.HasName(items, s)
  {
  }

  /**
   * A recipe that was just selected stays selected through the sync that
   * follows, provided it has at least one ingredient: `addItems` put every
   * ingredient on the list.
   */
  lemma SelectedRecipeSurvivesSync(items: seq<SelectionItem>, recipe: Recipe)
    requires recipe.ingredients.Some? && |recipe.ingredients.value| > 0
    ensures StillSelected(recipe, items + SelectionStore.NewItems(items, recipe.ingredients.value))
  {
    var names := recipe.ingredients.value;
    SelectionStore.NewItemsCover(items, names, 0);
  }
}
