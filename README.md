# shop-ui — a verified model of the meal-planning front ends

shop-ui is a meal-planning and grocery-list web application with two front ends over the same
back end: a Next.js/React one (MUI and PrimeReact variants) and an Angular/PrimeNG one. A user
browses recipes and groceries, picks recipes (whose ingredients go onto a shopping list) and
single groceries, assigns each shopping-list entry to a store (Meijer, BJ's, Fresh Thyme, Papaya),
and copies out a formatted list grouped by store.

This project models the sequential core of both front ends in Dafny:

- the shopping-list working set: the zustand store's reducers in the React front end and
  the `SelectionService` class in the Angular one, which is proved against those same reducers.
  The working set has no duplicate names, ignoring case, and every reachable state keeps that;
- the store-grouped shopping-list formatter, with its grouping loop proved against a
  specification of the text it produces;
- the Angular ingredient list: the ingredients of the selected recipes, collected, lower-cased,
  de-duplicated, sorted, capitalised and joined;
- the recipe and grocery filters, the dropdown options they offer, and the column sort;
- the page and container state: selecting, saving, deleting and adding recipes and groceries,
  and pruning the selected recipes and groceries once the shopping list changes;
- the recipe edit dialog (ingredients as text and back) and the grocery add dialog
  (validation, submit, reset).

Module layout:

| module | models |
|---|---|
| `Wrappers`, `Text`, `Seqs`, `Types` | the JavaScript string and array operations the code relies on (ASCII `toLowerCase`, `trim`, `includes`, `split`, `join`, `<` on strings, stable `sort`, `filter`, `Set` de-duplication), and the record types |
| `SelectionStore`, `Selection` | `app/lib/store.ts`, `src/app/services/selection.service.ts` |
| `ShoppingListTab` | `app/components/shopping-list/ShoppingListTab.tsx` |
| `IngredientList`, `AppRoot`, `ShoppingListPanel` | `src/app/app.ts`, `src/app/components/shopping-list/shopping-list.component.ts` |
| `RecipeFilters`, `RecipesTab`, `RecipeTable` | `app/components/recipes/RecipesTab.tsx`, `src/app/components/recipe-table/recipe-table.component.ts` |
| `GroceryFilters`, `GroceriesTab`, `GroceryTable` | `app/components/groceries/GroceriesTab.tsx`, `src/app/components/grocery-table/grocery-table.component.ts` |
| `Bookkeeping`, `Page`, `MainContainer`, `RecipesPage`, `GroceriesPage` | `app/page.tsx`, `src/app/components/main-container/main-container.component.ts`, `src/app/components/recipes/recipes.ts`, `src/app/components/groceries/groceries.component.ts` |
| `IngredientsText`, `RecipeEditModal`, `RecipeEditComponent` | `app/components/recipes/RecipeEditModal.tsx`, `src/app/components/recipe-edit-modal/recipe-edit-modal.component.ts` |
| `GroceryForm`, `GroceryAddModal`, `GroceryAddComponent` | `app/components/groceries/GroceryAddModal.tsx`, `src/app/components/grocery-add-modal/grocery-add-modal.component.ts` |

Code that changes state in place is modelled with classes: the Angular service and components
have their fields, `modifies` clauses and loops. Pure code is modelled with functions: the
React reducers, hooks, `filter`/`map` pipelines and event handlers that compute the next state.
Where a React handler sets several pieces of state, the model is a function from the old state
record to the new one.

## Model

| member | source | states |
|---|---|---|
| SelectionStore.AddItem | app/lib/store.ts:16-27 | afterwards the name is present, ignoring case; the old list is a prefix of the result; the result grows by exactly one entry, `(name, no store)`, iff no entry had that name ignoring case; unique names are preserved |
| SelectionStore.NewItems | app/lib/store.ts:29-47 | the batch that `addItems` appends: no longer than the input, every entry is unassigned, comes from the input and is absent from the old list; unique names survive the append (order and first spelling: `NewItemsSnoc`, `NewItemsFirstSpelling`) |
| SelectionStore.AddItems | app/lib/store.ts:29-47 | the `forEach`/`push` loop yields the old list followed by exactly `NewItems`, and keeps names unique |
| SelectionStore.NewItemsCover | app/lib/store.ts:33-41 | every input name is present afterwards, ignoring case |
| SelectionStore.NewItemsEmptyIff | app/lib/store.ts:43-46 | nothing is appended iff every input name was already present, ignoring case |
| SelectionStore.NewItemsSnoc | app/lib/store.ts:33-41 | the batch is built in input order: one more name appends that name, unassigned and spelled as given, unless it is present in the list or earlier in the batch ignoring case, in which case nothing changes |
| SelectionStore.NewItemsFirstSpelling | app/lib/store.ts:33-41 | a name absent from the list whose lower-case form does not occur earlier in the input is appended with exactly its own spelling: the first spelling wins |
| SelectionStore.HasNameAppend | app/lib/store.ts:34-36 | a case-insensitive lookup in `state.items` and then in `newItems` is one lookup in their concatenation |
| SelectionStore.RemoveItem | app/lib/store.ts:49-52 | keeps exactly the entries whose name differs exactly from the given name, in order; no exact match is left; unique names are preserved |
| SelectionStore.SetStore | app/lib/store.ts:54-57 | same length and names; exactly-matching entries get the store, the others keep theirs; unique names are preserved |
| SelectionStore.SetStoreMissing | app/lib/store.ts:54-57 | assigning a store to a name nobody has changes nothing |
| SelectionStore.ClearAll | app/lib/store.ts:59 | the result contains no name at all |
| SelectionStore.UniqueNamesSubseq | app/lib/store.ts:49-52 | dropping entries keeps names unique and adds no entry |
| SelectionStore.RunUniqueNames | app/lib/store.ts:13-60 | every list reachable from the empty initial list through any sequence of store calls has no two names equal ignoring case |
| Selection.SelectionService.constructor | src/app/services/selection.service.ts:13 | the service starts with the empty list |
| Selection.SelectionService.GetItems | src/app/services/selection.service.ts:16-18 | the current list: names unique, ignoring case, with the same names as the field |
| Selection.SelectionService.AddItem | src/app/services/selection.service.ts:20-30 | the new list is the store reducer's result: unchanged if the name is present ignoring case, otherwise one unassigned entry appended |
| Selection.SelectionService.AddItems | src/app/services/selection.service.ts:32-51 | the loop appends exactly `NewItems` of the old list and keeps names unique |
| Selection.SelectionService.RemoveItem | src/app/services/selection.service.ts:53-56 | the new list is the store's `removeItem` result |
| Selection.SelectionService.SetStore | src/app/services/selection.service.ts:58-64 | the new list is the store's `setStore` result |
| Selection.SelectionService.ClearAll | src/app/services/selection.service.ts:66-68 | the list becomes empty |
| Types.StoreNameInjective | app/components/shopping-list/ShoppingListTab.tsx:11-16 | distinct store codes have distinct display names, so grouping by display name is grouping by store |
| ShoppingListTab.SelectStore | app/components/shopping-list/ShoppingListTab.tsx:32-34 | entries named like the chosen item get that store; every other entry is unchanged |
| ShoppingListTab.StoreOrder | app/components/shopping-list/ShoppingListTab.tsx:41-51 | the block order: no store twice, and a store appears iff some entry is assigned to it |
| ShoppingListTab.StoreOrderIsDistinct | app/components/shopping-list/ShoppingListTab.tsx:41-57 | the stores of the blocks are the assigned stores with repeats removed, `Seqs.Distinct` of them, so by `Seqs.DistinctFirstOrder` they come in order of each store's first assigned entry |
| ShoppingListTab.GroupByStore | app/components/shopping-list/ShoppingListTab.tsx:41-51 | the grouping loop yields the store order, each store's names in input order, and the unassigned names |
| ShoppingListTab.GroupOfIsFilter | app/components/shopping-list/ShoppingListTab.tsx:41-51 | a store's group is the input filtered to that store, so nothing is lost or reordered |
| ShoppingListTab.UnassignedIsFilter | app/components/shopping-list/ShoppingListTab.tsx:48-50 | the unassigned names are the input filtered to entries without a store |
| ShoppingListTab.GroupOfUnseen | app/components/shopping-list/ShoppingListTab.tsx:44-47 | a store that has no key has no names |
| ShoppingListTab.AppendLines | app/components/shopping-list/ShoppingListTab.tsx:59-61 | the inner loop appends one line per name |
| ShoppingListTab.AppendBlock | app/components/shopping-list/ShoppingListTab.tsx:57-63 | one block: a `* store *` header, the names, then a blank line |
| ShoppingListTab.GenerateShoppingList | app/components/shopping-list/ShoppingListTab.tsx:36-74 | the loops build exactly the specified trimmed text and open the dialog |
| ShoppingListTab.ShoppingList | app/components/shopping-list/ShoppingListTab.tsx:72 | the shown text has no leading or trailing whitespace |
| ShoppingListTab.AssignedEntryListed | app/components/shopping-list/ShoppingListTab.tsx:42-47 | every assigned entry is listed under its own store's header |
| ShoppingListTab.AssignedEntryUnlisted | app/components/shopping-list/ShoppingListTab.tsx:48-50 | every unassigned entry is listed in the unassigned lines |
| ShoppingListTab.EmptyList | app/components/shopping-list/ShoppingListTab.tsx:36-74 | an empty working set gives the empty text |
| ShoppingListTab.ExampleList | app/components/shopping-list/ShoppingListTab.tsx:36-74 | Milk and Bread at Meijer with Eggs unassigned give one Meijer block followed by `Eggs`, with no trailing newline |
| ShoppingListTab.ExampleRaw | app/components/shopping-list/ShoppingListTab.tsx:54-70 | the text before trimming ends in `Eggs\n` |
| ShoppingListTab.ExampleGroups | app/components/shopping-list/ShoppingListTab.tsx:41-51 | the example groups into `[Meijer]`, `Milk, Bread` and unassigned `Eggs` |
| IngredientList.AllIngredients | src/app/app.ts:125-130 | a string is gathered iff it is an ingredient of some selected recipe that has an ingredient array |
| IngredientList.CollectIngredients | src/app/app.ts:125-130 | the `forEach`/`push` loop gathers exactly `AllIngredients` |
| IngredientList.Lowered | src/app/app.ts:133 | one lower-case string per gathered ingredient |
| IngredientList.UniqueLowered | src/app/app.ts:133-134 | no duplicates, strictly increasing in code-unit order, and exactly the lower-cased ingredients |
| IngredientList.CapitalizedLine | src/app/app.ts:135 | a line is exactly the prefix followed by `Capitalize` of its lower-cased ingredient, and lower-casing what follows the prefix gives back the ingredient |
| IngredientList.IngredientLines | src/app/app.ts:133-135 | one line per distinct lower-cased ingredient, in sorted order; line i is exactly the prefix followed by the i-th ingredient capitalized |
| IngredientList.LineCapitalized | src/app/app.ts:135 | after the prefix, a line starts with its ingredient's first character upper-cased and carries the rest of the ingredient unchanged |
| IngredientList.LinesDistinct | src/app/app.ts:132-135 | no two lines are equal |
| IngredientList.LinesCoverIngredients | src/app/app.ts:132-135 | every line comes from an ingredient, and every ingredient has a line, ignoring case |
| IngredientList.LinesSorted | src/app/app.ts:134 | lines appear in strictly increasing order of their lower-cased text |
| IngredientList.FormatSplitsIntoLines | src/app/app.ts:138 | splitting the joined text on newlines gives back the lines |
| IngredientList.NoIngredientsEmpty | src/app/app.ts:126-138 | recipes without an ingredient array give the empty text |
| IngredientList.FormatEmptyIff | src/app/components/shopping-list/shopping-list.component.ts:34-38 | with the `- ` prefix, the text is empty iff no ingredient was gathered |
| IngredientList.LowerKeepsNewline | src/app/app.ts:133-135 | lower-casing and capitalising never introduce a newline |
| AppRoot.App.constructor | src/app/app.ts:95-97 | nothing selected, dialog closed, empty list |
| AppRoot.App.OnRowClick | src/app/app.ts:110-117 | a recipe is appended iff none of its name is selected |
| AppRoot.App.RemoveRecipe | src/app/app.ts:119-121 | every selected recipe of that name is removed |
| AppRoot.App.GenerateShoppingList | src/app/app.ts:123-140 | the text is the formatted ingredient list of the selection, and the dialog opens |
| ShoppingListPanel.ShoppingListComponent.constructor | src/app/components/shopping-list/shopping-list.component.ts:15-17 | starts from the given selection, dialog closed |
| ShoppingListPanel.ShoppingListComponent.RemoveRecipe | src/app/components/shopping-list/shopping-list.component.ts:19-24 | only the first recipe of that name is spliced out |
| ShoppingListPanel.ShoppingListComponent.GenerateShoppingList | src/app/components/shopping-list/shopping-list.component.ts:26-40 | the text is the ingredient list with each line prefixed `- `, and the dialog opens |
| RecipeFilters.Parts | app/components/recipes/RecipesTab.tsx:84 | splitting on commas and trimming gives at least one part, each without surrounding spaces |
| RecipeFilters.UntrimmedNeverMatches | app/components/recipes/RecipesTab.tsx:121-125 | a wanted value with surrounding spaces never matches |
| RecipeFilters.FilterSteps | app/components/recipes/RecipesTab.tsx:105-138 | the three guarded filters keep exactly the recipes meeting every active criterion |
| RecipeFilters.FilterStepsIsOneFilter | app/components/recipes/RecipesTab.tsx:105-138 | the three filters in sequence are one order-preserving filter by the conjunction |
| RecipeFilters.NoCriteriaKeepsAll | app/components/recipes/RecipesTab.tsx:108-129 | with every criterion empty the list is unchanged |
| RecipeFilters.SearchIgnoresCase | app/components/recipes/RecipesTab.tsx:108-115 | the search term's case does not matter |
| RecipeFilters.ContributedIff | app/components/recipes/RecipesTab.tsx:80-87 | a recipe with a non-empty field offers exactly its trimmed comma parts; the Angular table also drops empty parts |
| RecipeFilters.AllPartsIff | app/components/recipes/RecipesTab.tsx:79-88 | a value is gathered iff some non-empty field has it as a part |
| RecipeFilters.Options | app/components/recipes/RecipesTab.tsx:77-103 | the options are de-duplicated, strictly increasing, and exactly the gathered parts |
| RecipeFilters.OptionsWellFormed | src/app/components/recipe-table/recipe-table.component.ts:50-69 | every option has no surrounding spaces and no comma, and the Angular options are never empty |
| RecipeFilters.TypesOf | app/components/recipes/RecipesTab.tsx:80-81 | one type field per recipe, in order |
| RecipeFilters.CuisinesOf | app/components/recipes/RecipesTab.tsx:93-94 | one cuisine field per recipe, in order |
| RecipeFilters.TypeOptionSelectsSomeRecipe | app/components/recipes/RecipesTab.tsx:77-127 | choosing any non-empty offered type leaves at least one recipe |
| RecipeFilters.CuisineOptionSelectsSomeRecipe | app/components/recipes/RecipesTab.tsx:91-138 | choosing any non-empty offered cuisine leaves at least one recipe |
| RecipeFilters.AddAll | src/app/components/recipe-table/recipe-table.component.ts:58-66 | adding parts one by one to the seen set gives the de-duplication of everything so far |
| RecipeFilters.CollectParts | src/app/components/recipe-table/recipe-table.component.ts:50-69 | the `forEach` loop gathers exactly the de-duplicated parts |
| RecipeTable.RecipeTableComponent.constructor | src/app/components/recipe-table/recipe-table.component.ts:19-33 | no criteria, no options, nothing shown |
| RecipeTable.RecipeTableComponent.NgOnChanges | src/app/components/recipe-table/recipe-table.component.ts:35-44 | with recipes, the options are rebuilt and the filters reapplied; without recipes, nothing is shown |
| RecipeTable.RecipeTableComponent.UpdateDropdownOptions | src/app/components/recipe-table/recipe-table.component.ts:46-94 | the type and cuisine options are the sorted, de-duplicated, non-empty parts |
| RecipeTable.RecipeTableComponent.ApplyFilters | src/app/components/recipe-table/recipe-table.component.ts:96-146 | the shown recipes are exactly the filter result for the current criteria |
| RecipeTable.RecipeTableComponent.ClearAllFilters | src/app/components/recipe-table/recipe-table.component.ts:148-153 | the criteria are cleared and every recipe is shown |
| Bookkeeping.IsRecipeSelected | src/app/components/recipe-table/recipe-table.component.ts:170-172 | true iff a selected recipe has the same name |
| Bookkeeping.IsGrocerySelected | src/app/components/grocery-table/grocery-table.component.ts:80-82 | true iff a selected grocery has the same id |
| RecipesTab.ApplyFilters | app/components/recipes/RecipesTab.tsx:105-152 | the shown list is a permutation of the filter result, holds exactly the matching recipes, and is ordered by the sort column, ascending or descending |
| RecipesTab.TypeOptions | app/components/recipes/RecipesTab.tsx:77-89 | a string is a type option iff it is a part of some recipe's type field (empty parts included); each once, trimmed, strictly increasing |
| RecipesTab.CuisineOptions | app/components/recipes/RecipesTab.tsx:91-102 | a string is a cuisine option iff it is a part of some recipe's cuisine field (empty parts included); each once, trimmed, strictly increasing |
| RecipesTab.EmptyPartOffered | app/components/recipes/RecipesTab.tsx:84-89 | a type of `Dinner,` offers an empty option |
| RecipesTab.Refresh | app/components/recipes/RecipesTab.tsx:68-75 | with recipes, the view shows the sorted filter result with fresh options; without recipes, nothing is shown and the options are kept |
| RecipesTab.HandleRequestSort | app/components/recipes/RecipesTab.tsx:164-168 | a new column sorts ascending; the same column flips the order; the criteria are kept |
| RecipesTab.SortClickTwice | app/components/recipes/RecipesTab.tsx:164-168 | clicking the current column twice restores the state |
| RecipesTab.ClearAllFilters | app/components/recipes/RecipesTab.tsx:154-158 | all three criteria are cleared and the sort is kept |
| RecipesTab.ClearShowsAll | app/components/recipes/RecipesTab.tsx:154-158 | after clearing, the view is a permutation of all recipes |
| GroceryFilters.FilterSteps | app/components/groceries/GroceriesTab.tsx:60-77 | keeps exactly the groceries matching the search, ignoring case, and the exact type |
| GroceryFilters.FilterStepsIsOneFilter | app/components/groceries/GroceriesTab.tsx:60-77 | the two filters are one order-preserving filter |
| GroceryFilters.NoCriteriaKeepsAll | app/components/groceries/GroceriesTab.tsx:60-77 | with no criteria the list is unchanged |
| GroceryFilters.TypeFilterExact | app/components/groceries/GroceriesTab.tsx:70-74 | a type filter keeps exactly the groceries of that exact type |
| GroceryFilters.LoweredOptions | app/components/groceries/GroceriesTab.tsx:129-134 | each option shows the type name and carries its lower-case value |
| GroceriesTab.TypeOptions | app/types/index.ts:22-36 | thirteen options, Fruit first and Bread last, named after the grocery types; each value is its type lower-cased, and non-empty |
| GroceriesTab.Refresh | app/components/groceries/GroceriesTab.tsx:56-77 | the shown groceries are the matching ones, in order |
| GroceriesTab.ClearAllFilters | app/components/groceries/GroceriesTab.tsx:79-82 | after clearing, every list is shown unchanged |
| GroceryTable.AngularOptionsArePrefix | src/app/components/grocery-table/grocery-table.component.ts:30-40 | the Angular options are the first nine grocery types with lower-case values |
| GroceryTable.GroceryTableComponent.constructor | src/app/components/grocery-table/grocery-table.component.ts:30-40 | no criteria, nothing shown, the nine options |
| GroceryTable.GroceryTableComponent.NgOnChanges | src/app/components/grocery-table/grocery-table.component.ts:42-44 | the filters are reapplied |
| GroceryTable.GroceryTableComponent.ApplyFilters | src/app/components/grocery-table/grocery-table.component.ts:46-64 | the shown groceries are exactly the filter result |
| GroceryTable.GroceryTableComponent.ClearAllFilters | src/app/components/grocery-table/grocery-table.component.ts:66-70 | the criteria are cleared and every grocery is shown |
| Bookkeeping.FindIndexByName | src/app/app.ts:112 | -1 iff no recipe has the name, otherwise the first index that does |
| Bookkeeping.AddRecipeIfAbsent | app/page.tsx:81-83 | afterwards the name is selected; the old list is a prefix; it grows by the recipe iff the name was absent |
| Bookkeeping.AddRecipeIdempotent | app/page.tsx:81-83 | selecting the same recipe twice is the same as once |
| Bookkeeping.AddGroceryIfAbsent | app/page.tsx:100-102 | afterwards the id is selected; the old list is a prefix; it grows by the grocery iff the id was absent |
| Bookkeeping.AddGroceryIdempotent | app/page.tsx:100-102 | selecting the same grocery twice is the same as once |
| Bookkeeping.ReplaceById | app/page.tsx:90-92 | every recipe with the saved id is replaced and no other changes |
| Bookkeeping.ReplaceFirstByName | src/app/components/main-container/main-container.component.ts:113-125 | only the first recipe of that name is replaced; with none, nothing changes |
| Bookkeeping.RemoveRecipesNamed | src/app/app.ts:120 | exactly the recipes of other names are kept, in order |
| Bookkeeping.RemoveFirstByName | src/app/components/shopping-list/shopping-list.component.ts:19-24 | the first recipe of that name is removed; with none, nothing changes |
| Bookkeeping.RemoveGroceriesById | app/page.tsx:108 | no grocery with the id is left; the others are kept, in order |
| Bookkeeping.RemoveMissingId | app/page.tsx:108 | deleting an absent id changes nothing |
| Bookkeeping.SyncRecipes | app/page.tsx:35-44 | keeps exactly the selected recipes with some ingredient still on the list, ignoring case, in order |
| Bookkeeping.SyncGroceries | app/page.tsx:47-51 | keeps exactly the selected groceries whose name is still on the list, ignoring case, in order |
| Bookkeeping.ListedIsHasName | app/page.tsx:41 | the sync lookup is the store's case-insensitive lookup |
| Bookkeeping.SelectedRecipeSurvivesSync | app/page.tsx:35-44 | a recipe with ingredients survives the sync that follows adding them |
| Page.SyncEffect | app/page.tsx:33-52 | afterwards the selections are in sync with the list; nothing is added; everything still backed by the list is kept; nothing else changes |
| Page.SyncIdempotent | app/page.tsx:33-52 | running the effect twice is the same as once |
| Page.Commit | app/lib/store.ts:16-47 | the update made by `addItem`/`addItems`, which hand back the same state when nothing is new: an unchanged list triggers no effect; otherwise the effect runs on the new list |
| Page.Publish | app/lib/store.ts:49-59 | the update made by `removeItem`, `setStore` and `clearAll`, which always hand back a new array: the effect runs whatever the list, so the selections keep exactly what the new list backs |
| Page.HandleRemoveItem | app/components/shopping-list/ShoppingListTab.tsx:146 | the name is gone from the list and the selections are in sync with it |
| Page.HandleSetStore | app/components/shopping-list/ShoppingListTab.tsx:32-34 | the list gets the store on that name and the selections are in sync with it |
| Page.HandleClearAll | app/components/shopping-list/ShoppingListTab.tsx:94 | the list is empty and the selections are in sync with it |
| Page.ClearAllDeselects | app/lib/store.ts:59 | after Clear All no recipe and no grocery remains selected |
| Page.SetStoreStillSyncs | app/lib/store.ts:54-57 | a store button matching no entry leaves the list as it reads, yet the effect still drops selected recipes without ingredients |
| Page.HandleRecipeSelected | app/page.tsx:78-85 | a recipe without an ingredient array changes nothing; otherwise its ingredients go onto the list, the recipe is appended unless its name is selected, and the sync runs if the list changed |
| Page.RecipeSelectedAfterHandle | app/page.tsx:78-85 | a newly picked recipe with ingredients is selected afterwards and all its ingredients are on the list |
| Page.HandleGrocerySelected | app/page.tsx:98-103 | the grocery's name goes onto the list, the grocery is appended unless its id is selected, and the sync runs if the list changed |
| Page.GrocerySelectedAfterHandle | app/page.tsx:98-103 | a newly picked grocery is selected afterwards and its name is on the list |
| Page.HandleRecipeSaved | app/page.tsx:87-96 | the saved recipe replaces those with its id; nothing else changes |
| Page.HandleGroceryDeleted | app/page.tsx:105-112 | the grocery's id is gone from the groceries; nothing else changes |
| Page.HandleGroceryAdded | app/page.tsx:114-121 | the added grocery is appended; nothing else changes |
| MainContainer.MainContainerComponent.constructor | src/app/components/main-container/main-container.component.ts:37-51 | empty lists, not yet subscribed |
| MainContainer.MainContainerComponent.OnSelectionEmitted | src/app/components/main-container/main-container.component.ts:64-78 | stores the emitted list and keeps the selected recipes with an ingredient on it |
| MainContainer.MainContainerComponent.NgOnInit | src/app/components/main-container/main-container.component.ts:59-79 | subscribes and receives the service's current list at once |
| MainContainer.MainContainerComponent.OnRecipeSelected | src/app/components/main-container/main-container.component.ts:93-101 | a recipe with ingredients adds them through the service; a change is delivered to the subscription; the recipe is then appended unless its name is selected |
| MainContainer.MainContainerComponent.OnRecipeSaved | src/app/components/main-container/main-container.component.ts:113-125 | the first recipe of that name is replaced |
| MainContainer.MainContainerComponent.OnGrocerySelected | src/app/components/main-container/main-container.component.ts:139-141 | the grocery's name is added through the service and any change is delivered to the subscription |
| MainContainer.MainContainerComponent.OnConfirmDelete | src/app/components/main-container/main-container.component.ts:148-157 | groceries with that id are removed |
| MainContainer.MainContainerComponent.OnItemAdded | src/app/components/main-container/main-container.component.ts:159-168 | the added grocery is appended |
| RecipesPage.Recipes.constructor | src/app/components/recipes/recipes.ts:16-17 | empty lists |
| RecipesPage.Recipes.OnRecipeSelected | src/app/components/recipes/recipes.ts:40-45 | the recipe is appended unless its name is selected |
| RecipesPage.Recipes.OnRecipeSaved | src/app/components/recipes/recipes.ts:60-77 | the first recipe of that name is replaced, both in the recipes and in the selection |
| GroceriesPage.GroceriesComponent.constructor | src/app/components/groceries/groceries.component.ts:16-17 | empty lists |
| GroceriesPage.GroceriesComponent.OnGrocerySelected | src/app/components/groceries/groceries.component.ts:39-44 | the grocery is appended unless its id is selected |
| GroceriesPage.GroceriesComponent.OnConfirmDelete | src/app/components/groceries/groceries.component.ts:51-56 | the id is removed from the groceries and from the selection |
| GroceriesPage.GroceriesComponent.OnItemAdded | src/app/components/groceries/groceries.component.ts:63-67 | the added grocery is appended |
| IngredientsText.TrimmedLines | app/components/recipes/RecipeEditModal.tsx:43-45 | each line is trimmed and contains no newline |
| IngredientsText.ParseIngredients | app/components/recipes/RecipeEditModal.tsx:43-46 | the parsed ingredients are trimmed, non-empty and newline-free; they are the non-empty trimmed lines, in order, each as many times as it occurs |
| IngredientsText.ParseShowRoundTrip | app/components/recipes/RecipeEditModal.tsx:35-46 | showing clean ingredients as text and parsing the text back gives them back |
| IngredientsText.ParseIdempotent | app/components/recipes/RecipeEditModal.tsx:35-46 | parsing, showing and parsing again changes nothing |
| IngredientsText.BlankTextNoIngredients | app/components/recipes/RecipeEditModal.tsx:43-46 | text made only of whitespace gives no ingredients |
| RecipeEditModal.Open | app/components/recipes/RecipeEditModal.tsx:32-40 | the form edits a copy of the recipe; with no ingredient array, the text is empty |
| RecipeEditModal.OpenRoundTrip | app/components/recipes/RecipeEditModal.tsx:32-46 | opening and parsing gives back clean ingredients |
| RecipeEditModal.HandleSave | app/components/recipes/RecipeEditModal.tsx:42-52 | the saved recipe has the parsed ingredients and the picked date, or an empty date when none is picked; every other field is as edited |
| RecipeEditModal.SaveUnchanged | app/components/recipes/RecipeEditModal.tsx:32-52 | saving a recipe with clean ingredients and its own date unchanged gives the same recipe |
| RecipeEditComponent.RecipeEditModalComponent.constructor | src/app/components/recipe-edit-modal/recipe-edit-modal.component.ts:19-35 | a blank form |
| RecipeEditComponent.RecipeEditModalComponent.NgOnChanges | src/app/components/recipe-edit-modal/recipe-edit-modal.component.ts:37-47 | with a recipe, the form copies it, shows its ingredients and its date; without one, nothing changes |
| RecipeEditComponent.RecipeEditModalComponent.OnCancel | src/app/components/recipe-edit-modal/recipe-edit-modal.component.ts:49-52 | the dialog closes and the form is kept |
| RecipeEditComponent.RecipeEditModalComponent.OnSave | src/app/components/recipe-edit-modal/recipe-edit-modal.component.ts:54-71 | the emitted recipe has the parsed ingredients and the picked date; without a date, the old one is kept; the dialog closes |
| GroceryForm.FormValidIff | app/components/groceries/GroceryAddModal.tsx:48-50 | the form is valid iff the name has a non-space character and a type is chosen |
| GroceryForm.Submitted | src/app/components/grocery-add-modal/grocery-add-modal.component.ts:44-54 | a valid form submits exactly the trimmed form name, which is non-empty, and the form's type |
| GroceryAddModal.ResetForm | app/components/groceries/GroceryAddModal.tsx:44-46 | the reset form is empty and not valid |
| GroceryAddModal.HandleSave | app/components/groceries/GroceryAddModal.tsx:28-37 | a valid form emits the trimmed name and the type, then is reset and hidden; an invalid one changes nothing and emits nothing |
| GroceryAddModal.HandleCancel | app/components/groceries/GroceryAddModal.tsx:39-42 | emits nothing, resets and hides |
| GroceryAddModal.SaveTwiceEmitsOnce | app/components/groceries/GroceryAddModal.tsx:28-46 | a second save right after a successful one emits nothing |
| GroceryAddComponent.GroceryAddModalComponent.constructor | src/app/components/grocery-add-modal/grocery-add-modal.component.ts:21-24 | an empty form |
| GroceryAddComponent.GroceryAddModalComponent.ResetForm | src/app/components/grocery-add-modal/grocery-add-modal.component.ts:56-61 | the form becomes empty and not valid |
| GroceryAddComponent.GroceryAddModalComponent.OnCancel | src/app/components/grocery-add-modal/grocery-add-modal.component.ts:38-42 | the form is reset and the dialog hidden |
| GroceryAddComponent.GroceryAddModalComponent.OnSave | src/app/components/grocery-add-modal/grocery-add-modal.component.ts:44-54 | a valid form emits the trimmed name and the type, then resets and hides; an invalid one emits nothing and changes nothing |
| Text.Lower | app/lib/store.ts:20 | `toLowerCase` keeps the length and leaves no upper-case letter |
| Text.LowerIdempotent | app/page.tsx:41 | lower-casing twice is lower-casing once |
| Text.Capitalize | src/app/app.ts:135 | only the first character changes, it is not a lower-case letter afterwards, and lower-casing undoes it on lower-case input |
| Text.Trim | app/components/recipes/RecipesTab.tsx:84 | `trim` gives a slice of the input with only whitespace cut off at either end, and no whitespace at its own ends |
| Text.TrimOfTrimmed | app/components/recipes/RecipesTab.tsx:84 | trimming a trimmed string changes nothing |
| Text.TrimEmptyIff | app/components/recipes/RecipeEditModal.tsx:45-46 | a string trims to empty iff it is all whitespace |
| Text.ContainsIff | app/components/recipes/RecipesTab.tsx:112-114 | `includes` holds iff the term occurs at some position |
| Text.LexLessTotal | app/components/recipes/RecipesTab.tsx:145 | any two different strings are ordered one way or the other by `<` |
| Text.LexLessTransitive | app/components/recipes/RecipesTab.tsx:145 | `<` on strings is transitive |
| Text.LexLessAsymmetric | app/components/recipes/RecipesTab.tsx:145 | `<` on strings never holds both ways |
| Text.Split | app/components/recipes/RecipesTab.tsx:84 | `split` gives at least one piece, none containing the separator |
| Text.SplitJoin | src/app/app.ts:138 | joining separator-free pieces and splitting the result gives them back |
| Seqs.Filter | app/lib/store.ts:51 | `filter` keeps the passing elements and only those, in order (copies: `Seqs.FilterCount`) |
| Seqs.FilterCount | app/components/recipes/RecipeEditModal.tsx:43-46 | a passing element is kept as many times as it occurs, a failing one not at all |
| Seqs.FilterSnoc | app/lib/store.ts:51 | filtering one more element at the end appends it iff it passes |
| Seqs.FilterFilter | app/components/recipes/RecipesTab.tsx:108-138 | filtering twice is filtering once by the conjunction |
| Seqs.FlatMapIff | app/components/recipes/RecipesTab.tsx:79-88 | a value is in the concatenated per-field lists iff it is in the list of some field |
| Seqs.Distinct | src/app/app.ts:133 | `new Set` keeps exactly the elements of the input, each once (order: `Seqs.DistinctFirstOrder`) |
| Seqs.DistinctSnoc | src/app/app.ts:133 | adding a value to the set appends it at the end unless it is already there |
| Seqs.DistinctFirstOrder | src/app/app.ts:133 | the elements of `new Set` come in the order of their first occurrences in the input |
| Seqs.SortBy | app/components/recipes/RecipesTab.tsx:141-149 | the sort is a permutation ordered by the key, ascending or descending (stability: `Seqs.SortByStable`) |
| Seqs.SortByStable | app/components/recipes/RecipesTab.tsx:141-149 | the sort is stable: the elements with any one key come out in their input order |
| Seqs.SortStrings | src/app/app.ts:134 | `sort()` is a permutation into non-decreasing order |
| Seqs.SortStringsStrict | src/app/app.ts:133-134 | sorting distinct strings gives a strictly increasing list |

## Left out

- Back-end calls (`recipeApi`, `groceryApi`, HTTP): a save, delete or add is modelled by its success path, with the server's reply as a parameter. A failed request only logs and leaves the state unchanged. `loadRecipes`/`loadGroceries` and the loading flags are not modelled.
- Dates: `new Date(...)`, `toISOString()` and the `T` split are outside the model. The picked date arrives as an optional string parameter.
- Text is ASCII: `toLowerCase`/`toUpperCase` map only `A`–`Z` and `a`–`z`, and `trim` removes ASCII whitespace. Unicode case mapping and Unicode spaces are not modelled.
- Text.LexLess: compares strings by code point, not by the UTF-16 code units JavaScript's `<` and `sort()` use. The two orders agree unless a character above U+FFFF meets one in U+E000–U+FFFF. JavaScript puts the first before the second, because its surrogate pair starts below U+E000; the model puts it after. `Seqs.SortStrings` and `Seqs.SortBy` inherit this.
- Runtime type tests: a recipe's type or cuisine held as an array, and ingredients that are not an array, are runtime shape checks. Type and cuisine are strings; a non-array ingredient field is `None`.
- Aliasing: Angular's `@Input` arrays are shared with the parent component, so `push` and `splice` in a child also change the parent's list. Each component here owns its lists as values.
- ShoppingListTab.GroupByStore: keyed by the store code rather than by the display name. By `StoreNameInjective` the grouping is the same, and the order of keys is insertion order either way.
- Seqs.SortBy: `Array.prototype.sort` is a library call, modelled as a stable insertion sort. Only its result is modelled, not the in-place update.
- Display-only code and emit-only handlers are not modelled: opening the edit or ingredient dialogs, tab switching, copying the list to the clipboard in the shopping-list dialogs, and console logging.
- The RxJS `BehaviorSubject` and zustand subscription machinery is replaced by explicit calls. The container's handler runs when the service's list changes.
