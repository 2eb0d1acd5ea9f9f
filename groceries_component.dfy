/**
 * The Angular groceries page: the grocery list and the selected groceries.
 * Network calls appear only as the state change made when they succeed.
 */
module GroceriesPage {
  import opened Types
  import opened Bookkeeping

  class GroceriesComponent {
    var groceries: seq<GroceryItem>
    var selectedGroceries: seq<GroceryItem>

    constructor()
      ensures groceries == [] && selectedGroceries == []
    {
      groceries := [];
      selectedGroceries := [];
    }

    /** `onGrocerySelected`: append the grocery unless its id is selected. */
    method OnGrocerySelected(grocery: GroceryItem)
      modifies this
      ensures selectedGroceries == AddGroceryIfAbsent(old(selectedGroceries), grocery)
      ensures groceries == old(groceries)
    {
      var present := HasGroceryId(selectedGroceries, grocery.id);
      if !present {
        selectedGroceries := selectedGroceries + [grocery];
      }
    }

    /** `onConfirmDelete` on success: the id leaves both lists. */
    method OnConfirmDelete(grocery: GroceryItem)
      modifies this
      ensures groceries == RemoveGroceriesById(old(groceries), grocery.id)
      ensures selectedGroceries == RemoveGroceriesById(old(selectedGroceries), grocery.id)
    {
      groceries := RemoveGroceriesById(groceries, grocery.id);
      selectedGroceries := RemoveGroceriesById(selectedGroceries, grocery.id);
    }

    /** `onItemAdded` on success: the record the service returned is pushed. */
    method OnItemAdded(added: GroceryItem)
      modifies this
      ensures groceries == old(groceries) + [added]
      ensures selectedGroceries == old(selectedGroceries)
    {
      groceries := groceries + [added];
    }
  }
}
