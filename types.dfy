/** The records the three front ends exchange with the recipe and grocery service. */
module Types {
  import opened Wrappers

  /**
   * A recipe. `ingredients` is `None` when the service sent something that is
   * not an array (every use site checks `Array.isArray`).
   */
  datatype Recipe = Recipe(
    id: string,
    name: string,
    recipeType: string,
    cuisine: string,
    lastEaten: string,
    ingredients: Option<seq<string>>,
    url: string)

  datatype GroceryItem = GroceryItem(id: string, name: string, groceryType: string)

  /** The fields of the add-grocery form, also the body of the add request. */
  datatype NewGrocery = NewGrocery(name: string, groceryType: string)

  /** The four store codes a shopping-list entry can be assigned to. */
  datatype Store = M | BJ | FT | P

  /** One entry of the shopping-list working set. */
  datatype SelectionItem = SelectionItem(name: string, store: Option<Store>)

  /** The display name of a store code. */
  function StoreName(s: Store): string {
    match s
    case M => "Meijer"
    case BJ => "BJ's"
    case FT => "Fresh Thyme"
    case P => "Papaya"
  }

  /** Different codes have different display names, so grouping by either is the same. */
  lemma StoreNameInjective(a: Store, b: Store)
    ensures StoreName(a) == StoreName(b) ==> a == b
  {
  }

  /** The grocery categories offered by the React grocery screens. */
  const GroceryTypes: seq<string> := [
    "Fruit", "Vegetable", "Meat", "Home Goods", "Grain", "Legume", "Nuts/Seeds",
    "Condiments", "Seafood", "Snacks", "Cereal", "Dessert", "Bread"]
}
