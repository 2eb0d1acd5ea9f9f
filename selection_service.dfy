/**
 * The Angular `SelectionService`: the shopping-list working set held in a
 * subject that every method replaces. Each method is proved to leave exactly
 * the list the corresponding store reducer computes.
 */
module Selection {
  import opened Wrappers
  import opened Types
  import S = SelectionStore

  class SelectionService {
    /** The current value of the items subject. */
    var items: seq<SelectionItem>

    /** Names stay unique case-insensitively. */
    ghost predicate Valid()
      reads this
    {
      S.UniqueNames(items)
    }

    /** The subject starts with an empty list. */
    constructor ()
      ensures Valid()
      ensures items == S.Initial
    {
      items := [];
    }

    /** `getItems()`: the current list, whose names are unique. */
    function GetItems(): (r: seq<SelectionItem>)
      reads this
      requires Valid()
      ensures S.UniqueNames(r)
      ensures forall name :: S.HasName(r, name) <==> S.HasName(items, name)
    {
      items
    }

    /** `addItem(name)`. */
    method AddItem(name: string)
      requires Valid()
      modifies this
      ensures Valid()
      ensures items == S.AddItem(old(items), name)
      ensures S.HasName(old(items), name) ==> items == old(items)
      ensures !S.HasName(old(items), name) ==> items == old(items) + [SelectionItem(name, None)]
    {
      var present := S.HasName(items, name);
      if !present {
        items := items + [SelectionItem(name, None)];
      }
    }

    /** `addItems(names)`: collect the new batch, then publish once if it is not empty. */
    method AddItems(names: seq<string>)
      requires Valid()
      modifies this
      ensures Valid()
      ensures items == old(items) + S.NewItems(old(items), names)
    {
      var current := items;
      var newItems: seq<SelectionItem> := [];
      var i := 0;
      while i < |names|
        invariant 0 <= i <= |names|
        invariant newItems == S.NewItems(current, names[..i])
      {
        var name := names[i];
        assert names[..i + 1][..i] == names[..i];
        var present := S.HasName(current, name) || S.HasName(newItems, name);
        if !present {
          newItems := newItems + [SelectionItem(name, None)];
        }
        i := i + 1;
      }
      assert names[..|names|] == names;
      if |newItems| > 0 {
        items := current + newItems;
      }
    }

    /** `removeItem(name)`: exact-name delete. */
    method RemoveItem(name: string)
      requires Valid()
      modifies this
      ensures Valid()
      ensures items == S.RemoveItem(old(items), name)
    {
      items := S.RemoveItem(items, name);
    }

    /** `setStore(name, store)`: exact-name update of the store field. */
    method SetStore(name: string, store: Store)
      requires Valid()
      modifies this
      ensures Valid()
      ensures items == S.SetStore(old(items), name, store)
    {
      items := S.SetStore(items, name, store);
    }

    /** `clearAll()`. */
    method ClearAll()
      modifies this
      ensures Valid()
      ensures items == []
    {
      items := [];
    }
  }
}
