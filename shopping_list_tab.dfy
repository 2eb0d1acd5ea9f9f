/**
 * The React shopping-list tab: assigning a store to an entry, and the
 * "Shop!" text, which groups the entries by store (stores in order of first
 * appearance, under a `* Store *` header, each block followed by a blank
 * line), then lists the unassigned entries without a header, and trims the
 * whole text.
 */
module ShoppingListTab {
  import opened Wrappers
  import opened Text
  import opened Types
  import Seqs
  import SelectionStore

  // ---------------------------------------------------------------- specification

  /** The distinct assigned stores, in order of first appearance. */
  function StoreOrder(items: seq<SelectionItem>): (r: seq<Store>)
    ensures Seqs.NoDup(r)
    ensures forall s :: s in r <==> exists i :: 0 <= i < |items| && items[i].store == Some(s)
  {
    if |items| == 0 then []
    else
      var prev := StoreOrder(items[..|items| - 1]);
      var last := items[|items| - 1];
      assert forall i :: 0 <= i < |items| - 1 ==> items[..|items| - 1][i] == items[i];
      if last.store.Some? && last.store.value !in prev then prev + [last.store.value] else prev
  }

  /** The names assigned to `s`, in input order. */
  function GroupOf(items: seq<SelectionItem>, s: Store): seq<string> {
    if |items| == 0 then []
    else
      var prev := GroupOf(items[..|items| - 1], s);
      var last := items[|items| - 1];
      if last.store == Some(s) then prev + [last.name] else prev
  }

  /** The names with no store, in input order. */
  function Unassigned(items: seq<SelectionItem>): seq<string> {
    if |items| == 0 then []
    else
      var prev := Unassigned(items[..|items| - 1]);
      var last := items[|items| - 1];
      if last.store.None? then prev + [last.name] else prev
  }

  /** Each name on its own line. */
  function Lines(names: seq<string>): string {
    if |names| == 0 then "" else Lines(names[..|names| - 1]) + names[|names| - 1] + "\n"
  }

  function Header(s: Store): string {
    "* " + StoreName(s) + " *\n"
  }

  /** The block for one store: header, one line per name, blank line. */
  function Block(items: seq<SelectionItem>, s: Store): string {
    Header(s) + Lines(GroupOf(items, s)) + "\n"
  }

  function Blocks(items: seq<SelectionItem>, order: seq<Store>): string {
    if |order| == 0 then "" else Blocks(items, order[..|order| - 1]) + Block(items, order[|order| - 1])
  }

  /** The text before trimming. */
  function RawList(items: seq<SelectionItem>): string {
    Blocks(items, StoreOrder(items)) + Lines(Unassigned(items))
  }

  /** The text the tab shows and copies. */
  function ShoppingList(items: seq<SelectionItem>): (r: string)
    ensures IsTrimmed(r)
  {
    Trim(RawList(items))
  }

  // ---------------------------------------------------------------- the component

  /** `selectStore(item, store)` assigns `store` to the entries spelled like `item`. */
  function SelectStore(items: seq<SelectionItem>, item: SelectionItem, store: Store): (r: seq<SelectionItem>)
    ensures |r| == |items|
    ensures forall i :: 0 <= i < |r| && items[i].name == item.name ==> r[i] == SelectionItem(item.name, Some(store))
    ensures forall i :: 0 <= i < |r| && items[i].name != item.name ==> r[i] == items[i]
  {
    SelectionStore.SetStore(items, item.name, store)
  }

  /**
   * The first loop of `generateShoppingList`: the per-store groups and the
   * unassigned names. The source keys the groups by display name; since
   * `StoreName` is one-to-one (`StoreNameInjective`) they are keyed here by
   * store code, and `keys` is the key order of the source's object.
   */
  method GroupByStore(items: seq<SelectionItem>)
    returns (itemsByStore: map<Store, seq<string>>, keys: seq<Store>, noStoreItems: seq<string>)
    ensures keys == StoreOrder(items)
    ensures forall s :: s in keys ==> s in itemsByStore && itemsByStore[s] == GroupOf(items, s)
    ensures noStoreItems == Unassigned(items)
  {
    itemsByStore, keys, noStoreItems := map[], [], [];
    var i := 0;
    while i < |items|
      invariant 0 <= i <= |items|
      invariant keys == StoreOrder(items[..i])
      invariant forall s :: s in itemsByStore <==> s in keys
      invariant forall s :: s in keys ==> itemsByStore[s] == GroupOf(items[..i], s)
      invariant noStoreItems == Unassigned(items[..i])
    {
      var item := items[i];
      assert items[..i + 1][..i] == items[..i];
      if item.store.Some? {
        var store := item.store.value;
        if store !in itemsByStore {
          itemsByStore := itemsByStore[store := []];
          keys := keys + [store];
          GroupOfUnseen(items[..i], store);
        }
        itemsByStore := itemsByStore[store := itemsByStore[store] + [item.name]];
      } else {
        noStoreItems := noStoreItems + [item.name];
      }
      i := i + 1;
    }
    assert items[..|items|] == items;
  }

  /** Append one line per name, as the inner `forEach` loops do. */
  method AppendLines(text: string, names: seq<string>) returns (r: string)
    ensures r == text + Lines(names)
  {
    r := text;
    var k := 0;
    while k < |names|
      invariant 0 <= k <= |names|
      invariant r == text + Lines(names[..k])
    {
      assert names[..k + 1][..k] == names[..k];
      r := r + names[k] + "\n";
      k := k + 1;
    }
    assert names[..|names|] == names;
  }

  /** One store's block: the header line, its names (inner loop), the blank line. */
  method AppendBlock(text: string, store: Store, names: seq<string>) returns (r: string)
    ensures r == text + (Header(store) + Lines(names) + "\n")
  {
    r := AppendLines(text + Header(store), names);
    r := r + "\n";
  }

  /**
   * `generateShoppingList()`: fill the per-store groups and the unassigned
   * list, append each group's block in key order, append the unassigned
   * lines, trim, and open the modal.
   */
  method GenerateShoppingList(items: seq<SelectionItem>) returns (finalList: string, showModal: bool)
    ensures finalList == ShoppingList(items)
    ensures showModal
  {
    var itemsByStore, keys, noStoreItems := GroupByStore(items);
    var formattedList := "";
    var j := 0;
    while j < |keys|
      invariant 0 <= j <= |keys|
      invariant formattedList == Blocks(items, keys[..j])
    {
      var store := keys[j];
      formattedList := AppendBlock(formattedList, store, itemsByStore[store]);
      assert keys[..j + 1][..j] == keys[..j];
      j := j + 1;
    }
    assert keys[..|keys|] == keys;
    if |noStoreItems| > 0 {
      formattedList := AppendLines(formattedList, noStoreItems);
    } else {
      assert formattedList == formattedList + Lines(noStoreItems);
    }
    finalList := Trim(formattedList);
    showModal := true;
  }

  // ---------------------------------------------------------------- properties

  /** The names of the entries, in order. */
  function NamesOf(items: seq<SelectionItem>): seq<string> {
    seq(|items|, i requires 0 <= i < |items| => items[i].name)
  }

  lemma {:induction false} GroupOfUnseen(items: seq<SelectionItem>, s: Store)
    requires s !in StoreOrder(items)
    ensures GroupOf(items, s) == []
  {
    if |items| > 0 {
      GroupOfUnseen(items[..|items| - 1], s);
    }
  }

  lemma NamesOfAppend(a: seq<SelectionItem>, b: seq<SelectionItem>)
    ensures NamesOf(a + b) == NamesOf(a) + NamesOf(b)
  {
  }

  /** The entries assigned to `s`. */
  function AtStore(s: Store): SelectionItem -> bool {
    (x: SelectionItem) => x.store == Some(s)
  }

  /** The entries without a store. */
  function NoStore(): SelectionItem -> bool {
    (x: SelectionItem) => x.store == None
  }

  /** What the last entry adds to the names of a filter by `p`: its name when it passes, else nothing. */
  lemma NamesOfLast(last: SelectionItem, p: SelectionItem -> bool)
    ensures NamesOf(if p(last) then [last] else []) == if p(last) then [last.name] else []
  {
  }

  /** A store's group is the input filtered to that store: nothing reordered, nothing lost. */
  lemma {:induction false} GroupOfIsFilter(items: seq<SelectionItem>, s: Store)
    ensures GroupOf(items, s) == NamesOf(Seqs.Filter(items, AtStore(s)))
  {
    if |items| > 0 {
      var pre, last := items[..|items| - 1], items[|items| - 1];
      GroupOfIsFilter(pre, s);
      assert items == pre + [last];
      Seqs.FilterSnoc(pre, last, AtStore(s));
      NamesOfAppend(Seqs.Filter(pre, AtStore(s)), if AtStore(s)(last) then [last] else []);
      NamesOfLast(last, AtStore(s));
    }
  }

  /** The unassigned lines are the input filtered to entries without a store. */
  lemma {:induction false} UnassignedIsFilter(items: seq<SelectionItem>)
    ensures Unassigned(items) == NamesOf(Seqs.Filter(items, NoStore()))
  {
    if |items| > 0 {
      var pre, last := items[..|items| - 1], items[|items| - 1];
      UnassignedIsFilter(pre);
      assert items == pre + [last];
      Seqs.FilterSnoc(pre, last, NoStore());
      NamesOfAppend(Seqs.Filter(pre, NoStore()), if NoStore()(last) then [last] else []);
      NamesOfLast(last, NoStore());
    }
  }

  /** The stores whose blocks appear, in block order, are those of the entries with the repeats removed. */
  lemma {:induction false} StoreOrderIsDistinct(items: seq<SelectionItem>)
    ensures StoreOrder(items) == Seqs.Distinct(AssignedStores(items))
  {
    if |items| > 0 {
      var prefix := items[..|items| - 1];
      StoreOrderIsDistinct(prefix);
      var last := items[|items| - 1];
      assert AssignedStores(items) == AssignedStores(prefix) + (if last.store.Some? then [last.store.value] else []);
      if last.store.Some? {
        var a := AssignedStores(items);
        assert a[..|a| - 1] == AssignedStores(prefix);
      } else {
        assert AssignedStores(items) == AssignedStores(prefix);
      }
    }
  }

  /** The store of each assigned entry, in input order. */
  function AssignedStores(items: seq<SelectionItem>): seq<Store> {
    if |items| == 0 then []
    else
      var prev := AssignedStores(items[..|items| - 1]);
      var last := items[|items| - 1];
      if last.store.Some? then prev + [last.store.value] else prev
  }

  /** Every assigned entry is listed in the block of its store. */
  lemma {:induction false} AssignedEntryListed(items: seq<SelectionItem>, i: nat)
    requires i < |items| && items[i].store.Some?
    ensures items[i].store.value in StoreOrder(items)
    ensures items[i].name in GroupOf(items, items[i].store.value)
  {
    var s := items[i].store.value;
    GroupOfIsFilter(items, s);
    var f := Seqs.Filter(items, AtStore(s));
    assert items[i] in f;
    var k :| 0 <= k < |f| && f[k] == items[i];
    assert NamesOf(f)[k] == items[i].name;
  }

  /** Every unassigned entry is listed after the blocks. */
  lemma AssignedEntryUnlisted(items: seq<SelectionItem>, i: nat)
    requires i < |items| && items[i].store.None?
    ensures items[i].name in Unassigned(items)
  {
    UnassignedIsFilter(items);
    var f := Seqs.Filter(items, NoStore());
    assert items[i] in f;
    var k :| 0 <= k < |f| && f[k] == items[i];
    assert NamesOf(f)[k] == items[i].name;
  }

  /** No entries: the empty text. */
  lemma EmptyList()
    ensures ShoppingList([]) == ""
  {
  }

  /** The entries of the worked example: Milk at Meijer, Eggs unassigned, Bread at Meijer. */
  function ExampleItems(): seq<SelectionItem> {
    [SelectionItem("Milk", Some(M)), SelectionItem("Eggs", None), SelectionItem("Bread", Some(M))]
  }

  lemma ExampleGroups()
    ensures StoreOrder(ExampleItems()) == [M]
    ensures GroupOf(ExampleItems(), M) == ["Milk", "Bread"]
    ensures Unassigned(ExampleItems()) == ["Eggs"]
  {
    var items := ExampleItems();
    var a1, a2 := items[..1], items[..2];
    assert a2[..1] == a1 && items[..2] == a2 && a1[..0] == [];
    assert StoreOrder(a1) == [M] && GroupOf(a1, M) == ["Milk"] && Unassigned(a1) == [];
    assert StoreOrder(a2) == [M] && GroupOf(a2, M) == ["Milk"] && Unassigned(a2) == ["Eggs"];
  }

  lemma ExampleLines()
    ensures Lines(["Milk", "Bread"]) == "Milk\nBread\n"
    ensures Lines(["Eggs"]) == "Eggs\n"
  {
    assert ["Milk", "Bread"][..1] == ["Milk"];
  }

  lemma ExampleBlock()
    ensures Blocks(ExampleItems(), [M]) == "* Meijer *\nMilk\nBread\n\n"
  {
    ExampleMeijer();
    assert [M][..0] == [];
  }

  lemma ExampleMeijer()
    ensures Block(ExampleItems(), M) == "* Meijer *\nMilk\nBread\n\n"
  {
    ExampleGroups();
    ExampleLines();
    assert Header(M) == "* Meijer *\n";
  }

  lemma ExampleRaw()
    ensures RawList(ExampleItems()) == "* Meijer *\nMilk\nBread\n\nEggs\n"
  {
    ExampleGroups();
    ExampleLines();
    ExampleBlock();
  }

  lemma ExampleTrim()
    ensures Trim("* Meijer *\nMilk\nBread\n\nEggs\n") == "* Meijer *\nMilk\nBread\n\nEggs"
  {
    var text := "* Meijer *\nMilk\nBread\n\nEggs";
    assert text[0] == '*' && text[|text| - 1] == 's';
    TrimDropsTrailingSpace(text, '\n');
    assert text + "\n" == "* Meijer *\nMilk\nBread\n\nEggs\n";
  }

  /** The worked example: one Meijer block, then Eggs without a header. */
  lemma ExampleList()
    ensures ShoppingList(ExampleItems()) == "* Meijer *\nMilk\nBread\n\nEggs"
  {
    ExampleRaw();
    ExampleTrim();
  }
}
