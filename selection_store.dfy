/**
 * The shopping-list working set of the React front ends: the zustand store's
 * item list and its reducers. Each reducer maps the current item list to the
 * next one; `AddItems` builds its batch with a loop, as the store does.
 * The Angular `SelectionService` is proved against these same reducers.
 */
module SelectionStore {
  import opened Wrappers
  import opened Text
  import opened Types
  import Seqs

  // ---------------------------------------------------------------- invariant

  /** No two entries have names that are equal under `toLowerCase`. */
  predicate UniqueNames(items: seq<SelectionItem>) {
    forall i, j :: 0 <= i < j < |items| ==> Lower(items[i].name) != Lower(items[j].name)
  }

  /** Some entry's name equals `name` case-insensitively. */
  predicate HasName(items: seq<SelectionItem>, name: string) {
    exists i :: 0 <= i < |items| && Lower(items[i].name) == Lower(name)
  }

  /** Some entry's name equals `name` exactly. */
  predicate HasExactName(items: seq<SelectionItem>, name: string) {
    exists i :: 0 <= i < |items| && items[i].name == name
  }

  lemma HasNameAppend(a: seq<SelectionItem>, b: seq<SelectionItem>, name: string)
    ensures HasName(a + b, name) <==> HasName(a, name) || HasName(b, name)
  {
    if HasName(a + b, name) {
      var i :| 0 <= i < |a + b| && Lower((a + b)[i].name) == Lower(name);
      if i >= |a| { assert b[i - |a|] == (a + b)[i]; }
    }
    if HasName(a, name) {
      var i :| 0 <= i < |a| && Lower(a[i].name) == Lower(name);
      assert (a + b)[i] == a[i];
    }
    if HasName(b, name) {
      var i :| 0 <= i < |b| && Lower(b[i].name) == Lower(name);
      assert (a + b)[|a| + i] == b[i];
    }
  }

  lemma UniqueNamesAppend(items: seq<SelectionItem>, item: SelectionItem)
    requires UniqueNames(items) && !HasName(items, item.name)
    ensures UniqueNames(items + [item])
  {
  }

  /** Keeping some entries in their order keeps the names unique. */
  lemma {:induction false} UniqueNamesSubseq(a: seq<SelectionItem>, b: seq<SelectionItem>)
    requires Seqs.IsSubseq(a, b) && UniqueNames(b)
    ensures UniqueNames(a)
    ensures forall x :: x in a ==> x in b
    decreases |b|
  {
    if a != [] && b != [] {
      if a[0] == b[0] && Seqs.IsSubseq(a[1..], b[1..]) {
        UniqueNamesSubseq(a[1..], b[1..]);
        assert a == [a[0]] + a[1..];
        forall i, j | 0 <= i < j < |a| ensures Lower(a[i].name) != Lower(a[j].name) {
          if i == 0 {
            assert a[j] in b[1..];
            var k :| 0 <= k < |b[1..]| && b[1..][k] == a[j];
            assert b[k + 1] == a[j];
          } else {
            assert a[i] == a[1..][i - 1] && a[j] == a[1..][j - 1];
          }
        }
      } else {
        UniqueNamesSubseq(a, b[1..]);
      }
    }
  }

  lemma SubseqKeepsUnique(a: seq<SelectionItem>, b: seq<SelectionItem>)
    requires Seqs.IsSubseq(a, b)
    ensures UniqueNames(b) ==> UniqueNames(a)
  {
    if UniqueNames(b) { UniqueNamesSubseq(a, b); }
  }

  // ---------------------------------------------------------------- reducers

  /** The store starts with no items. */
  const Initial: seq<SelectionItem> := []

  /**
   * `addItem(name)`: the name is appended, unassigned and spelled as given,
   * unless some entry already has it case-insensitively; existing entries
   * never change.
   */
  function AddItem(items: seq<SelectionItem>, name: string): (r: seq<SelectionItem>)
    ensures HasName(r, name)
    ensures |items| <= |r| && r[..|items|] == items
    ensures |r| == |items| + 1 <==> !HasName(items, name)
    ensures |r| > |items| ==> r[|items|] == SelectionItem(name, None)
    ensures UniqueNames(items) ==> UniqueNames(r)
  {
    if HasName(items, name) then items
    else
      var r := items + [SelectionItem(name, None)];
      assert Lower(r[|items|].name) == Lower(name);
      r
  }

  /**
   * The batch `addItems(names)` appends: each name not present
   * case-insensitively in `items` nor earlier in the batch, in input order,
   * unassigned.
   */
  function NewItems(items: seq<SelectionItem>, names: seq<string>): (r: seq<SelectionItem>)
    ensures |r| <= |names|
    ensures forall k :: 0 <= k < |r| ==> r[k].store == None && r[k].name in names && !HasName(items, r[k].name)
    ensures UniqueNames(items) ==> UniqueNames(items + r)
  {
    if |names| == 0 then []
    else
      var prev := NewItems(items, names[..|names| - 1]);
      var name := names[|names| - 1];
      if HasName(items, name) || HasName(prev, name) then prev
      else
        HasNameAppend(items, prev, name);
        assert items + (prev + [SelectionItem(name, None)]) == (items + prev) + [SelectionItem(name, None)];
        prev + [SelectionItem(name, None)]
  }

  /**
   * `addItems` walks the batch in input order: one more name at the end
   * either appends that name, unassigned and spelled as given, or (when it
   * is already present in the list or earlier in the batch) changes nothing.
   */
  lemma NewItemsSnoc(items: seq<SelectionItem>, names: seq<string>, n: string)
    ensures NewItems(items, names + [n]) ==
      if HasName(items, n) || HasName(NewItems(items, names), n) then NewItems(items, names)
      else NewItems(items, names) + [SelectionItem(n, None)]
  {
    assert (names + [n])[..|names|] == names;
  }

  /**
   * The first spelling wins: a name missing from the list whose lower-case
   * form does not occur earlier in the batch is added exactly as spelled.
   */
  lemma {:induction false} NewItemsFirstSpelling(items: seq<SelectionItem>, names: seq<string>, k: nat)
    requires k < |names| && !HasName(items, names[k])
    requires forall j :: 0 <= j < k ==> Lower(names[j]) != Lower(names[k])
    ensures SelectionItem(names[k], None) in NewItems(items, names)
    decreases |names|
  {
    var front := names[..|names| - 1];
    var prev := NewItems(items, front);
    if k < |names| - 1 {
      NewItemsFirstSpelling(items, front, k);
    } else {
      forall i | 0 <= i < |prev| ensures Lower(prev[i].name) != Lower(names[k]) {
        var j :| 0 <= j < |front| && front[j] == prev[i].name;
      }
      assert NewItems(items, names) == prev + [SelectionItem(names[k], None)];
    }
  }

  /** After `addItems`, every requested name is present case-insensitively. */
  lemma {:induction false} NewItemsCover(items: seq<SelectionItem>, names: seq<string>, k: nat)
    requires k < |names|
    ensures HasName(items + NewItems(items, names), names[k])
    decreases |names|
  {
    var prev := NewItems(items, names[..|names| - 1]);
    var name := names[|names| - 1];
    if k < |names| - 1 {
      NewItemsCover(items, names[..|names| - 1], k);
      HasNameAppend(items, prev, names[k]);
      HasNameAppend(items, NewItems(items, names), names[k]);
      HasNameAppend(prev, [SelectionItem(name, None)], names[k]);
    } else {
      HasNameAppend(items, prev, name);
      HasNameAppend(items, NewItems(items, names), name);
      HasNameAppend(prev, [SelectionItem(name, None)], name);
      assert Lower([SelectionItem(name, None)][0].name) == Lower(name);
    }
  }

  /** `addItems` leaves the list as it was exactly when every name is already present. */
  lemma NewItemsEmptyIff(items: seq<SelectionItem>, names: seq<string>)
    ensures NewItems(items, names) == [] <==> forall k :: 0 <= k < |names| ==> HasName(items, names[k])
  {
    if NewItems(items, names) == [] {
      forall k | 0 <= k < |names| ensures HasName(items, names[k]) {
        NewItemsCover(items, names, k);
        assert items + [] == items;
      }
    }
  }

  /**
   * `addItems(names)`: the loop collecting the new batch, then one update
   * (the state stays as it was when the batch is empty).
   */
  method AddItems(items: seq<SelectionItem>, names: seq<string>) returns (next: seq<SelectionItem>)
    ensures next == items + NewItems(items, names)
    ensures UniqueNames(items) ==> UniqueNames(next)
  {
    var newItems: seq<SelectionItem> := [];
    var i := 0;
    while i < |names|
      invariant 0 <= i <= |names|
      invariant newItems == NewItems(items, names[..i])
    {
      var name := names[i];
      assert names[..i + 1][..i] == names[..i];
      var present := HasName(items, name) || HasName(newItems, name);
      if !present {
        newItems := newItems + [SelectionItem(name, None)];
      }
      i := i + 1;
    }
    assert names[..|names|] == names;
    if |newItems| > 0 {
      next := items + newItems;
    } else {
      next := items;
    }
  }

  /** `removeItem(name)`: drops every entry spelled exactly `name`, keeping the others in order. */
  function RemoveItem(items: seq<SelectionItem>, name: string): (r: seq<SelectionItem>)
    ensures forall x :: x in r <==> x in items && x.name != name
    ensures Seqs.IsSubseq(r, items)
    ensures !HasExactName(r, name)
    ensures UniqueNames(items) ==> UniqueNames(r)
  {
    var r := Seqs.Filter(items, (x: SelectionItem) => x.name != name);
    SubseqKeepsUnique(r, items);
    assert forall i :: 0 <= i < |r| ==> r[i] in r;
    r
  }

  /**
   * `setStore(name, store)`: the entries spelled exactly `name` get `store`;
   * nothing else changes.
   */
  function SetStore(items: seq<SelectionItem>, name: string, store: Store): (r: seq<SelectionItem>)
    ensures |r| == |items|
    ensures forall i :: 0 <= i < |r| ==> r[i].name == items[i].name
    ensures forall i :: 0 <= i < |r| ==> r[i].store == if items[i].name == name then Some(store) else items[i].store
    ensures UniqueNames(items) ==> UniqueNames(r)
  {
    seq(|items|, i requires 0 <= i < |items| =>
      if items[i].name == name then items[i].(store := Some(store)) else items[i])
  }

  /** `setStore` for a name no entry has changes nothing. */
  lemma SetStoreMissing(items: seq<SelectionItem>, name: string, store: Store)
    requires !HasExactName(items, name)
    ensures SetStore(items, name, store) == items
  {
    var r := SetStore(items, name, store);
    assert forall i :: 0 <= i < |items| ==> r[i] == items[i];
  }

  /** `clearAll()`: afterwards no name is present. */
  function ClearAll(items: seq<SelectionItem>): (r: seq<SelectionItem>)
    ensures UniqueNames(r)
    ensures forall name :: !HasName(r, name)
  {
    []
  }

  // ---------------------------------------------------------------- reachability

  /** One call into the store. */
  datatype Action =
    | AddOne(name: string)
    | AddMany(names: seq<string>)
    | Remove(name: string)
    | Assign(name: string, store: Store)
    | Clear

  function Apply(items: seq<SelectionItem>, a: Action): seq<SelectionItem> {
    match a
    case AddOne(name) => AddItem(items, name)
    case AddMany(names) => items + NewItems(items, names)
    case Remove(name) => RemoveItem(items, name)
    case Assign(name, store) => SetStore(items, name, store)
    case Clear => ClearAll(items)
  }

  /** The item list after running `actions` from the initial state. */
  function Run(actions: seq<Action>): seq<SelectionItem> {
    if |actions| == 0 then Initial
    else Apply(Run(actions[..|actions| - 1]), actions[|actions| - 1])
  }

  /** Every reachable item list has case-insensitively unique names. */
  lemma {:induction false} RunUniqueNames(actions: seq<Action>)
    ensures UniqueNames(Run(actions))
  {
    if |actions| > 0 {
      RunUniqueNames(actions[..|actions| - 1]);
    }
  }
}
