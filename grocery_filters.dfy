/**
 * Grocery filtering shared by the React groceries tab and the Angular
 * grocery table: a case-insensitive search over name and type, then an
 * exact match of the selected type, whose dropdown offers lower-case values.
 */
module GroceryFilters {
  import opened Text
  import opened Types
  import opened Seqs

  /** The lower-cased term occurs in the lower-cased name or type. */
  predicate MatchesSearch(g: GroceryItem, term: string) {
    var search := Lower(term);
    Contains(Lower(g.name), search) || Contains(Lower(g.groceryType), search)
  }

  /** The search box and the type dropdown; `""` means not set. */
  datatype GroceryCriteria = GroceryCriteria(searchTerm: string, selectedType: string)

  const NoCriteria := GroceryCriteria("", "")

  /** A grocery passes every filter that is set. */
  predicate Keeps(c: GroceryCriteria, g: GroceryItem) {
    (c.searchTerm == "" || MatchesSearch(g, c.searchTerm)) &&
    (c.selectedType == "" || g.groceryType == c.selectedType)
  }

  function SearchTest(term: string): GroceryItem -> bool {
    (g: GroceryItem) => MatchesSearch(g, term)
  }

  function TypeTest(wanted: string): GroceryItem -> bool {
    (g: GroceryItem) => g.groceryType == wanted
  }

  /** The two filters of `applyFilters`, each applied only when its criterion is set. */
  function FilterSteps(groceries: seq<GroceryItem>, c: GroceryCriteria): (filtered: seq<GroceryItem>)
    ensures forall g :: g in filtered <==> g in groceries && Keeps(c, g)
    ensures |filtered| <= |groceries|
  {
    var afterSearch := if c.searchTerm != "" then Filter(groceries, SearchTest(c.searchTerm)) else groceries;
    if c.selectedType != "" then Filter(afterSearch, TypeTest(c.selectedType)) else afterSearch
  }

  /** The two steps are one filter by `Keeps`: order is kept and nothing is duplicated. */
  lemma FilterStepsIsOneFilter(groceries: seq<GroceryItem>, c: GroceryCriteria)
    ensures FilterSteps(groceries, c) == Filter(groceries, (g: GroceryItem) => Keeps(c, g))
    ensures IsSubseq(FilterSteps(groceries, c), groceries)
  {
    var search := (g: GroceryItem) => c.searchTerm == "" || MatchesSearch(g, c.searchTerm);
    var byType := (g: GroceryItem) => c.selectedType == "" || g.groceryType == c.selectedType;
    GuardedFilter(groceries, c.searchTerm != "", SearchTest(c.searchTerm), search);
    var s1 := Filter(groceries, search);
    GuardedFilter(s1, c.selectedType != "", TypeTest(c.selectedType), byType);
    FilterThen(groceries, search, byType, (g: GroceryItem) => Keeps(c, g));
  }

  /** With no criterion set every grocery is shown, in its original order. */
  lemma NoCriteriaKeepsAll(groceries: seq<GroceryItem>)
    ensures FilterSteps(groceries, NoCriteria) == groceries
  {
  }

  /** Selecting a type shows exactly the groceries stored with that type, nothing else. */
  lemma TypeFilterExact(groceries: seq<GroceryItem>, t: string)
    requires t != ""
    ensures forall g :: g in FilterSteps(groceries, GroceryCriteria("", t)) <==> g in groceries && g.groceryType == t
  {
  }

  /** An option of a type dropdown: the name shown and the value selected. */
  datatype TypeOption = TypeOption(name: string, value: string)

  /** `types.map(t => ({ label: t, value: t.toLowerCase() }))`. */
  function LoweredOptions(types: seq<string>): (options: seq<TypeOption>)
    ensures |options| == |types|
    ensures forall i :: 0 <= i < |types| ==> options[i].name == types[i]
    ensures forall i :: 0 <= i < |types| ==> IsLowerCase(options[i].value) && EqualsIgnoreCase(options[i].value, types[i])
  {
    var options := seq(|types|, i requires 0 <= i < |types| => TypeOption(types[i], Lower(types[i])));
    forall i | 0 <= i < |types| ensures EqualsIgnoreCase(options[i].value, types[i]) {
      LowerIdempotent(types[i]);
    }
    options
  }
}
