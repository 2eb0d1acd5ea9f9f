/**
 * Recipe filtering shared by the React recipes tab and the Angular recipe
 * table: a case-insensitive search over name, type and cuisine, an exact
 * match of a selected type or cuisine against the comma-separated, trimmed
 * parts of the field, and the dropdown options gathered from those parts.
 */
module RecipeFilters {
  import opened Text
  import opened Types
  import opened Seqs

  // ---------------------------------------------------------------- parts

  /** `value.split(',').map(t => t.trim())`. */
  function Parts(value: string): (parts: seq<string>)
    ensures |parts| >= 1
    ensures forall k :: 0 <= k < |parts| ==> IsTrimmed(parts[k])
  {
    var pieces := Split(value, ',');
    seq(|pieces|, k requires 0 <= k < |pieces| => Trim(pieces[k]))
  }

  /** The test the type and cuisine filters apply: a non-empty field with `wanted` among its parts. */
  predicate HasPart(value: string, wanted: string) {
    value != "" && wanted in Parts(value)
  }

  /** A value with whitespace at either end is never one of the parts. */
  lemma UntrimmedNeverMatches(value: string, wanted: string)
    requires !IsTrimmed(wanted)
    ensures !HasPart(value, wanted)
  {
  }

  // ---------------------------------------------------------------- filters

  /** The lower-cased term occurs in the lower-cased name, type or cuisine. */
  predicate MatchesSearch(r: Recipe, term: string) {
    var search := Lower(term);
    Contains(Lower(r.name), search) || Contains(Lower(r.recipeType), search) ||
    Contains(Lower(r.cuisine), search)
  }

  /** The search box, the type dropdown and the cuisine dropdown; `""` means not set. */
  datatype Criteria = Criteria(searchTerm: string, selectedType: string, selectedCuisine: string)

  const NoCriteria := Criteria("", "", "")

  /** A recipe passes every filter that is set. */
  predicate Keeps(c: Criteria, r: Recipe) {
    (c.searchTerm == "" || MatchesSearch(r, c.searchTerm)) &&
    (c.selectedType == "" || HasPart(r.recipeType, c.selectedType)) &&
    (c.selectedCuisine == "" || HasPart(r.cuisine, c.selectedCuisine))
  }

  function SearchTest(term: string): Recipe -> bool {
    (r: Recipe) => MatchesSearch(r, term)
  }

  function TypeTest(wanted: string): Recipe -> bool {
    (r: Recipe) => HasPart(r.recipeType, wanted)
  }

  function CuisineTest(wanted: string): Recipe -> bool {
    (r: Recipe) => HasPart(r.cuisine, wanted)
  }

  /** The three filters of `applyFilters`, each applied only when its criterion is set. */
  function FilterSteps(recipes: seq<Recipe>, c: Criteria): (filtered: seq<Recipe>)
    ensures forall r :: r in filtered <==> r in recipes && Keeps(c, r)
    ensures |filtered| <= |recipes|
  {
    var afterSearch := if c.searchTerm != "" then Filter(recipes, SearchTest(c.searchTerm)) else recipes;
    var afterType := if c.selectedType != "" then Filter(afterSearch, TypeTest(c.selectedType)) else afterSearch;
    if c.selectedCuisine != "" then Filter(afterType, CuisineTest(c.selectedCuisine)) else afterType
  }

  /** Each criterion as a test that passes everything when the criterion is not set. */
  function SearchGate(c: Criteria): Recipe -> bool {
    (r: Recipe) => c.searchTerm == "" || MatchesSearch(r, c.searchTerm)
  }

  function TypeGate(c: Criteria): Recipe -> bool {
    (r: Recipe) => c.selectedType == "" || HasPart(r.recipeType, c.selectedType)
  }

  function CuisineGate(c: Criteria): Recipe -> bool {
    (r: Recipe) => c.selectedCuisine == "" || HasPart(r.cuisine, c.selectedCuisine)
  }

  function SearchAndType(c: Criteria): Recipe -> bool {
    (r: Recipe) => SearchGate(c)(r) && TypeGate(c)(r)
  }

  /** The search step and the type step together are one filter. */
  lemma FirstTwoSteps(recipes: seq<Recipe>, c: Criteria)
    ensures (var afterSearch := if c.searchTerm != "" then Filter(recipes, SearchTest(c.searchTerm)) else recipes;
             if c.selectedType != "" then Filter(afterSearch, TypeTest(c.selectedType)) else afterSearch)
            == Filter(recipes, SearchAndType(c))
  {
    GuardedFilter(recipes, c.searchTerm != "", SearchTest(c.searchTerm), SearchGate(c));
    GuardedFilter(Filter(recipes, SearchGate(c)), c.selectedType != "", TypeTest(c.selectedType), TypeGate(c));
    FilterThen(recipes, SearchGate(c), TypeGate(c), SearchAndType(c));
  }

  /** The three steps are one filter by `Keeps`: order is kept and nothing is duplicated. */
  lemma FilterStepsIsOneFilter(recipes: seq<Recipe>, c: Criteria)
    ensures FilterSteps(recipes, c) == Filter(recipes, (r: Recipe) => Keeps(c, r))
    ensures IsSubseq(FilterSteps(recipes, c), recipes)
  {
    FirstTwoSteps(recipes, c);
    var s2 := Filter(recipes, SearchAndType(c));
    GuardedFilter(s2, c.selectedCuisine != "", CuisineTest(c.selectedCuisine), CuisineGate(c));
    forall r: Recipe
      ensures Keeps(c, r) == (SearchAndType(c)(r) && CuisineGate(c)(r))
    {
      assert SearchAndType(c)(r) == (SearchGate(c)(r) && TypeGate(c)(r));
    }
    FilterThen(recipes, SearchAndType(c), CuisineGate(c), (r: Recipe) => Keeps(c, r));
  }

  /** With no criterion set every recipe is shown, in its original order. */
  lemma NoCriteriaKeepsAll(recipes: seq<Recipe>)
    ensures FilterSteps(recipes, NoCriteria) == recipes
  {
  }

  /** The search ignores the case of the term. */
  lemma SearchIgnoresCase(r: Recipe, term: string)
    ensures MatchesSearch(r, term) == MatchesSearch(r, Lower(term))
  {
    LowerIdempotent(term);
  }

  // ---------------------------------------------------------------- dropdown options

  /** The parts a non-empty field contributes to its dropdown, empty parts dropped when asked. */
  function Contributed(value: string, dropEmpty: bool): seq<string> {
    if value == "" then []
    else if dropEmpty then Filter(Parts(value), (t: string) => t != "")
    else Parts(value)
  }

  lemma ContributedIff(value: string, dropEmpty: bool, x: string)
    ensures x in Contributed(value, dropEmpty) <==> value != "" && x in Parts(value) && (dropEmpty ==> x != "")
  {
  }

  function ContributedBy(dropEmpty: bool): string -> seq<string> {
    (value: string) => Contributed(value, dropEmpty)
  }

  /** Every part contributed by the fields, in order, repeats included. */
  function AllParts(values: seq<string>, dropEmpty: bool): seq<string> {
    FlatMap(values, ContributedBy(dropEmpty))
  }

  /** A part is gathered exactly when some field contributes it. */
  lemma AllPartsIff(values: seq<string>, dropEmpty: bool, x: string)
    ensures x in AllParts(values, dropEmpty) <==>
      exists i :: 0 <= i < |values| && x in Contributed(values[i], dropEmpty)
  {
    FlatMapIff(values, ContributedBy(dropEmpty), x);
  }

  /** `Array.from(set).sort()` over the parts: each part once, in strictly increasing order. */
  function Options(values: seq<string>, dropEmpty: bool): (options: seq<string>)
    ensures NoDup(options)
    ensures forall i :: 0 < i < |options| ==> LexLess(options[i - 1], options[i])
    ensures forall x :: x in options <==> x in AllParts(values, dropEmpty)
  {
    var d := Distinct(AllParts(values, dropEmpty));
    SortStringsStrict(d);
    var options := SortStrings(d);
    SameMembers(d, options);
    options
  }

  /** Each option is trimmed, holds no comma, and is non-empty when empty parts are dropped. */
  lemma OptionsWellFormed(values: seq<string>, dropEmpty: bool, x: string)
    requires x in Options(values, dropEmpty)
    ensures IsTrimmed(x) && ',' !in x
    ensures dropEmpty ==> x != ""
  {
    AllPartsIff(values, dropEmpty, x);
    var i :| 0 <= i < |values| && x in Contributed(values[i], dropEmpty);
    ContributedIff(values[i], dropEmpty, x);
    var parts := Parts(values[i]);
    var k :| 0 <= k < |parts| && parts[k] == x;
    var piece := Split(values[i], ',')[k];
    TrimIsSlice(piece);
  }

  lemma TrimIsSlice(s: string)
    ensures ',' in Trim(s) ==> ',' in s
  {
    var t := TrimStart(s);
    var r := TrimEnd(t);
    if ',' in r {
      var k :| 0 <= k < |r| && r[k] == ',';
      assert r[k] == t[k];
      assert t[k] == s[|s| - |t| + k];
    }
  }

  /** `recipes.map(r => r.type)`. */
  function TypesOf(recipes: seq<Recipe>): (values: seq<string>)
    ensures |values| == |recipes|
    ensures forall i :: 0 <= i < |recipes| ==> values[i] == recipes[i].recipeType
  {
    seq(|recipes|, i requires 0 <= i < |recipes| => recipes[i].recipeType)
  }

  /** `recipes.map(r => r.cuisine)`. */
  function CuisinesOf(recipes: seq<Recipe>): (values: seq<string>)
    ensures |values| == |recipes|
    ensures forall i :: 0 <= i < |recipes| ==> values[i] == recipes[i].cuisine
  {
    seq(|recipes|, i requires 0 <= i < |recipes| => recipes[i].cuisine)
  }

  /** A recipe that passes the criteria is on the filtered table. */
  lemma KeptIsShown(recipes: seq<Recipe>, c: Criteria, i: nat)
    requires i < |recipes| && Keeps(c, recipes[i])
    ensures exists r :: r in FilterSteps(recipes, c)
  {
    assert recipes[i] in FilterSteps(recipes, c);
  }

  /** Choosing a non-empty type option never empties the table: some recipe has that type. */
  lemma TypeOptionSelectsSomeRecipe(recipes: seq<Recipe>, dropEmpty: bool, x: string)
    requires x in Options(TypesOf(recipes), dropEmpty) && x != ""
    ensures exists r :: r in FilterSteps(recipes, Criteria("", x, ""))
  {
    AllPartsIff(TypesOf(recipes), dropEmpty, x);
    var i :| 0 <= i < |recipes| && x in Contributed(TypesOf(recipes)[i], dropEmpty);
    ContributedIff(TypesOf(recipes)[i], dropEmpty, x);
    assert HasPart(recipes[i].recipeType, x);
    KeptIsShown(recipes, Criteria("", x, ""), i);
  }

  /** Choosing a non-empty cuisine option never empties the table: some recipe has that cuisine. */
  lemma CuisineOptionSelectsSomeRecipe(recipes: seq<Recipe>, dropEmpty: bool, x: string)
    requires x in Options(CuisinesOf(recipes), dropEmpty) && x != ""
    ensures exists r :: r in FilterSteps(recipes, Criteria("", "", x))
  {
    AllPartsIff(CuisinesOf(recipes), dropEmpty, x);
    var i :| 0 <= i < |recipes| && x in Contributed(CuisinesOf(recipes)[i], dropEmpty);
    ContributedIff(CuisinesOf(recipes)[i], dropEmpty, x);
    assert HasPart(recipes[i].cuisine, x);
    KeptIsShown(recipes, Criteria("", "", x), i);
  }

  // ---------------------------------------------------------------- the Set-building loop

  /** `parts.forEach(p => set.add(p))` on a set kept in insertion order. */
  method AddAll(seen: seq<string>, parts: seq<string>, ghost acc: seq<string>) returns (next: seq<string>)
    requires seen == Distinct(acc)
    ensures next == Distinct(acc + parts)
  {
    next := seen;
    var j := 0;
    assert acc + parts[..0] == acc;
    while j < |parts|
      invariant 0 <= j <= |parts|
      invariant next == Distinct(acc + parts[..j])
    {
      ghost var before := acc + parts[..j];
      assert parts[..j + 1] == parts[..j] + [parts[j]];
      assert acc + parts[..j + 1] == before + [parts[j]];
      DistinctSnoc(before, parts[j]);
      if parts[j] !in next {
        next := next + [parts[j]];
      }
      j := j + 1;
    }
    assert parts[..j] == parts;
  }

  /** One more field adds its contributed parts at the end. */
  lemma AllPartsSnoc(values: seq<string>, i: nat, dropEmpty: bool)
    requires i < |values|
    ensures AllParts(values[..i + 1], dropEmpty) == AllParts(values[..i], dropEmpty) + Contributed(values[i], dropEmpty)
  {
    assert values[..i + 1][..i] == values[..i];
  }

  /** The `forEach` over the fields that fills the set, skipping empty fields. */
  method CollectParts(values: seq<string>, dropEmpty: bool) returns (seen: seq<string>)
    ensures seen == Distinct(AllParts(values, dropEmpty))
  {
    seen := [];
    var i := 0;
    while i < |values|
      invariant 0 <= i <= |values|
      invariant seen == Distinct(AllParts(values[..i], dropEmpty))
    {
      AllPartsSnoc(values, i, dropEmpty);
      seen := AddAll(seen, Contributed(values[i], dropEmpty), AllParts(values[..i], dropEmpty));
      i := i + 1;
    }
    assert values[..i] == values;
  }
}
