/**
 * The React recipes tab. Its state is the filter criteria and the sort
 * order; the effect that runs when the recipes or that state change
 * recomputes the dropdown options and the visible rows, which are the
 * filtered recipes sorted by name or by last-eaten date.
 */
module RecipesTab {
  import opened Text
  import opened Types
  import opened Seqs
  import opened RecipeFilters

  datatype Order = Asc | Desc

  datatype OrderBy = Name | LastEaten

  datatype TabState = TabState(criteria: Criteria, order: Order, orderBy: OrderBy)

  const InitialState := TabState(NoCriteria, Asc, Name)

  /** What the tab renders: the rows and the two dropdowns. */
  datatype View = View(filteredRecipes: seq<Recipe>, typeOptions: seq<string>, cuisineOptions: seq<string>)

  const InitialView := View([], [], [])

  /** `a[orderBy] || ''`. */
  function SortKey(orderBy: OrderBy): Recipe -> string {
    match orderBy
    case Name => (r: Recipe) => r.name
    case LastEaten => (r: Recipe) => r.lastEaten
  }

  /**
   * `applyFilters`: the recipes passing the filters, sorted by the chosen
   * column with JavaScript's string order, ascending or descending.
   */
  function ApplyFilters(recipes: seq<Recipe>, st: TabState): (shown: seq<Recipe>)
    ensures multiset(shown) == multiset(FilterSteps(recipes, st.criteria))
    ensures forall r :: r in shown <==> r in recipes && Keeps(st.criteria, r)
    ensures st.order == Asc ==> forall i :: 0 < i < |shown| ==>
      !LexLess(SortKey(st.orderBy)(shown[i]), SortKey(st.orderBy)(shown[i - 1]))
    ensures st.order == Desc ==> forall i :: 0 < i < |shown| ==>
      !LexLess(SortKey(st.orderBy)(shown[i - 1]), SortKey(st.orderBy)(shown[i]))
  {
    var filtered := FilterSteps(recipes, st.criteria);
    var shown := SortBy(filtered, SortKey(st.orderBy), st.order == Desc);
    assert forall r :: r in shown <==> r in multiset(shown);
    assert forall r :: r in filtered <==> r in multiset(filtered);
    shown
  }

  /**
   * `updateDropdownOptions`: each part of some recipe's type field, once and
   * sorted; here empty parts are offered too.
   */
  function TypeOptions(recipes: seq<Recipe>): (options: seq<string>)
    ensures forall x :: x in options <==>
      exists i :: 0 <= i < |recipes| && x in Contributed(recipes[i].recipeType, false)
    ensures NoDup(options)
    ensures forall x :: x in options ==> IsTrimmed(x)
    ensures forall i :: 0 < i < |options| ==> LexLess(options[i - 1], options[i])
  {
    var options := Options(TypesOf(recipes), false);
    forall x ensures x in options <==> exists i :: 0 <= i < |recipes| && x in Contributed(recipes[i].recipeType, false) {
      AllPartsIff(TypesOf(recipes), false, x);
    }
    forall x | x in options ensures IsTrimmed(x) {
      OptionsWellFormed(TypesOf(recipes), false, x);
    }
    options
  }

  /** The same for the cuisine dropdown. */
  function CuisineOptions(recipes: seq<Recipe>): (options: seq<string>)
    ensures forall x :: x in options <==>
      exists i :: 0 <= i < |recipes| && x in Contributed(recipes[i].cuisine, false)
    ensures NoDup(options)
    ensures forall x :: x in options ==> IsTrimmed(x)
    ensures forall i :: 0 < i < |options| ==> LexLess(options[i - 1], options[i])
  {
    var options := Options(CuisinesOf(recipes), false);
    forall x ensures x in options <==> exists i :: 0 <= i < |recipes| && x in Contributed(recipes[i].cuisine, false) {
      AllPartsIff(CuisinesOf(recipes), false, x);
    }
    forall x | x in options ensures IsTrimmed(x) {
      OptionsWellFormed(CuisinesOf(recipes), false, x);
    }
    options
  }

  /** The effect: with recipes, refresh options and rows; with none, clear the rows only. */
  function Refresh(recipes: seq<Recipe>, st: TabState, view: View): (next: View)
    ensures |recipes| == 0 ==> next == view.(filteredRecipes := [])
    ensures |recipes| > 0 ==>
      next.filteredRecipes == ApplyFilters(recipes, st) &&
      next.typeOptions == TypeOptions(recipes) && next.cuisineOptions == CuisineOptions(recipes)
  {
    if |recipes| > 0 then View(ApplyFilters(recipes, st), TypeOptions(recipes), CuisineOptions(recipes))
    else view.(filteredRecipes := [])
  }

  /**
   * A click on a column header: a new column sorts ascending, the current
   * column flips between ascending and descending.
   */
  function HandleRequestSort(st: TabState, property: OrderBy): (next: TabState)
    ensures next.orderBy == property && next.criteria == st.criteria
    ensures property != st.orderBy ==> next.order == Asc
    ensures property == st.orderBy ==> next.order != st.order
  {
    var isAsc := st.orderBy == property && st.order == Asc;
    st.(order := if isAsc then Desc else Asc, orderBy := property)
  }

  /** Two clicks on the same header come back to the same order. */
  lemma SortClickTwice(st: TabState, property: OrderBy)
    requires st.orderBy == property
    ensures HandleRequestSort(HandleRequestSort(st, property), property) == st
  {
  }

  /** `clearAllFilters` resets the three criteria and keeps the sort order. */
  function ClearAllFilters(st: TabState): (next: TabState)
    ensures next.criteria == NoCriteria
    ensures next.order == st.order && next.orderBy == st.orderBy
  {
    st.(criteria := NoCriteria)
  }

  /** After clearing the filters every recipe is shown exactly once, in the chosen order. */
  lemma ClearShowsAll(recipes: seq<Recipe>, st: TabState)
    ensures multiset(ApplyFilters(recipes, ClearAllFilters(st))) == multiset(recipes)
  {
    NoCriteriaKeepsAll(recipes);
  }

  /**
   * Unlike the Angular table, the React tab offers an empty type when a type
   * field ends with a comma.
   */
  lemma EmptyPartOffered()
    ensures "" in TypeOptions([Recipe("1", "Soup", "Dinner,", "", "", Wrappers.None, "")])
  {
    var values := TypesOf([Recipe("1", "Soup", "Dinner,", "", "", Wrappers.None, "")]);
    assert values == ["Dinner,"];
    assert Split(",", ',') == ["", ""] by {
      assert ","[1..] == "";
    }
    SplitFreePrefix("Dinner", ",", ',');
    assert "Dinner" + "," == "Dinner,";
    assert Parts("Dinner,")[1] == "";
    assert "" in Contributed(values[0], false);
    AllPartsIff(values, false, "");
  }
}
