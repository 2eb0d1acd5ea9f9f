/**
 * The ingredient list both Angular front ends build from the selected
 * recipes: gather every ingredient array, lower-case each entry, drop
 * repeats in first-seen order (a JavaScript `Set`), sort by code units,
 * capitalise the first letter, put an optional prefix before each line and
 * join the lines with newlines.
 */
module IngredientList {
  import opened Wrappers
  import opened Text
  import opened Types
  import opened Seqs

  /** The ingredients of every recipe whose ingredients are an array, in order. */
  function AllIngredients(recipes: seq<Recipe>): (all: seq<string>)
    ensures forall x :: x in all <==>
      exists i :: 0 <= i < |recipes| && recipes[i].ingredients.Some? && x in recipes[i].ingredients.value
  {
    if |recipes| == 0 then []
    else
      var last := recipes[|recipes| - 1];
      var front := recipes[..|recipes| - 1];
      assert forall i :: 0 <= i < |front| ==> front[i] == recipes[i];
      AllIngredients(front) + (if last.ingredients.Some? then last.ingredients.value else [])
  }

  /** The `forEach` loop that pushes each array of ingredients, skipping recipes without one. */
  method CollectIngredients(recipes: seq<Recipe>) returns (all: seq<string>)
    ensures all == AllIngredients(recipes)
  {
    all := [];
    var i := 0;
    while i < |recipes|
      invariant 0 <= i <= |recipes|
      invariant all == AllIngredients(recipes[..i])
    {
      assert recipes[..i + 1][..i] == recipes[..i];
      if recipes[i].ingredients.Some? {
        all := all + recipes[i].ingredients.value;
      }
      i := i + 1;
    }
    assert recipes[..i] == recipes;
  }

  /** `all.map(i => i.toLowerCase())`. */
  function Lowered(all: seq<string>): (r: seq<string>)
    ensures |r| == |all|
    ensures forall x :: x in r ==> IsLowerCase(x)
  {
    seq(|all|, k requires 0 <= k < |all| => Lower(all[k]))
  }

  /**
   * `[...new Set(all.map(i => i.toLowerCase()))].sort()`: one lower-case
   * entry per ingredient up to case, strictly increasing.
   */
  function UniqueLowered(all: seq<string>): (u: seq<string>)
    ensures NoDup(u)
    ensures forall i :: 0 < i < |u| ==> LexLess(u[i - 1], u[i])
    ensures forall x :: x in u <==> x in Lowered(all)
  {
    var d := Distinct(Lowered(all));
    SortStringsStrict(d);
    var u := SortStrings(d);
    SameMembers(d, u);
    u
  }

  /** Each unique entry capitalised and put behind `prefix`. */
  function IngredientLines(all: seq<string>, prefix: string): (lines: seq<string>)
    ensures |lines| == |UniqueLowered(all)|
    ensures forall i :: 0 <= i < |lines| ==>
      |prefix| <= |lines[i]| && lines[i][..|prefix|] == prefix &&
      Lower(lines[i][|prefix|..]) == UniqueLowered(all)[i]
    ensures forall i :: 0 <= i < |lines| ==> lines[i] == prefix + Capitalize(UniqueLowered(all)[i])
  {
    var u := UniqueLowered(all);
    seq(|u|, i requires 0 <= i < |u| => CapitalizedLine(u, prefix, i))
  }

  function CapitalizedLine(u: seq<string>, prefix: string, i: int): (line: string)
    requires 0 <= i < |u| && IsLowerCase(u[i])
    ensures |prefix| <= |line| && line[..|prefix|] == prefix && Lower(line[|prefix|..]) == u[i]
    ensures line[|prefix|..] == Capitalize(u[i])
  {
    var line := prefix + Capitalize(u[i]);
    assert line[|prefix|..] == Capitalize(u[i]);
    line
  }

  /** The text shown in the shopping-list dialog. */
  function FormatIngredients(all: seq<string>, prefix: string): string {
    Join(IngredientLines(all, prefix), '\n')
  }

  /** No two lines are equal. */
  lemma LinesDistinct(all: seq<string>, prefix: string)
    ensures NoDup(IngredientLines(all, prefix))
  {
    var lines := IngredientLines(all, prefix);
    var u := UniqueLowered(all);
    forall i, j | 0 <= i < j < |lines| ensures lines[i] != lines[j] {
      assert Lower(lines[i][|prefix|..]) == u[i];
      assert Lower(lines[j][|prefix|..]) == u[j];
    }
  }

  /**
   * One line per ingredient up to case: the lower-cased body of each line is
   * the lower-cased form of some ingredient, and every ingredient has such a
   * line.
   */
  lemma LinesCoverIngredients(all: seq<string>, prefix: string)
    ensures forall i :: 0 <= i < |IngredientLines(all, prefix)| ==>
      Lower(IngredientLines(all, prefix)[i][|prefix|..]) in Lowered(all)
    ensures forall k :: 0 <= k < |all| ==>
      exists i :: 0 <= i < |IngredientLines(all, prefix)| &&
        Lower(IngredientLines(all, prefix)[i][|prefix|..]) == Lower(all[k])
  {
    var lines := IngredientLines(all, prefix);
    var u := UniqueLowered(all);
    forall i | 0 <= i < |lines| ensures Lower(lines[i][|prefix|..]) in Lowered(all) {
      assert u[i] in u;
    }
    forall k | 0 <= k < |all|
      ensures exists i :: 0 <= i < |lines| && Lower(lines[i][|prefix|..]) == Lower(all[k])
    {
      assert Lowered(all)[k] in Lowered(all);
      assert Lower(all[k]) in u;
      var i :| 0 <= i < |u| && u[i] == Lower(all[k]);
      assert Lower(lines[i][|prefix|..]) == Lower(all[k]);
    }
  }

  /**
   * After the prefix, each line starts with its ingredient's first character
   * upper-cased and carries the rest of the lower-cased ingredient unchanged.
   */
  lemma LineCapitalized(all: seq<string>, prefix: string, i: int)
    requires 0 <= i < |IngredientLines(all, prefix)| && |UniqueLowered(all)[i]| > 0
    ensures |IngredientLines(all, prefix)[i]| == |prefix| + |UniqueLowered(all)[i]|
    ensures !IsLower(IngredientLines(all, prefix)[i][|prefix|])
    ensures LowerChar(IngredientLines(all, prefix)[i][|prefix|]) == UniqueLowered(all)[i][0]
    ensures IngredientLines(all, prefix)[i][|prefix| + 1..] == UniqueLowered(all)[i][1..]
  {
    var u := UniqueLowered(all);
    var line := IngredientLines(all, prefix)[i];
    var c := Capitalize(u[i]);
    assert line == prefix + c;
    assert line[|prefix|] == c[0];
    assert line[|prefix| + 1..] == c[1..];
    assert Lower(c) == u[i];
    assert Lower(c)[0] == LowerChar(c[0]);
  }

  /** A chain whose neighbours increase is increasing end to end. */
  lemma {:induction false} ChainIncreasing(u: seq<string>, i: int, j: int)
    requires forall k :: 0 < k < |u| ==> LexLess(u[k - 1], u[k])
    requires 0 <= i < j < |u|
    ensures LexLess(u[i], u[j])
    decreases j - i
  {
    if j > i + 1 {
      ChainIncreasing(u, i, j - 1);
      LexLessTransitive(u[i], u[j - 1], u[j]);
    }
  }

  /** The lines come out in code-unit order of the lower-cased ingredients. */
  lemma LinesSorted(all: seq<string>, prefix: string, i: int, j: int)
    requires 0 <= i < j < |IngredientLines(all, prefix)|
    ensures LexLess(Lower(IngredientLines(all, prefix)[i][|prefix|..]),
                    Lower(IngredientLines(all, prefix)[j][|prefix|..]))
  {
    ChainIncreasing(UniqueLowered(all), i, j);
  }

  lemma LowerKeepsNewline(s: string)
    requires '\n' !in s
    ensures '\n' !in Lower(s) && '\n' !in Capitalize(s)
  {
    assert forall k :: 0 <= k < |s| ==> Lower(s)[k] != '\n';
  }

  /**
   * When neither an ingredient nor the prefix holds a newline, splitting the
   * text at newlines gives back the lines: the text holds exactly one line
   * per ingredient up to case.
   */
  lemma FormatSplitsIntoLines(all: seq<string>, prefix: string)
    requires forall k :: 0 <= k < |all| ==> '\n' !in all[k]
    requires '\n' !in prefix
    requires |all| > 0
    ensures Split(FormatIngredients(all, prefix), '\n') == IngredientLines(all, prefix)
  {
    var u := UniqueLowered(all);
    var lines := IngredientLines(all, prefix);
    assert Lowered(all)[0] in Lowered(all);
    forall i | 0 <= i < |lines| ensures '\n' !in lines[i] {
      LinePart(all, u, prefix, i);
    }
    SplitJoin(lines, '\n');
  }

  lemma LinePart(all: seq<string>, u: seq<string>, prefix: string, i: int)
    requires u == UniqueLowered(all)
    requires forall k :: 0 <= k < |all| ==> '\n' !in all[k]
    requires '\n' !in prefix
    requires 0 <= i < |u|
    ensures '\n' !in IngredientLines(all, prefix)[i]
  {
    assert u[i] in Lowered(all);
    var k :| 0 <= k < |all| && Lowered(all)[k] == u[i];
    LowerKeepsNewline(all[k]);
    LowerKeepsNewline(u[i]);
    assert IngredientLines(all, prefix)[i] == prefix + Capitalize(u[i]);
  }

  /** Nothing to gather gives an empty list. */
  lemma NoIngredientsEmpty(recipes: seq<Recipe>, prefix: string)
    requires forall i :: 0 <= i < |recipes| ==>
      recipes[i].ingredients.None? || recipes[i].ingredients.value == []
    ensures FormatIngredients(AllIngredients(recipes), prefix) == ""
  {
    NothingGathered(recipes);
    assert Lowered([]) == [];
    assert UniqueLowered([]) == [];
  }

  lemma {:induction false} NothingGathered(recipes: seq<Recipe>)
    requires forall i :: 0 <= i < |recipes| ==>
      recipes[i].ingredients.None? || recipes[i].ingredients.value == []
    ensures AllIngredients(recipes) == []
  {
    if |recipes| > 0 {
      NothingGathered(recipes[..|recipes| - 1]);
    }
  }

  /** With a non-empty prefix the text is empty exactly when there are no ingredients. */
  lemma FormatEmptyIff(all: seq<string>, prefix: string)
    requires prefix != ""
    ensures FormatIngredients(all, prefix) == "" <==> |all| == 0
  {
    var u := UniqueLowered(all);
    var lines := IngredientLines(all, prefix);
    if |all| > 0 {
      assert Lowered(all)[0] in Lowered(all);
      assert |lines[0]| > 0;
    } else {
      assert u == [];
    }
  }
}
