/**
 * The ingredient text area of both recipe edit dialogs: the ingredient
 * array is shown one per line, and the text is read back by splitting at
 * newlines, trimming each line and dropping the empty ones.
 */
module IngredientsText {
  import opened Wrappers
  import opened Text
  import opened Seqs

  /** `Array.isArray(ingredients) ? ingredients.join('\n') : ''`. */
  function ShowIngredients(ingredients: Option<seq<string>>): string {
    match ingredients
    case Some(xs) => Join(xs, '\n')
    case None => ""
  }

  /** An ingredient as the text area gives it back: non-empty, trimmed, on one line. */
  predicate IsCleanIngredient(s: string) {
    s != "" && IsTrimmed(s) && '\n' !in s
  }

  /** `text.split('\n').map(t => t.trim())`. */
  function TrimmedLines(text: string): (lines: seq<string>)
    ensures forall k :: 0 <= k < |lines| ==> IsTrimmed(lines[k]) && '\n' !in lines[k]
  {
    var pieces := Split(text, '\n');
    var lines := seq(|pieces|, k requires 0 <= k < |pieces| => Trim(pieces[k]));
    forall k | 0 <= k < |lines| ensures '\n' !in lines[k] {
      TrimKeeps(pieces[k], '\n');
    }
    lines
  }

  /** `trim` only removes characters, so it adds none. */
  lemma TrimKeeps(s: string, c: char)
    ensures c in Trim(s) ==> c in s
  {
    var t := TrimStart(s);
    var r := TrimEnd(t);
    if c in r {
      var k :| 0 <= k < |r| && r[k] == c;
      assert r[k] == t[k];
      assert t[k] == s[|s| - |t| + k];
    }
  }

  function NonEmpty(): string -> bool {
    (t: string) => |t| > 0
  }

  /**
   * The saved ingredient array: the trimmed lines that are not empty, in
   * order, a repeated line as often as it occurs.
   */
  function ParseIngredients(text: string): (ingredients: seq<string>)
    ensures forall k :: 0 <= k < |ingredients| ==> IsCleanIngredient(ingredients[k])
    ensures IsSubseq(ingredients, TrimmedLines(text))
    ensures forall t :: t in ingredients <==> t in TrimmedLines(text) && t != ""
    ensures forall t :: multiset(ingredients)[t] == if t != "" then multiset(TrimmedLines(text))[t] else 0
  {
    var ingredients := Filter(TrimmedLines(text), NonEmpty());
    assert forall k :: 0 <= k < |ingredients| ==> ingredients[k] in ingredients;
    forall t ensures multiset(ingredients)[t] == if t != "" then multiset(TrimmedLines(text))[t] else 0 {
      FilterCount(TrimmedLines(text), NonEmpty(), t);
    }
    ingredients
  }

  /** Showing clean ingredients and saving without edits gives the same array back. */
  lemma ParseShowRoundTrip(xs: seq<string>)
    requires forall k :: 0 <= k < |xs| ==> IsCleanIngredient(xs[k])
    ensures ParseIngredients(ShowIngredients(Some(xs))) == xs
  {
    var text := Join(xs, '\n');
    if |xs| == 0 {
      assert Split(text, '\n') == [""];
      assert TrimmedLines(text) == [""];
    } else {
      SplitJoin(xs, '\n');
      forall k | 0 <= k < |xs| ensures Trim(xs[k]) == xs[k] {
        TrimOfTrimmed(xs[k]);
      }
      assert TrimmedLines(text) == xs;
      FilterAll(xs, NonEmpty());
    }
  }

  /** Saving the dialog twice in a row without edits saves the same array. */
  lemma ParseIdempotent(text: string)
    ensures ParseIngredients(ShowIngredients(Some(ParseIngredients(text)))) == ParseIngredients(text)
  {
    ParseShowRoundTrip(ParseIngredients(text));
  }

  /** Blank text saves no ingredients. */
  lemma BlankTextNoIngredients(text: string)
    requires forall i :: 0 <= i < |text| ==> IsSpace(text[i])
    ensures ParseIngredients(text) == []
  {
    var lines := TrimmedLines(text);
    forall t | t in lines ensures !NonEmpty()(t) {
      var k :| 0 <= k < |lines| && lines[k] == t;
      BlankPieces(text, k);
      TrimEmptyIff(Split(text, '\n')[k]);
    }
    FilterNone(lines, NonEmpty());
  }

  lemma BlankPieces(text: string, k: int)
    requires forall i :: 0 <= i < |text| ==> IsSpace(text[i])
    requires 0 <= k < |Split(text, '\n')|
    ensures forall i :: 0 <= i < |Split(text, '\n')[k]| ==> IsSpace(Split(text, '\n')[k][i])
    decreases |text|
  {
    if |text| > 0 {
      assert forall i :: 0 <= i < |text[1..]| ==> text[1..][i] == text[i + 1];
      if text[0] == '\n' {
        if k > 0 {
          BlankPieces(text[1..], k - 1);
        }
      } else if k > 0 {
        BlankPieces(text[1..], k);
      } else {
        BlankPieces(text[1..], 0);
      }
    }
  }
}
