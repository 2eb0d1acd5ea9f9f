/**
 * The add-grocery dialogs of both front ends: a name and a type, valid when
 * the trimmed name and the type are both non-empty; saving emits the
 * trimmed name and the type, then clears the form.
 */
module GroceryForm {
  import opened Text
  import opened Types

  const EmptyForm := NewGrocery("", "")

  /** `isFormValid`. */
  predicate IsFormValid(form: NewGrocery) {
    |Trim(form.name)| > 0 && |form.groceryType| > 0
  }

  /** The form is valid exactly when the name has a non-space character and a type is chosen. */
  lemma FormValidIff(form: NewGrocery)
    ensures IsFormValid(form) <==>
      (exists i :: 0 <= i < |form.name| && !IsSpace(form.name[i])) && form.groceryType != ""
  {
    TrimEmptyIff(form.name);
  }

  /** What is sent to the parent on a valid save. */
  function Submitted(form: NewGrocery): (item: NewGrocery)
    requires IsFormValid(form)
    ensures item.groceryType == form.groceryType
    ensures item.name == Trim(form.name)
    ensures item.name != "" && IsTrimmed(item.name)
  {
    NewGrocery(Trim(form.name), form.groceryType)
  }
}
