/** The React add-grocery dialog, whose form state is a value. */
module GroceryAddModal {
  import opened Wrappers
  import opened Types
  import opened GroceryForm

  /** The outcome of a button: what is emitted, the next form, and whether the dialog hides. */
  datatype Outcome = Outcome(emitted: Option<NewGrocery>, form: NewGrocery, hide: bool)

  /** `resetForm`. */
  function ResetForm(): (form: NewGrocery)
    ensures form.name == "" && form.groceryType == ""
    ensures !IsFormValid(form)
  {
    EmptyForm
  }

  /** `handleSave`: a valid form is emitted trimmed, then cleared and hidden; otherwise nothing happens. */
  function HandleSave(form: NewGrocery): (o: Outcome)
    ensures IsFormValid(form) ==> o.emitted == Some(Submitted(form)) && o.form == EmptyForm && o.hide
    ensures IsFormValid(form) ==> o.emitted == Some(NewGrocery(Text.Trim(form.name), form.groceryType))
    ensures !IsFormValid(form) ==> o.emitted == None && o.form == form && !o.hide
  {
    if IsFormValid(form) then Outcome(Some(Submitted(form)), ResetForm(), true)
    else Outcome(None, form, false)
  }

  /** `handleCancel`: nothing is emitted, the form is cleared and the dialog hides. */
  function HandleCancel(form: NewGrocery): (o: Outcome)
    ensures o.emitted == None && o.form == EmptyForm && o.hide
  {
    Outcome(None, ResetForm(), true)
  }

  /** A second press of Save right after a successful save emits nothing. */
  lemma SaveTwiceEmitsOnce(form: NewGrocery)
    requires IsFormValid(form)
    ensures HandleSave(HandleSave(form).form).emitted == None
  {
  }
}
