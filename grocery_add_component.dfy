/** The Angular add-grocery dialog, whose form is a field. */
module GroceryAddComponent {
  import opened Wrappers
  import opened Types
  import opened GroceryForm

  class GroceryAddModalComponent {
    var visible: bool
    var newItem: NewGrocery

    constructor(visible: bool)
      ensures this.visible == visible && newItem == EmptyForm
    {
      this.visible := visible;
      newItem := EmptyForm;
    }

    function IsFormValid(): bool
      reads this
    {
      GroceryForm.IsFormValid(newItem)
    }

    /** `resetForm`: both fields empty. */
    method ResetForm()
      modifies this
      ensures newItem == EmptyForm && !IsFormValid()
      ensures visible == old(visible)
    {
      newItem := EmptyForm;
    }

    /** `onCancel`: the form is cleared and the dialog closes. */
    method OnCancel()
      modifies this
      ensures newItem == EmptyForm && !visible
    {
      ResetForm();
      visible := false;
    }

    /** `onSave`: a valid form is emitted trimmed, then cleared and closed; otherwise nothing changes. */
    method OnSave() returns (itemAdded: Option<NewGrocery>)
      modifies this
      ensures old(IsFormValid()) ==> itemAdded == Some(Submitted(old(newItem))) && newItem == EmptyForm && !visible
      ensures old(IsFormValid()) ==> itemAdded == Some(NewGrocery(Text.Trim(old(newItem.name)), old(newItem.groceryType)))
      ensures !old(IsFormValid()) ==> itemAdded == None && newItem == old(newItem) && visible == old(visible)
    {
      if IsFormValid() {
        itemAdded := Some(Submitted(newItem));
        ResetForm();
        visible := false;
      } else {
        itemAdded := None;
      }
    }
  }
}
