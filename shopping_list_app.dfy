/**
 * The state that `ShoppingListApp` keeps in `remember { mutableStateOf(...) }`
 * and the event handlers that update it. Rendering, recomposition and the
 * Toast are not modelled: a failed add returns `PleaseEnterDetails` instead
 * of showing the notice.
 */
module ShoppingListScreen {
  import opened KotlinText
  import opened ShoppingItems
  import opened ShoppingListTraces

  /** What pressing "Add" in the dialog reports: success, or the "Please enter details" notice. */
  datatype AddOutcome = Added | PleaseEnterDetails

  class ShoppingListApp {
    var sItems: seq<ShoppingItem>
    var showDialog: bool
    var itemName: string
    var itemQty: string

    /** The initial state: empty list, dialog closed, name "" and quantity text "1". */
    constructor ()
      ensures sItems == [] && !showDialog && itemName == "" && itemQty == "1"
    {
      sItems := [];
      showDialog := false;
      itemName := "";
      itemQty := "1";
    }

    /** The "Add Item" button opens the dialog and keeps whatever was typed before. */
    method OpenDialog()
      modifies this
      ensures showDialog
      ensures sItems == old(sItems) && itemName == old(itemName) && itemQty == old(itemQty)
    {
      showDialog := true;
    }

    /** Dismissing the dialog closes it; the typed name and quantity stay. */
    method Dismiss()
      modifies this
      ensures !showDialog
      ensures sItems == old(sItems) && itemName == old(itemName) && itemQty == old(itemQty)
    {
      showDialog := false;
    }

    /** The dialog's "Cancel" button has an empty handler. */
    method Cancel()
      ensures unchanged(this)
    {
    }

    /** Typing in the name field. */
    method EnterItemName(text: string)
      modifies this
      ensures itemName == text
      ensures sItems == old(sItems) && showDialog == old(showDialog) && itemQty == old(itemQty)
    {
      itemName := text;
    }

    /** Typing in the quantity field. */
    method EnterItemQty(text: string)
      modifies this
      ensures itemQty == text
      ensures sItems == old(sItems) && showDialog == old(showDialog) && itemName == old(itemName)
    {
      itemQty := text;
    }

    /**
     * The dialog's "Add" button. A blank name or a quantity that parses to
     * zero or less changes nothing and reports the notice; otherwise exactly
     * one item is appended, with id `size + 1` and its flag down, and the
     * dialog is closed and reset.
     */
    method Add() returns (outcome: AddOutcome)
      modifies this
      ensures outcome == PleaseEnterDetails <==> !IsNotBlank(old(itemName)) || ParseQuantity(old(itemQty)) <= 0
      ensures outcome == PleaseEnterDetails ==>
                sItems == old(sItems) && showDialog == old(showDialog)
                && itemName == old(itemName) && itemQty == old(itemQty)
      ensures outcome == Added ==>
                |sItems| == |old(sItems)| + 1 && sItems[..|old(sItems)|] == old(sItems)
                && sItems[|old(sItems)|] == ShoppingItem(|old(sItems)| + 1, old(itemName), ParseQuantity(old(itemQty)), false)
                && sItems[|old(sItems)|].quantity >= 1
                && !showDialog && itemName == "" && itemQty == "1"
      ensures outcome == Added ==> sItems == Appended(old(sItems), old(itemName), ParseQuantity(old(itemQty)))
      ensures sItems == ApplyEvent(old(sItems), AddPressed(old(itemName), old(itemQty)))
    {
      var accepted := AcceptedQuantity(itemName, itemQty);
      if accepted.Some? {
        sItems := Appended(sItems, itemName, accepted.value);
        showDialog := false;
        itemName := "";
        itemQty := "1";
        outcome := Added;
      } else {
        outcome := PleaseEnterDetails;
      }
    }

    /**
     * An item's edit icon: every item whose id equals the clicked item's id
     * is put in edit mode, every other item leaves it; nothing else changes.
     */
    method BeginEdit(item: ShoppingItem)
      modifies this
      ensures sItems == MarkEditing(old(sItems), item.id)
      ensures sItems == ApplyEvent(old(sItems), EditClicked(item))
      ensures showDialog == old(showDialog) && itemName == old(itemName) && itemQty == old(itemQty)
    {
      sItems := MarkEditing(sItems, item.id);
    }

    /**
     * The editor's "Save" button with the text of its two fields: all flags
     * are cleared, then the first item with the edited item's id is found and
     * its name and quantity are overwritten, without any validation.
     */
    method CommitEdit(item: ShoppingItem, editName: string, editQtyText: string)
      modifies this
      ensures sItems == CommitEdited(old(sItems), item.id, editName, ParseQuantity(editQtyText))
      ensures sItems == ApplyEvent(old(sItems), EditSaved(item, editName, editQtyText))
      ensures showDialog == old(showDialog) && itemName == old(itemName) && itemQty == old(itemQty)
    {
      var editQty := ParseQuantity(editQtyText);
      sItems := ClearEditing(sItems);
      assert forall k :: 0 <= k < |sItems| ==> (IsFirstWithId(sItems, k, item.id) <==> IsFirstWithId(old(sItems), k, item.id));
      var found := FindById(sItems, item.id);
      if found.Some? {
        var k := found.value;
        sItems := sItems[k := sItems[k].(name := editName, quantity := editQty)];
      }
      ghost var expected := CommitEdited(old(sItems), item.id, editName, editQty);
      assert forall k :: 0 <= k < |sItems| ==> sItems[k] == expected[k];
    }

    /** An item's delete icon: `sItems - item`. */
    method Delete(item: ShoppingItem)
      modifies this
      ensures sItems == RemoveFirst(old(sItems), item)
      ensures sItems == ApplyEvent(old(sItems), DeleteClicked(item))
      ensures showDialog == old(showDialog) && itemName == old(itemName) && itemQty == old(itemQty)
    {
      DeleteEventIsRemoveFirst(sItems, item);
      sItems := RemoveFirst(sItems, item);
    }
  }
}
