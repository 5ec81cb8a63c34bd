/**
 * Properties of the shopping list over single events and over whole
 * sequences of user events, including the duplicate ids that the
 * `size + 1` id scheme produces once an item has been deleted.
 */
module ShoppingListTraces {
  import opened KotlinText
  import opened ShoppingItems

  /** What the user does to the list: press "Add", click the edit icon, press "Save", click the delete icon. */
  datatype ListEvent =
    | AddPressed(name: string, qtyText: string)
    | EditClicked(clicked: ShoppingItem)
    | EditSaved(edited: ShoppingItem, editName: string, editQtyText: string)
    | DeleteClicked(clicked: ShoppingItem)

  /** The list after one event. */
  function ApplyEvent(items: seq<ShoppingItem>, e: ListEvent): seq<ShoppingItem> {
    match e
    case AddPressed(name, qtyText) =>
      (match AcceptedQuantity(name, qtyText)
       case Some(q) => Appended(items, name, q)
       case None => items)
    case EditClicked(c) => MarkEditing(items, c.id)
    case EditSaved(c, name, qtyText) => CommitEdited(items, c.id, name, ParseQuantity(qtyText))
    case DeleteClicked(c) => RemoveFirst(items, c)
  }

  /** The delete event is `List - element` on the clicked item. */
  lemma DeleteEventIsRemoveFirst(items: seq<ShoppingItem>, c: ShoppingItem)
    ensures ApplyEvent(items, DeleteClicked(c)) == RemoveFirst(items, c)
  {
  }

  /** The list after a sequence of events, in order. */
  function ApplyAll(items: seq<ShoppingItem>, events: seq<ListEvent>): seq<ShoppingItem>
    decreases |events|
  {
    if events == [] then items else ApplyAll(ApplyEvent(items, events[0]), events[1..])
  }

  // ---------------------------------------------------------------------------
  // Editing flags and ids
  // ---------------------------------------------------------------------------

  predicate UniqueIds(items: seq<ShoppingItem>) {
    forall j, k :: 0 <= j < k < |items| ==> items[j].id != items[k].id
  }

  predicate AtMostOneEditing(items: seq<ShoppingItem>) {
    forall j, k :: 0 <= j < |items| && 0 <= k < |items| && items[j].isEditing && items[k].isEditing ==> j == k
  }

  /** With unique ids, clicking the edit icon of items[k] flags that item and no other. */
  lemma EditClickFlagsOnlyClicked(items: seq<ShoppingItem>, k: int)
    requires 0 <= k < |items| && UniqueIds(items)
    ensures forall j :: 0 <= j < |items| ==> (MarkEditing(items, items[k].id)[j].isEditing <==> j == k)
    ensures AtMostOneEditing(MarkEditing(items, items[k].id))
  {
  }

  /** Clicking the same edit icon twice is the same as clicking it once. */
  lemma MarkEditingIdempotent(items: seq<ShoppingItem>, id: int)
    ensures MarkEditing(MarkEditing(items, id), id) == MarkEditing(items, id)
  {
  }

  /**
   * The editor starts from `item.quantity.toString()`; pressing "Save"
   * without typing only leaves edit mode, provided the edited item is the
   * first one carrying its id.
   */
  lemma SaveWithoutTypingOnlyLeavesEditMode(items: seq<ShoppingItem>, k: int)
    requires 0 <= k < |items| && IsFirstWithId(items, k, items[k].id)
    ensures CommitEdited(items, items[k].id, items[k].name, ParseQuantity(IntToString(items[k].quantity)))
            == ClearEditing(items)
  {
    var item := items[k];
    ToIntOrNullOfToString(item.quantity);
    var q := ParseQuantity(IntToString(item.quantity));
    assert q == item.quantity;
    var saved := CommitEdited(items, item.id, item.name, q);
    var cleared := ClearEditing(items);
    forall j | 0 <= j < |items| ensures saved[j] == cleared[j] {
      if j != k {
        assert !IsFirstWithId(items, j, item.id) by {
          if j > k && items[j].id == item.id {
            assert items[k].id == item.id;
          }
        }
      }
    }
  }

  // ---------------------------------------------------------------------------
  // Positive quantities
  // ---------------------------------------------------------------------------

  predicate AllPositive(items: seq<ShoppingItem>) {
    forall k :: 0 <= k < |items| ==> items[k].quantity >= 1
  }

  /** Add, edit click and delete keep every quantity positive. */
  lemma EventKeepsPositive(items: seq<ShoppingItem>, e: ListEvent)
    requires AllPositive(items) && !e.EditSaved?
    ensures AllPositive(ApplyEvent(items, e))
  {
    if e.DeleteClicked? {
      var r := ApplyEvent(items, e);
      forall k | 0 <= k < |r| ensures r[k].quantity >= 1 {
        assert r[k] in multiset(r);
        assert r[k] in multiset(items);
      }
    }
  }

  /** No sequence of events without "Save" can produce a quantity below 1. */
  lemma {:induction false} TraceWithoutSaveKeepsPositive(items: seq<ShoppingItem>, events: seq<ListEvent>)
    requires AllPositive(items)
    requires forall i :: 0 <= i < |events| ==> !events[i].EditSaved?
    ensures AllPositive(ApplyAll(items, events))
    decreases |events|
  {
    if events != [] {
      EventKeepsPositive(items, events[0]);
      TraceWithoutSaveKeepsPositive(ApplyEvent(items, events[0]), events[1..]);
    }
  }

  /** "Save" does not validate: "-5" stores a quantity of -5. */
  lemma SaveStoresNegativeQuantity()
    ensures var items := [ShoppingItem(1, "Milk", 2, true)];
            ApplyEvent(items, EditSaved(items[0], "Milk", "-5")) == [ShoppingItem(1, "Milk", -5, false)]
  {
  }

  // ---------------------------------------------------------------------------
  // Ids: positional while nothing is deleted, duplicated after a delete
  // ---------------------------------------------------------------------------

  /** Every item's id is its position plus one, as `size + 1` gives while nothing is deleted. */
  predicate IdsArePositions(items: seq<ShoppingItem>) {
    forall k :: 0 <= k < |items| ==> items[k].id == k + 1
  }

  /** The state the list is in as long as no item has been deleted. */
  predicate NoDeleteInvariant(items: seq<ShoppingItem>) {
    IdsArePositions(items) && AtMostOneEditing(items)
  }

  lemma EventKeepsNoDeleteInvariant(items: seq<ShoppingItem>, e: ListEvent)
    requires NoDeleteInvariant(items) && !e.DeleteClicked?
    ensures NoDeleteInvariant(ApplyEvent(items, e))
  {
  }

  /** Without deletes, ids stay unique and at most one item is ever in edit mode. */
  lemma {:induction false} TraceWithoutDeleteKeepsIdsUnique(items: seq<ShoppingItem>, events: seq<ListEvent>)
    requires NoDeleteInvariant(items)
    requires forall i :: 0 <= i < |events| ==> !events[i].DeleteClicked?
    ensures NoDeleteInvariant(ApplyAll(items, events))
    ensures UniqueIds(ApplyAll(items, events))
    decreases |events|
  {
    if events != [] {
      EventKeepsNoDeleteInvariant(items, events[0]);
      TraceWithoutDeleteKeepsIdsUnique(ApplyEvent(items, events[0]), events[1..]);
    }
  }

  /** Helper for DeleteThenAddDuplicatesId: a name starting with a non-whitespace character is added with the text "1". */
  lemma OneIsAccepted(name: string)
    requires |name| > 0 && !IsWhitespace(name[0])
    ensures AcceptedQuantity(name, "1") == Some(1)
  {
  }

  /** Add, add, delete the first item, add: the two remaining items both have id 2. */
  lemma DeleteThenAddDuplicatesId()
    ensures ApplyAll([], [AddPressed("Milk", "1"), AddPressed("Eggs", "1"),
                          DeleteClicked(ShoppingItem(1, "Milk", 1, false)), AddPressed("Bread", "1")])
            == [ShoppingItem(2, "Eggs", 1, false), ShoppingItem(2, "Bread", 1, false)]
  {
    OneIsAccepted("Milk");
    OneIsAccepted("Eggs");
    OneIsAccepted("Bread");
    var s1 := ApplyEvent([], AddPressed("Milk", "1"));
    assert s1 == [ShoppingItem(1, "Milk", 1, false)];
    var s2 := ApplyEvent(s1, AddPressed("Eggs", "1"));
    assert s2 == [ShoppingItem(1, "Milk", 1, false), ShoppingItem(2, "Eggs", 1, false)];
    var s3 := ApplyEvent(s2, DeleteClicked(ShoppingItem(1, "Milk", 1, false)));
    assert s3 == [ShoppingItem(2, "Eggs", 1, false)];
    var s4 := ApplyEvent(s3, AddPressed("Bread", "1"));
    assert s4 == [ShoppingItem(2, "Eggs", 1, false), ShoppingItem(2, "Bread", 1, false)];
    var events := [AddPressed("Milk", "1"), AddPressed("Eggs", "1"),
                   DeleteClicked(ShoppingItem(1, "Milk", 1, false)), AddPressed("Bread", "1")];
    assert ApplyAll([], events) == ApplyAll(s1, events[1..]);
    assert ApplyAll(s1, events[1..]) == ApplyAll(s2, events[2..]);
    assert ApplyAll(s2, events[2..]) == ApplyAll(s3, events[3..]);
    assert ApplyAll(s3, events[3..]) == ApplyAll(s4, []);
  }

  /** Add, add, delete the last item, add: the freed id 2 is reused and the ids stay unique. */
  lemma DeleteLastThenAddKeepsIdsUnique()
    ensures ApplyAll([], [AddPressed("Milk", "1"), AddPressed("Eggs", "1"),
                          DeleteClicked(ShoppingItem(2, "Eggs", 1, false)), AddPressed("Bread", "1")])
            == [ShoppingItem(1, "Milk", 1, false), ShoppingItem(2, "Bread", 1, false)]
    ensures UniqueIds([ShoppingItem(1, "Milk", 1, false), ShoppingItem(2, "Bread", 1, false)])
  {
    OneIsAccepted("Milk");
    OneIsAccepted("Eggs");
    OneIsAccepted("Bread");
    var s1 := ApplyEvent([], AddPressed("Milk", "1"));
    assert s1 == [ShoppingItem(1, "Milk", 1, false)];
    var s2 := ApplyEvent(s1, AddPressed("Eggs", "1"));
    assert s2 == [ShoppingItem(1, "Milk", 1, false), ShoppingItem(2, "Eggs", 1, false)];
    var s3 := ApplyEvent(s2, DeleteClicked(ShoppingItem(2, "Eggs", 1, false)));
    assert s3 == [ShoppingItem(1, "Milk", 1, false)];
    var s4 := ApplyEvent(s3, AddPressed("Bread", "1"));
    assert s4 == [ShoppingItem(1, "Milk", 1, false), ShoppingItem(2, "Bread", 1, false)];
    var events := [AddPressed("Milk", "1"), AddPressed("Eggs", "1"),
                   DeleteClicked(ShoppingItem(2, "Eggs", 1, false)), AddPressed("Bread", "1")];
    assert ApplyAll([], events) == ApplyAll(s1, events[1..]);
    assert ApplyAll(s1, events[1..]) == ApplyAll(s2, events[2..]);
    assert ApplyAll(s2, events[2..]) == ApplyAll(s3, events[3..]);
    assert ApplyAll(s3, events[3..]) == ApplyAll(s4, []);
  }

  /** From a list whose ids are still 1..n, deleting items[j] shifts the ids after it down one place. */
  lemma DeleteFromPositionalIds(items: seq<ShoppingItem>, j: int)
    requires IdsArePositions(items) && 0 <= j < |items|
    ensures var r := RemoveFirst(items, items[j]);
            |r| == |items| - 1 && forall k :: 0 <= k < |r| ==> r[k].id == if k < j then k + 1 else k + 2
  {
    assert items[j] !in items[..j] by {
      forall i | 0 <= i < j ensures items[..j][i] != items[j] {
        assert items[..j][i].id == i + 1;
      }
    }
    RemoveFirstSplices(items, items[j], j);
    var r := items[..j] + items[j + 1..];
    forall k | 0 <= k < |r| ensures r[k].id == if k < j then k + 1 else k + 2 {
      if k < j {
        assert r[k] == items[k];
      } else {
        assert r[k] == items[k + 1];
      }
    }
  }

  /**
   * From a list whose ids are still 1..n, deleting items[j] and then adding
   * leaves the ids unique exactly when items[j] was the last item; deleting
   * any earlier item makes the new id `size + 1` repeat the last item's id.
   */
  lemma DeleteThenAddUniqueIffLast(items: seq<ShoppingItem>, j: int, name: string, qty: Int32)
    requires IdsArePositions(items) && 0 <= j < |items|
    ensures UniqueIds(Appended(RemoveFirst(items, items[j]), name, qty)) <==> j == |items| - 1
  {
    DeleteFromPositionalIds(items, j);
    AppendAfterGapUniqueIffNoGap(RemoveFirst(items, items[j]), j, name, qty);
  }

  /** Adding to a list whose ids are 1..n+1 with j + 1 missing keeps ids unique exactly when the gap is at the end. */
  lemma AppendAfterGapUniqueIffNoGap(r: seq<ShoppingItem>, j: int, name: string, qty: Int32)
    requires 0 <= j <= |r|
    requires forall k :: 0 <= k < |r| ==> r[k].id == if k < j then k + 1 else k + 2
    ensures UniqueIds(Appended(r, name, qty)) <==> j == |r|
  {
    var n := |r| + 1;
    var a := Appended(r, name, qty);
    assert a[n - 1].id == n;
    assert forall k :: 0 <= k < n - 1 ==> a[k] == a[..n - 1][k] == r[k];
    if j == n - 1 {
      forall p, q | 0 <= p < q < n ensures a[p].id != a[q].id {
        assert a[p].id == p + 1;
        assert a[q].id == q + 1;
      }
    } else {
      assert a[n - 2].id == r[n - 2].id == n;
    }
  }

  /** With the duplicated id, one click on an edit icon puts both items in edit mode. */
  lemma DuplicateIdFlagsBoth()
    ensures var items := [ShoppingItem(2, "Eggs", 1, false), ShoppingItem(2, "Bread", 1, false)];
            var r := ApplyEvent(items, EditClicked(items[1]));
            r[0].isEditing && r[1].isEditing && !AtMostOneEditing(r)
  {
  }

  /** With the duplicated id, saving the second item's editor renames the first item instead. */
  lemma DuplicateIdSaveWritesFirst()
    ensures var items := [ShoppingItem(2, "Eggs", 1, true), ShoppingItem(2, "Bread", 1, true)];
            ApplyEvent(items, EditSaved(items[1], "Butter", "1"))
            == [ShoppingItem(2, "Butter", 1, false), ShoppingItem(2, "Bread", 1, false)]
  {
  }
}
