/**
 * The shopping-list items and the list transformations that the Compose
 * event handlers of `ShoppingListApp` apply to the list: append on "Add",
 * `map { it.copy(...) }` on the edit icon and on "Save", `find` plus an
 * in-place update on "Save", and `List - element` on the delete icon.
 */
module ShoppingItems {
  import opened KotlinText

  /** The `ShoppingItem` data class; datatype equality is its structural `equals`. */
  datatype ShoppingItem = ShoppingItem(id: int, name: string, quantity: Int32, isEditing: bool)

  // ---------------------------------------------------------------------------
  // Quantity text and the add dialog's validation
  // ---------------------------------------------------------------------------

  /** `text.toIntOrNull() ?: 1`: unparsable text falls back to a quantity of 1. */
  function ParseQuantity(text: string): (q: Int32)
    ensures ParsesToInt32(text) ==> q == LiteralValue(text)
    ensures !ParsesToInt32(text) ==> q == 1
  {
    match ToIntOrNull(text)
    case Some(v) => v
    case None => 1
  }

  /**
   * The quantity the "Add" button accepts, or None when it shows
   * "Please enter details": the name must not be blank and the parsed
   * quantity must be positive.
   */
  function AcceptedQuantity(name: string, qtyText: string): (r: Option<Int32>)
    ensures !IsNotBlank(name) ==> r == None
    ensures IsNotBlank(name) && !ParsesToInt32(qtyText) ==> r == Some(1)
    ensures ParsesToInt32(qtyText) ==>
              (r.Some? <==> IsNotBlank(name) && LiteralValue(qtyText) > 0)
    ensures r.Some? ==> r.value >= 1 && r.value == ParseQuantity(qtyText)
  {
    var qty := ParseQuantity(qtyText);
    if IsNotBlank(name) && qty > 0 then Some(qty) else None
  }

  /** A zero or negative quantity is refused even though it parses. */
  lemma NonPositiveQuantityRejected(name: string, qtyText: string)
    requires ParsesToInt32(qtyText) && LiteralValue(qtyText) <= 0
    ensures AcceptedQuantity(name, qtyText) == None
  {
  }

  /** Unparsable text (letters, nothing, a lone sign, a value past `Int.MAX_VALUE`) adds a quantity of 1; "0" and "-3" parse and are refused. */
  lemma QuantityTextExamples()
    ensures AcceptedQuantity("Milk", "2") == Some(2)
    ensures AcceptedQuantity("Milk", "abc") == Some(1)
    ensures AcceptedQuantity("Milk", "") == Some(1)
    ensures AcceptedQuantity("Milk", "-") == Some(1)
    ensures AcceptedQuantity("Milk", "9999999999") == Some(1)
    ensures AcceptedQuantity("Milk", "0") == None
    ensures AcceptedQuantity("Milk", "-3") == None
    ensures AcceptedQuantity(" \t", "2") == None
  {
    assert !IsWhitespace("Milk"[0]);
    assert !IsDigit("abc"[0]);
    assert "2"[..0] == "0"[..0] == "3"[..0] == [];
    assert "-3"[1..] == "3";
    var big := "9999999999";
    LeadingDigitBound(big);
    assert Pow10(9) == 1_000_000_000;
    assert !HasSign(big) && LiteralValue(big) == DigitsValue(big) > MaxInt32;
  }

  // ---------------------------------------------------------------------------
  // The list transformations
  // ---------------------------------------------------------------------------

  /**
   * The list after a successful add: every earlier item is kept in place and
   * one item is added at the end, with id old size plus one and its flag
   * down. That id repeats exactly the ids of earlier items that already
   * equal old size plus one, which can happen once an item was deleted.
   */
  function Appended(items: seq<ShoppingItem>, name: string, qty: Int32): (r: seq<ShoppingItem>)
    ensures |r| == |items| + 1 && r[..|items|] == items
    ensures r[|items|] == ShoppingItem(|items| + 1, name, qty, false)
    ensures forall k :: 0 <= k < |items| ==> (r[k].id == r[|items|].id <==> items[k].id == |items| + 1)
  {
    items + [ShoppingItem(|items| + 1, name, qty, false)]
  }

  /** Two items agree on everything but the editing flag. */
  predicate SameButFlag(a: ShoppingItem, b: ShoppingItem) {
    a.id == b.id && a.name == b.name && a.quantity == b.quantity
  }

  /** The edit icon: a copy of each item, flagged when its id is the clicked id. */
  function MarkEditing(items: seq<ShoppingItem>, id: int): (r: seq<ShoppingItem>)
    ensures |r| == |items|
    ensures forall k :: 0 <= k < |r| ==> SameButFlag(r[k], items[k]) && r[k].isEditing == (items[k].id == id)
  {
    if items == [] then []
    else [items[0].(isEditing := items[0].id == id)] + MarkEditing(items[1..], id)
  }

  /** The first step of "Save": a copy of each item with its flag lowered. */
  function ClearEditing(items: seq<ShoppingItem>): (r: seq<ShoppingItem>)
    ensures |r| == |items|
    ensures forall k :: 0 <= k < |r| ==> SameButFlag(r[k], items[k]) && !r[k].isEditing
  {
    if items == [] then []
    else [items[0].(isEditing := false)] + ClearEditing(items[1..])
  }

  /** Position k holds the first item whose id is `id`. */
  predicate IsFirstWithId(items: seq<ShoppingItem>, k: int, id: int) {
    0 <= k < |items| && items[k].id == id && forall j :: 0 <= j < k ==> items[j].id != id
  }

  /** `find { it.id == id }`, as the index of the item it returns. */
  function FindById(items: seq<ShoppingItem>, id: int): (r: Option<nat>)
    ensures r.Some? ==> IsFirstWithId(items, r.value, id)
    ensures r.None? ==> forall k :: 0 <= k < |items| ==> items[k].id != id
  {
    if items == [] then None
    else if items[0].id == id then Some(0)
    else
      match FindById(items[1..], id)
      case Some(k) => Some(k + 1)
      case None => None
  }

  /**
   * The list "Save" leaves behind, in one pass: every flag cleared, and the
   * first item with the edited item's id renamed and requantified.
   */
  function CommitEdited(items: seq<ShoppingItem>, id: int, name: string, qty: Int32): (r: seq<ShoppingItem>)
    ensures |r| == |items|
    ensures forall k :: 0 <= k < |r| ==> r[k].id == items[k].id && !r[k].isEditing
    ensures forall k :: 0 <= k < |r| ==>
              if IsFirstWithId(items, k, id) then r[k].name == name && r[k].quantity == qty
              else r[k].name == items[k].name && r[k].quantity == items[k].quantity
  {
    if items == [] then []
    else if items[0].id == id then
      [items[0].(name := name, quantity := qty, isEditing := false)] + ClearEditing(items[1..])
    else
      var rest := CommitEdited(items[1..], id, name, qty);
      assert forall k :: 1 <= k < |items| ==> (IsFirstWithId(items, k, id) <==> IsFirstWithId(items[1..], k - 1, id));
      [items[0].(isEditing := false)] + rest
  }

  /** Position k holds the first occurrence of x. */
  predicate IsFirstOccurrence(items: seq<ShoppingItem>, k: int, x: ShoppingItem) {
    0 <= k < |items| && items[k] == x && x !in items[..k]
  }

  /** The delete icon: Kotlin's `List - element` drops the first structurally equal item. */
  function RemoveFirst(items: seq<ShoppingItem>, x: ShoppingItem): (r: seq<ShoppingItem>)
    ensures x !in items ==> r == items
    ensures x in items ==> |r| == |items| - 1
    ensures multiset(r) == multiset(items) - multiset{x}
  {
    if items == [] then []
    else
      assert items == [items[0]] + items[1..];
      if items[0] == x then items[1..]
      else [items[0]] + RemoveFirst(items[1..], x)
  }

  /** Delete splices out exactly the first occurrence and keeps the order of the rest. */
  lemma {:induction false} RemoveFirstSplices(items: seq<ShoppingItem>, x: ShoppingItem, k: int)
    requires IsFirstOccurrence(items, k, x)
    ensures RemoveFirst(items, x) == items[..k] + items[k + 1..]
  {
    if k == 0 {
      assert items[0] == x;
    } else {
      assert items[0] in items[..k];
      var tail := items[1..];
      assert items[..k] == [items[0]] + tail[..k - 1];
      assert tail[..k - 1] == items[1..k];
      assert IsFirstOccurrence(tail, k - 1, x);
      RemoveFirstSplices(tail, x, k - 1);
      assert items[k + 1..] == tail[k..];
    }
  }
}
