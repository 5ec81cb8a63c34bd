# Shopping list state model

A Dafny model of the state behind the single screen of the MyShoppingList
Android app (`ShoppingListApp` in `ShoppingList.kt`). The screen keeps four
pieces of state: the ordered list `sItems` of `ShoppingItem(id, name,
quantity, isEditing)`, and the add dialog's `showDialog`, `itemName` and
`itemQty`. Its event handlers open and dismiss the dialog, add an item,
put an item in edit mode, save an edit and delete an item.

The project has four modules, one per file:

- `KotlinText` (`kotlin_text.dfy`): the Kotlin library behaviour the screen
  relies on. `ToIntOrNull` reads digits one at a time with an overflow
  bound. It is proved equal to a reference definition: an optional sign,
  then one or more decimal digits, whose value fits in an `Int`.
  `IntToString` is `Int.toString()`, and every `Int` survives
  `toString()` followed by `toIntOrNull()` (the other order does not hold:
  "007", "+5" and "-0" parse but are not what `toString()` writes).
  `IsBlank` and `IsNotBlank` are `isBlank()` and `isNotBlank()`, defined
  directly from their meaning: every character, or some character, is
  whitespace, or not.
- `ShoppingItems` (`shopping_items.dfy`): the `ShoppingItem` datatype and the
  pure list transformations that the handlers apply. Append is used on add,
  `map { it.copy(isEditing = ...) }` on the edit icon, clear-then-update-first
  on save, and `List - element` on delete. Each states pointwise what it does
  to every item.
- `ShoppingListScreen` (`shopping_list_app.dfy`): the class
  `ShoppingListApp` with the four state fields. It has one method per event
  handler. Each method states its new state in terms of the old state and
  the functions above, and states that the new list is the one the
  corresponding event of the trace model gives.
- `ShoppingListTraces` (`shopping_list_traces.dfy`): single events and
  sequences of events. Quantities stay positive until an edit is saved. Ids
  stay unique, and at most one item is in edit mode, until an item is
  deleted. Concrete lemmas show the duplicate ids that appear after deleting
  an item other than the last, and what they do to editing.

## What the code does not guarantee

The model follows the code as written. The source itself expects unique
ids, a single edited item and positive quantities, but does not keep them
in general:

- The save handler looks the edited item up with `find { it.id == item.id }`
  (ShoppingList.kt:95), and the edit click matches on `it.id == item.id`
  (ShoppingList.kt:107, "finding which item we are editing"). Both treat
  the id as the item's identity, and both expect a single edited item.
- The add handler only accepts `qty > 0` (ShoppingList.kt:155), so
  quantities are meant to be positive.

What the code does instead:

- A new id is `sItems.size + 1` (ShoppingList.kt:158). It repeats an id
  still in use exactly when some item already has id `size + 1`
  (`Appended`). While the ids are still 1..n, as adds alone leave them,
  that happens after deleting any item but the last, and deleting the last
  item frees its id (`DeleteThenAddUniqueIffLast`).
  `DeleteThenAddDuplicatesId` shows the events add, add, delete the first
  item, add. They leave two items with id 2. `DeleteLastThenAddKeepsIdsUnique`
  deletes the second item instead, and the ids stay unique. Once ids have
  gaps, neither rule holds in general.
- With equal ids, one edit click flags both items (`DuplicateIdFlagsBoth`).
  Saving the second item's editor then overwrites the first item
  (`DuplicateIdSaveWritesFirst`).
- Save does not validate (ShoppingList.kt:94-99, 218). A quantity text of
  "-5" stores -5 (`SaveStoresNegativeQuantity`), and a blank name is stored
  as typed.

The model keeps the id scheme as written. It proves the guarantees that do
hold: `TraceWithoutDeleteKeepsIdsUnique` and `TraceWithoutSaveKeepsPositive`.

## Model

| member | source | states |
|---|---|---|
| `KotlinText.ToIntOrNull` | app/src/main/java/com/img/myshoppinglist/ShoppingList.kt:154 | `toIntOrNull` returns a value exactly when the text is an optional `+`/`-` followed by one or more decimal digits whose value lies in the 32-bit `Int` range, and that value is the literal's |
| `KotlinText.IntToString` | app/src/main/java/com/img/myshoppinglist/ShoppingList.kt:193 | `quantity.toString()` writes a minus sign exactly for negative numbers, never a plus sign, then decimal digits without leading zeros, and "0" only for zero |
| `KotlinText.IsBlank` | app/src/main/java/com/img/myshoppinglist/ShoppingList.kt:155 | `isBlank()` holds exactly when every character is whitespace (so the empty name is blank) |
| `KotlinText.IsNotBlank` | app/src/main/java/com/img/myshoppinglist/ShoppingList.kt:155 | `itemName.isNotBlank()` holds exactly when some character is not whitespace, and never of the empty name |
| `KotlinText.IntToStringLiteral` | app/src/main/java/com/img/myshoppinglist/ShoppingList.kt:193 | `Int.toString()` (the editor's initial quantity text) always writes a decimal literal that denotes the number |
| `KotlinText.ToIntOrNullOfToString` | app/src/main/java/com/img/myshoppinglist/ShoppingList.kt:193 | every `Int` survives `toString()` followed by `toIntOrNull()` |
| `ShoppingItems.ParseQuantity` | app/src/main/java/com/img/myshoppinglist/ShoppingList.kt:154 | `toIntOrNull() ?: 1` gives the literal's value when the text parses, and 1 for any text that does not parse |
| `ShoppingItems.AcceptedQuantity` | app/src/main/java/com/img/myshoppinglist/ShoppingList.kt:154-155 | add is refused for a blank name; with a non-blank name, unparsable text is accepted as 1, and parsable text is accepted exactly when its value is positive; an accepted quantity is always at least 1 |
| `ShoppingItems.NonPositiveQuantityRejected` | app/src/main/java/com/img/myshoppinglist/ShoppingList.kt:155 | a quantity text that parses to zero or less is refused whatever the name; the default of 1 never lets it pass |
| `ShoppingItems.QuantityTextExamples` | app/src/main/java/com/img/myshoppinglist/ShoppingList.kt:154-155 | "2" adds 2; "abc", "", "-" and "9999999999" (past `Int.MAX_VALUE`) add 1; "0" and "-3" are refused; a name of only whitespace is refused |
| `ShoppingItems.Appended` | app/src/main/java/com/img/myshoppinglist/ShoppingList.kt:157-162 | a successful add keeps every earlier item in place and adds one item at the end with id old size plus one, the given name and quantity, and its flag down; the new id equals an earlier item's id exactly when that id is old size plus one |
| `ShoppingItems.MarkEditing` | app/src/main/java/com/img/myshoppinglist/ShoppingList.kt:107 | the edit click keeps length, order, ids, names and quantities, and sets each item's flag to whether its id equals the clicked id |
| `ShoppingItems.ClearEditing` | app/src/main/java/com/img/myshoppinglist/ShoppingList.kt:94 | the first step of save keeps length, order, ids, names and quantities, and lowers every flag |
| `ShoppingItems.FindById` | app/src/main/java/com/img/myshoppinglist/ShoppingList.kt:95 | `find` yields the first position whose id matches, or nothing when no id matches |
| `ShoppingItems.CommitEdited` | app/src/main/java/com/img/myshoppinglist/ShoppingList.kt:94-99 | after save every flag is down and ids, length and order are kept; only the first item with the edited id gets the new name and quantity, and every other item keeps its own |
| `ShoppingItems.RemoveFirst` | app/src/main/java/com/img/myshoppinglist/ShoppingList.kt:110 | `List - element` is a no-op when no equal item exists, and otherwise removes exactly one occurrence (one shorter, multiset minus that item) |
| `ShoppingItems.RemoveFirstSplices` | app/src/main/java/com/img/myshoppinglist/ShoppingList.kt:110 | the removed occurrence is the first item equal on all four fields, and the rest keep their relative order |
| `ShoppingListTraces.EditClickFlagsOnlyClicked` | app/src/main/java/com/img/myshoppinglist/ShoppingList.kt:107 | when ids are unique, clicking an item's edit icon flags that item and no other, so at most one item is editing |
| `ShoppingListTraces.MarkEditingIdempotent` | app/src/main/java/com/img/myshoppinglist/ShoppingList.kt:107 | clicking the same edit icon twice gives the same list as clicking it once |
| `ShoppingListTraces.SaveWithoutTypingOnlyLeavesEditMode` | app/src/main/java/com/img/myshoppinglist/ShoppingList.kt:192-193 | saving the editor with its initial name and `quantity.toString()` text only lowers the flags, provided the edited item is the first with its id |
| `ShoppingListTraces.EventKeepsPositive` | app/src/main/java/com/img/myshoppinglist/ShoppingList.kt:155 | add, edit click and delete keep every quantity at least 1 |
| `ShoppingListTraces.TraceWithoutSaveKeepsPositive` | app/src/main/java/com/img/myshoppinglist/ShoppingList.kt:155 | from a list of positive quantities, no sequence of events without a save produces a quantity below 1 |
| `ShoppingListTraces.SaveStoresNegativeQuantity` | app/src/main/java/com/img/myshoppinglist/ShoppingList.kt:218 | save does not validate: the text "-5" stores quantity -5 |
| `ShoppingListTraces.EventKeepsNoDeleteInvariant` | app/src/main/java/com/img/myshoppinglist/ShoppingList.kt:158 | add, edit click and save keep ids equal to position plus one, and keep at most one item editing |
| `ShoppingListTraces.TraceWithoutDeleteKeepsIdsUnique` | app/src/main/java/com/img/myshoppinglist/ShoppingList.kt:158 | as long as nothing is deleted, ids stay unique and at most one item is editing |
| `ShoppingListTraces.DeleteThenAddDuplicatesId` | app/src/main/java/com/img/myshoppinglist/ShoppingList.kt:158 | add, add, delete the first item, add leaves two items, both with id 2 |
| `ShoppingListTraces.DeleteLastThenAddKeepsIdsUnique` | app/src/main/java/com/img/myshoppinglist/ShoppingList.kt:158 | add, add, delete the last item, add reuses the freed id 2 and leaves the ids unique |
| `ShoppingListTraces.DeleteThenAddUniqueIffLast` | app/src/main/java/com/img/myshoppinglist/ShoppingList.kt:158 | from any list whose ids are its positions 1..n, deleting one item and then adding leaves the ids unique exactly when the deleted item was the last one |
| `ShoppingListTraces.DuplicateIdFlagsBoth` | app/src/main/java/com/img/myshoppinglist/ShoppingList.kt:107 | with a duplicated id, one edit click puts both items in edit mode |
| `ShoppingListTraces.DuplicateIdSaveWritesFirst` | app/src/main/java/com/img/myshoppinglist/ShoppingList.kt:95 | with a duplicated id, saving the second item's editor renames the first item and leaves the second one as it was |
| `ShoppingListScreen.ShoppingListApp.constructor` | app/src/main/java/com/img/myshoppinglist/ShoppingList.kt:57-60 | the screen starts with an empty list, the dialog closed, name "" and quantity text "1" |
| `ShoppingListScreen.ShoppingListApp.OpenDialog` | app/src/main/java/com/img/myshoppinglist/ShoppingList.kt:75 | "Add Item" sets `showDialog` and keeps the list and the typed text |
| `ShoppingListScreen.ShoppingListApp.Dismiss` | app/src/main/java/com/img/myshoppinglist/ShoppingList.kt:121 | dismissing clears `showDialog` and keeps the typed name and quantity |
| `ShoppingListScreen.ShoppingListApp.Cancel` | app/src/main/java/com/img/myshoppinglist/ShoppingList.kt:178-180 | the Cancel button changes nothing |
| `ShoppingListScreen.ShoppingListApp.EnterItemName` | app/src/main/java/com/img/myshoppinglist/ShoppingList.kt:127 | typing in the name field sets `itemName` only |
| `ShoppingListScreen.ShoppingListApp.EnterItemQty` | app/src/main/java/com/img/myshoppinglist/ShoppingList.kt:136 | typing in the quantity field sets `itemQty` only |
| `ShoppingListScreen.ShoppingListApp.Add` | app/src/main/java/com/img/myshoppinglist/ShoppingList.kt:153-174 | the notice is returned exactly when the name is blank or the parsed quantity is at most 0, and then nothing changes; otherwise exactly one item is appended at the end, with id old size plus one, the typed name, the parsed quantity (at least 1) and its flag down; every earlier item is kept, the dialog closes, the name becomes "" and the quantity text "1"; the new list is the one the add event gives in the trace model |
| `ShoppingListScreen.ShoppingListApp.BeginEdit` | app/src/main/java/com/img/myshoppinglist/ShoppingList.kt:107 | the list becomes the edit-click transformation of the old list for the clicked id, which is also the edit-click event of the trace model; the dialog state is kept |
| `ShoppingListScreen.ShoppingListApp.CommitEdit` | app/src/main/java/com/img/myshoppinglist/ShoppingList.kt:94-99 | clearing every flag, then finding the first id match and updating it in place, gives the one-pass save transformation, which is also the save event of the trace model; the dialog state is kept |
| `ShoppingListScreen.ShoppingListApp.Delete` | app/src/main/java/com/img/myshoppinglist/ShoppingList.kt:110 | the list becomes the old list minus the first structurally equal item, which is also the delete event of the trace model; the dialog state is kept |

## Left out

- Compose layout, styling, icons, the gradient and the rendering of the list
  and dialog (ShoppingList.kt:61-86, 196-278) are presentation only.
- Recomposition is not modelled. The save handler changes the found item's
  fields after `sItems` is reassigned, so Compose does not see that change
  as a state write. The model gives the resulting list value only.
- The Toast "Please enter details" and `LocalContext` are platform calls.
  `Add` returns `PleaseEnterDetails` instead.
- The editor keeps its own `editName`/`editQty` text state (ShoppingList.kt:192-193).
  `CommitEdit` takes that text's final value as parameters. The editor's
  local `isEditing` (ShoppingList.kt:194, 217) is written but never read,
  so it is left out.
- `ToIntOrNull`: only the ASCII digits 0-9 count as digits. The JVM's
  `Character.digit` also accepts other Unicode decimal digits.
- `IsWhitespace`: a fixed list of code points stands in for the JVM's
  Unicode tables.
- Ids are unbounded integers. The `Int` overflow of `sItems.size + 1` would
  need a list of 2^31 - 1 items, which a JVM `ArrayList` cannot reach.
- Any `ShoppingItem` value can be passed to `BeginEdit`, `CommitEdit` and
  `Delete`. The app only passes items it is rendering.
