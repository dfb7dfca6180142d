# cardboard: a verified model of the kanban board's state logic

cardboard is a React prototype of a kanban board. Two components hold its
state:

- `MultiColumnBoard` keeps a growing list of columns. Each column has an id
  (`column1`, `column2`, ...), a name and an ordered list of items. Three
  event handlers change it: `onDragEnd` moves one item from one position to
  another, possibly across columns; `handleAddColumn` appends an empty
  column; `handleAddItem(columnIndex)` pushes a new item onto one column.
- `ProofOfConcept` keeps two fixed lists, `column1` (ten generated items) and
  `column2` (empty at first). Its `onDragEnd` acts only on drops from
  `column1` to `column2`.

`ProofOfConcept` builds its first column with the helper `generateItems` and
moves items with the splice-move `reorder`, which copies both lists before
splicing them (`src/ProofOfConcept.tsx:24-42`, called at lines 45 and 55-60).
`src/MultiColumnBoard.tsx:24-42` declares identical copies of both helpers
but calls neither: its `onDragEnd` splices the shared column objects' arrays
in place instead. The model has one definition of each helper.

The model is split into five modules:

- `Decimal` renders integers the way a JavaScript template literal does
  below 10^21.
  Every generated id and label is built with it.
- `JsArray` models `Array.prototype.splice`, including its clamping of the
  start position, and `Array.prototype.at`, including negative indices.
  It also gives the index-wise deletion and insertion that a splice
  performs when its indices are in range.
- `Items` holds the item record, the drop event, `generateItems` and
  `reorder`.
- `MultiColumnBoard` specifies the board on values, with functions over
  `seq<Column>`. It implements the board with the `Board` class, whose
  columns are `ColumnObject`s. `onDragEnd` and `handleAddItem` copy only the
  outer array and then change a column object's `items` in place, as the
  source does. Each method is proved to leave `Contents()` equal to the
  value-level function of the old contents. The facts about the board are
  then proved about those functions.
- `ProofOfConcept` specifies a drop with `Step`, a series of drops with
  `Replay`, and implements the component's state with the `TwoColumnBoard`
  class.

Behaviour of the code worth knowing:

- Item ids in `MultiColumnBoard` are not unique. A new item's id writes the
  column's item count and the column index side by side
  (`item${itemsLength}${columnIndex}`). Item 1 of the column at index 11 and
  item 11 of the column at index 1 are therefore equal items, with the same
  id `item111` and the same content (`NewItemIdsCollide`). Moving an
  item away and adding another one regenerates the same id
  (`RegeneratedIdAfterMove`). The model proves these collisions. It does
  not claim uniqueness for that board. It does prove uniqueness for
  `ProofOfConcept`, whose items are only relocated.
- The board's state is not copied deeply. `onDragEnd` and `handleAddItem`
  copy the outer array and then change the nested item arrays in place. The
  `Board` class models the column objects as shared, mutable objects for
  this reason.
- `onDragEnd` on a column id that is not on the board throws a `TypeError`
  (it indexes the array with -1). The model requires both ids to name
  columns (`Resolves`).
- Indices outside a list do not throw. `splice` clamps them, so a drop from
  past the end of a column moves nothing. `at` accepts negative indices, so
  `handleAddItem(-1)` adds to the last column, and the new item's id
  contains `-1`.

## Model

| member | source | states |
|---|---|---|
| `Decimal.NatToString` | src/ProofOfConcept.tsx:25 | a non-empty string of digits that starts with `0` exactly when the number is 0, and 0 is written `0`: no leading zeros |
| `Decimal.DigitsValueOfNatToString` | src/ProofOfConcept.tsx:25 | reading the numeral back gives the number |
| `Decimal.NatToStringInjective` | src/ProofOfConcept.tsx:25 | two numbers have the same numeral if and only if they are equal |
| `Decimal.PrefixedNumeralInjective` | src/MultiColumnBoard.tsx:75 | a fixed prefix followed by a numeral still determines the number, in both directions |
| `Decimal.IntToString` | src/MultiColumnBoard.tsx:86 | a non-empty string that starts with `-` exactly for a negative integer; after the sign comes the canonical numeral `NatToString` of the absolute value, whose digits read back as it |
| `JsArray.SpliceStart` | src/MultiColumnBoard.tsx:61-64 | the start position of `splice`: counted from the end when negative, then clamped to the length, in each of four cases |
| `JsArray.Splice` | src/MultiColumnBoard.tsx:61-64 | how many elements come out, the new length, and that the new array and the removed ones hold exactly the old elements plus the inserted ones; where they go is given by the lemmas below |
| `JsArray.RemoveAt` | src/MultiColumnBoard.tsx:64 | one element shorter; elements before `i` stay, later ones shift down by one |
| `JsArray.InsertAt` | src/MultiColumnBoard.tsx:61-63 | one element longer with `x` at `i`; elements before `i` stay, later ones shift up by one |
| `JsArray.RemoveAtInsertAt` | src/MultiColumnBoard.tsx:61-64 | deleting an inserted element gives the original list |
| `JsArray.InsertAtRemoveAt` | src/MultiColumnBoard.tsx:61-64 | putting a deleted element back at its place gives the original list |
| `JsArray.MultisetRemoveAt` | src/MultiColumnBoard.tsx:64 | deletion removes exactly one occurrence of the deleted element |
| `JsArray.MultisetInsertAt` | src/MultiColumnBoard.tsx:61-63 | insertion adds exactly one occurrence of the inserted element |
| `JsArray.SpliceDeleteOne` | src/MultiColumnBoard.tsx:64 | in range, `splice(i, 1)` deletes the element at `i` and returns exactly it |
| `JsArray.SpliceDeleteNone` | src/MultiColumnBoard.tsx:64 | at or past the end, or on an empty array, `splice(i, 1)` changes nothing and returns nothing |
| `JsArray.SpliceInsertOne` | src/MultiColumnBoard.tsx:61-63 | in range, `splice(i, 0, x)` inserts `x` at `i` |
| `JsArray.SpliceDeleteAtStart` | src/MultiColumnBoard.tsx:64 | for any start that lands on an element, negative ones counted from the end, `splice(start, 1)` deletes exactly the element at the clamped start and returns it |
| `JsArray.SpliceInsertAtStart` | src/MultiColumnBoard.tsx:61-63 | for any start, `splice(start, 0, x)` inserts `x` at the clamped start |
| `JsArray.SpliceInsertNothing` | src/MultiColumnBoard.tsx:61-63 | `splice(i, 0)` with nothing to insert leaves the array as it was |
| `JsArray.AtIndex` | src/MultiColumnBoard.tsx:84-85 | `at` finds an element exactly when `-length <= index < length`; the position found is in range and equals the index modulo the length |
| `Items.GeneratedId` | src/ProofOfConcept.tsx:25 | `item` followed by digits that read back as `k` |
| `Items.GeneratedContent` | src/ProofOfConcept.tsx:25 | `Item ` followed by digits that read back as `k` |
| `Items.GenerateItems` | src/ProofOfConcept.tsx:24-25 | `length` items; item `k` has id `item${k}` and content `Item ${k}` |
| `Items.GeneratedIdsDistinct` | src/ProofOfConcept.tsx:24-25 | the generated items have pairwise distinct ids |
| `Items.IdsDistinctOccursOnce` | src/ProofOfConcept.tsx:24-25 | in a list with distinct ids an item occurs at most once |
| `Items.RepeatedOccursTwice` | src/ProofOfConcept.tsx:24-25 | an item at two positions occurs at least twice |
| `Items.PermutationKeepsIdsDistinct` | src/ProofOfConcept.tsx:33-41 | a rearrangement of a list with distinct ids has distinct ids |
| `Items.Reorder` | src/ProofOfConcept.tsx:27-42 | for any indices, no item is lost or duplicated across the two lists, and the total length is kept |
| `Items.ReorderInRange` | src/ProofOfConcept.tsx:33-41 | with indices in range, the source loses exactly the item at `sourceIndex` and the destination gains it at `destinationIndex` |
| `Items.ReorderSourcePastEnd` | src/ProofOfConcept.tsx:39 | a source index at or past the end, or an empty source, leaves both lists as they were |
| `Items.ReorderAtSpliceStarts` | src/ProofOfConcept.tsx:33-41 | for any indices whose clamped source position lands on an element (a negative index counts from the end), that element leaves the source and lands at the clamped destination position |
| `Items.ReorderKeepsOrder` | src/ProofOfConcept.tsx:36-40 | the items left in the source and those already in the destination keep their order |
| `MultiColumnBoard.ColumnLabelsReadBack` | src/MultiColumnBoard.tsx:75-76 | `ColumnId(n)` is `column` and `ColumnName(n)` is `Column `, each followed by digits that read back as `n` |
| `MultiColumnBoard.WellNumberedIdsDistinct` | src/MultiColumnBoard.tsx:75 | columns numbered 1, 2, ... have distinct ids |
| `MultiColumnBoard.FindIndex` | src/MultiColumnBoard.tsx:54-59 | -1 exactly when no column has the id; otherwise the first column with that id |
| `MultiColumnBoard.FindIndexOfOwnId` | src/MultiColumnBoard.tsx:54-59 | with distinct ids, looking up a column's id finds that column |
| `MultiColumnBoard.BoardItemsUpdate` | src/MultiColumnBoard.tsx:61-65 | replacing one column's items trades its old items for the new ones on the board |
| `MultiColumnBoard.MoveItem` | src/MultiColumnBoard.tsx:61-65 | keeps the number of columns and every column's id and name; only the two named columns can change |
| `MultiColumnBoard.MoveItemConservesItems` | src/MultiColumnBoard.tsx:61-65 | for any indices, the board holds the same items before and after a move |
| `MultiColumnBoard.MoveItemAcrossColumns` | src/MultiColumnBoard.tsx:61-65 | between two columns with indices in range, the source column loses the item at `sourceIndex` and the destination column gets it at `destinationIndex` |
| `MultiColumnBoard.MoveItemWithinColumn` | src/MultiColumnBoard.tsx:61-65 | within one column, the destination index counts after the removal; the column is a permutation of itself, the item lands at the destination index and the others keep their order |
| `MultiColumnBoard.DragEnd` | src/MultiColumnBoard.tsx:47-70 | keeps the number of columns, their ids and names; a cancelled drop leaves the board unchanged |
| `MultiColumnBoard.DragEndConservesItems` | src/MultiColumnBoard.tsx:47-70 | a drop neither loses nor duplicates an item |
| `MultiColumnBoard.DragEndKeepsNumbering` | src/MultiColumnBoard.tsx:47-70 | a drop keeps the column numbering |
| `MultiColumnBoard.DragEndAcrossColumns` | src/MultiColumnBoard.tsx:53-65 | the column named by the source id loses the dragged item, the column named by the destination id gets it at the destination index, every other column is unchanged |
| `MultiColumnBoard.DragEndWithinColumn` | src/MultiColumnBoard.tsx:53-65 | a drop inside one column permutes that column and leaves the others unchanged |
| `MultiColumnBoard.AppendColumn` | src/MultiColumnBoard.tsx:72-80 | the old columns stay as a prefix, followed by an empty column with the next number's id and name |
| `MultiColumnBoard.AppendColumnKeepsNumbering` | src/MultiColumnBoard.tsx:75-76 | adding a column keeps the numbering and so the column ids distinct |
| `MultiColumnBoard.AppendColumnKeepsItems` | src/MultiColumnBoard.tsx:72-80 | adding a column does not change the items on the board |
| `MultiColumnBoard.NewItemParts` | src/MultiColumnBoard.tsx:86-87 | `NewItem`'s id is `item`, then the numeral of the item count, then the numeral of the column index (with its sign), each reading back as its number; the content is `Item ` followed by the same characters |
| `MultiColumnBoard.AppendItem` | src/MultiColumnBoard.tsx:82-90 | keeps the number of columns and every column's id and name |
| `MultiColumnBoard.AppendItemResolved` | src/MultiColumnBoard.tsx:84-88 | when `at` finds column `k`, exactly that column grows, by one item at its end whose id is `item${itemsLength}${columnIndex}`, and the board gains exactly that item |
| `MultiColumnBoard.AppendItemInRange` | src/MultiColumnBoard.tsx:84-88 | for an index in range, the item is pushed onto that very column and no other column changes |
| `MultiColumnBoard.AppendItemUnresolved` | src/MultiColumnBoard.tsx:84-85 | when `at` finds no column, the board is unchanged |
| `MultiColumnBoard.NewItemIdsCollide` | src/MultiColumnBoard.tsx:86-87 | item 1 of the column at index 11 and item 11 of the column at index 1 are equal items (same id and content), with id `item111` |
| `MultiColumnBoard.RegeneratedIdAfterMove` | src/MultiColumnBoard.tsx:82-90 | add, move to another column, add again: two items `item00` are on the board |
| `MultiColumnBoard.AddFirstColumn` | src/MultiColumnBoard.tsx:72-80 | the first column added is `column1`, named `Column 1`, empty |
| `MultiColumnBoard.AddFirstItem` | src/MultiColumnBoard.tsx:82-90 | the first item added to the first column has id `item00` |
| `MultiColumnBoard.MoveFirstOfThree` | src/MultiColumnBoard.tsx:47-70 | dragging the first of three items to an empty column gives the expected two columns |
| `MultiColumnBoard.ColumnObject.constructor` | src/MultiColumnBoard.tsx:74-78 | a new column object with the given id and name and no items |
| `MultiColumnBoard.Snapshot` | src/MultiColumnBoard.tsx:45 | one value per column object, each that object's current id, name and items |
| `MultiColumnBoard.Board.constructor` | src/MultiColumnBoard.tsx:45 | the board starts with no columns, and its invariant holds |
| `MultiColumnBoard.Board.OnDragEnd` | src/MultiColumnBoard.tsx:47-70 | keeps the invariant and the column objects; the new contents are `DragEnd` of the old ones |
| `MultiColumnBoard.Board.HandleAddColumn` | src/MultiColumnBoard.tsx:72-80 | keeps the invariant, keeps the old column objects, adds one fresh object; the new contents are `AppendColumn` of the old ones |
| `MultiColumnBoard.Board.HandleAddItem` | src/MultiColumnBoard.tsx:82-90 | keeps the invariant and the column objects; the new contents are `AppendItem` of the old ones |
| `ProofOfConcept.IsForwardDrop` | src/ProofOfConcept.tsx:49-54 | the drop has a destination, goes from `column1` to `column2`, and so never starts and ends in the same column |
| `ProofOfConcept.Step` | src/ProofOfConcept.tsx:48-66 | no item lost or duplicated, total length kept; any drop other than `column1` to `column2` changes nothing |
| `ProofOfConcept.StepForwardInRange` | src/ProofOfConcept.tsx:55-62 | a forward drop in range shrinks `column1` by one and grows `column2` by one; `column1[source.index]` lands at `column2[destination.index]`, and both lists keep the order of their other items |
| `ProofOfConcept.StepForwardPastEnd` | src/ProofOfConcept.tsx:55-62 | a forward drop from at or past the end of `column1` changes nothing |
| `ProofOfConcept.ReplayKeepsItems` | src/ProofOfConcept.tsx:45-62 | over any series of drops, the two columns together hold the same items |
| `ProofOfConcept.HoldsGeneratedItemsConsequences` | src/ProofOfConcept.tsx:45-46 | columns holding exactly the generated items hold ten items in all, with pairwise distinct ids |
| `ProofOfConcept.ReplayFromInitialState` | src/ProofOfConcept.tsx:45-62 | from the initial state, after any series of drops, the columns hold exactly `generateItems(10)`: ten items, pairwise distinct ids |
| `ProofOfConcept.InitialIds` | src/ProofOfConcept.tsx:45 | the initial `column1` runs from `item0` to `item9` |
| `ProofOfConcept.TwoColumnBoard.constructor` | src/ProofOfConcept.tsx:45-46 | `column1` is `generateItems(10)`, `column2` is empty, and the invariant holds |
| `ProofOfConcept.TwoColumnBoard.OnDragEnd` | src/ProofOfConcept.tsx:48-66 | keeps the invariant (exactly the generated items between the two columns); the new lists are `Step` of the old ones |

## Left out

- Rendering and the drag-and-drop library: all JSX, `DragDropContext`,
  `Droppable`, `Draggable`, their props, placeholders and styling. The model
  starts from the drop event the library reports.
- `ResponderProvided`, the second argument of `onDragEnd`. It is never used.
- `console.log("wait")`. It has no effect on the state.
- `src/index.tsx`, the mounting of the components, and the React event objects
  passed to the click handlers. The model has no use for them.
- React's state scheduling. `setColumns`, `setColumn1` and `setColumn2` are
  modelled as taking effect immediately, one event at a time.
- `Decimal.IntToString` and `Decimal.NatToString` write every integer in plain
  decimal. JavaScript switches to exponent form (`1e+21`) from 10^21 on. No
  path of the board reaches such a number: array lengths stay below 2^32,
  and `at` finds no column at such an index.
- JavaScript numbers that are not integers. Indices are modelled as
  unbounded integers. The truncation that `splice` and `at` apply to a
  fractional index is not modelled.
- `MultiColumnBoard.Board.OnDragEnd`: a column id that is not on the board
  makes the source throw a `TypeError`. The model requires both ids to
  resolve instead of modelling the exception.
- `MultiColumnBoard.Board.OnDragEnd` and `MultiColumnBoard.Board.HandleAddItem`:
  the copy `Array.from(columns)` that both handlers make is not a separate
  array in the model. A sequence of column objects is a value, so the copy
  and the original are the same sequence.
- `Array.prototype.findIndex` is modelled by the function `FindIndex`, not by
  the library's scan.
