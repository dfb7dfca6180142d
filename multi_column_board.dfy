/** The `MultiColumnBoard` component: a growing list of columns, each with
    an ordered list of items, changed by three event handlers.

    The board is specified on values (`Column` records and functions over
    `seq<Column>`), and implemented by the `Board` class, whose columns are
    objects: `onDragEnd` and `handleAddItem` copy only the outer array and
    then change the column objects' `items` arrays in place. */
module MultiColumnBoard {
  import opened Decimal
  import opened JsArray
  import opened Items

  datatype Column = Column(id: string, name: string, items: seq<Item>)

  /** `column${n}` */
  function ColumnId(n: nat): string {
    "column" + NatToString(n)
  }

  /** `Column ${n}` */
  function ColumnName(n: nat): string {
    "Column " + NatToString(n)
  }

  /** A column's id is `column` and its name `Column `, each followed by
      digits that read back as the column's number. */
  lemma ColumnLabelsReadBack(n: nat)
    ensures var id, name := ColumnId(n), ColumnName(n);
      && |id| > 6 && id[..6] == "column" && AllDigits(id[6..]) && DigitsValue(id[6..]) == n
      && |name| > 7 && name[..7] == "Column " && AllDigits(name[7..]) && DigitsValue(name[7..]) == n
  {
    var t := NatToString(n);
    DigitsValueOfNatToString(n);
    assert ColumnId(n)[6..] == t;
    assert ColumnName(n)[7..] == t;
  }

  /** The column at position `i` is column number `i + 1`, as
      `handleAddColumn` names them; columns are never removed or reordered. */
  predicate WellNumbered(columns: seq<Column>) {
    forall i :: 0 <= i < |columns| ==> columns[i].id == ColumnId(i + 1) && columns[i].name == ColumnName(i + 1)
  }

  predicate ColumnIdsDistinct(columns: seq<Column>) {
    forall i, j :: 0 <= i < j < |columns| ==> columns[i].id != columns[j].id
  }

  lemma WellNumberedIdsDistinct(columns: seq<Column>)
    requires WellNumbered(columns)
    ensures ColumnIdsDistinct(columns)
  {
    forall i, j | 0 <= i < j < |columns|
      ensures columns[i].id != columns[j].id
    {
      PrefixedNumeralInjective("column", i + 1, j + 1);
    }
  }

  predicate HasColumn(columns: seq<Column>, id: string) {
    exists i :: 0 <= i < |columns| && columns[i].id == id
  }

  /** `columns.findIndex((column) => column.id === id)`: the first position
      holding that id, or -1 when there is none. */
  function FindIndex(columns: seq<Column>, id: string): (r: int)
    ensures -1 <= r < |columns|
    ensures r == -1 <==> !HasColumn(columns, id)
    ensures 0 <= r ==> columns[r].id == id && forall i :: 0 <= i < r ==> columns[i].id != id
  {
    if columns == [] then -1
    else if columns[0].id == id then 0
    else
      var r := FindIndex(columns[1..], id);
      assert forall i :: 1 <= i < |columns| ==> columns[i] == columns[1..][i - 1];
      if r == -1 then -1 else r + 1
  }

  /** On a board whose ids are distinct, looking up a column's id finds that column. */
  lemma FindIndexOfOwnId(columns: seq<Column>, i: nat)
    requires ColumnIdsDistinct(columns) && i < |columns|
    ensures FindIndex(columns, columns[i].id) == i
  {
    assert HasColumn(columns, columns[i].id);
  }

  /** The items of all columns, column after column. */
  function Flatten(columns: seq<Column>): seq<Item> {
    if columns == [] then []
    else Flatten(columns[..|columns| - 1]) + columns[|columns| - 1].items
  }

  /** Every item on the board, counted with multiplicity. */
  function BoardItems(columns: seq<Column>): multiset<Item> {
    multiset(Flatten(columns))
  }

  /** Replacing one column's items trades that column's items for the new ones. */
  lemma {:induction false} BoardItemsUpdate(columns: seq<Column>, c: nat, items: seq<Item>)
    requires c < |columns|
    ensures BoardItems(columns[c := columns[c].(items := items)]) + multiset(columns[c].items)
         == BoardItems(columns) + multiset(items)
    decreases |columns|
  {
    var updated := columns[c := columns[c].(items := items)];
    var n := |columns|;
    var init := columns[..n - 1];
    assert BoardItems(columns) == BoardItems(init) + multiset(columns[n - 1].items);
    assert BoardItems(updated) == BoardItems(updated[..n - 1]) + multiset(updated[n - 1].items);
    assert BoardItems([]) == multiset{};
    if c == n - 1 {
      assert updated[..n - 1] == init;
    } else {
      assert updated[..n - 1] == init[c := init[c].(items := items)];
      assert updated[n - 1] == columns[n - 1];
      BoardItemsUpdate(init, c, items);
      var before, after := BoardItems(init), BoardItems(updated[..n - 1]);
      forall x
        ensures (BoardItems(updated) + multiset(columns[c].items))[x] == (BoardItems(columns) + multiset(items))[x]
      {
        assert (after + multiset(columns[c].items))[x] == (before + multiset(items))[x];
      }
    }
  }

  /** The splice-move of `onDragEnd` between the columns at positions `s` and
      `d`: one element is spliced out of column `s` at `sourceIndex` and then
      spliced into column `d`, as it is after that removal, at
      `destinationIndex`. When `s == d` the removal happens first. */
  function MoveItem(columns: seq<Column>, s: nat, sourceIndex: int, d: nat, destinationIndex: int): (r: seq<Column>)
    requires s < |columns| && d < |columns|
    ensures |r| == |columns|
    ensures forall i :: 0 <= i < |r| ==> r[i].id == columns[i].id && r[i].name == columns[i].name
    ensures forall i :: 0 <= i < |r| && i != s && i != d ==> r[i] == columns[i]
  {
    var taken := Splice(columns[s].items, sourceIndex, 1, []);
    var afterRemoval := columns[s := columns[s].(items := taken.after)];
    var put := Splice(afterRemoval[d].items, destinationIndex, 0, taken.removed);
    afterRemoval[d := afterRemoval[d].(items := put.after)]
  }

  /** Multiset bookkeeping of a move: `moved` leaves one column and joins another. */
  lemma MultisetTransfer<T>(b0: multiset<T>, b1: multiset<T>, b2: multiset<T>, src: multiset<T>,
                            kept: multiset<T>, moved: multiset<T>, dst: multiset<T>, grown: multiset<T>)
    requires b1 + src == b0 + kept && kept + moved == src
    requires b2 + dst == b1 + grown && grown == dst + moved
    ensures b2 == b0
  {
    forall x
      ensures b2[x] == b0[x]
    {
      assert (b1 + src)[x] == (b0 + kept)[x];
      assert (kept + moved)[x] == src[x];
      assert (b2 + dst)[x] == (b1 + grown)[x];
      assert grown[x] == (dst + moved)[x];
    }
  }

  /** Whatever the indices, a move neither loses nor duplicates an item. */
  lemma MoveItemConservesItems(columns: seq<Column>, s: nat, sourceIndex: int, d: nat, destinationIndex: int)
    requires s < |columns| && d < |columns|
    ensures BoardItems(MoveItem(columns, s, sourceIndex, d, destinationIndex)) == BoardItems(columns)
  {
    var taken := Splice(columns[s].items, sourceIndex, 1, []);
    var afterRemoval := columns[s := columns[s].(items := taken.after)];
    var put := Splice(afterRemoval[d].items, destinationIndex, 0, taken.removed);
    var r := afterRemoval[d := afterRemoval[d].(items := put.after)];
    assert r == MoveItem(columns, s, sourceIndex, d, destinationIndex);
    BoardItemsUpdate(columns, s, taken.after);
    BoardItemsUpdate(afterRemoval, d, put.after);
    assert put.removed == [];
    MultisetTransfer(BoardItems(columns), BoardItems(afterRemoval), BoardItems(r), multiset(columns[s].items),
      multiset(taken.after), multiset(taken.removed), multiset(afterRemoval[d].items), multiset(put.after));
  }

  /** A move between two different columns, with indices in range: the source
      column loses exactly the item at `sourceIndex`, the destination gains it
      at `destinationIndex`, and the rest of each keeps its order. */
  lemma MoveItemAcrossColumns(columns: seq<Column>, s: nat, sourceIndex: int, d: nat, destinationIndex: int)
    requires s < |columns| && d < |columns| && s != d
    requires 0 <= sourceIndex < |columns[s].items| && 0 <= destinationIndex <= |columns[d].items|
    ensures var r := MoveItem(columns, s, sourceIndex, d, destinationIndex);
      && r[s].items == RemoveAt(columns[s].items, sourceIndex)
      && r[d].items == InsertAt(columns[d].items, destinationIndex, columns[s].items[sourceIndex])
      && r[d].items[destinationIndex] == columns[s].items[sourceIndex]
  {
    SpliceDeleteOne(columns[s].items, sourceIndex);
    SpliceInsertOne(columns[d].items, destinationIndex, columns[s].items[sourceIndex]);
  }

  /** A move inside one column, with indices in range: the destination index
      counts in the list after the removal; the column's items are a
      permutation of the old ones, the moved item ends at `destinationIndex`
      and the others keep their relative order. */
  lemma MoveItemWithinColumn(columns: seq<Column>, c: nat, sourceIndex: int, destinationIndex: int)
    requires c < |columns|
    requires 0 <= sourceIndex < |columns[c].items| && 0 <= destinationIndex < |columns[c].items|
    ensures var r := MoveItem(columns, c, sourceIndex, c, destinationIndex);
      var items := columns[c].items;
      && r[c].items == InsertAt(RemoveAt(items, sourceIndex), destinationIndex, items[sourceIndex])
      && multiset(r[c].items) == multiset(items)
      && r[c].items[destinationIndex] == items[sourceIndex]
      && RemoveAt(r[c].items, destinationIndex) == RemoveAt(items, sourceIndex)
  {
    var items := columns[c].items;
    SpliceDeleteOne(items, sourceIndex);
    SpliceInsertOne(RemoveAt(items, sourceIndex), destinationIndex, items[sourceIndex]);
    MultisetRemoveAt(items, sourceIndex);
    MultisetInsertAt(RemoveAt(items, sourceIndex), destinationIndex, items[sourceIndex]);
    RemoveAtInsertAt(RemoveAt(items, sourceIndex), destinationIndex, items[sourceIndex]);
  }

  /** Both ends of a drop name existing columns. */
  predicate Resolves(columns: seq<Column>, drop: DropResult) {
    drop.destination.Some? ==>
      HasColumn(columns, drop.source.droppableId) && HasColumn(columns, drop.destination.value.droppableId)
  }

  /** `onDragEnd` on the board's value: a cancelled drop changes nothing;
      otherwise both columns are looked up by id and the item is moved. */
  function DragEnd(columns: seq<Column>, drop: DropResult): (r: seq<Column>)
    requires Resolves(columns, drop)
    ensures |r| == |columns|
    ensures forall i :: 0 <= i < |r| ==> r[i].id == columns[i].id && r[i].name == columns[i].name
    ensures drop.destination.None? ==> r == columns
  {
    match drop.destination
    case None => columns
    case Some(destination) =>
      MoveItem(columns, FindIndex(columns, drop.source.droppableId), drop.source.index,
               FindIndex(columns, destination.droppableId), destination.index)
  }

  lemma DragEndConservesItems(columns: seq<Column>, drop: DropResult)
    requires Resolves(columns, drop)
    ensures BoardItems(DragEnd(columns, drop)) == BoardItems(columns)
  {
    if drop.destination.Some? {
      MoveItemConservesItems(columns, FindIndex(columns, drop.source.droppableId), drop.source.index,
                             FindIndex(columns, drop.destination.value.droppableId), drop.destination.value.index);
    }
  }

  /** A drop keeps the column numbering (and so the distinct column ids). */
  lemma DragEndKeepsNumbering(columns: seq<Column>, drop: DropResult)
    requires Resolves(columns, drop) && WellNumbered(columns)
    ensures WellNumbered(DragEnd(columns, drop))
  {
  }

  /** The drop seen from the columns it names: on a well-numbered board the
      column with the source id loses the dragged item, the column with the
      destination id gets it at the destination index, and every other
      column is left as it was. */
  lemma DragEndAcrossColumns(columns: seq<Column>, drop: DropResult, s: nat, d: nat)
    requires WellNumbered(columns) && s < |columns| && d < |columns| && s != d
    requires drop.destination.Some?
    requires drop.source.droppableId == columns[s].id && drop.destination.value.droppableId == columns[d].id
    requires 0 <= drop.source.index < |columns[s].items|
    requires 0 <= drop.destination.value.index <= |columns[d].items|
    ensures var r := DragEnd(columns, drop);
      var moved := columns[s].items[drop.source.index];
      && r[s].items == RemoveAt(columns[s].items, drop.source.index)
      && r[d].items == InsertAt(columns[d].items, drop.destination.value.index, moved)
      && (forall i :: 0 <= i < |r| && i != s && i != d ==> r[i] == columns[i])
  {
    WellNumberedIdsDistinct(columns);
    FindIndexOfOwnId(columns, s);
    FindIndexOfOwnId(columns, d);
    MoveItemAcrossColumns(columns, s, drop.source.index, d, drop.destination.value.index);
  }

  /** A drop that starts and ends in the same column permutes its items. */
  lemma DragEndWithinColumn(columns: seq<Column>, drop: DropResult, c: nat)
    requires WellNumbered(columns) && c < |columns|
    requires drop.destination.Some?
    requires drop.source.droppableId == columns[c].id && drop.destination.value.droppableId == columns[c].id
    requires 0 <= drop.source.index < |columns[c].items|
    requires 0 <= drop.destination.value.index < |columns[c].items|
    ensures var r := DragEnd(columns, drop);
      var items := columns[c].items;
      && r[c].items == InsertAt(RemoveAt(items, drop.source.index), drop.destination.value.index, items[drop.source.index])
      && multiset(r[c].items) == multiset(items)
      && (forall i :: 0 <= i < |r| && i != c ==> r[i] == columns[i])
  {
    WellNumberedIdsDistinct(columns);
    FindIndexOfOwnId(columns, c);
    MoveItemWithinColumn(columns, c, drop.source.index, drop.destination.value.index);
  }

  /** `handleAddColumn` on the board's value: `columns.concat(...)` with the
      next column number. */
  function AppendColumn(columns: seq<Column>): (r: seq<Column>)
    ensures |r| == |columns| + 1 && r[..|columns|] == columns
    ensures r[|columns|] == Column(ColumnId(|columns| + 1), ColumnName(|columns| + 1), [])
  {
    columns + [Column(ColumnId(|columns| + 1), ColumnName(|columns| + 1), [])]
  }

  lemma AppendColumnKeepsNumbering(columns: seq<Column>)
    requires WellNumbered(columns)
    ensures WellNumbered(AppendColumn(columns)) && ColumnIdsDistinct(AppendColumn(columns))
  {
    WellNumberedIdsDistinct(AppendColumn(columns));
  }

  lemma AppendColumnKeepsItems(columns: seq<Column>)
    ensures BoardItems(AppendColumn(columns)) == BoardItems(columns)
  {
    assert AppendColumn(columns)[..|columns|] == columns;
  }

  /** The item `handleAddItem` pushes: `item${itemsLength}${columnIndex}`,
      `Item ${itemsLength}${columnIndex}`. The id is `item`, then the numeral
      of the item count, then that of the column index; the content shows the
      same characters after `Item `. */
  function NewItem(itemsLength: nat, columnIndex: int): Item {
    Item("item" + NatToString(itemsLength) + IntToString(columnIndex),
         "Item " + NatToString(itemsLength) + IntToString(columnIndex))
  }

  /** A new item's id splits into `item`, the numeral of the item count and
      the numeral of the column index, which read back as those two numbers;
      its content is `Item ` followed by the same characters. */
  lemma NewItemParts(itemsLength: nat, columnIndex: int)
    ensures |NewItem(itemsLength, columnIndex).id|
         == 4 + |NatToString(itemsLength)| + |IntToString(columnIndex)|
    ensures NewItem(itemsLength, columnIndex).id[..4] == "item"
    ensures NewItem(itemsLength, columnIndex).id[4..4 + |NatToString(itemsLength)|] == NatToString(itemsLength)
    ensures NewItem(itemsLength, columnIndex).id[4 + |NatToString(itemsLength)|..] == IntToString(columnIndex)
    ensures DigitsValue(NatToString(itemsLength)) == itemsLength
    ensures columnIndex >= 0 ==> DigitsValue(IntToString(columnIndex)) == columnIndex
    ensures columnIndex < 0 ==> IntToString(columnIndex)[0] == '-' && DigitsValue(IntToString(columnIndex)[1..]) == -columnIndex
    ensures NewItem(itemsLength, columnIndex).content == "Item " + NewItem(itemsLength, columnIndex).id[4..]
  {
    DigitsValueOfNatToString(itemsLength);
    ConcatParts("item", NatToString(itemsLength), IntToString(columnIndex));
    ConcatParts("Item ", NatToString(itemsLength), IntToString(columnIndex));
  }

  /** The three parts of `p + a + b` can be cut back out of it. */
  lemma ConcatParts<T>(p: seq<T>, a: seq<T>, b: seq<T>)
    ensures var s := p + a + b;
      && |s| == |p| + |a| + |b| && s[..|p|] == p
      && s[|p|..|p| + |a|] == a && s[|p| + |a|..] == b && s[|p|..] == a + b
  {
    var s := p + a + b;
    assert s[|p|..] == a + b;
    assert (a + b)[..|a|] == a && (a + b)[|a|..] == b;
  }

  /** `handleAddItem(columnIndex)` on the board's value: `columns.at(columnIndex)`
      picks the column (negative indices count from the end); when it finds
      none, nothing happens. */
  function AppendItem(columns: seq<Column>, columnIndex: int): (r: seq<Column>)
    ensures |r| == |columns|
    ensures forall i :: 0 <= i < |r| ==> r[i].id == columns[i].id && r[i].name == columns[i].name
  {
    match AtIndex(|columns|, columnIndex)
    case None => columns
    case Some(k) =>
      var items := columns[k].items;
      columns[k := columns[k].(items := items + [NewItem(|items|, columnIndex)])]
  }

  /** When `columns.at(columnIndex)` finds column `k`, exactly that column
      grows, by one item at its end named after its old length. */
  lemma AppendItemResolved(columns: seq<Column>, columnIndex: int, k: nat)
    requires AtIndex(|columns|, columnIndex) == Some(k)
    ensures var r := AppendItem(columns, columnIndex);
      && |r[k].items| == |columns[k].items| + 1
      && r[k].items[..|columns[k].items|] == columns[k].items
      && r[k].items[|columns[k].items|] == NewItem(|columns[k].items|, columnIndex)
      && r[k].items[|columns[k].items|].id
         == "item" + NatToString(|columns[k].items|) + IntToString(columnIndex)
      && (forall i :: 0 <= i < |r| && i != k ==> r[i] == columns[i])
      && BoardItems(r) == BoardItems(columns) + multiset{NewItem(|columns[k].items|, columnIndex)}
  {
    var items := columns[k].items;
    var pushed := items + [NewItem(|items|, columnIndex)];
    assert pushed[..|items|] == items;
    BoardItemsUpdate(columns, k, pushed);
    var r := AppendItem(columns, columnIndex);
    assert r == columns[k := columns[k].(items := pushed)];
    forall x
      ensures BoardItems(r)[x] == (BoardItems(columns) + multiset{NewItem(|items|, columnIndex)})[x]
    {
      assert (BoardItems(r) + multiset(items))[x] == (BoardItems(columns) + multiset(pushed))[x];
      assert multiset(pushed)[x] == (multiset(items) + multiset{NewItem(|items|, columnIndex)})[x];
    }
  }

  /** For `0 <= i < |columns|` the column found is column `i` itself. */
  lemma AppendItemInRange(columns: seq<Column>, i: nat)
    requires i < |columns|
    ensures var r := AppendItem(columns, i);
      && r[i].items == columns[i].items + [NewItem(|columns[i].items|, i)]
      && (forall j :: 0 <= j < |r| && j != i ==> r[j] == columns[j])
  {
    AppendItemResolved(columns, i, i);
  }

  /** When `columns.at(columnIndex)` is undefined the board is unchanged. */
  lemma AppendItemUnresolved(columns: seq<Column>, columnIndex: int)
    requires columnIndex >= |columns| || columnIndex < -|columns|
    ensures AppendItem(columns, columnIndex) == columns
  {
  }

  /** Item ids are not unique: the two numbers of a new item's id are written
      side by side, so item 1 of the column at index 11 and item 11 of the
      column at index 1 are equal items (same id and content). */
  lemma NewItemIdsCollide()
    ensures NewItem(1, 11) == NewItem(11, 1)
    ensures NewItem(1, 11).id == "item111"
  {
    assert NatToString(1) == "1";
    assert NatToString(11) == NatToString(1) + [DigitChar(1)] == "11";
  }

  /** Item ids are not unique after a move either: on a board whose first
      column is empty, adding an item to it, dragging that item to the top of
      the second column and adding another one to the first column gives two
      items `NewItem(0, 0)`, both with id `item00`. */
  lemma RegeneratedIdAfterMove(columns: seq<Column>)
    requires WellNumbered(columns) && |columns| >= 2 && columns[0].items == []
    ensures var added := AppendItem(columns, 0);
      var drop := DropResult(DraggableLocation(columns[0].id, 0), Some(DraggableLocation(columns[1].id, 0)));
      && Resolves(added, drop)
      && var again := AppendItem(DragEnd(added, drop), 0);
      && again[0].items == [NewItem(0, 0)]
      && again[1].items[0] == NewItem(0, 0)
  {
    var added := AppendItem(columns, 0);
    var drop := DropResult(DraggableLocation(columns[0].id, 0), Some(DraggableLocation(columns[1].id, 0)));
    AppendItemInRange(columns, 0);
    assert added[0].items == [NewItem(0, 0)];
    assert added[0].id == columns[0].id && added[1].id == columns[1].id;
    assert Resolves(added, drop);
    DragEndAcrossColumns(added, drop, 0, 1);
    var moved := DragEnd(added, drop);
    assert moved[0].items == [];
    assert moved[1].items[0] == NewItem(0, 0);
    AppendItemInRange(moved, 0);
  }

  /** `addColumn` on an empty board gives column 1, named "Column 1". */
  lemma AddFirstColumn()
    ensures AppendColumn([]) == [Column("column1", "Column 1", [])]
  {
    assert NatToString(1) == "1";
    assert ColumnId(1) == "column" + "1" == "column1";
    assert ColumnName(1) == "Column " + "1" == "Column 1";
  }

  /** `addItem(0)` on a board with one empty column adds `item00`. */
  lemma AddFirstItem()
    ensures var r := AppendItem([Column("column1", "Column 1", [])], 0);
      |r[0].items| == 1 && r[0].items[0].id == "item00"
  {
    assert NatToString(0) == "0";
  }

  /** Moving the first of three items of column `c1` to the empty column `c2`. */
  lemma MoveFirstOfThree(a: Item, b: Item, c: Item)
    ensures var columns := [Column("c1", "C1", [a, b, c]), Column("c2", "C2", [])];
      var drop := DropResult(DraggableLocation("c1", 0), Some(DraggableLocation("c2", 0)));
      && Resolves(columns, drop)
      && DragEnd(columns, drop) == [Column("c1", "C1", [b, c]), Column("c2", "C2", [a])]
  {
    var columns := [Column("c1", "C1", [a, b, c]), Column("c2", "C2", [])];
    assert columns[0].id == "c1" && columns[1].id == "c2";
    assert FindIndex(columns, "c1") == 0;
    assert FindIndex(columns, "c2") == 1;
    MoveItemAcrossColumns(columns, 0, 0, 1, 0);
    var r := DragEnd(columns, DropResult(DraggableLocation("c1", 0), Some(DraggableLocation("c2", 0))));
    assert r == MoveItem(columns, 0, 0, 1, 0);
    assert RemoveAt([a, b, c], 0) == [b, c];
    assert InsertAt([], 0, a) == [a];
    assert r[0] == Column("c1", "C1", [b, c]) && r[1] == Column("c2", "C2", [a]);
  }

  /** A column as the component holds it: an object whose `items` array the
      handlers change in place, shared between the old and new state. */
  class ColumnObject {
    const id: string
    const name: string
    var items: seq<Item>

    constructor (id: string, name: string)
      ensures this.id == id && this.name == name && items == []
    {
      this.id := id;
      this.name := name;
      items := [];
    }

    function Value(): Column
      reads this
    {
      Column(id, name, items)
    }
  }

  /** The values the column objects hold now. */
  function Snapshot(cs: seq<ColumnObject>): (r: seq<Column>)
    reads cs
    ensures |r| == |cs| && forall i :: 0 <= i < |cs| ==> r[i] == cs[i].Value()
  {
    seq(|cs|, i requires 0 <= i < |cs| reads cs => cs[i].Value())
  }

  /** The state of `MultiColumnBoard`: `columns`, the array `setColumns` replaces. */
  class Board {
    var columns: seq<ColumnObject>

    /** No column object appears twice, and the columns are numbered 1, 2, ... */
    ghost predicate Valid()
      reads this, columns
    {
      && (forall i, j :: 0 <= i < |columns| && 0 <= j < |columns| && i != j ==> columns[i] != columns[j])
      && WellNumbered(Snapshot(columns))
    }

    ghost function Contents(): seq<Column>
      reads this, columns
    {
      Snapshot(columns)
    }

    /** `useState<Column[]>([])` */
    constructor ()
      ensures Valid() && Contents() == []
    {
      columns := [];
    }

    /** `onDragEnd`. The source throws when a column id is not found, so both
        ids must name columns. */
    method OnDragEnd(drop: DropResult)
      requires Valid() && Resolves(Contents(), drop)
      modifies columns
      ensures Valid() && columns == old(columns)
      ensures Contents() == DragEnd(old(Contents()), drop)
    {
      if drop.destination.None? {
        return;
      }
      var destination := drop.destination.value;
      ghost var before := Contents();
      var sourceColumnIndex := FindIndex(Snapshot(columns), drop.source.droppableId);
      var destinationColumnIndex := FindIndex(Snapshot(columns), destination.droppableId);
      var taken := Splice(columns[sourceColumnIndex].items, drop.source.index, 1, []);
      columns[sourceColumnIndex].items := taken.after;
      ghost var afterRemoval := before[sourceColumnIndex := before[sourceColumnIndex].(items := taken.after)];
      forall i | 0 <= i < |columns|
        ensures Contents()[i] == afterRemoval[i]
      {
        if i != sourceColumnIndex {
          assert columns[i] != columns[sourceColumnIndex];
        }
      }
      var put := Splice(columns[destinationColumnIndex].items, destination.index, 0, taken.removed);
      columns[destinationColumnIndex].items := put.after;
      ghost var afterInsertion := afterRemoval[destinationColumnIndex := afterRemoval[destinationColumnIndex].(items := put.after)];
      forall i | 0 <= i < |columns|
        ensures Contents()[i] == afterInsertion[i]
      {
        if i != destinationColumnIndex {
          assert columns[i] != columns[destinationColumnIndex];
        }
      }
      assert Contents() == afterInsertion;
    }

    /** `handleAddColumn`: appends a fresh, empty column object. */
    method HandleAddColumn()
      requires Valid()
      modifies this
      ensures Valid()
      ensures |columns| == |old(columns)| + 1 && columns[..|old(columns)|] == old(columns)
      ensures fresh(columns[|old(columns)|])
      ensures Contents() == AppendColumn(old(Contents()))
    {
      var n := |columns|;
      ghost var before := Contents();
      var column := new ColumnObject(ColumnId(n + 1), ColumnName(n + 1));
      columns := columns + [column];
      assert forall i :: 0 <= i < n ==> columns[i].Value() == before[i];
      assert Contents() == AppendColumn(before);
    }

    /** `handleAddItem(columnIndex)`: pushes onto the items array of the
        column that `columns.at(columnIndex)` finds, if any. */
    method HandleAddItem(columnIndex: int)
      requires Valid()
      modifies columns
      ensures Valid() && columns == old(columns)
      ensures Contents() == AppendItem(old(Contents()), columnIndex)
    {
      match AtIndex(|columns|, columnIndex)
      case None =>
      case Some(k) =>
        ghost var before := Contents();
        var itemsLength := |columns[k].items|;
        var item := NewItem(itemsLength, columnIndex);
        columns[k].items := columns[k].items + [item];
        ghost var after := before[k := before[k].(items := before[k].items + [item])];
        forall i | 0 <= i < |columns|
          ensures Contents()[i] == after[i]
        {
          if i != k {
            assert columns[i] != columns[k];
          }
        }
        assert Contents() == after;
    }
  }
}
