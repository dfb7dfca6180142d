/** The `Item` record and the drop event the drag-and-drop library reports,
    which both board components use, and the helpers `generateItems` and
    `reorder` that `ProofOfConcept` calls (`MultiColumnBoard` declares an
    identical copy of both but calls neither). */
module Items {
  import opened Decimal
  import opened JsArray

  datatype Item = Item(id: string, content: string)

  /** One end of a drop: the id of the column and the position in it. */
  datatype DraggableLocation = DraggableLocation(droppableId: string, index: int)

  /** A finished drop; `destination` is absent when the drop was cancelled. */
  datatype DropResult = DropResult(source: DraggableLocation, destination: Option<DraggableLocation>)

  /** `item${k}`: the prefix `item`, then digits that read back as `k`. */
  function GeneratedId(k: nat): (s: string)
    ensures |s| > 4 && s[..4] == "item"
    ensures AllDigits(s[4..]) && DigitsValue(s[4..]) == k
  {
    var t := NatToString(k);
    DigitsValueOfNatToString(k);
    assert ("item" + t)[4..] == t;
    "item" + t
  }

  /** `Item ${k}`: the prefix `Item `, then digits that read back as `k`. */
  function GeneratedContent(k: nat): (s: string)
    ensures |s| > 5 && s[..5] == "Item "
    ensures AllDigits(s[5..]) && DigitsValue(s[5..]) == k
  {
    var t := NatToString(k);
    DigitsValueOfNatToString(k);
    assert ("Item " + t)[5..] == t;
    "Item " + t
  }

  /** `generateItems(length)`: the items numbered 0 to length - 1, in order. */
  function GenerateItems(length: nat): (r: seq<Item>)
    ensures |r| == length
    ensures forall k :: 0 <= k < length ==> r[k] == Item(GeneratedId(k), GeneratedContent(k))
  {
    seq(length, k requires 0 <= k < length => Item(GeneratedId(k), GeneratedContent(k)))
  }

  predicate IdsDistinct(s: seq<Item>) {
    forall i, j :: 0 <= i < j < |s| ==> s[i].id != s[j].id
  }

  lemma GeneratedIdsDistinct(length: nat)
    ensures IdsDistinct(GenerateItems(length))
  {
    var s := GenerateItems(length);
    forall i, j | 0 <= i < j < length
      ensures s[i].id != s[j].id
    {
      PrefixedNumeralInjective("item", i, j);
    }
  }

  /** An item occurs at most once in a list whose ids are distinct. */
  lemma {:induction false} IdsDistinctOccursOnce(s: seq<Item>, x: Item)
    requires IdsDistinct(s)
    ensures multiset(s)[x] <= 1
    decreases |s|
  {
    if s != [] {
      var init := s[..|s| - 1];
      assert s == init + [s[|s| - 1]];
      assert IdsDistinct(init);
      IdsDistinctOccursOnce(init, x);
      if s[|s| - 1] == x {
        assert forall k :: 0 <= k < |init| ==> init[k] != x;
        assert x !in multiset(init);
      }
    }
  }

  /** Two positions holding the same item make it occur twice. */
  lemma RepeatedOccursTwice(s: seq<Item>, i: nat, j: nat)
    requires i < j < |s| && s[i] == s[j]
    ensures multiset(s)[s[i]] >= 2
  {
    assert s == s[..j] + s[j..];
    assert s[i] in s[..j];
    assert s[j] == s[j..][0];
    assert multiset(s) == multiset(s[..j]) + multiset(s[j..]);
  }

  /** Rearranging a list (the same items, counted with multiplicity) keeps its
      ids distinct. */
  lemma PermutationKeepsIdsDistinct(s: seq<Item>, t: seq<Item>)
    requires multiset(s) == multiset(t) && IdsDistinct(t)
    ensures IdsDistinct(s)
  {
    forall i, j | 0 <= i < j < |s|
      ensures s[i].id != s[j].id
    {
      if s[i] == s[j] {
        RepeatedOccursTwice(s, i, j);
        IdsDistinctOccursOnce(t, s[i]);
      } else {
        assert s[i] in multiset(t) && s[j] in multiset(t);
        var p :| 0 <= p < |t| && t[p] == s[i];
        var q :| 0 <= q < |t| && t[q] == s[j];
        assert p != q;
        if p < q { assert t[p].id != t[q].id; } else { assert t[q].id != t[p].id; }
      }
    }
  }

  /** `reorder`: on copies of both lists, `splice` one element out of the
      source at `sourceIndex` and splice what came out into the destination
      at `destinationIndex`; returns both copies. */
  function Reorder(sourceColumn: seq<Item>, destinationColumn: seq<Item>,
                   sourceIndex: int, destinationIndex: int): (r: (seq<Item>, seq<Item>))
    // Nothing is lost or duplicated, whatever the indices.
    ensures multiset(r.0) + multiset(r.1) == multiset(sourceColumn) + multiset(destinationColumn)
    ensures |r.0| + |r.1| == |sourceColumn| + |destinationColumn|
  {
    var taken := Splice(sourceColumn, sourceIndex, 1, []);
    var put := Splice(destinationColumn, destinationIndex, 0, taken.removed);
    assert put.removed == [];
    assert multiset(put.after) == multiset(destinationColumn) + multiset(taken.removed);
    assert multiset(taken.after) + multiset(taken.removed) == multiset(sourceColumn);
    assert multiset(taken.after) + multiset(put.after) == multiset(sourceColumn) + multiset(destinationColumn);
    (taken.after, put.after)
  }

  /** In range, exactly the element at `sourceIndex` leaves the source and
      lands at `destinationIndex` of the destination. */
  lemma ReorderInRange(sourceColumn: seq<Item>, destinationColumn: seq<Item>,
                       sourceIndex: int, destinationIndex: int)
    requires 0 <= sourceIndex < |sourceColumn| && 0 <= destinationIndex <= |destinationColumn|
    ensures var r := Reorder(sourceColumn, destinationColumn, sourceIndex, destinationIndex);
      && |r.0| == |sourceColumn| - 1 && |r.1| == |destinationColumn| + 1
      && r.1[destinationIndex] == sourceColumn[sourceIndex]
      && r.0 == RemoveAt(sourceColumn, sourceIndex)
      && r.1 == InsertAt(destinationColumn, destinationIndex, sourceColumn[sourceIndex])
  {
    SpliceDeleteOne(sourceColumn, sourceIndex);
    SpliceInsertOne(destinationColumn, destinationIndex, sourceColumn[sourceIndex]);
  }

  /** `splice` at or past the end of the source (or on an empty source)
      removes nothing, so both lists come back as they were. */
  lemma ReorderSourcePastEnd(sourceColumn: seq<Item>, destinationColumn: seq<Item>,
                             sourceIndex: int, destinationIndex: int)
    requires sourceColumn == [] || sourceIndex >= |sourceColumn|
    ensures Reorder(sourceColumn, destinationColumn, sourceIndex, destinationIndex) == (sourceColumn, destinationColumn)
  {
    SpliceDeleteNone(sourceColumn, sourceIndex);
    SpliceInsertNothing(destinationColumn, destinationIndex);
  }

  /** For any indices whose clamped source position lands on an element
      (a negative index counts back from the end), that element leaves the
      source and lands at the clamped destination position. */
  lemma ReorderAtSpliceStarts(sourceColumn: seq<Item>, destinationColumn: seq<Item>,
                              sourceIndex: int, destinationIndex: int)
    requires SpliceStart(sourceIndex, |sourceColumn|) < |sourceColumn|
    ensures var k := SpliceStart(sourceIndex, |sourceColumn|);
      var r := Reorder(sourceColumn, destinationColumn, sourceIndex, destinationIndex);
      && r.0 == RemoveAt(sourceColumn, k)
      && r.1 == InsertAt(destinationColumn, SpliceStart(destinationIndex, |destinationColumn|), sourceColumn[k])
  {
    var k := SpliceStart(sourceIndex, |sourceColumn|);
    SpliceDeleteAtStart(sourceColumn, sourceIndex);
    SpliceInsertAtStart(destinationColumn, destinationIndex, sourceColumn[k]);
  }

  /** In range, what stays in the source keeps its order, and so do the items
      that were already in the destination: deleting the moved item from the
      new destination gives the old one back. */
  lemma ReorderKeepsOrder(sourceColumn: seq<Item>, destinationColumn: seq<Item>,
                          sourceIndex: int, destinationIndex: int)
    requires 0 <= sourceIndex < |sourceColumn| && 0 <= destinationIndex <= |destinationColumn|
    ensures var r := Reorder(sourceColumn, destinationColumn, sourceIndex, destinationIndex);
      && RemoveAt(r.1, destinationIndex) == destinationColumn
      && InsertAt(r.0, sourceIndex, sourceColumn[sourceIndex]) == sourceColumn
  {
    ReorderInRange(sourceColumn, destinationColumn, sourceIndex, destinationIndex);
    RemoveAtInsertAt(destinationColumn, destinationIndex, sourceColumn[sourceIndex]);
    InsertAtRemoveAt(sourceColumn, sourceIndex);
  }
}
