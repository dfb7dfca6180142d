/** The `ProofOfConcept` component: two fixed columns, `column1` holding ten
    generated items and `column2` starting empty; a drop moves an item only
    when it goes from `column1` to `column2`. */
module ProofOfConcept {
  import opened JsArray
  import opened Items

  /** The number of items `column1` starts with. */
  const InitialCount: nat := 10

  /** The only kind of drop the component acts on; it never starts and ends
      in the same column. */
  predicate IsForwardDrop(drop: DropResult): (b: bool)
    ensures b ==> drop.destination.Some? && drop.source.droppableId != drop.destination.value.droppableId
  {
    && drop.destination.Some?
    && drop.source.droppableId == "column1"
    && drop.destination.value.droppableId == "column2"
  }

  /** `onDragEnd` on the two lists: a forward drop applies `reorder` to them,
      any other drop (cancelled, backward, within one column, or naming an
      unknown column) leaves them as they were. */
  function Step(column1: seq<Item>, column2: seq<Item>, drop: DropResult): (r: (seq<Item>, seq<Item>))
    ensures multiset(r.0) + multiset(r.1) == multiset(column1) + multiset(column2)
    ensures |r.0| + |r.1| == |column1| + |column2|
    ensures !IsForwardDrop(drop) ==> r == (column1, column2)
  {
    if IsForwardDrop(drop) then
      Reorder(column1, column2, drop.source.index, drop.destination.value.index)
    else
      (column1, column2)
  }

  /** A forward drop with indices in range takes `column1[source.index]` out
      of `column1` and puts it at `column2[destination.index]`; the items left
      behind and the items already there keep their order. */
  lemma StepForwardInRange(column1: seq<Item>, column2: seq<Item>, drop: DropResult)
    requires IsForwardDrop(drop)
    requires 0 <= drop.source.index < |column1| && 0 <= drop.destination.value.index <= |column2|
    ensures var r := Step(column1, column2, drop);
      var moved := column1[drop.source.index];
      && |r.0| == |column1| - 1 && |r.1| == |column2| + 1
      && r.1[drop.destination.value.index] == moved
      && r.0 == RemoveAt(column1, drop.source.index)
      && RemoveAt(r.1, drop.destination.value.index) == column2
  {
    ReorderInRange(column1, column2, drop.source.index, drop.destination.value.index);
    ReorderKeepsOrder(column1, column2, drop.source.index, drop.destination.value.index);
  }

  /** A forward drop from a position at or past the end of `column1` moves nothing. */
  lemma StepForwardPastEnd(column1: seq<Item>, column2: seq<Item>, drop: DropResult)
    requires IsForwardDrop(drop) && drop.source.index >= |column1|
    ensures Step(column1, column2, drop) == (column1, column2)
  {
    ReorderSourcePastEnd(column1, column2, drop.source.index, drop.destination.value.index);
  }

  /** The two lists after a series of drops, applied in order. */
  function Replay(column1: seq<Item>, column2: seq<Item>, drops: seq<DropResult>): (seq<Item>, seq<Item>)
    decreases |drops|
  {
    if drops == [] then (column1, column2)
    else
      var next := Step(column1, column2, drops[0]);
      Replay(next.0, next.1, drops[1..])
  }

  /** What the two columns together hold never changes, over any series of drops. */
  lemma {:induction false} ReplayKeepsItems(column1: seq<Item>, column2: seq<Item>, drops: seq<DropResult>)
    ensures var r := Replay(column1, column2, drops);
      multiset(r.0) + multiset(r.1) == multiset(column1) + multiset(column2)
    decreases |drops|
  {
    if drops != [] {
      var next := Step(column1, column2, drops[0]);
      ReplayKeepsItems(next.0, next.1, drops[1..]);
    }
  }

  /** The state invariant: between them the columns hold exactly the
      generated items. */
  predicate HoldsGeneratedItems(column1: seq<Item>, column2: seq<Item>) {
    multiset(column1) + multiset(column2) == multiset(GenerateItems(InitialCount))
  }

  /** The invariant gives ten items in all, with pairwise distinct ids. */
  lemma HoldsGeneratedItemsConsequences(column1: seq<Item>, column2: seq<Item>)
    requires HoldsGeneratedItems(column1, column2)
    ensures |column1| + |column2| == InitialCount
    ensures IdsDistinct(column1 + column2)
  {
    assert multiset(column1 + column2) == multiset(column1) + multiset(column2);
    assert |multiset(column1 + column2)| == |column1 + column2|;
    assert |multiset(GenerateItems(InitialCount))| == InitialCount;
    GeneratedIdsDistinct(InitialCount);
    PermutationKeepsIdsDistinct(column1 + column2, GenerateItems(InitialCount));
  }

  /** From the initial state, every series of drops ends in a state holding
      the ten generated items, once each. */
  lemma ReplayFromInitialState(drops: seq<DropResult>)
    ensures var r := Replay(GenerateItems(InitialCount), [], drops);
      && HoldsGeneratedItems(r.0, r.1)
      && |r.0| + |r.1| == InitialCount
      && IdsDistinct(r.0 + r.1)
  {
    var r := Replay(GenerateItems(InitialCount), [], drops);
    ReplayKeepsItems(GenerateItems(InitialCount), [], drops);
    HoldsGeneratedItemsConsequences(r.0, r.1);
  }

  /** The initial `column1` holds `item0` to `item9`. */
  lemma InitialIds()
    ensures GenerateItems(InitialCount)[0].id == "item0"
    ensures GenerateItems(InitialCount)[9].id == "item9"
  {
    assert GeneratedId(0) == "item" + "0";
    assert GeneratedId(9) == "item" + "9";
  }

  /** The state of `ProofOfConcept`: the two `useState` lists. */
  class TwoColumnBoard {
    var column1: seq<Item>
    var column2: seq<Item>

    ghost predicate Valid()
      reads this
    {
      HoldsGeneratedItems(column1, column2)
    }

    /** `useState(generateItems(10))` and `useState([])`. */
    constructor ()
      ensures Valid() && column1 == GenerateItems(InitialCount) && column2 == []
    {
      column1 := GenerateItems(InitialCount);
      column2 := [];
    }

    /** `onDragEnd`: both lists are replaced by `reorder`'s results on a
        forward drop, and left alone otherwise. */
    method OnDragEnd(drop: DropResult)
      requires Valid()
      modifies this
      ensures Valid()
      ensures (column1, column2) == Step(old(column1), old(column2), drop)
    {
      if drop.destination.None? {
        return;
      }
      if drop.source.droppableId == "column1" && drop.destination.value.droppableId == "column2" {
        var moved := Reorder(column1, column2, drop.source.index, drop.destination.value.index);
        column1 := moved.0;
        column2 := moved.1;
      }
    }
  }
}
