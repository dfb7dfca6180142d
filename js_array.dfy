/** The JavaScript array operations the board relies on, on values:
    `Array.prototype.splice` (with its clamping of the start position) and
    `Array.prototype.at` (with its negative indices), together with the
    index-wise deletion and insertion they amount to in range. */
module JsArray {

  datatype Option<T> = None | Some(value: T)

  function Min(a: int, b: int): int {
    if a <= b then a else b
  }

  /** The position `splice` starts at: a negative start counts back from the
      end, and the result is clamped to `[0, length]`. */
  function SpliceStart(start: int, length: nat): (k: nat)
    ensures k <= length
    ensures 0 <= start <= length ==> k == start
    ensures start < 0 <= length + start ==> k == length + start
    ensures start > length ==> k == length
    ensures length + start < 0 ==> k == 0
  {
    if start < 0 then (if length + start < 0 then 0 else length + start)
    else if start < length then start
    else length
  }

  /** The array afterwards and the array of removed elements that `splice` returns. */
  datatype Spliced<T> = Spliced(after: seq<T>, removed: seq<T>)

  /** `a.splice(start, deleteCount, ...insert)`. */
  function Splice<T>(a: seq<T>, start: int, deleteCount: nat, insert: seq<T>): (r: Spliced<T>)
    ensures |r.removed| == Min(deleteCount, |a| - SpliceStart(start, |a|))
    ensures |r.after| == |a| - |r.removed| + |insert|
    ensures multiset(r.after) + multiset(r.removed) == multiset(a) + multiset(insert)
  {
    var k := SpliceStart(start, |a|);
    var m := Min(deleteCount, |a| - k);
    assert a == a[..k] + a[k..k + m] + a[k + m..];
    Spliced(a[..k] + insert + a[k + m..], a[k..k + m])
  }

  /** `s` with the element at `i` deleted. */
  function RemoveAt<T>(s: seq<T>, i: nat): (r: seq<T>)
    requires i < |s|
    ensures |r| == |s| - 1
    ensures forall k :: 0 <= k < i ==> r[k] == s[k]
    ensures forall k :: i <= k < |r| ==> r[k] == s[k + 1]
  {
    s[..i] + s[i + 1..]
  }

  /** `s` with `x` inserted so that it ends up at position `i`. */
  function InsertAt<T>(s: seq<T>, i: nat, x: T): (r: seq<T>)
    requires i <= |s|
    ensures |r| == |s| + 1 && r[i] == x
    ensures forall k :: 0 <= k < i ==> r[k] == s[k]
    ensures forall k :: i < k < |r| ==> r[k] == s[k - 1]
  {
    s[..i] + [x] + s[i..]
  }

  lemma RemoveAtInsertAt<T>(s: seq<T>, i: nat, x: T)
    requires i <= |s|
    ensures RemoveAt(InsertAt(s, i, x), i) == s
  {
    var r := RemoveAt(InsertAt(s, i, x), i);
    assert forall k :: 0 <= k < |s| ==> r[k] == s[k];
  }

  lemma InsertAtRemoveAt<T>(s: seq<T>, i: nat)
    requires i < |s|
    ensures InsertAt(RemoveAt(s, i), i, s[i]) == s
  {
    var r := InsertAt(RemoveAt(s, i), i, s[i]);
    assert forall k :: 0 <= k < |s| ==> r[k] == s[k];
  }

  lemma MultisetRemoveAt<T>(s: seq<T>, i: nat)
    requires i < |s|
    ensures multiset(RemoveAt(s, i)) + multiset{s[i]} == multiset(s)
  {
    assert s == s[..i] + [s[i]] + s[i + 1..];
  }

  lemma MultisetInsertAt<T>(s: seq<T>, i: nat, x: T)
    requires i <= |s|
    ensures multiset(InsertAt(s, i, x)) == multiset(s) + multiset{x}
  {
    assert s == s[..i] + s[i..];
  }

  /** In range, `splice(i, 1)` deletes exactly the element at `i` and returns it. */
  lemma SpliceDeleteOne<T>(a: seq<T>, i: int)
    requires 0 <= i < |a|
    ensures Splice(a, i, 1, []) == Spliced(RemoveAt(a, i), [a[i]])
  {
  }

  /** At or past the end, or on an empty array, `splice(i, 1)` deletes nothing. */
  lemma SpliceDeleteNone<T>(a: seq<T>, i: int)
    requires a == [] || i >= |a|
    ensures Splice(a, i, 1, []) == Spliced(a, [])
  {
  }

  /** In range, `splice(i, 0, x)` inserts `x` at position `i`. */
  lemma SpliceInsertOne<T>(a: seq<T>, i: int, x: T)
    requires 0 <= i <= |a|
    ensures Splice(a, i, 0, [x]).after == InsertAt(a, i, x)
  {
  }

  /** For any start that lands on an element (a negative one counts back from
      the end), `splice(start, 1)` deletes exactly that element and returns it. */
  lemma SpliceDeleteAtStart<T>(a: seq<T>, start: int)
    requires SpliceStart(start, |a|) < |a|
    ensures var k := SpliceStart(start, |a|);
      Splice(a, start, 1, []) == Spliced(RemoveAt(a, k), [a[k]])
  {
  }

  /** For any start, `splice(start, 0, x)` inserts `x` at the clamped start. */
  lemma SpliceInsertAtStart<T>(a: seq<T>, start: int, x: T)
    ensures Splice(a, start, 0, [x]).after == InsertAt(a, SpliceStart(start, |a|), x)
  {
  }

  /** `splice(i, 0)` with nothing to insert leaves the array as it was. */
  lemma SpliceInsertNothing<T>(a: seq<T>, i: int)
    ensures Splice(a, i, 0, []).after == a
  {
    var k := SpliceStart(i, |a|);
    assert a[..k] + a[k..] == a;
  }

  /** The position `a.at(index)` reads in an array of `length` elements: a
      negative index counts back from the end; outside `-length <= index < length`
      it reads nothing (`undefined`). */
  function AtIndex(length: nat, index: int): (r: Option<nat>)
    ensures r.Some? <==> 0 <= length + index && index < length
    ensures r.Some? ==> r.value < length && (r.value - index) % length == 0
  {
    if 0 <= index < length then Some(index)
    else if index < 0 <= length + index then Some(length + index)
    else None
  }
}
