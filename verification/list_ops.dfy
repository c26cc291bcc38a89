/** The state updaters of the generic `useList` hook: each takes the previous
    list and returns the next one (the function handed to `setState`). */
module ListOps {
  import Splice

  /** `push(v)`: appends `v` after every existing element. */
  function Push<T>(prev: seq<T>, v: T): (r: seq<T>)
    ensures |r| == |prev| + 1
    ensures r[..|prev|] == prev && r[|prev|] == v
  {
    prev + [v]
  }

  /** `removeAt(index)`: keeps every element whose position differs from
      `index` (a `filter` over positions). */
  function RemoveAt<T>(prev: seq<T>, index: int): (r: seq<T>)
    ensures 0 <= index < |prev| ==> r == Splice.Delete(prev, index)
    ensures !(0 <= index < |prev|) ==> r == prev
    decreases |prev|
  {
    if |prev| == 0 then []
    else (if index == 0 then [] else [prev[0]]) + RemoveAt(prev[1..], index - 1)
  }

  /** `insertAt(index, v)`: `toSpliced(index, 0, v)`, which clamps a start past
      the end to the end and counts a negative start back from the end. */
  function InsertAt<T>(prev: seq<T>, index: int, v: T): (r: seq<T>)
    ensures |r| == |prev| + 1
    ensures 0 <= index ==>
      var k := if index < |prev| then index else |prev|;
      r == prev[..k] + [v] + prev[k..]
    ensures index < 0 ==>
      var k := if |prev| + index < 0 then 0 else |prev| + index;
      r == prev[..k] + [v] + prev[k..]
  {
    Splice.Insert(prev, index, v)
  }

  /** `updateAt(index, v)`: replaces the element at `index` and nothing else. */
  function UpdateAt<T>(prev: seq<T>, index: int, v: T): (r: seq<T>)
    ensures |r| == |prev|
    ensures forall j :: 0 <= j < |prev| && j != index ==> r[j] == prev[j]
    ensures 0 <= index < |prev| ==> r[index] == v
    decreases |prev|
  {
    if |prev| == 0 then []
    else [if index == 0 then v else prev[0]] + UpdateAt(prev[1..], index - 1, v)
  }

  /** `clear()`: the next list is empty whatever the previous one held. */
  function Clear<T>(prev: seq<T>): (r: seq<T>)
    ensures |r| == 0
  {
    []
  }

  /** An out-of-range `updateAt` leaves the list as it was. */
  lemma UpdateAtOutOfRange<T>(prev: seq<T>, index: int, v: T)
    requires !(0 <= index < |prev|)
    ensures UpdateAt(prev, index, v) == prev
  {
    assert forall j :: 0 <= j < |prev| ==> UpdateAt(prev, index, v)[j] == prev[j];
  }

  /** Re-inserting an element where `removeAt` took it from restores the list. */
  lemma RemoveThenInsertRestores<T>(prev: seq<T>, i: nat)
    requires i < |prev|
    ensures InsertAt(RemoveAt(prev, i), i, prev[i]) == prev
  {
    Splice.InsertDeleted(prev, i);
  }

  /** Writing back the old value undoes an `updateAt`. */
  lemma UpdateThenRestore<T>(prev: seq<T>, i: nat, v: T)
    requires i < |prev|
    ensures UpdateAt(UpdateAt(prev, i, v), i, prev[i]) == prev
  {
    var r := UpdateAt(UpdateAt(prev, i, v), i, prev[i]);
    assert forall j :: 0 <= j < |prev| ==> r[j] == prev[j];
  }

  /** `removeAt` at the last position undoes a `push`. */
  lemma PushThenRemoveLast<T>(prev: seq<T>, v: T)
    ensures RemoveAt(Push(prev, v), |prev|) == prev
  {
    var p := Push(prev, v);
    var r := Splice.Delete(p, |prev|);
    assert r == prev by {
      assert |r| == |prev|;
      forall j | 0 <= j < |r|
        ensures r[j] == prev[j]
      {
        assert r[j] == p[j];
      }
    }
  }
}
