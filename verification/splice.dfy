/** The index arithmetic of JavaScript's `Array.prototype.splice` and
    `Array.prototype.toSpliced`, shared by `arrayMove` and `useList.insertAt`. */
module Splice {

  /** Where a `start` argument lands in an array of length `len`: a negative
      start counts back from the end, and the result is clamped into [0, len]. */
  function StartIndex(start: int, len: nat): (k: nat)
    ensures k <= len
    ensures 0 <= start <= len ==> k == start
    ensures len <= start ==> k == len
    ensures start < 0 ==> k == if len + start < 0 then 0 else len + start
  {
    if start < 0 then
      (if len + start < 0 then 0 else len + start)
    else if start < len then start
    else len
  }

  /** `s.splice(start, 0, v)` on a copy: `v` is inserted before position
      `StartIndex(start, |s|)`, every other element keeps its relative order. */
  function Insert<T>(s: seq<T>, start: int, v: T): (r: seq<T>)
    ensures |r| == |s| + 1
    ensures r[StartIndex(start, |s|)] == v
    ensures forall j :: 0 <= j < StartIndex(start, |s|) ==> r[j] == s[j]
    ensures forall j :: StartIndex(start, |s|) < j < |r| ==> r[j] == s[j - 1]
    ensures multiset(r) == multiset(s) + multiset{v}
  {
    var k := StartIndex(start, |s|);
    assert s[..k] + s[k..] == s;
    s[..k] + [v] + s[k..]
  }

  /** `s.splice(i, 1)` on a copy, for an index inside the array. */
  function Delete<T>(s: seq<T>, i: nat): (r: seq<T>)
    requires i < |s|
    ensures |r| == |s| - 1
    ensures forall j :: 0 <= j < |r| ==> r[j] == if j < i then s[j] else s[j + 1]
    ensures multiset(r) + multiset{s[i]} == multiset(s)
  {
    assert s == s[..i] + [s[i]] + s[i + 1..];
    s[..i] + s[i + 1..]
  }

  /** One position of an insertion: before, at or after the inserted element. */
  lemma InsertAt<T>(s: seq<T>, start: int, v: T, j: nat)
    requires j <= |s|
    ensures var k := StartIndex(start, |s|);
      Insert(s, start, v)[j] == if j < k then s[j] else if j == k then v else s[j - 1]
  {
  }

  /** One position of a deletion: before or after the deleted index. */
  lemma DeleteAt<T>(s: seq<T>, i: nat, j: nat)
    requires i < |s| && j < |s| - 1
    ensures Delete(s, i)[j] == if j < i then s[j] else s[j + 1]
  {
  }

  /** Inserting what was deleted, at the place it was deleted from, gives the
      original array back. */
  lemma InsertDeleted<T>(s: seq<T>, i: nat)
    requires i < |s|
    ensures Insert(Delete(s, i), i, s[i]) == s
  {
    var r := Insert(Delete(s, i), i, s[i]);
    assert StartIndex(i, |s| - 1) == i;
    forall j | 0 <= j < |s|
      ensures r[j] == s[j]
    {
      if j > i {
        assert r[j] == Delete(s, i)[j - 1];
      }
    }
  }

  /** Deleting what was inserted gives the original array back. */
  lemma DeleteInserted<T>(s: seq<T>, start: int, v: T)
    ensures Delete(Insert(s, start, v), StartIndex(start, |s|)) == s
  {
    var k := StartIndex(start, |s|);
    var r := Delete(Insert(s, start, v), k);
    forall j | 0 <= j < |s|
      ensures r[j] == s[j]
    {
      if j >= k {
        assert r[j] == Insert(s, start, v)[j + 1];
      }
    }
  }
}
