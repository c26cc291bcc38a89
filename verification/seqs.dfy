/** The three array combinators the TypeScript code uses over lists and items:
    `findIndex`, `map` with a conditional replacement, and `filter` with a
    negated test. */
module Seqs {
  import opened Wrappers

  /** `s.findIndex(p)`: the first index whose element satisfies `p`, or `None`
      (`-1` in the TypeScript code) when no element does. */
  function FirstIndex<T>(s: seq<T>, p: T -> bool): (r: Option<nat>)
    ensures r.Some? ==> r.value < |s| && p(s[r.value])
    ensures r.Some? ==> forall j :: 0 <= j < r.value ==> !p(s[j])
    ensures r.None? <==> forall j :: 0 <= j < |s| ==> !p(s[j])
    decreases |s|
  {
    if |s| == 0 then None
    else if p(s[0]) then Some(0)
    else match FirstIndex(s[1..], p)
      case None => None
      case Some(k) => Some(k + 1)
  }

  /** `s.map(x => p(x) ? f(x) : x)`: every element satisfying `p` is replaced
      by its image under `f`, every other element is kept as it is. */
  function MapWhere<T>(s: seq<T>, p: T -> bool, f: T -> T): (r: seq<T>)
    ensures |r| == |s|
    ensures forall j :: 0 <= j < |s| && p(s[j]) ==> r[j] == f(s[j])
    ensures forall j :: 0 <= j < |s| && !p(s[j]) ==> r[j] == s[j]
    decreases |s|
  {
    if |s| == 0 then []
    else [if p(s[0]) then f(s[0]) else s[0]] + MapWhere(s[1..], p, f)
  }

  /** `s.filter(x => !p(x))`: drops every element satisfying `p`, keeping the
      others in their relative order. */
  function FilterOut<T>(s: seq<T>, p: T -> bool): (r: seq<T>)
    ensures |r| <= |s|
    ensures forall j :: 0 <= j < |r| ==> r[j] in s && !p(r[j])
    ensures forall j :: 0 <= j < |s| && !p(s[j]) ==> s[j] in r
    ensures (forall j :: 0 <= j < |s| ==> !p(s[j])) ==> r == s
    decreases |s|
  {
    if |s| == 0 then []
    else (if p(s[0]) then [] else [s[0]]) + FilterOut(s[1..], p)
  }

  /** When exactly one element satisfies `p`, filtering it out is the same as
      deleting its index: the survivors keep their relative order. */
  lemma {:induction false} FilterOutSingle<T>(s: seq<T>, p: T -> bool, k: nat)
    requires k < |s| && p(s[k])
    requires forall j :: 0 <= j < |s| && j != k ==> !p(s[j])
    ensures FilterOut(s, p) == s[..k] + s[k + 1..]
    decreases |s|
  {
    var t := s[1..];
    if k == 0 {
      FilterOutHead(s, p);
      NoMatchTail(s, p);
      assert s[..0] + s[1..] == t;
    } else {
      FilterOutHead(s, p);
      TailSingle(s, p, k);
      FilterOutSingle(t, p, k - 1);
      DropShift(s, k);
    }
  }

  /** Filtering distributes over concatenation: the survivors of `a` come
      first, then those of `b`, each in their original relative order. With
      `FilterOutUnit` this determines `FilterOut` completely. */
  lemma {:induction false} FilterOutAppend<T>(a: seq<T>, b: seq<T>, p: T -> bool)
    ensures FilterOut(a + b, p) == FilterOut(a, p) + FilterOut(b, p)
    decreases |a|
  {
    if |a| == 0 {
      assert a + b == b;
    } else {
      var t := a[1..];
      var h := if p(a[0]) then [] else [a[0]];
      assert (a + b)[0] == a[0];
      assert (a + b)[1..] == t + b;
      calc {
        FilterOut(a + b, p);
        == { FilterOutHead(a + b, p); }
        h + FilterOut(t + b, p);
        == { FilterOutAppend(t, b, p); }
        h + (FilterOut(t, p) + FilterOut(b, p));
        == { FilterOutHead(a, p); }
        FilterOut(a, p) + FilterOut(b, p);
      }
    }
  }

  /** A one-element sequence is dropped when it matches and kept otherwise. */
  lemma FilterOutUnit<T>(x: T, p: T -> bool)
    ensures FilterOut([x], p) == if p(x) then [] else [x]
  {
    assert [x][1..] == [];
  }

  /** One unfolding step of `FilterOut`. */
  lemma FilterOutHead<T>(s: seq<T>, p: T -> bool)
    requires |s| > 0
    ensures p(s[0]) ==> FilterOut(s, p) == FilterOut(s[1..], p)
    ensures !p(s[0]) ==> FilterOut(s, p) == [s[0]] + FilterOut(s[1..], p)
  {
  }

  /** Deleting index `k` of `s` is keeping the head and deleting index
      `k - 1` of the tail. */
  lemma DropShift<T>(s: seq<T>, k: nat)
    requires 0 < k < |s|
    ensures [s[0]] + (s[1..][..k - 1] + s[1..][k..]) == s[..k] + s[k + 1..]
  {
    assert s[1..][..k - 1] == s[1..k];
    assert s[1..][k..] == s[k + 1..];
    assert [s[0]] + s[1..k] == s[..k];
  }

  /** If only the head can satisfy `p`, nothing in the tail does. */
  lemma NoMatchTail<T>(s: seq<T>, p: T -> bool)
    requires |s| > 0
    requires forall j :: 0 < j < |s| ==> !p(s[j])
    ensures FilterOut(s[1..], p) == s[1..]
  {
    var t := s[1..];
    forall j | 0 <= j < |t| ensures !p(t[j]) {
      assert t[j] == s[j + 1];
    }
  }

  /** Moving the single match one step towards the head of the tail. */
  lemma TailSingle<T>(s: seq<T>, p: T -> bool, k: nat)
    requires 0 < k < |s| && p(s[k])
    requires forall j :: 0 <= j < |s| && j != k ==> !p(s[j])
    ensures !p(s[0]) && p(s[1..][k - 1])
    ensures forall j :: 0 <= j < |s[1..]| && j != k - 1 ==> !p(s[1..][j])
  {
    var t := s[1..];
    forall j | 0 <= j < |t| && j != k - 1
      ensures !p(t[j])
    {
      assert t[j] == s[j + 1];
    }
  }
}
