/** How `Array.prototype.sort()` without a comparator orders numbers: each is
    converted to its decimal string and the strings are compared code unit by
    code unit. The store's identifier assignment relies on this order. */
module DecimalOrder {

  /** The character of a decimal digit. */
  function Digit(d: nat): (c: char)
    requires d < 10
    ensures '0' <= c <= '9'
    ensures c as int == 48 + d
  {
    (48 + d) as char
  }

  /** The decimal digits of a natural number, most significant first, with no
      leading zero. */
  function Digits(n: nat): (s: string)
    ensures |s| >= 1
    ensures forall i :: 0 <= i < |s| ==> '0' <= s[i] <= '9'
    ensures |s| == 1 <==> n < 10
    ensures n > 0 ==> s[0] != '0'
    ensures s[|s| - 1] == Digit(n % 10)
    decreases n
  {
    if n < 10 then [Digit(n)] else Digits(n / 10) + [Digit(n % 10)]
  }

  /** `String(n)`: an optional minus sign followed by the digits of `|n|`. */
  function Decimal(n: int): (s: string)
    ensures |s| >= 1
    ensures s[0] == '-' <==> n < 0
    ensures forall i :: 0 < i < |s| ==> '0' <= s[i] <= '9'
  {
    if n < 0 then "-" + Digits(-n) else Digits(n)
  }

  /** `a <= b` for strings in JavaScript: a proper prefix sorts first,
      otherwise the first differing character decides. */
  predicate LexLeq(a: string, b: string)
    decreases |a|
  {
    |a| == 0 || (|b| > 0 && (a[0] < b[0] || (a[0] == b[0] && LexLeq(a[1..], b[1..]))))
  }

  lemma {:induction false} LexLeqTotal(a: string, b: string)
    ensures LexLeq(a, b) || LexLeq(b, a)
    decreases |a|
  {
    if |a| > 0 && |b| > 0 && a[0] == b[0] {
      LexLeqTotal(a[1..], b[1..]);
    }
  }

  lemma {:induction false} LexLeqTransitive(a: string, b: string, c: string)
    requires LexLeq(a, b) && LexLeq(b, c)
    ensures LexLeq(a, c)
    decreases |a|
  {
    if |a| > 0 && a[0] == b[0] && b[0] == c[0] {
      LexLeqTransitive(a[1..], b[1..], c[1..]);
    }
  }

  lemma {:induction false} LexLeqAntisymmetric(a: string, b: string)
    requires LexLeq(a, b) && LexLeq(b, a)
    ensures a == b
    decreases |a|
  {
    if |a| > 0 {
      LexLeqAntisymmetric(a[1..], b[1..]);
      assert a == [a[0]] + a[1..] && b == [b[0]] + b[1..];
    }
  }

  lemma {:induction false} DigitsInjective(n: nat, m: nat)
    requires Digits(n) == Digits(m)
    ensures n == m
    decreases n
  {
    if n >= 10 {
      var s := Digits(n);
      assert s[..|s| - 1] == Digits(n / 10) && s[|s| - 1] == Digit(n % 10);
      assert s[..|s| - 1] == Digits(m / 10) && s[|s| - 1] == Digit(m % 10);
      DigitsInjective(n / 10, m / 10);
    }
  }

  /** A decimal string starts with a minus sign exactly for negative numbers. */
  lemma DecimalSign(n: int)
    ensures |Decimal(n)| > 0
    ensures Decimal(n)[0] == '-' <==> n < 0
  {
    if n >= 0 {
      assert '0' <= Digits(n)[0];
    }
  }

  /** Different numbers have different decimal strings. */
  lemma DecimalInjective(n: int, m: int)
    requires Decimal(n) == Decimal(m)
    ensures n == m
  {
    assert (n < 0) == (m < 0) by {
      DecimalSign(n);
      DecimalSign(m);
    }
    if n < 0 {
      var a, b := Digits(-n), Digits(-m);
      assert ("-" + a)[1..] == a;
      assert ("-" + b)[1..] == b;
      DigitsInjective(-n, -m);
    } else {
      DigitsInjective(n, m);
    }
  }

  lemma {:induction false} LexLeqReflexive(a: string)
    ensures LexLeq(a, a)
    decreases |a|
  {
    if |a| > 0 {
      LexLeqReflexive(a[1..]);
    }
  }

  /** `x` sorts no later than `g`. */
  predicate SortsBefore(x: int, g: int) {
    LexLeq(Decimal(x), Decimal(g))
  }

  /** `g` is an element of `ids` that no element sorts after. */
  predicate SortsLast(g: int, ids: seq<int>) {
    g in ids && forall x :: x in ids ==> SortsBefore(x, g)
  }

  /** Raising an upper bound under the (transitive) sort order. */
  lemma RaiseBound(ids: seq<int>, m: int, g: int)
    requires forall x :: x in ids ==> SortsBefore(x, m)
    requires SortsBefore(m, g)
    ensures forall x :: x in ids ==> SortsBefore(x, g)
  {
    forall x | x in ids
      ensures SortsBefore(x, g)
    {
      LexLeqTransitive(Decimal(x), Decimal(m), Decimal(g));
    }
  }

  /** One step of the search for the element that sorts last. */
  lemma SortsLastStep(ids: seq<int>, m: int)
    requires |ids| > 1 && SortsLast(m, ids[1..])
    ensures SortsBefore(ids[0], m) ==> SortsLast(m, ids)
    ensures !SortsBefore(ids[0], m) ==> SortsLast(ids[0], ids)
  {
    assert ids == [ids[0]] + ids[1..];
    if !SortsBefore(ids[0], m) {
      LexLeqTotal(Decimal(ids[0]), Decimal(m));
      RaiseBound(ids[1..], m, ids[0]);
      LexLeqReflexive(Decimal(ids[0]));
      forall x | x in ids
        ensures SortsBefore(x, ids[0])
      {
        if x != ids[0] {
          assert x in ids[1..];
        }
      }
    }
  }

  /** `ids.sort().reverse()[0]`: the element that sorts last. */
  function LastInSortOrder(ids: seq<int>): (g: int)
    requires |ids| > 0
    ensures SortsLast(g, ids)
    decreases |ids|
  {
    if |ids| == 1 then
      LexLeqReflexive(Decimal(ids[0]));
      ids[0]
    else
      var m := LastInSortOrder(ids[1..]);
      SortsLastStep(ids, m);
      if SortsBefore(ids[0], m) then m else ids[0]
  }

  /** Only one number sorts last: the sort order is antisymmetric and the
      decimal strings of different numbers differ. */
  lemma SortsLastUnique(ids: seq<int>, g: int, h: int)
    requires SortsLast(g, ids) && SortsLast(h, ids)
    ensures g == h
  {
    LexLeqAntisymmetric(Decimal(g), Decimal(h));
    DecimalInjective(g, h);
  }

  /** The store's `nextId`: one more than the identifier that sorts last, or 1
      when there is none or when it is 0 (a falsy number). */
  function NextId(ids: seq<int>): (r: int)
    ensures |ids| == 0 ==> r == 1
    ensures forall g :: SortsLast(g, ids) ==> r == if g == 0 then 1 else g + 1
  {
    if |ids| == 0 then 1
    else
      var last := LastInSortOrder(ids);
      assert forall g :: SortsLast(g, ids) ==> g == last by {
        forall g | SortsLast(g, ids) ensures g == last {
          SortsLastUnique(ids, g, last);
        }
      }
      if last == 0 then 1 else last + 1
  }

  /** The numerically greatest identifier. */
  function MaxId(ids: seq<int>): (m: int)
    requires |ids| > 0
    ensures m in ids && forall x :: x in ids ==> x <= m
    decreases |ids|
  {
    if |ids| == 1 then ids[0]
    else
      var m := MaxId(ids[1..]);
      assert forall x :: x in ids ==> x == ids[0] || x in ids[1..];
      if ids[0] <= m then m else ids[0]
  }

  /** The fresh-id assignment `nextId` is taken for: the numeric maximum
      plus one, or 1 for an empty scope. It is always fresh, and `nextId`
      agrees with it while every id is a single digit. */
  function NumericNextId(ids: seq<int>): (r: int)
    ensures |ids| == 0 ==> r == 1
    ensures forall x :: x in ids ==> x < r
    ensures |ids| > 0 ==> r - 1 in ids
  {
    if |ids| == 0 then 1 else MaxId(ids) + 1
  }

  /** On single digits the string order is the numeric order. */
  lemma SingleDigitOrder(x: int, y: int)
    requires 0 <= x <= 9 && 0 <= y <= 9
    ensures SortsBefore(x, y) <==> x <= y
  {
    var a, b := Decimal(x), Decimal(y);
    assert a == [Digit(x)] && b == [Digit(y)];
    assert a[1..] == [] && b[1..] == [];
    assert LexLeq(a[1..], b[1..]);
    assert LexLeq(a, b) <==> a[0] < b[0] || a[0] == b[0];
  }

  /** While every identifier is a single digit, `nextId` is the numeric
      maximum plus one, and so never repeats an identifier. */
  lemma NextIdSingleDigits(ids: seq<int>)
    requires forall x :: x in ids ==> 0 <= x <= 9
    ensures NextId(ids) == NumericNextId(ids)
    ensures NextId(ids) !in ids
  {
    if |ids| > 0 {
      var m := MaxId(ids);
      forall x | x in ids
        ensures SortsBefore(x, m)
      {
        SingleDigitOrder(x, m);
      }
      assert SortsLast(m, ids);
    }
  }

  /** Every number from 1 to 89 sorts no later than 9. */
  lemma SortsBeforeNine(x: int)
    requires 1 <= x <= 89
    ensures SortsBefore(x, 9)
  {
    assert Decimal(9) == ['9'];
    if x < 10 {
      assert Decimal(x) == [Digit(x)];
      assert Decimal(x)[1..] == [];
    } else {
      assert Digits(x / 10) == [Digit(x / 10)];
      assert Decimal(x) == [Digit(x / 10), Digit(x % 10)];
    }
  }

  /** Once 9 is taken, `nextId` over identifiers from 1 to 89 is always 10,
      whether or not 10 is already in use. */
  lemma NextIdStuckAtTen(ids: seq<int>)
    requires 9 in ids
    requires forall x :: x in ids ==> 1 <= x <= 89
    ensures NextId(ids) == 10
  {
    forall x | x in ids
      ensures SortsBefore(x, 9)
    {
      SortsBeforeNine(x);
    }
    assert SortsLast(9, ids);
  }

  /** With identifiers 1 to 10 in use, `nextId` hands out 10 again. */
  lemma NextIdRepeatsTen()
    ensures NextId([1, 2, 3, 4, 5, 6, 7, 8, 9, 10]) == 10
    ensures 10 in [1, 2, 3, 4, 5, 6, 7, 8, 9, 10]
  {
    NextIdStuckAtTen([1, 2, 3, 4, 5, 6, 7, 8, 9, 10]);
  }
}
