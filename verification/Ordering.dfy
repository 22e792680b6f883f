/** Code-unit string order (`compareStableStrings`) and the stable sort behind `Array.prototype.sort`. */
module Ordering {

  function StringLess(a: string, b: string): bool {
    if b == [] then false
    else if a == [] then true
    else a[0] < b[0] || (a[0] == b[0] && StringLess(a[1..], b[1..]))
  }

  ghost predicate StrictTotalOrder<T(!new)>(less: (T, T) -> bool) {
    && (forall x :: !less(x, x))
    && (forall x, y :: less(x, y) || less(y, x) || x == y)
    && (forall x, y, z :: less(x, y) && less(y, z) ==> less(x, z))
  }

  /** Ties allowed: what is not smaller than something not smaller than a third is not smaller than that third. */
  ghost predicate StrictWeakOrder<T(!new)>(less: (T, T) -> bool) {
    && (forall x, y :: less(x, y) ==> !less(y, x))
    && (forall x, y, z :: !less(x, y) && !less(y, z) ==> !less(x, z))
  }

  lemma {:induction false} TotalIsWeak<T(!new)>(less: (T, T) -> bool)
    requires StrictTotalOrder(less)
    ensures StrictWeakOrder(less)
  {
    forall x, y, z | !less(x, y) && !less(y, z) ensures !less(x, z) {
      assert y == x || less(y, x);
      assert z == y || less(z, y);
    }
  }

  lemma {:induction false} StringLessIrreflexive(a: string)
    ensures !StringLess(a, a)
    decreases |a|
  {
    if a != [] {
      StringLessIrreflexive(a[1..]);
    }
  }

  lemma {:induction false} StringLessTotal(a: string, b: string)
    ensures StringLess(a, b) || StringLess(b, a) || a == b
    ensures !(StringLess(a, b) && StringLess(b, a))
    decreases |a|
  {
    if a != [] && b != [] {
      StringLessTotal(a[1..], b[1..]);
      assert a == [a[0]] + a[1..] && b == [b[0]] + b[1..];
    }
  }

  lemma {:induction false} StringLessTransitive(a: string, b: string, c: string)
    requires StringLess(a, b) && StringLess(b, c)
    ensures StringLess(a, c)
    decreases |a|
  {
    if a != [] && a[0] == b[0] && b[0] == c[0] {
      StringLessTransitive(a[1..], b[1..], c[1..]);
    }
  }

  function Insert<T(!new)>(x: T, s: seq<T>, less: (T, T) -> bool): (r: seq<T>)
    ensures multiset(r) == multiset(s) + multiset{x}
  {
    if s == [] then [x]
    else if less(x, s[0]) then [x] + s
    else
      assert s == [s[0]] + s[1..];
      [s[0]] + Insert(x, s[1..], less)
  }

  /** Stable: an element goes behind its equals that stood before it. */
  function Sort<T(!new)>(s: seq<T>, less: (T, T) -> bool): (r: seq<T>)
    ensures multiset(r) == multiset(s)
    ensures |r| == |s|
    ensures forall x :: x in r <==> x in s
  {
    if s == [] then [] else
    assert s == s[..|s| - 1] + [s[|s| - 1]];
    var r := Insert(s[|s| - 1], Sort(s[..|s| - 1], less), less);
    PermutationFacts(r, s);
    r
  }

  lemma {:induction false} PermutationFacts<T(!new)>(r: seq<T>, s: seq<T>)
    requires multiset(r) == multiset(s)
    ensures |r| == |s|
    ensures forall x :: x in r <==> x in s
  {
    assert |multiset(r)| == |r| && |multiset(s)| == |s|;
    forall x ensures x in r <==> x in s {
      assert x in r <==> x in multiset(r);
      assert x in s <==> x in multiset(s);
    }
  }

  ghost predicate Sorted<T>(s: seq<T>, less: (T, T) -> bool) {
    forall i, j :: 0 <= i < j < |s| ==> !less(s[j], s[i])
  }

  lemma {:induction false} InsertSorted<T(!new)>(x: T, s: seq<T>, less: (T, T) -> bool)
    requires StrictWeakOrder(less) && Sorted(s, less)
    ensures Sorted(Insert(x, s, less), less)
    decreases |s|
  {
    var r := Insert(x, s, less);
    if s != [] && !less(x, s[0]) {
      var t := Insert(x, s[1..], less);
      InsertSorted(x, s[1..], less);
      forall y | y in t ensures !less(y, s[0]) {
        assert y in multiset(t);
        assert y == x || y in s[1..];
      }
    } else if s != [] {
      forall y | y in s ensures !less(y, x) {
        var i :| 0 <= i < |s| && s[i] == y;
        assert i == 0 || !less(s[i], s[0]);
      }
    }
  }

  lemma {:induction false} SortSorts<T(!new)>(s: seq<T>, less: (T, T) -> bool)
    requires StrictWeakOrder(less)
    ensures Sorted(Sort(s, less), less)
    decreases |s|
  {
    if s != [] {
      SortSorts(s[..|s| - 1], less);
      InsertSorted(s[|s| - 1], Sort(s[..|s| - 1], less), less);
    }
  }

  lemma {:induction false} SortedHead<T(!new)>(s: seq<T>, less: (T, T) -> bool, y: T)
    requires StrictTotalOrder(less) && Sorted(s, less) && y in s
    ensures !less(y, s[0])
  {
    var i :| 0 <= i < |s| && s[i] == y;
    assert i == 0 || !less(s[i], s[0]);
  }

  lemma {:induction false} DropHead<T(!new)>(a: seq<T>, b: seq<T>)
    requires a != [] && b != [] && a[0] == b[0] && multiset(a) == multiset(b)
    ensures multiset(a[1..]) == multiset(b[1..])
  {
    assert a == [a[0]] + a[1..] && b == [b[0]] + b[1..];
    assert multiset(a[1..]) == multiset(a) - multiset{a[0]};
    assert multiset(b[1..]) == multiset(b) - multiset{b[0]};
  }

  /** A list has only one sorted rearrangement under a strict total order. */
  lemma {:induction false} SortedUnique<T(!new)>(a: seq<T>, b: seq<T>, less: (T, T) -> bool)
    requires StrictTotalOrder(less)
    requires Sorted(a, less) && Sorted(b, less) && multiset(a) == multiset(b)
    ensures a == b
    decreases |a|
  {
    PermutationFacts(a, b);
    if a != [] {
      SortedHead(b, less, a[0]);
      SortedHead(a, less, b[0]);
      assert a[0] == b[0];
      DropHead(a, b);
      assert Sorted(a[1..], less) && Sorted(b[1..], less);
      SortedUnique(a[1..], b[1..], less);
      assert a == [a[0]] + a[1..] && b == [b[0]] + b[1..];
    }
  }

  lemma {:induction false} SortCanonical<T(!new)>(a: seq<T>, b: seq<T>, less: (T, T) -> bool)
    requires StrictTotalOrder(less) && multiset(a) == multiset(b)
    ensures Sort(a, less) == Sort(b, less)
  {
    TotalIsWeak(less);
    SortSorts(a, less);
    SortSorts(b, less);
    SortedUnique(Sort(a, less), Sort(b, less), less);
  }

  lemma {:induction false} SortOfSorted<T(!new)>(a: seq<T>, less: (T, T) -> bool)
    requires StrictWeakOrder(less)
    ensures Sort(a, less) == a <==> Sorted(a, less)
  {
    SortSorts(a, less);
    if Sorted(a, less) {
      SortKeepsSorted(a, less);
    }
  }

  lemma {:induction false} InsertAtEnd<T(!new)>(x: T, s: seq<T>, less: (T, T) -> bool)
    requires forall y :: y in s ==> !less(x, y)
    ensures Insert(x, s, less) == s + [x]
    decreases |s|
  {
    if s != [] {
      assert s[0] in s && s == [s[0]] + s[1..];
      InsertAtEnd(x, s[1..], less);
    }
  }

  /** Sorting is stable: a list already in order comes back as it is, whatever the comparison. */
  lemma {:induction false} SortKeepsSorted<T(!new)>(s: seq<T>, less: (T, T) -> bool)
    requires Sorted(s, less)
    ensures Sort(s, less) == s
    decreases |s|
  {
    if s != [] {
      SortKeepsSorted(s[..|s| - 1], less);
      InsertAtEnd(s[|s| - 1], s[..|s| - 1], less);
    }
  }

  lemma {:induction false} StringOrderIsTotal()
    ensures StrictTotalOrder(StringLess)
  {
    forall x, y: string ensures !StringLess(x, x) && (StringLess(x, y) || StringLess(y, x) || x == y) {
      StringLessIrreflexive(x);
      StringLessTotal(x, y);
    }
    forall x, y, z | StringLess(x, y) && StringLess(y, z) ensures StringLess(x, z) {
      StringLessTransitive(x, y, z);
    }
  }
}
