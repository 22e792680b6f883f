/** Small value types and list helpers shared by every component. */
module Common {

  datatype Option<+T> = None | Some(value: T)

  datatype Result<+T, +E> = Ok(value: T) | Err(error: E)

  function Min(a: int, b: int): int { if a < b then a else b }

  function Max(a: int, b: int): int { if a < b then b else a }

  predicate Distinct<T(==)>(s: seq<T>) {
    forall i, j :: 0 <= i < j < |s| ==> s[i] != s[j]
  }

  function Filter<T>(s: seq<T>, p: T -> bool): (r: seq<T>)
    ensures |r| <= |s|
  {
    if s == [] then [] else
    var init := Filter(s[..|s| - 1], p);
    if p(s[|s| - 1]) then init + [s[|s| - 1]] else init
  }

  lemma {:induction false} FilterContains<T(!new)>(s: seq<T>, p: T -> bool)
    ensures forall x :: x in Filter(s, p) <==> x in s && p(x)
    decreases |s|
  {
    if s != [] {
      assert s == s[..|s| - 1] + [s[|s| - 1]];
      FilterContains(s[..|s| - 1], p);
    }
  }

  function Map<T, U>(s: seq<T>, f: T -> U): (r: seq<U>)
    ensures |r| == |s|
    ensures forall i :: 0 <= i < |s| ==> r[i] == f(s[i])
  {
    seq(|s|, i requires 0 <= i < |s| => f(s[i]))
  }

  function Get<K, V>(m: map<K, V>, k: K): Option<V> {
    if k in m then Some(m[k]) else None
  }

  /** `new Map(xs.map((x) => [key(x), x]))`: a later element replaces an earlier one. */
  function Index<K, V>(xs: seq<V>, key: V -> K): map<K, V> {
    if xs == [] then map[] else Index(xs[..|xs| - 1], key)[key(xs[|xs| - 1]) := xs[|xs| - 1]]
  }

  lemma {:induction false} IndexSnoc<K, V>(xs: seq<V>, x: V, key: V -> K)
    ensures Index(xs + [x], key) == Index(xs, key)[key(x) := x]
  {
    assert (xs + [x])[..|xs|] == xs;
  }

  lemma {:induction false} IndexFacts<K(!new), V(!new)>(xs: seq<V>, key: V -> K)
    ensures forall x :: x in xs ==> key(x) in Index(xs, key)
    ensures forall k :: k in Index(xs, key) ==> Index(xs, key)[k] in xs && key(Index(xs, key)[k]) == k
    decreases |xs|
  {
    if xs != [] {
      IndexFacts(xs[..|xs| - 1], key);
      SplitLast(xs);
    }
  }

  /** With distinct keys the index returns the element itself. */
  lemma {:induction false} IndexFinds<K(!new), V(!new)>(xs: seq<V>, key: V -> K, x: V)
    requires forall i, j :: 0 <= i < j < |xs| ==> key(xs[i]) != key(xs[j])
    requires x in xs
    ensures key(x) in Index(xs, key) && Index(xs, key)[key(x)] == x
  {
    IndexFacts(xs, key);
    var y := Index(xs, key)[key(x)];
    var i :| 0 <= i < |xs| && xs[i] == x;
    var j :| 0 <= j < |xs| && xs[j] == y;
    assert i == j;
  }

  lemma {:induction false} FilterSnoc<T>(s: seq<T>, x: T, p: T -> bool)
    ensures Filter(s + [x], p) == if p(x) then Filter(s, p) + [x] else Filter(s, p)
  {
    assert (s + [x])[..|s|] == s;
  }

  lemma {:induction false} ConcatAssociative<T>(a: seq<T>, b: seq<T>, c: seq<T>)
    ensures (a + b) + c == a + (b + c)
  {
  }

  lemma {:induction false} SplitLast<T>(s: seq<T>)
    requires s != []
    ensures s == s[..|s| - 1] + [s[|s| - 1]]
  {
  }

  lemma {:induction false} FilterConcat<T>(s: seq<T>, t: seq<T>, p: T -> bool)
    ensures Filter(s + t, p) == Filter(s, p) + Filter(t, p)
    decreases |t|
  {
    if t == [] {
      assert s + t == s;
    } else {
      var init, x := t[..|t| - 1], t[|t| - 1];
      FilterConcat(s, init, p);
      SplitLast(t);
      ConcatAssociative(s, init, [x]);
      FilterSnoc(s + init, x, p);
      ConcatAssociative(Filter(s, p), Filter(init, p), [x]);
    }
  }

  lemma {:induction false} FilterAgrees<T(!new)>(s: seq<T>, p: T -> bool, q: T -> bool)
    requires forall x :: x in s ==> p(x) == q(x)
    ensures Filter(s, p) == Filter(s, q)
    decreases |s|
  {
    if s != [] {
      assert s == s[..|s| - 1] + [s[|s| - 1]];
      FilterAgrees(s[..|s| - 1], p, q);
    }
  }

  lemma {:induction false} FilterTwice<T(!new)>(s: seq<T>, p: T -> bool, q: T -> bool, both: T -> bool)
    requires forall x :: x in s ==> both(x) == (p(x) && q(x))
    ensures Filter(Filter(s, p), q) == Filter(s, both)
    decreases |s|
  {
    if s != [] {
      var init, last := s[..|s| - 1], s[|s| - 1];
      SplitLast(s);
      FilterTwice(init, p, q, both);
      FilterSnoc(Filter(init, p), last, q);
    }
  }

  lemma {:induction false} FilterKeepsAll<T(!new)>(s: seq<T>, p: T -> bool)
    requires forall x :: x in s ==> p(x)
    ensures Filter(s, p) == s
    decreases |s|
  {
    if s != [] {
      SplitLast(s);
      FilterKeepsAll(s[..|s| - 1], p);
    }
  }

  lemma {:induction false} FilterKeepsNone<T(!new)>(s: seq<T>, p: T -> bool)
    requires forall x :: x in s ==> !p(x)
    ensures Filter(s, p) == []
    decreases |s|
  {
    if s != [] {
      SplitLast(s);
      FilterKeepsNone(s[..|s| - 1], p);
    }
  }

  /** Filtering keeps the order: any two kept elements stand in `s` as they stand in the result. */
  lemma {:induction false} FilterPosition<T(!new)>(s: seq<T>, p: T -> bool, i: nat, j: nat) returns (a: nat, b: nat)
    requires i < j < |Filter(s, p)|
    ensures a < b < |s| && s[a] == Filter(s, p)[i] && s[b] == Filter(s, p)[j]
    decreases |s|
  {
    var init, x := s[..|s| - 1], s[|s| - 1];
    assert s == init + [x];
    FilterSnoc(init, x, p);
    if j < |Filter(init, p)| {
      a, b := FilterPosition(init, p, i, j);
    } else {
      FilterContains(init, p);
      assert Filter(init, p)[i] in init;
      a :| 0 <= a < |init| && init[a] == Filter(init, p)[i];
      b := |s| - 1;
    }
  }

  /** A duplicate-free list has as many elements as its set. */
  lemma {:induction false} DistinctCardinality<T(!new)>(s: seq<T>)
    ensures |set x | x in s| <= |s|
    ensures Distinct(s) <==> |set x | x in s| == |s|
    decreases |s|
  {
    if s != [] {
      var init, x := s[..|s| - 1], s[|s| - 1];
      assert s == init + [x];
      DistinctCardinality(init);
      assert (set y | y in s) == (set y | y in init) + {x};
      if x in init {
        var i :| 0 <= i < |init| && init[i] == x;
        assert s[i] == s[|s| - 1];
        assert (set y | y in s) == (set y | y in init);
      } else {
        assert Distinct(s) <==> Distinct(init);
      }
    }
  }

  lemma {:induction false} EmptyIff<T(!new)>(s: seq<T>)
    ensures s == [] <==> forall x :: x !in s
  {
    assert s != [] ==> s[0] in s;
  }

  lemma {:induction false} NoLonger<T(!new)>(s: seq<T>, a: seq<T>, x: seq<T>, b: seq<T>, y: seq<T>, p: T -> bool)
    requires s == a + x && s == b + y && (forall e :: e in a ==> p(e)) && (y != [] ==> !p(y[0]))
    ensures |a| <= |b|
  {
    forall i | 0 <= i < |a| ensures p(s[i]) {
      assert s[i] == a[i];
    }
    assert y != [] ==> s[|b|] == y[0];
  }

  /** A stretch of elements with a property, up to the first one without it, is determined by the whole. */
  lemma {:induction false} Border<T(!new)>(a: seq<T>, x: seq<T>, b: seq<T>, y: seq<T>, p: T -> bool)
    requires a + x == b + y && (forall e :: e in a || e in b ==> p(e))
    requires (x != [] ==> !p(x[0])) && (y != [] ==> !p(y[0]))
    ensures a == b && x == y
  {
    var s := a + x;
    NoLonger(s, a, x, b, y, p);
    NoLonger(s, b, y, a, x, p);
    assert s[..|a|] == a && s[..|b|] == b && s[|a|..] == x && s[|b|..] == y;
  }

  lemma {:induction false} NoShorter<T(!new)>(s: seq<T>, x: seq<T>, a: seq<T>, y: seq<T>, b: seq<T>, p: T -> bool)
    requires s == x + a && s == y + b && (forall e :: e in a ==> p(e)) && (y != [] ==> !p(y[|y| - 1]))
    ensures |x| >= |y|
  {
    forall i | |x| <= i < |s| ensures p(s[i]) {
      assert s[i] == a[i - |x|];
    }
    assert y != [] ==> s[|y| - 1] == y[|y| - 1];
  }

  /** The same from the right. */
  lemma {:induction false} BorderFromRight<T(!new)>(x: seq<T>, a: seq<T>, y: seq<T>, b: seq<T>, p: T -> bool)
    requires x + a == y + b && (forall e :: e in a || e in b ==> p(e))
    requires (x != [] ==> !p(x[|x| - 1])) && (y != [] ==> !p(y[|y| - 1]))
    ensures a == b && x == y
  {
    var s := x + a;
    NoShorter(s, x, a, y, b, p);
    NoShorter(s, y, b, x, a, p);
    assert s[..|x|] == x && s[..|y|] == y && s[|x|..] == a && s[|y|..] == b;
  }

  lemma {:induction false} SameSetSameMembers<T(!new)>(a: seq<T>, b: seq<T>)
    requires (set x | x in a) == (set x | x in b)
    ensures forall x :: x in a <==> x in b
  {
    var s, t := set x | x in a, set x | x in b;
    assert forall x :: x in a <==> x in s;
    assert forall x :: x in b <==> x in t;
  }

  lemma {:induction false} SubsetOfSameSize<T>(small: set<T>, big: set<T>)
    requires small <= big && |small| >= |big|
    ensures small == big
  {
    assert |big - small| == |big| - |small|;
  }
}
