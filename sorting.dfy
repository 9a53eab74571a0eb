/// Python's sorted(set(...)) for any strict total order: a duplicate-free,
/// strictly ascending list, built by insertion. A strictly sorted list is
/// determined by its elements, so every way of producing one (the order in
/// which a set is walked does not matter) gives the same list.
module Sorting {

  ghost predicate StrictTotalOrder<T(!new)>(lt: (T, T) -> bool) {
    && (forall a :: !lt(a, a))
    && (forall a, b, c :: lt(a, b) && lt(b, c) ==> lt(a, c))
    && (forall a, b :: a != b ==> lt(a, b) || lt(b, a))
  }

  predicate StrictlySorted<T>(s: seq<T>, lt: (T, T) -> bool) {
    forall i, j :: 0 <= i < j < |s| ==> lt(s[i], s[j])
  }

  function Elems<T>(s: seq<T>): set<T> {
    set x | x in s
  }

  /** Insert x into a strictly sorted list unless it is already there. */
  function InsertUnique<T(==)>(s: seq<T>, x: T, lt: (T, T) -> bool): seq<T> {
    if |s| == 0 then [x]
    else if s[0] == x then s
    else if lt(x, s[0]) then [x] + s
    else [s[0]] + InsertUnique(s[1..], x, lt)
  }

  /** Inserts the elements of xs from first to last into an empty list. */
  function SortUnique<T(==)>(xs: seq<T>, lt: (T, T) -> bool): seq<T> {
    if |xs| == 0 then [] else InsertUnique(SortUnique(xs[..|xs| - 1], lt), xs[|xs| - 1], lt)
  }

  lemma ElemsCons<T>(x: T, s: seq<T>)
    ensures Elems([x] + s) == {x} + Elems(s)
  {
    assert forall y :: y in [x] + s <==> y == x || y in s;
  }

  /** Putting an element below every element of a sorted list in front keeps it sorted. */
  lemma ConsSorted<T>(x: T, s: seq<T>, lt: (T, T) -> bool)
    requires StrictlySorted(s, lt) && forall y :: y in s ==> lt(x, y)
    ensures StrictlySorted([x] + s, lt)
  {
    var r := [x] + s;
    forall i, j | 0 <= i < j < |r| ensures lt(r[i], r[j]) {
      assert r[j] == s[j - 1];
      if i > 0 { assert r[i] == s[i - 1]; }
    }
  }

  /** The head of a strictly sorted list is below every later element. */
  lemma HeadBelowTail<T>(s: seq<T>, lt: (T, T) -> bool)
    requires StrictlySorted(s, lt) && |s| > 0
    ensures forall y :: y in s[1..] ==> lt(s[0], y)
  {
    forall y | y in s[1..] ensures lt(s[0], y) {
      var k :| 0 <= k < |s| - 1 && s[1..][k] == y;
      assert s[k + 1] == y;
    }
  }

  lemma InsertFront<T(!new)>(s: seq<T>, x: T, lt: (T, T) -> bool)
    requires StrictTotalOrder(lt) && StrictlySorted(s, lt) && |s| > 0 && lt(x, s[0])
    ensures StrictlySorted([x] + s, lt) && Elems([x] + s) == Elems(s) + {x}
  {
    assert s == [s[0]] + s[1..];
    HeadBelowTail(s, lt);
    forall y | y in s ensures lt(x, y) {
      if y != s[0] { assert y in s[1..]; }
    }
    ConsSorted(x, s, lt);
    ElemsCons(x, s);
  }

  lemma InsertLater<T(!new)>(s: seq<T>, x: T, t: seq<T>, lt: (T, T) -> bool)
    requires StrictTotalOrder(lt) && StrictlySorted(s, lt) && |s| > 0 && lt(s[0], x)
    requires StrictlySorted(t, lt) && Elems(t) == Elems(s[1..]) + {x}
    ensures StrictlySorted([s[0]] + t, lt) && Elems([s[0]] + t) == Elems(s) + {x}
  {
    assert s == [s[0]] + s[1..];
    HeadBelowTail(s, lt);
    assert forall y :: y in t ==> y in Elems(t);
    ConsSorted(s[0], t, lt);
    ElemsCons(s[0], t);
    ElemsCons(s[0], s[1..]);
  }

  lemma {:induction false} InsertUniqueCorrect<T(!new)>(s: seq<T>, x: T, lt: (T, T) -> bool)
    requires StrictTotalOrder(lt) && StrictlySorted(s, lt)
    ensures StrictlySorted(InsertUnique(s, x, lt), lt)
    ensures Elems(InsertUnique(s, x, lt)) == Elems(s) + {x}
  {
    if |s| == 0 {
    } else if s[0] == x {
      assert x in Elems(s);
    } else if lt(x, s[0]) {
      InsertFront(s, x, lt);
    } else {
      assert StrictlySorted(s[1..], lt);
      InsertUniqueCorrect(s[1..], x, lt);
      InsertLater(s, x, InsertUnique(s[1..], x, lt), lt);
    }
  }

  lemma {:induction false} SortUniqueCorrect<T(!new)>(xs: seq<T>, lt: (T, T) -> bool)
    requires StrictTotalOrder(lt)
    ensures StrictlySorted(SortUnique(xs, lt), lt)
    ensures Elems(SortUnique(xs, lt)) == Elems(xs)
  {
    if |xs| > 0 {
      var init := xs[..|xs| - 1];
      SortUniqueCorrect(init, lt);
      InsertUniqueCorrect(SortUnique(init, lt), xs[|xs| - 1], lt);
      assert xs == init + [xs[|xs| - 1]];
      assert Elems(xs) == Elems(init) + {xs[|xs| - 1]};
    }
  }

  lemma FirstInElems<T>(s: seq<T>)
    ensures |s| > 0 ==> s[0] in Elems(s)
  {
  }

  /** The first element of a strictly sorted list is not repeated later. */
  lemma HeadNotInTail<T(!new)>(s: seq<T>, lt: (T, T) -> bool)
    requires StrictTotalOrder(lt) && StrictlySorted(s, lt) && |s| > 0
    ensures Elems(s[1..]) == Elems(s) - {s[0]}
  {
    assert s == [s[0]] + s[1..];
    forall y | y in s[1..] ensures y != s[0] {
      var k :| 0 <= k < |s[1..]| && s[1..][k] == y;
      assert lt(s[0], s[k + 1]);
    }
  }

  /** Two strictly sorted lists with the same elements are the same list. */
  lemma {:induction false} SortedUnique<T(!new)>(a: seq<T>, b: seq<T>, lt: (T, T) -> bool)
    requires StrictTotalOrder(lt)
    requires StrictlySorted(a, lt) && StrictlySorted(b, lt)
    requires Elems(a) == Elems(b)
    ensures a == b
  {
    if |a| == 0 {
      FirstInElems(b);
    } else {
      assert a[0] in Elems(b);
      var j :| 0 <= j < |b| && b[j] == a[0];
      assert b[0] in Elems(a);
      var i :| 0 <= i < |a| && a[i] == b[0];
      assert a[0] == b[0];
      HeadNotInTail(a, lt);
      HeadNotInTail(b, lt);
      SortedUnique(a[1..], b[1..], lt);
      assert a == [a[0]] + a[1..] && b == [b[0]] + b[1..];
    }
  }

  /** A list whose neighbours are in order is strictly sorted. */
  lemma ChainSorted<T(!new)>(s: seq<T>, lt: (T, T) -> bool)
    requires StrictTotalOrder(lt)
    requires forall i :: 0 <= i < |s| - 1 ==> lt(s[i], s[i + 1])
    ensures StrictlySorted(s, lt)
  {
    forall i, j | 0 <= i < j < |s| ensures lt(s[i], s[j]) { ChainStep(s, lt, i, j); }
  }

  lemma {:induction false} ChainStep<T(!new)>(s: seq<T>, lt: (T, T) -> bool, i: int, j: int)
    requires StrictTotalOrder(lt)
    requires forall i :: 0 <= i < |s| - 1 ==> lt(s[i], s[i + 1])
    requires 0 <= i < j < |s|
    decreases j - i
    ensures lt(s[i], s[j])
  {
    if j > i + 1 { ChainStep(s, lt, i, j - 1); }
  }

  /** The usual order on integers, the one sorted() uses for the k-mer keys. */
  function IntLess(a: int, b: int): bool { a < b }

  lemma IntLessIsStrictTotalOrder()
    ensures StrictTotalOrder(IntLess)
  {
  }
}
