/** Strictly ascending lists under a caller-supplied order. A listing, a sorted id list and a
    newest-first history are all the same thing: the one ascending list of a set. */
module Ordered {
  /** A strict partial order: enough to make ascending lists unique. */
  ghost predicate StrictOrder<T(!new)>(less: (T, T) -> bool) {
    && (forall x :: !less(x, x))
    && (forall x, y, z :: less(x, y) && less(y, z) ==> less(x, z))
  }

  /** Any two distinct elements of the set are comparable. */
  ghost predicate ConnectedOn<T>(s: set<T>, less: (T, T) -> bool) {
    forall x, y :: x in s && y in s && x != y ==> less(x, y) || less(y, x)
  }

  ghost predicate Ascending<T>(list: seq<T>, less: (T, T) -> bool) {
    forall i, j :: 0 <= i < j < |list| ==> less(list[i], list[j])
  }

  ghost predicate NoRepeats<T>(list: seq<T>) {
    forall i, j :: 0 <= i < j < |list| ==> list[i] != list[j]
  }

  function Elements<T>(list: seq<T>): set<T> {
    set x | x in list
  }

  /** The list is the set, in order. */
  ghost predicate Lists<T>(list: seq<T>, s: set<T>, less: (T, T) -> bool) {
    Ascending(list, less) && Elements(list) == s
  }

  /** Distinct elements, so the length is the size of the set. */
  lemma {:induction false} ListsSize<T(!new)>(a: seq<T>, s: set<T>, less: (T, T) -> bool)
    requires StrictOrder(less) && Lists(a, s, less)
    ensures |a| == |s|
  {
    if a != [] {
      assert a[0] in s;
      TailLists(a, s, less);
      ListsSize(a[1..], s - {a[0]}, less);
    }
  }

  /** A set has at most one ascending list. */
  lemma {:induction false} ListsUnique<T(!new)>(a: seq<T>, b: seq<T>, s: set<T>, less: (T, T) -> bool)
    requires StrictOrder(less) && Lists(a, s, less) && Lists(b, s, less)
    ensures a == b
  {
    ListsSize(a, s, less);
    ListsSize(b, s, less);
    if a != [] {
      assert a[0] in Elements(b) && b[0] in Elements(a);
      assert a[0] == b[0];
      TailLists(a, s, less);
      TailLists(b, s, less);
      ListsUnique(a[1..], b[1..], s - {a[0]}, less);
      assert a == [a[0]] + a[1..] && b == [b[0]] + b[1..];
    }
  }

  lemma TailLists<T(!new)>(a: seq<T>, s: set<T>, less: (T, T) -> bool)
    requires StrictOrder(less) && Lists(a, s, less) && a != []
    ensures Lists(a[1..], s - {a[0]}, less)
  {
    forall x | x in s - {a[0]} ensures x in a[1..] {
      assert x in Elements(a);
    }
    forall x | x in a[1..] ensures x in s - {a[0]} {
      assert x in Elements(a);
    }
  }

  /** Dropping the first k elements keeps a list ascending, and splits its elements in two. */
  lemma SplitLists<T(!new)>(a: seq<T>, k: nat, less: (T, T) -> bool)
    requires StrictOrder(less) && Ascending(a, less) && k <= |a|
    ensures Ascending(a[..k], less) && Ascending(a[k..], less)
    ensures Elements(a[..k]) + Elements(a[k..]) == Elements(a) && Elements(a[..k]) !! Elements(a[k..])
  {
    assert a == a[..k] + a[k..];
  }

  lemma {:induction false} LeastExists<T(!new)>(s: set<T>, less: (T, T) -> bool) returns (m: T)
    requires s != {} && StrictOrder(less) && ConnectedOn(s, less)
    ensures m in s && forall x :: x in s && x != m ==> less(m, x)
  {
    var x :| x in s;
    m := x;
    if s != {x} {
      var rest := s - {x};
      assert rest != {};
      var n := LeastExists(rest, less);
      m := if less(x, n) then x else n;
      assert x in s && n in s;
      forall y | y in s && y != m ensures less(m, y) {
        assert y == x || y == n || (y in rest && less(n, y));
      }
    }
  }

  /** The one ascending list of a set. */
  ghost function SortedOf<T(!new)>(s: set<T>, less: (T, T) -> bool): (list: seq<T>)
    requires StrictOrder(less) && ConnectedOn(s, less)
    ensures Lists(list, s, less)
  {
    if s == {} then []
    else
      assert exists m :: m in s && (forall x :: x in s && x != m ==> less(m, x)) by { var m := LeastExists(s, less); }
      var m :| m in s && forall x :: x in s && x != m ==> less(m, x);
      var rest := SortedOf(s - {m}, less);
      assert forall x :: x in rest ==> x in Elements(rest);
      assert Elements([m] + rest) == {m} + Elements(rest);
      [m] + rest
  }

  /** The elements that pass a test, in their order. */
  function Filter<T(!new)>(list: seq<T>, keep: T -> bool): (r: seq<T>)
    ensures forall x :: x in r <==> x in list && keep(x)
  {
    if list == [] then []
    else if keep(list[|list| - 1]) then Filter(list[..|list| - 1], keep) + [list[|list| - 1]]
    else Filter(list[..|list| - 1], keep)
  }

  lemma {:induction false} FilterAscends<T(!new)>(list: seq<T>, keep: T -> bool, less: (T, T) -> bool)
    requires Ascending(list, less)
    ensures Ascending(Filter(list, keep), less)
  {
    if list != [] {
      var init, last := list[..|list| - 1], list[|list| - 1];
      FilterAscends(init, keep, less);
      forall x | x in Filter(init, keep) ensures less(x, last) {
        var i :| 0 <= i < |init| && init[i] == x;
      }
    }
  }

  /** Moves one element into place by walking back from the end of an ascending list. */
  method InsertSorted<T(==,!new)>(list: seq<T>, x: T, less: (T, T) -> bool) returns (out: seq<T>)
    requires StrictOrder(less) && Ascending(list, less)
    requires ConnectedOn(Elements(list) + {x}, less) && x !in list
    ensures Lists(out, Elements(list) + {x}, less)
  {
    var i := |list|;
    while i > 0 && less(x, list[i - 1])
      invariant 0 <= i <= |list|
      invariant forall j :: i <= j < |list| ==> less(x, list[j])
    {
      i := i - 1;
    }
    out := list[..i] + [x] + list[i..];
    assert forall e :: e in out <==> e in list || e == x by {
      assert list == list[..i] + list[i..];
    }
    forall j | 0 <= j < i ensures less(list[j], x) {
      assert list[i - 1] in Elements(list) + {x} && x in Elements(list) + {x};
      assert j == i - 1 || less(list[j], list[i - 1]);
    }
  }

  /** Sorts the elements of a set, taken in whatever order the set yields them. */
  method SortedList<T(==,!new)>(s: set<T>, less: (T, T) -> bool) returns (out: seq<T>)
    requires StrictOrder(less) && ConnectedOn(s, less)
    ensures Lists(out, s, less)
  {
    out := [];
    var rest := s;
    while rest != {}
      invariant rest <= s && Lists(out, s - rest, less)
      decreases rest
    {
      var x :| x in rest;
      out := InsertSorted(out, x, less);
      rest := rest - {x};
      assert Elements(out) == s - rest;
    }
  }
}
