/**
  `Array.prototype.sort` with a comparator that is a total preorder: the engine's sort is stable,
  so its result is the unique sorted permutation that keeps tied elements in their input order.
  It is modelled by insertion sort, with `le(a, b)` meaning "the comparator puts `a` no later
  than `b`" (`compare(a, b) <= 0`).
*/
module Sorting {

  ghost predicate TotalPreorder<T(!new)>(le: (T, T) -> bool) {
    && (forall a, b :: le(a, b) || le(b, a))
    && (forall a, b, c :: le(a, b) && le(b, c) ==> le(a, c))
  }

  predicate Sorted<T>(s: seq<T>, le: (T, T) -> bool) {
    forall i, j :: 0 <= i < j < |s| ==> le(s[i], s[j])
  }

  /** The comparator cannot tell `a` and `b` apart. */
  predicate Tied<T>(a: T, b: T, le: (T, T) -> bool) {
    le(a, b) && le(b, a)
  }

  /** The elements of `s` tied with `z`, in order. */
  function TiedWith<T>(s: seq<T>, z: T, le: (T, T) -> bool): seq<T> {
    if s == [] then []
    else (if Tied(s[0], z, le) then [s[0]] else []) + TiedWith(s[1..], z, le)
  }

  function Insert<T>(x: T, s: seq<T>, le: (T, T) -> bool): (r: seq<T>)
    ensures multiset(r) == multiset(s) + multiset{x}
  {
    if s == [] || le(x, s[0]) then [x] + s
    else
      assert s == [s[0]] + s[1..];
      [s[0]] + Insert(x, s[1..], le)
  }

  function Sort<T>(xs: seq<T>, le: (T, T) -> bool): (r: seq<T>)
    ensures multiset(r) == multiset(xs)
  {
    if xs == [] then []
    else
      assert xs == [xs[0]] + xs[1..];
      Insert(xs[0], Sort(xs[1..], le), le)
  }

  lemma {:induction false} InsertSorted<T(!new)>(x: T, s: seq<T>, le: (T, T) -> bool)
    requires TotalPreorder(le) && Sorted(s, le)
    ensures Sorted(Insert(x, s, le), le)
    decreases |s|
  {
    if s == [] || le(x, s[0]) {
    } else {
      var t := Insert(x, s[1..], le);
      InsertSorted(x, s[1..], le);
      assert multiset(t) == multiset(s[1..]) + multiset{x};
      forall j | 0 <= j < |t| ensures le(s[0], t[j]) {
        assert t[j] in multiset(t);
        if t[j] != x {
          assert t[j] in multiset(s[1..]);
          var k :| 0 <= k < |s[1..]| && s[1..][k] == t[j];
          assert s[k + 1] == t[j];
        }
      }
    }
  }

  /** The sorted list is ordered by the comparator (and, by the postcondition of Sort, a permutation). */
  lemma {:induction false} SortSorted<T(!new)>(xs: seq<T>, le: (T, T) -> bool)
    requires TotalPreorder(le)
    ensures Sorted(Sort(xs, le), le)
    decreases |xs|
  {
    if xs != [] {
      SortSorted(xs[1..], le);
      InsertSorted(xs[0], Sort(xs[1..], le), le);
    }
  }

  lemma {:induction false} TiedWithConcat<T>(a: seq<T>, b: seq<T>, z: T, le: (T, T) -> bool)
    ensures TiedWith(a + b, z, le) == TiedWith(a, z, le) + TiedWith(b, z, le)
    decreases |a|
  {
    if a != [] {
      assert (a + b)[1..] == a[1..] + b;
      TiedWithConcat(a[1..], b, z, le);
    } else {
      assert a + b == b;
    }
  }

  lemma {:induction false} InsertStable<T(!new)>(x: T, s: seq<T>, z: T, le: (T, T) -> bool)
    requires TotalPreorder(le)
    ensures TiedWith(Insert(x, s, le), z, le) == (if Tied(x, z, le) then [x] else []) + TiedWith(s, z, le)
    decreases |s|
  {
    if s == [] || le(x, s[0]) {
      TiedWithConcat([x], s, z, le);
    } else {
      InsertStable(x, s[1..], z, le);
      TiedWithConcat([s[0]], Insert(x, s[1..], le), z, le);
      TiedWithConcat([s[0]], s[1..], z, le);
      assert s == [s[0]] + s[1..];
      assert !(Tied(x, z, le) && Tied(s[0], z, le));
    }
  }

  /** Sorting keeps the elements of each tie class in their input order. */
  lemma {:induction false} SortStable<T(!new)>(xs: seq<T>, z: T, le: (T, T) -> bool)
    requires TotalPreorder(le)
    ensures TiedWith(Sort(xs, le), z, le) == TiedWith(xs, z, le)
    decreases |xs|
  {
    if xs != [] {
      SortStable(xs[1..], z, le);
      InsertStable(xs[0], Sort(xs[1..], le), z, le);
    }
  }
}
