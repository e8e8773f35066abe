/** Sorting by a total order, whatever algorithm does it; and the lexicographic order of sequences. */
module Sorting {

  ghost predicate TotalOrder<T(!new)>(le: (T, T) -> bool) {
    && (forall a, b :: le(a, b) || le(b, a))
    && (forall a, b, c :: le(a, b) && le(b, c) ==> le(a, c))
    && (forall a, b :: le(a, b) && le(b, a) ==> a == b)
  }

  predicate Sorted<T>(le: (T, T) -> bool, values: seq<T>) {
    forall i, j :: 0 <= i < j < |values| ==> le(values[i], values[j])
  }

  /** Insert before the first element that is not smaller. */
  function Insert<T(==)>(le: (T, T) -> bool, value: T, sorted: seq<T>): (r: seq<T>)
    ensures multiset(r) == multiset(sorted) + multiset{value}
  {
    if sorted == [] || le(value, sorted[0]) then
      [value] + sorted
    else
      assert sorted == [sorted[0]] + sorted[1..];
      [sorted[0]] + Insert(le, value, sorted[1..])
  }

  function Sort<T(==)>(le: (T, T) -> bool, values: seq<T>): (r: seq<T>)
    ensures multiset(r) == multiset(values)
  {
    if values == [] then [] else
      assert values == [values[0]] + values[1..];
      Insert(le, values[0], Sort(le, values[1..]))
  }

  lemma {:induction false} InsertSorted<T(!new)>(le: (T, T) -> bool, value: T, sorted: seq<T>)
    requires TotalOrder(le) && Sorted(le, sorted)
    ensures Sorted(le, Insert(le, value, sorted))
  {
    if sorted == [] || le(value, sorted[0]) {
    } else {
      var rest := Insert(le, value, sorted[1..]);
      InsertSorted(le, value, sorted[1..]);
      forall j | 0 <= j < |rest|
        ensures le(sorted[0], rest[j])
      {
        assert rest[j] in multiset(rest);
        assert rest[j] == value || rest[j] in sorted[1..];
      }
    }
  }

  lemma {:induction false} SortSorted<T(!new)>(le: (T, T) -> bool, values: seq<T>)
    requires TotalOrder(le)
    ensures Sorted(le, Sort(le, values))
  {
    if values == [] {
    } else {
      SortSorted(le, values[1..]);
      InsertSorted(le, values[0], Sort(le, values[1..]));
    }
  }

  /** One multiset has one sorted list. */
  lemma {:induction false} SortedUnique<T(!new)>(le: (T, T) -> bool, v: seq<T>, w: seq<T>)
    requires TotalOrder(le) && Sorted(le, v) && Sorted(le, w) && multiset(v) == multiset(w)
    ensures v == w
  {
    if v == [] {
      assert |multiset(w)| == 0;
    } else {
      SameFirst(le, v, w);
      SortedTail(le, v);
      SortedTail(le, w);
      TailElements(v);
      TailElements(w);
      SortedUnique(le, v[1..], w[1..]);
      assert v == [v[0]] + v[1..] && w == [w[0]] + w[1..];
    }
  }

  lemma TailElements<T>(v: seq<T>)
    requires v != []
    ensures multiset(v[1..]) == multiset(v) - multiset{v[0]}
  {
    assert v == [v[0]] + v[1..];
  }

  lemma SameFirst<T(!new)>(le: (T, T) -> bool, v: seq<T>, w: seq<T>)
    requires TotalOrder(le) && Sorted(le, v) && Sorted(le, w) && v != [] && multiset(v) == multiset(w)
    ensures w != [] && v[0] == w[0]
  {
    assert v[0] in multiset(w);
    assert w[0] in multiset(v);
    FirstLeast(le, v, w[0]);
    FirstLeast(le, w, v[0]);
  }

  lemma SortedTail<T>(le: (T, T) -> bool, v: seq<T>)
    requires Sorted(le, v) && v != []
    ensures Sorted(le, v[1..])
  {
  }

  lemma FirstLeast<T(!new)>(le: (T, T) -> bool, v: seq<T>, x: T)
    requires TotalOrder(le) && Sorted(le, v) && x in v
    ensures le(v[0], x)
  {
  }

  /** Sorted lists are equal exactly if the lists were permutations of each other. */
  lemma SortSame<T(!new)>(le: (T, T) -> bool, v: seq<T>, w: seq<T>)
    requires TotalOrder(le)
    ensures Sort(le, v) == Sort(le, w) <==> multiset(v) == multiset(w)
  {
    hide TotalOrder;
    SortSorted(le, v);
    SortSorted(le, w);
    if multiset(v) == multiset(w) {
      SortedUnique(le, Sort(le, v), Sort(le, w));
    }
  }

  // ---------------------------------------------------------------- the lexicographic order

  ghost predicate StrictOrder<E(!new)>(less: (E, E) -> bool) {
    && (forall a, b :: a == b || less(a, b) || less(b, a))
    && (forall a, b, c :: less(a, b) && less(b, c) ==> less(a, c))
    && (forall a, b :: less(a, b) ==> a != b && !less(b, a))
  }

  predicate AtMost<E(==)>(less: (E, E) -> bool, a: seq<E>, b: seq<E>) {
    a == [] || (b != [] && (less(a[0], b[0]) || (a[0] == b[0] && AtMost(less, a[1..], b[1..]))))
  }

  /** a and b agree up to place k, where a ends or holds the smaller element. */
  predicate PartsAt<E(==)>(less: (E, E) -> bool, a: seq<E>, b: seq<E>, k: nat) {
    k <= |a| && k <= |b| && a[..k] == b[..k] && (k == |a| || (k < |b| && less(a[k], b[k])))
  }

  /** The first place at which two sequences differ decides. */
  lemma {:induction false} AtMostDecided<E(!new)>(less: (E, E) -> bool, a: seq<E>, b: seq<E>)
    ensures AtMost(less, a, b) <==> exists k: nat :: PartsAt(less, a, b, k)
  {
    if a == [] {
      assert PartsAt(less, a, b, 0);
    } else if b == [] || a[0] != b[0] {
      if k: nat :| PartsAt(less, a, b, k) {
        if k > 0 {
          SameHead(a, b, k);
        }
      }
      if AtMost(less, a, b) {
        assert PartsAt(less, a, b, 0);
      }
    } else {
      AtMostDecided(less, a[1..], b[1..]);
      if k: nat :| PartsAt(less, a[1..], b[1..], k) {
        PartsLater(less, a, b, k);
      }
      if less(a[0], b[0]) {
        assert PartsAt(less, a, b, 0);
      } else if k: nat :| PartsAt(less, a, b, k) {
        PartsLater(less, a, b, k - 1);
      }
    }
  }

  lemma SameHead<E>(a: seq<E>, b: seq<E>, k: nat)
    requires 0 < k <= |a| && k <= |b| && a[..k] == b[..k]
    ensures a[0] == b[0]
  {
    assert a[..k][0] == a[0] && b[..k][0] == b[0];
  }

  lemma PartsLater<E(!new)>(less: (E, E) -> bool, a: seq<E>, b: seq<E>, k: nat)
    requires a != [] && b != [] && a[0] == b[0]
    ensures PartsAt(less, a[1..], b[1..], k) <==> PartsAt(less, a, b, k + 1)
  {
    if k < |a| && k < |b| {
      assert a[..k + 1] == [a[0]] + a[1..][..k] && b[..k + 1] == [b[0]] + b[1..][..k];
      assert a[..k + 1][1..] == a[1..][..k] && b[..k + 1][1..] == b[1..][..k];
    }
  }

  lemma {:induction false} AtMostTotal<E(!new)>(less: (E, E) -> bool, a: seq<E>, b: seq<E>)
    requires StrictOrder(less)
    ensures AtMost(less, a, b) || AtMost(less, b, a)
  {
    if a == [] || b == [] {
    } else {
      AtMostTotal(less, a[1..], b[1..]);
    }
  }

  lemma {:induction false} AtMostTransitive<E(!new)>(less: (E, E) -> bool, a: seq<E>, b: seq<E>, c: seq<E>)
    requires StrictOrder(less) && AtMost(less, a, b) && AtMost(less, b, c)
    ensures AtMost(less, a, c)
  {
    if a == [] || !(a[0] == b[0] == c[0]) {
    } else {
      AtMostTransitive(less, a[1..], b[1..], c[1..]);
    }
  }

  lemma {:induction false} AtMostAntisymmetric<E(!new)>(less: (E, E) -> bool, a: seq<E>, b: seq<E>)
    requires StrictOrder(less) && AtMost(less, a, b) && AtMost(less, b, a)
    ensures a == b
  {
    if a == [] {
    } else {
      AtMostAntisymmetric(less, a[1..], b[1..]);
      assert a == [a[0]] + a[1..] && b == [b[0]] + b[1..];
    }
  }

  lemma LexicographicTotal<E(!new)>(less: (E, E) -> bool)
    requires StrictOrder(less)
    ensures TotalOrder((a: seq<E>, b: seq<E>) => AtMost(less, a, b))
  {
    hide AtMost; hide StrictOrder;
    forall a: seq<E>, b: seq<E>
      ensures AtMost(less, a, b) || AtMost(less, b, a)
    {
      AtMostTotal(less, a, b);
    }
    forall a: seq<E>, b: seq<E>, c: seq<E> | AtMost(less, a, b) && AtMost(less, b, c)
      ensures AtMost(less, a, c)
    {
      AtMostTransitive(less, a, b, c);
    }
    forall a: seq<E>, b: seq<E> | AtMost(less, a, b) && AtMost(less, b, a)
      ensures a == b
    {
      AtMostAntisymmetric(less, a, b);
    }
  }
}
