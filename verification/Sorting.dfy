/** Specifications of the two standard-library algorithms the loader uses. */
module Sorting {
  /** A total order that also decides equality. */
  ghost predicate TotalOrder<T(!new)>(less: (T, T) -> bool) {
    && (forall a, b :: a != b ==> less(a, b) || less(b, a))
    && (forall a, b :: less(a, b) ==> !less(b, a))
    && (forall a, b, c :: less(a, b) && less(b, c) ==> less(a, c))
  }

  /** Asymmetric, and whatever is not separated from both ends of a pair separates nothing: all that
      sorting needs of a comparison. */
  ghost predicate WeakOrder<T(!new)>(less: (T, T) -> bool) {
    && (forall a, b :: less(a, b) ==> !less(b, a))
    && (forall a, b, c :: less(a, c) ==> less(a, b) || less(b, c))
  }

  ghost predicate Sorted<T>(s: seq<T>, less: (T, T) -> bool) {
    forall i, j :: 0 <= i < j < |s| ==> !less(s[j], s[i])
  }

  function Insert<T>(x: T, s: seq<T>, less: (T, T) -> bool): seq<T> {
    if s == [] || !less(s[0], x) then [x] + s else [s[0]] + Insert(x, s[1..], less)
  }

  function Sort<T>(s: seq<T>, less: (T, T) -> bool): seq<T> {
    if s == [] then [] else Insert(s[0], Sort(s[1..], less), less)
  }

  lemma {:induction false} InsertKeeps<T>(x: T, s: seq<T>, less: (T, T) -> bool)
    ensures multiset(Insert(x, s, less)) == multiset(s) + multiset{x}
    ensures |Insert(x, s, less)| == |s| + 1
  {
    if s == [] || !less(s[0], x) {
    } else {
      InsertKeeps(x, s[1..], less);
      assert s == [s[0]] + s[1..];
    }
  }

  lemma {:induction false} InsertSorts<T(!new)>(x: T, s: seq<T>, less: (T, T) -> bool)
    requires WeakOrder(less) && Sorted(s, less)
    ensures Sorted(Insert(x, s, less), less)
  {
    if s != [] && less(s[0], x) {
      var rest := Insert(x, s[1..], less);
      InsertSorts(x, s[1..], less);
      InsertKeeps(x, s[1..], less);
      forall k | 0 <= k < |rest| ensures !less(rest[k], s[0]) {
        assert rest[k] in multiset(rest);
        if rest[k] != x { assert rest[k] in s[1..]; }
      }
    } else if s != [] {
      forall k | 0 <= k < |s| ensures !less(s[k], x) {
        if k > 0 { assert !less(s[k], s[0]); }
      }
    }
  }

  /** Sorting permutes and sorts. */
  lemma {:induction false} SortSorts<T(!new)>(s: seq<T>, less: (T, T) -> bool)
    requires WeakOrder(less)
    ensures Sorted(Sort(s, less), less) && multiset(Sort(s, less)) == multiset(s) && |Sort(s, less)| == |s|
  {
    if s != [] {
      SortSorts(s[1..], less);
      InsertSorts(s[0], Sort(s[1..], less), less);
      InsertKeeps(s[0], Sort(s[1..], less), less);
      assert s == [s[0]] + s[1..];
    }
  }

  /** Entries `before` the key come first. */
  ghost predicate Partitioned<T>(table: seq<T>, before: T -> bool) {
    forall i, j :: 0 <= i < j < |table| && before(table[j]) ==> before(table[i])
  }

  /** The first position whose entry is not before the key, by halving. */
  method LowerBound<T>(table: seq<T>, before: T -> bool) returns (bound: nat)
    requires Partitioned(table, before)
    ensures bound <= |table|
    ensures forall i :: 0 <= i < bound ==> before(table[i])
    ensures forall i :: bound <= i < |table| ==> !before(table[i])
  {
    var first, count := 0, |table|;
    while count > 0
      invariant 0 <= first <= first + count <= |table|
      invariant forall i :: 0 <= i < first ==> before(table[i])
      invariant forall i :: first + count <= i < |table| ==> !before(table[i])
    {
      var half := count / 2;
      if before(table[first + half]) {
        forall i | 0 <= i < first + half ensures before(table[i]) {}
        first := first + half + 1;
        count := count - half - 1;
      } else {
        assert forall i :: first + half < i < |table| && before(table[i]) ==> before(table[first + half]);
        count := half;
      }
    }
    bound := first;
  }
}
