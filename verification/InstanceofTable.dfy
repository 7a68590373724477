/** The flat table of declared superclasses (classloader/instanceof_table.cpp). */
module InstanceofTables {
  import opened Prelude
  import opened Sorting

  /** A class pointer. */
  type ClassPointer = nat

  function PointerOrder(): (ClassPointer, ClassPointer) -> bool { (a, b) => a < b }

  lemma PointersOrdered()
    ensures WeakOrder(PointerOrder())
  {
  }

  lemma SortedPartitioned(row: seq<ClassPointer>, key: ClassPointer)
    requires Sorted(row, PointerOrder())
    ensures Partitioned(row, p => p < key)
  {
    forall i, j | 0 <= i < j < |row| && row[j] < key ensures row[i] < key {
      assert !PointerOrder()(row[j], row[i]);
    }
  }

  /** The ranges of a table made of rows laid end to end, in row order, cover it once. */
  lemma {:induction false} RangesPartition(rows: seq<seq<ClassPointer>>, at: nat) returns (k: nat)
    requires at < |Flatten(rows)|
    ensures k < |rows| && |Flatten(rows[..k])| <= at < |Flatten(rows[..k])| + |rows[k]|
    ensures forall j :: 0 <= j < |rows| && |Flatten(rows[..j])| <= at < |Flatten(rows[..j])| + |rows[j]| ==> j == k
  {
    var n := |rows| - 1;
    if at >= |Flatten(rows[..n])| {
      k := n;
    } else {
      k := RangesPartition(rows[..n], at);
      assert rows[..n][..k] == rows[..k];
    }
    forall j | 0 <= j < |rows| && j != k ensures !(|Flatten(rows[..j])| <= at < |Flatten(rows[..j])| + |rows[j]|) {
      var lo, hi := if j < k then j else k, if j < k then k else j;
      assert rows[..hi][..lo] == rows[..lo];
      FlattenRow(rows[..hi], lo);
    }
  }

  class InstanceofTable {
    var classIndices: seq<(nat, nat)>
    var superclasses: seq<ClassPointer>
    /** The list of each class index: insertion order until committed, sorted afterwards. */
    ghost var rows: seq<seq<ClassPointer>>

    ghost predicate Valid()
      reads this
    {
      && |classIndices| == |rows|
      && superclasses == Flatten(rows)
      && forall k :: 0 <= k < |rows| ==> classIndices[k] == (|Flatten(rows[..k])|, |rows[k]|)
    }

    constructor ()
      ensures Valid() && rows == []
    {
      classIndices, superclasses, rows := [], [], [];
    }

    method InsertIndex() returns (index: nat)
      requires Valid()
      modifies this
      ensures Valid() && rows == old(rows) + [[]] && index == |old(rows)|
    {
      index := |classIndices|;
      classIndices := classIndices + [(|superclasses|, 0)];
      FlattenAppend(rows, []);
      ghost var before := rows;
      rows := rows + [[]];
      forall k | 0 <= k < |rows| ensures classIndices[k] == (|Flatten(rows[..k])|, |rows[k]|) {
        assert rows[..k] == before[..k];
        assert before[..|before|] == before;
      }
    }

    method InsertSuperclass(supcls: ClassPointer)
      requires Valid() && rows != []
      modifies this
      ensures Valid()
      ensures rows == old(rows)[|old(rows)| - 1 := old(rows)[|old(rows)| - 1] + [supcls]]
    {
      var last := |classIndices| - 1;
      classIndices := classIndices[last := (classIndices[last].0, classIndices[last].1 + 1)];
      superclasses := superclasses + [supcls];
      ReplaceLastRow(rows[last] + [supcls]);
      rows := rows[last := rows[last] + [supcls]];
    }

    /** Sorts the range of the last class, in place. */
    method CommitSuperclasses() returns (ok: bool)
      requires Valid() && rows != []
      modifies this
      ensures ok && Valid()
      ensures rows == old(rows)[|old(rows)| - 1 := Sort(old(rows)[|old(rows)| - 1], PointerOrder())]
      ensures |superclasses| == |old(superclasses)|
    {
      var last := |classIndices| - 1;
      var first, count := classIndices[last].0, classIndices[last].1;
      FlattenRow(rows, last);
      PointersOrdered();
      SortSorts(rows[last], PointerOrder());
      superclasses := superclasses[..first] + Sort(superclasses[first..first + count], PointerOrder()) +
        superclasses[first + count..];
      ReplaceLastRow(Sort(rows[last], PointerOrder()));
      rows := rows[last := Sort(rows[last], PointerOrder())];
      return true;
    }

    method PopLastClass()
      requires Valid() && rows != []
      modifies this
      ensures Valid() && rows == old(rows)[..|old(rows)| - 1]
    {
      var last := |classIndices| - 1;
      superclasses := superclasses[..classIndices[last].0];
      classIndices := classIndices[..last];
      ghost var before := rows;
      rows := rows[..last];
      forall k | 0 <= k < |rows| ensures rows[..k] == before[..k] {}
    }

    /** Replacing the last row leaves every other range where it is. */
    lemma ReplaceLastRow(row: seq<ClassPointer>)
      requires rows != []
      ensures
        var n := |rows| - 1;
        && Flatten(rows[n := row]) == Flatten(rows[..n]) + row
        && forall k :: 0 <= k <= n ==> rows[n := row][..k] == rows[..k]
    {
      var n := |rows| - 1;
      assert rows[n := row][..n] == rows[..n];
    }

    /** Binary search answers exactly membership in the list the class declared. */
    method IsSuperclass(superclass: ClassPointer, subIndex: nat) returns (present: bool)
      requires Valid() && subIndex < |rows| && Sorted(rows[subIndex], PointerOrder())
      ensures present <==> superclass in rows[subIndex]
    {
      var first, count := classIndices[subIndex].0, classIndices[subIndex].1;
      FlattenRow(rows, subIndex);
      var range := superclasses[first..first + count];
      assert range == rows[subIndex];
      SortedPartitioned(range, superclass);
      var bound := LowerBound(range, p => p < superclass);
      present := bound < |range| && range[bound] == superclass;
      if superclass in range {
        var i :| 0 <= i < |range| && range[i] == superclass;
        if bound < i { assert !PointerOrder()(range[i], range[bound]); }
      }
    }
  }
}
