/** Export tables: the order of names, entries packed into words, and reflection by binary search through a
    class and its superclasses (classes/class.cpp, classloader/loader_iterators.cpp,
    classloader/loaded_iterators.cpp). */
module Exports {
  import opened Prelude
  import opened Sorting

  // ---- The order of names ---------------------------------------------------------------------

  /** The sign of the first difference among the first n bytes. */
  function Memcmp(a: Name, b: Name, n: nat): int
    requires n <= |a| && n <= |b|
  {
    if n == 0 then 0
    else if a[0] != b[0] then if a[0] < b[0] then -1 else 1
    else Memcmp(a[1..], b[1..], n - 1)
  }

  function Shorter(a: Name, b: Name): nat { if |a| < |b| then |a| else |b| }

  predicate Before(a: Name, b: Name) {
    var sign := Memcmp(a, b, Shorter(a, b));
    sign < 0 || (sign == 0 && |a| < |b|)
  }

  /** `a` and `b` agree up to k, where `a` ends or has the smaller byte. */
  predicate SmallerAt(a: Name, b: Name, k: nat) {
    && k <= |a| && k < |b| && a[..k] == b[..k]
    && (k == |a| || a[k] < b[k])
  }

  lemma SameHead(a: Name, b: Name)
    ensures forall k: nat :: 0 < k && SmallerAt(a, b, k) ==> a != [] && b != [] && a[0] == b[0]
  {
    forall k: nat | 0 < k && SmallerAt(a, b, k) ensures a != [] && b != [] && a[0] == b[0] {
      assert a[..k][0] == b[..k][0];
    }
  }

  /** The comparison is the lexicographic order, a proper prefix coming first. */
  lemma {:induction false} BeforeIsLexicographic(a: Name, b: Name)
    ensures Before(a, b) <==> exists k :: SmallerAt(a, b, k)
  {
    if a == [] || b == [] || a[0] != b[0] {
      if Before(a, b) { assert SmallerAt(a, b, 0); }
      SameHead(a, b);
    } else {
      BeforeIsLexicographic(a[1..], b[1..]);
      if k: nat :| SmallerAt(a[1..], b[1..], k) {
        assert a[..k + 1] == [a[0]] + a[1..][..k] && b[..k + 1] == [b[0]] + b[1..][..k];
        assert SmallerAt(a, b, k + 1);
      }
      if k: nat :| SmallerAt(a, b, k) {
        assert a[1..][..k - 1] == a[..k][1..] && b[1..][..k - 1] == b[..k][1..];
        assert SmallerAt(a[1..], b[1..], k - 1);
      }
    }
  }

  lemma {:induction false} BeforeTotal(a: Name, b: Name)
    ensures Before(a, b) ==> !Before(b, a)
    ensures a != b ==> Before(a, b) || Before(b, a)
  {
    if a != [] && b != [] && a[0] == b[0] {
      BeforeTotal(a[1..], b[1..]);
      assert a == [a[0]] + a[1..] && b == [b[0]] + b[1..];
    }
  }

  lemma {:induction false} BeforeTransitive(a: Name, b: Name, c: Name)
    requires Before(a, b) && Before(b, c)
    ensures Before(a, c)
  {
    if a != [] && b != [] && c != [] && a[0] == b[0] == c[0] {
      BeforeTransitive(a[1..], b[1..], c[1..]);
    }
  }

  function NameOrder(): (Name, Name) -> bool { (a, b) => Before(a, b) }

  lemma NamesOrdered()
    ensures TotalOrder(NameOrder())
  {
    forall a: Name, b: Name ensures (Before(a, b) ==> !Before(b, a)) && (a != b ==> Before(a, b) || Before(b, a)) {
      BeforeTotal(a, b);
    }
    forall a: Name, b: Name, c: Name | Before(a, b) && Before(b, c) ensures Before(a, c) { BeforeTransitive(a, b, c); }
  }

  // ---- Table entries --------------------------------------------------------------------------

  const INDEX_LIMIT := 0x100_0000

  /** An entry of the table: the name, and one 32-bit word split into its 24-bit index and its
      metadata byte. */
  datatype Export = Export(name: Name, index: nat, metadata: bv8)

  /** Writing an entry ors the unmasked 32-bit data into a word that has the metadata on top. */
  function EntryFor(name: Name, data: nat, metadata: bv8): Export {
    Export(name, data % INDEX_LIMIT, metadata | ((data / INDEX_LIMIT % 0x100) as bv8))
  }

  /** An entry reads back what was written exactly when the data fits 24 bits. */
  lemma EntryRoundTrip(name: Name, data: nat, metadata: bv8)
    ensures EntryFor(name, data, metadata).index == data <==> data < 0x100_0000
    ensures data < 0x100_0000 ==> EntryFor(name, data, metadata) == Export(name, data, metadata)
  {
  }

  function EntryOrder(): (Export, Export) -> bool { (e: Export, f: Export) => Before(e.name, f.name) }

  /** Entries ordered by a total order of their names. */
  lemma EntriesOrdered(names: (Name, Name) -> bool, entries: (Export, Export) -> bool)
    requires TotalOrder(names) && forall e, f :: entries(e, f) <==> names(e.name, f.name)
    ensures WeakOrder(entries)
  {
    forall e: Export, f: Export, g: Export | entries(e, g) ensures entries(e, f) || entries(f, g) {
      if e.name != f.name && names(f.name, e.name) { assert names(f.name, g.name); }
    }
  }

  /** The table a class ends up with: its exports in name order. */
  function Table(exports: seq<Export>): seq<Export> { Sort(exports, EntryOrder()) }

  lemma TableSorted(exports: seq<Export>)
    ensures Sorted(Table(exports), EntryOrder()) && multiset(Table(exports)) == multiset(exports)
  {
    NamesOrdered();
    EntriesOrdered(NameOrder(), EntryOrder());
    SortSorts(exports, EntryOrder());
  }

  // ---- Linear search, the reference -----------------------------------------------------------

  ghost predicate Exported(exports: seq<Export>, name: Name) { exists e :: e in exports && e.name == name }

  ghost predicate DistinctNames(exports: seq<Export>) {
    forall i, j :: 0 <= i < j < |exports| ==> exports[i].name != exports[j].name
  }

  function Lookup(exports: seq<Export>, name: Name): Option<nat> {
    if exports == [] then None
    else if exports[0].name == name then Some(exports[0].index)
    else Lookup(exports[1..], name)
  }

  /** The search stops at the first entry of the name. */
  lemma {:induction false} LookupAt(exports: seq<Export>, name: Name, k: nat)
    requires k < |exports| && exports[k].name == name && forall i :: 0 <= i < k ==> exports[i].name != name
    ensures Lookup(exports, name) == Some(exports[k].index)
  {
    if k > 0 {
      LookupAt(exports[1..], name, k - 1);
    }
  }

  lemma {:induction false} LookupMisses(exports: seq<Export>, name: Name)
    ensures Lookup(exports, name).None? <==> !Exported(exports, name)
  {
    if exports != [] && exports[0].name != name {
      LookupMisses(exports[1..], name);
      if Exported(exports, name) {
        var e :| e in exports && e.name == name;
        assert e in exports[1..];
      }
    } else if exports != [] {
      assert exports[0] in exports;
    }
  }

  /** The answer belongs to an entry of the name; with distinct names, to every such entry. */
  lemma {:induction false} LookupAnswers(exports: seq<Export>, name: Name, e: Export)
    requires DistinctNames(exports) && e in exports && e.name == name
    ensures Lookup(exports, name) == Some(e.index)
  {
    var k :| 0 <= k < |exports| && exports[k] == e;
    LookupAt(exports, name, k);
  }

  /** So sorting the exports of a class with distinct names changes no answer. */
  lemma LookupUnordered(exports: seq<Export>, name: Name)
    requires DistinctNames(exports)
    ensures Lookup(Table(exports), name) == Lookup(exports, name)
  {
    var table := Table(exports);
    TableSorted(exports);
    LookupMisses(exports, name);
    LookupMisses(table, name);
    forall e: Export ensures e in table <==> e in exports {
      assert e in table <==> e in multiset(table);
      assert e in exports <==> e in multiset(exports);
    }
    if Exported(exports, name) {
      var e :| e in exports && e.name == name;
      LookupAnswers(exports, name, e);
      assert e in table;
      var k := FirstOf(table, name);
      LookupAt(table, name, k);
      assert table[k] in table;
      LookupAnswers(exports, name, table[k]);
    } else {
      assert !Exported(table, name);
    }
  }

  lemma {:induction false} FirstOf(table: seq<Export>, name: Name) returns (k: nat)
    requires Exported(table, name)
    ensures k < |table| && table[k].name == name && forall i :: 0 <= i < k ==> table[i].name != name
  {
    if table[0].name == name {
      k := 0;
    } else {
      var e :| e in table && e.name == name;
      assert e in table[1..];
      k := FirstOf(table[1..], name);
      forall i | 0 <= i < k + 1 ensures table[i].name != name { if i > 0 { assert table[1..][i - 1] == table[i]; } }
      k := k + 1;
    }
  }

  /** Through a class and its superclasses (the root comes first): the nearest class that exports
      the name, and the index found there. */
  function Nearest(chain: seq<seq<Export>>, name: Name): Option<(nat, nat)> {
    if chain == [] then None
    else
      var n := |chain| - 1;
      match Lookup(chain[n], name)
      case Some(index) => Some((n, index))
      case None => Nearest(chain[..n], name)
  }

  lemma {:induction false} NearestAnswers(chain: seq<seq<Export>>, name: Name)
    ensures Nearest(chain, name).None? <==> forall k :: 0 <= k < |chain| ==> !Exported(chain[k], name)
    ensures Nearest(chain, name).Some? ==>
              var (k, index) := Nearest(chain, name).value;
              && k < |chain| && Lookup(chain[k], name) == Some(index)
              && forall above :: k < above < |chain| ==> !Exported(chain[above], name)
  {
    if chain != [] {
      var n := |chain| - 1;
      LookupMisses(chain[n], name);
      NearestAnswers(chain[..n], name);
      if Lookup(chain[n], name).None? {
        if Nearest(chain[..n], name).Some? {
          assert chain[..n][Nearest(chain, name).value.0] == chain[Nearest(chain, name).value.0];
        }
        forall k | 0 <= k < n ensures chain[..n][k] == chain[k] {}
      }
    }
  }

  /** The tables of a chain of classes. */
  function SortedTables(chain: seq<seq<Export>>): seq<seq<Export>> {
    seq(|chain|, k requires 0 <= k < |chain| => Table(chain[k]))
  }

  lemma {:induction false} NearestUnordered(chain: seq<seq<Export>>, name: Name)
    requires forall k :: 0 <= k < |chain| ==> DistinctNames(chain[k])
    ensures Nearest(SortedTables(chain), name) == Nearest(chain, name)
  {
    if chain != [] {
      var n := |chain| - 1;
      LookupUnordered(chain[n], name);
      NearestUnordered(chain[..n], name);
      assert SortedTables(chain)[..n] == SortedTables(chain[..n]);
    }
  }

  // ---- Reflection -----------------------------------------------------------------------------

  lemma TablePartitioned(table: seq<Export>, name: Name)
    requires Sorted(table, EntryOrder())
    ensures Partitioned(table, (e: Export) => Before(e.name, name))
  {
    forall i, j | 0 <= i < j < |table| && Before(table[j].name, name) ensures Before(table[i].name, name) {
      assert !EntryOrder()(table[j], table[i]);
      BeforeTotal(table[i].name, table[j].name);
      if table[i].name != table[j].name { BeforeTransitive(table[i].name, table[j].name, name); }
    }
  }

  /** Binary search answers what a linear search of the class's table would. */
  method ReflectIndex(table: seq<Export>, name: Name) returns (found: Option<nat>)
    requires Sorted(table, EntryOrder())
    ensures found == Lookup(table, name)
  {
    TablePartitioned(table, name);
    var bound := LowerBound(table, (e: Export) => Before(e.name, name));
    forall i | 0 <= i < bound ensures table[i].name != name { BeforeTotal(name, name); }
    if bound != |table| && table[bound].name == name {
      LookupAt(table, name, bound);
      return Some(table[bound].index);
    }
    forall i | bound <= i < |table| ensures table[i].name != name {
      if i > bound && table[i].name == name {
        assert !EntryOrder()(table[i], table[bound]);
        BeforeTotal(table[bound].name, name);
      }
    }
    LookupMisses(table, name);
    return None;
  }

  /** The recursion through the superclasses answers what linear searches would. */
  method ReflectIndexRecursively(chain: seq<seq<Export>>, name: Name) returns (found: Option<(nat, nat)>)
    requires forall k :: 0 <= k < |chain| ==> Sorted(chain[k], EntryOrder())
    ensures found == Nearest(chain, name)
    decreases |chain|
  {
    if chain == [] {
      return None;
    }
    var n := |chain| - 1;
    var own := ReflectIndex(chain[n], name);
    if own.Some? {
      return Some((n, own.value));
    }
    found := ReflectIndexRecursively(chain[..n], name);
  }

  // ---- The comparisons as written -------------------------------------------------------------

  /** The search comparison as written first turns the sign into 0 or 1. */
  predicate BeforeAsWritten(a: Name, b: Name) {
    var sign := if Memcmp(a, b, Shorter(a, b)) < 0 then 1 else 0;
    sign < 0 || (sign == 0 && |a| < |b|)
  }

  /** The sort comparison as written swaps its operands in the byte comparison only. */
  predicate SortedBeforeAsWritten(a: Name, b: Name) {
    var sign := Memcmp(b, a, Shorter(a, b));
    sign < 0 || (sign == 0 && |a| < |b|)
  }

  lemma {:induction false} MemcmpSwaps(a: Name, b: Name, n: nat)
    requires n <= |a| && n <= |b|
    ensures Memcmp(b, a, n) == -Memcmp(a, b, n)
  {
    if n > 0 && a[0] == b[0] { MemcmpSwaps(a[1..], b[1..], n - 1); }
  }

  /** It is the reverse of the search order exactly for names of which neither is a proper prefix
      of the other. */
  lemma SortAsWrittenReversed(a: Name, b: Name)
    ensures (SortedBeforeAsWritten(a, b) <==> Before(b, a)) <==> Memcmp(a, b, Shorter(a, b)) != 0 || |a| == |b|
  {
    MemcmpSwaps(a, b, Shorter(a, b));
  }

  function NameOrderAsWritten(): (Name, Name) -> bool { (a, b) => SortedBeforeAsWritten(a, b) }

  lemma {:induction false} SortOrderTotal(a: Name, b: Name)
    ensures SortedBeforeAsWritten(a, b) ==> !SortedBeforeAsWritten(b, a)
    ensures a != b ==> SortedBeforeAsWritten(a, b) || SortedBeforeAsWritten(b, a)
  {
    if a != [] && b != [] && a[0] == b[0] {
      SortOrderTotal(a[1..], b[1..]);
      assert a == [a[0]] + a[1..] && b == [b[0]] + b[1..];
    }
  }

  lemma {:induction false} SortOrderTransitive(a: Name, b: Name, c: Name)
    requires SortedBeforeAsWritten(a, b) && SortedBeforeAsWritten(b, c)
    ensures SortedBeforeAsWritten(a, c)
  {
    if a != [] && b != [] && c != [] && a[0] == b[0] == c[0] {
      SortOrderTransitive(a[1..], b[1..], c[1..]);
    }
  }

  /** Still, it is an order, so the sort as written yields a table in that order. */
  lemma NamesOrderedAsWritten()
    ensures TotalOrder(NameOrderAsWritten())
  {
    forall a: Name, b: Name
      ensures SortedBeforeAsWritten(a, b) ==> !SortedBeforeAsWritten(b, a)
      ensures a != b ==> SortedBeforeAsWritten(a, b) || SortedBeforeAsWritten(b, a)
    {
      SortOrderTotal(a, b);
    }
    forall a: Name, b: Name, c: Name | SortedBeforeAsWritten(a, b) && SortedBeforeAsWritten(b, c)
      ensures SortedBeforeAsWritten(a, c)
    {
      SortOrderTransitive(a, b, c);
    }
  }

  function EntryOrderAsWritten(): (Export, Export) -> bool {
    (e: Export, f: Export) => SortedBeforeAsWritten(e.name, f.name)
  }

  /** The table a class ends up with as written. */
  function TableAsWritten(exports: seq<Export>): seq<Export> { Sort(exports, EntryOrderAsWritten()) }

  lemma TableSortedAsWritten(exports: seq<Export>)
    ensures Sorted(TableAsWritten(exports), EntryOrderAsWritten())
    ensures multiset(TableAsWritten(exports)) == multiset(exports)
  {
    NamesOrderedAsWritten();
    EntriesOrdered(NameOrderAsWritten(), EntryOrderAsWritten());
    SortSorts(exports, EntryOrderAsWritten());
  }

  /** Among names of one length that search never moves past the first entry. */
  lemma SearchAsWrittenStuck(table: seq<Export>, name: Name)
    requires forall i :: 0 <= i < |table| ==> |table[i].name| == |name|
    ensures forall i :: 0 <= i < |table| ==> !BeforeAsWritten(table[i].name, name)
  {
  }

  /** Where halving ends, as written, between `first` and `first + count`. */
  function BoundAsWritten(table: seq<Export>, name: Name, first: nat, count: nat): nat
    requires first + count <= |table|
    decreases count
  {
    if count == 0 then first
    else
      var half := count / 2;
      if BeforeAsWritten(table[first + half].name, name)
        then BoundAsWritten(table, name, first + half + 1, count - half - 1)
      else BoundAsWritten(table, name, first, half)
  }

  /** The positions that halving towards k looks at. */
  function Probes(first: nat, count: nat, k: nat): set<nat>
    decreases count
  {
    if count == 0 then {}
    else
      var half := count / 2;
      {first + half}
      + if first + half < k then Probes(first + half + 1, count - half - 1, k) else Probes(first, half, k)
  }

  lemma {:induction false} ProbesWithin(first: nat, count: nat, k: nat, i: nat)
    requires i in Probes(first, count, k)
    ensures first <= i < first + count
    decreases count
  {
    var half := count / 2;
    if i != first + half {
      if first + half < k {
        ProbesWithin(first + half + 1, count - half - 1, k, i);
      } else {
        ProbesWithin(first, half, k, i);
      }
    }
  }

  lemma {:induction false} BoundWithin(table: seq<Export>, name: Name, first: nat, count: nat)
    requires first + count <= |table|
    ensures first <= BoundAsWritten(table, name, first, count) <= first + count
    decreases count
  {
    if count > 0 {
      var half := count / 2;
      BoundWithin(table, name, first + half + 1, count - half - 1);
      BoundWithin(table, name, first, half);
    }
  }

  ghost predicate LedTo(table: seq<Export>, name: Name, first: nat, count: nat, k: nat)
    requires first + count <= |table|
  {
    forall i :: i in Probes(first, count, k) ==> i < |table| && (i < k <==> BeforeAsWritten(table[i].name, name))
  }

  lemma LedStep(table: seq<Export>, name: Name, first: nat, count: nat, k: nat)
    requires first + count <= |table| && count > 0
    ensures
      var half := count / 2;
      LedTo(table, name, first, count, k) <==>
        if first + half < k then
          BeforeAsWritten(table[first + half].name, name) && LedTo(table, name, first + half + 1, count - half - 1, k)
        else !BeforeAsWritten(table[first + half].name, name) && LedTo(table, name, first, half, k)
  {
    hide BeforeAsWritten;
    var mid := first + count / 2;
    assert mid in Probes(first, count, k);
  }

  /** Halving ends at k exactly when every position it looks at on the way points towards k. */
  lemma {:induction false} BoundIsAt(table: seq<Export>, name: Name, first: nat, count: nat, k: nat)
    requires first + count <= |table| && first <= k <= first + count
    ensures BoundAsWritten(table, name, first, count) == k <==> LedTo(table, name, first, count, k)
    decreases count
  {
    hide BeforeAsWritten;
    if count > 0 {
      hide LedTo;
      var half := count / 2;
      LedStep(table, name, first, count, k);
      BoundWithin(table, name, first + half + 1, count - half - 1);
      BoundWithin(table, name, first, half);
      if first + half < k {
        BoundIsAt(table, name, first + half + 1, count - half - 1, k);
      } else {
        BoundIsAt(table, name, first, half, k);
      }
    }
  }

  lemma {:induction false} MemcmpZero(a: Name, b: Name, n: nat)
    requires n <= |a| && n <= |b|
    ensures Memcmp(a, b, n) == 0 <==> a[..n] == b[..n]
  {
    if n > 0 {
      MemcmpZero(a[1..], b[1..], n - 1);
      assert a[..n] == [a[0]] + a[1..][..n - 1] && b[..n] == [b[0]] + b[1..][..n - 1];
    }
  }

  /** On its way to k halving meets only names shorter than this one before k. */
  ghost predicate Unmisled(table: seq<Export>, name: Name, k: nat) {
    forall i :: i in Probes(0, |table|, k) && i < k && i < |table| ==> |table[i].name| < |name|
  }

  /** As written, an entry in front of the name leads on exactly if it is shorter, and one behind it
      always leads back. */
  lemma PointsAsWritten(entry: Name, name: Name)
    ensures !SortedBeforeAsWritten(name, entry) ==> (BeforeAsWritten(entry, name) <==> |entry| < |name|)
    ensures !SortedBeforeAsWritten(entry, name) ==> !BeforeAsWritten(entry, name)
  {
    MemcmpSwaps(entry, name, Shorter(entry, name));
  }

  lemma LedExactlyWhenUnmisled(table: seq<Export>, name: Name, k: nat)
    requires Sorted(table, EntryOrderAsWritten()) && k < |table| && table[k].name == name
    ensures LedTo(table, name, 0, |table|, k) <==> Unmisled(table, name, k)
  {
    forall i | i in Probes(0, |table|, k)
      ensures i < |table|
      ensures i < k ==> (BeforeAsWritten(table[i].name, name) <==> |table[i].name| < |name|)
      ensures i >= k ==> !BeforeAsWritten(table[i].name, name)
    {
      ProbesWithin(0, |table|, k, i);
      PointsAsWritten(table[i].name, name);
      SortOrderTotal(name, name);
      if i < k { assert !EntryOrderAsWritten()(table[k], table[i]); }
      if i > k { assert !EntryOrderAsWritten()(table[i], table[k]); }
    }
  }

  predicate FoundAsWritten(table: seq<Export>, name: Name) {
    var bound := BoundAsWritten(table, name, 0, |table|);
    bound < |table| && table[bound].name == name
  }

  /** As written, the search of a table sorted as written finds a name if and only if halving reaches an
      entry of it past nothing but shorter names. */
  lemma FoundAsWrittenExactly(table: seq<Export>, name: Name)
    requires Sorted(table, EntryOrderAsWritten())
    ensures FoundAsWritten(table, name) <==>
              exists k :: 0 <= k < |table| && table[k].name == name && Unmisled(table, name, k)
  {
    hide Unmisled, LedTo;
    forall k | 0 <= k < |table| && table[k].name == name
      ensures BoundAsWritten(table, name, 0, |table|) == k <==> Unmisled(table, name, k)
    {
      BoundIsAt(table, name, 0, |table|, k);
      LedExactlyWhenUnmisled(table, name, k);
    }
  }

  /** For one, a class that exports "a" and "b" gets them in the order "b", "a", and "a" is missed. */
  lemma SearchAsWrittenMisses()
    ensures
      var exports := [Export("a", 1, 0), Export("b", 2, 0)];
      && Lookup(exports, "a") == Some(1)
      && TableAsWritten(exports) == [exports[1], exports[0]]
      && FoundAsWritten(TableAsWritten(exports), "b") && !FoundAsWritten(TableAsWritten(exports), "a")
  {
    var a, b := Export("a", 1, 0), Export("b", 2, 0);
    LookupAt([a, b], "a", 0);
    assert SortedBeforeAsWritten("b", "a");
    assert Sort([b], EntryOrderAsWritten()) == [b] by { assert [b][1..] == []; }
    assert [a, b][1..] == [b];
    assert Insert(a, [], EntryOrderAsWritten()) == [a];
    assert Insert(a, [b], EntryOrderAsWritten()) == [b] + Insert(a, [b][1..], EntryOrderAsWritten());
    assert TableAsWritten([a, b]) == [b, a];
    forall name | name in {"a", "b"} ensures BoundAsWritten([b, a], name, 0, 2) == 0 {
      assert BoundAsWritten([b, a], name, 0, 1) == 0;
    }
  }

  /** Nor would sorting in the search's own order be enough: in such a table an entry before the name
      leads on only if it is a proper prefix of the name, and one behind it leads back only if it is at
      least as long. */
  ghost predicate UnmisledWhenSorted(table: seq<Export>, name: Name, k: nat) {
    forall i :: i in Probes(0, |table|, k) && i < |table| ==>
      (i < k ==> table[i].name < name) && (i > k ==> |table[i].name| >= |name|)
  }

  lemma PointsWhenSorted(entry: Name, name: Name)
    ensures !Before(name, entry) ==> (BeforeAsWritten(entry, name) <==> entry < name)
    ensures !Before(entry, name) ==> (BeforeAsWritten(entry, name) <==> |entry| < |name|)
  {
    MemcmpZero(entry, name, Shorter(entry, name));
    MemcmpSwaps(entry, name, Shorter(entry, name));
  }

  lemma LedWhenSorted(table: seq<Export>, name: Name, k: nat)
    requires Sorted(table, EntryOrder()) && k < |table| && table[k].name == name
    ensures LedTo(table, name, 0, |table|, k) <==> UnmisledWhenSorted(table, name, k)
  {
    forall i | i in Probes(0, |table|, k)
      ensures i < |table|
      ensures (i < k <==> BeforeAsWritten(table[i].name, name)) <==>
          ((i < k ==> table[i].name < name) && (i > k ==> |table[i].name| >= |name|))
    {
      ProbesWithin(0, |table|, k, i);
      PointsWhenSorted(table[i].name, name);
      if i < k { assert !EntryOrder()(table[k], table[i]); }
      if i > k { assert !EntryOrder()(table[i], table[k]); }
    }
  }

  lemma FoundWhenSorted(table: seq<Export>, name: Name)
    requires Sorted(table, EntryOrder())
    ensures FoundAsWritten(table, name) <==>
              exists k :: 0 <= k < |table| && table[k].name == name && UnmisledWhenSorted(table, name, k)
  {
    hide UnmisledWhenSorted, LedTo;
    forall k | 0 <= k < |table| && table[k].name == name
      ensures BoundAsWritten(table, name, 0, |table|) == k <==> UnmisledWhenSorted(table, name, k)
    {
      BoundIsAt(table, name, 0, |table|, k);
      LedWhenSorted(table, name, k);
    }
  }
}
