/** The recursive class loader (classloader/classloader.cpp, classloader/classloader_impl.cpp). Class
    files are a fixed finite map; metaspace is ample. */
module ClassLoaders {
  import opened Prelude
  import opened Sorting
  import opened InstanceofTables
  import opened ClassHeaders

  /** A class file: whether it can be read and has the magic number, the superclasses it declares
      (the primary one first), and the size of the class block it needs. */
  datatype ClassFile = ClassFile(wellFormed: bool, supers: seq<Name>, size: nat)

  type Files = map<Name, ClassFile>

  /** A loaded class: where its block is, and its index in the superclass table. */
  datatype Class = Class(pointer: ClassPointer, index: nat)

  // ---- Which classes can be loaded ------------------------------------------------------------

  /** Loadable with a nesting of superclasses of depth at most `depth`. */
  ghost predicate LoadableWithin(files: Files, n: Name, depth: nat)
    decreases depth
  {
    && depth > 0 && n in files && files[n].wellFormed
    && forall i :: 0 <= i < |files[n].supers| ==> LoadableWithin(files, files[n].supers[i], depth - 1)
  }

  ghost predicate Loadable(files: Files, n: Name) { exists depth: nat :: LoadableWithin(files, n, depth) }

  lemma {:induction false} DepthGrows(files: Files, n: Name, depth: nat, more: nat)
    requires LoadableWithin(files, n, depth) && depth <= more
    ensures LoadableWithin(files, n, more)
    decreases depth
  {
    forall i | 0 <= i < |files[n].supers| ensures LoadableWithin(files, files[n].supers[i], more - 1) {
      DepthGrows(files, files[n].supers[i], depth - 1, more - 1);
    }
  }

  lemma {:induction false} CommonDepth(files: Files, names: seq<Name>) returns (depth: nat)
    requires forall i :: 0 <= i < |names| ==> Loadable(files, names[i])
    ensures forall i :: 0 <= i < |names| ==> LoadableWithin(files, names[i], depth)
  {
    if names == [] {
      depth := 0;
    } else {
      var n := |names| - 1;
      var rest := CommonDepth(files, names[..n]);
      var last: nat :| LoadableWithin(files, names[n], last);
      depth := if rest < last then last else rest;
      forall i | 0 <= i < |names| ensures LoadableWithin(files, names[i], depth) {
        if i < n {
          assert LoadableWithin(files, names[..n][i], rest);
          DepthGrows(files, names[i], rest, depth);
        } else {
          DepthGrows(files, names[i], last, depth);
        }
      }
    }
  }

  /** Loadable is a fixpoint of "a well-formed file all of whose superclasses load" ... */
  lemma LoadableRule(files: Files, n: Name)
    ensures Loadable(files, n) <==>
      n in files && files[n].wellFormed && forall i :: 0 <= i < |files[n].supers| ==>
        Loadable(files, files[n].supers[i])
  {
    if n in files && files[n].wellFormed && forall i :: 0 <= i < |files[n].supers| ==>
      Loadable(files, files[n].supers[i]) {
      var depth := CommonDepth(files, files[n].supers);
      assert LoadableWithin(files, n, depth + 1);
    }
    if Loadable(files, n) {
      var depth: nat :| LoadableWithin(files, n, depth);
      forall i | 0 <= i < |files[n].supers| ensures Loadable(files, files[n].supers[i]) {
        assert LoadableWithin(files, files[n].supers[i], depth - 1);
      }
    }
  }

  ghost predicate AllIn(supers: seq<Name>, names: set<Name>) {
    forall i :: 0 <= i < |supers| ==> supers[i] in names
  }

  ghost predicate ClosedUnderRule(files: Files, names: set<Name>) {
    forall n :: n in files && files[n].wellFormed && AllIn(files[n].supers, names) ==> n in names
  }

  /** ... and the least one. */
  lemma {:induction false} LoadableIsLeast(files: Files, names: set<Name>, n: Name, depth: nat)
    requires ClosedUnderRule(files, names) && LoadableWithin(files, n, depth)
    ensures n in names
    decreases depth
  {
    forall i | 0 <= i < |files[n].supers| ensures files[n].supers[i] in names {
      LoadableIsLeast(files, names, files[n].supers[i], depth - 1);
    }
  }

  /** Each class of the chain declares the next as a superclass. */
  ghost predicate IsChain(files: Files, chain: seq<Name>) {
    forall i :: 0 <= i < |chain| - 1 ==> chain[i] in files && chain[i + 1] in files[chain[i]].supers
  }

  lemma {:induction false} ChainDepth(files: Files, chain: seq<Name>, i: nat, depth: nat)
    requires IsChain(files, chain) && i < |chain| && LoadableWithin(files, chain[0], depth)
    ensures i < depth && LoadableWithin(files, chain[i], depth - i)
  {
    if i > 0 {
      ChainDepth(files, chain, i - 1, depth);
      var supers := files[chain[i - 1]].supers;
      assert chain[i - 1 + 1] in supers;
      var k :| 0 <= k < |supers| && supers[k] == chain[i];
      assert LoadableWithin(files, supers[k], depth - i);
    }
  }

  /** A class that is its own ancestor cannot be loaded. */
  lemma {:induction false} CycleNotLoadable(files: Files, chain: seq<Name>, depth: nat)
    requires IsChain(files, chain) && |chain| > 1 && chain[0] == chain[|chain| - 1]
    ensures !LoadableWithin(files, chain[0], depth)
  {
    if LoadableWithin(files, chain[0], depth) {
      ChainDepth(files, chain, |chain| - 1, depth);
      CycleNotLoadable(files, chain, depth - (|chain| - 1));
    }
  }

  lemma OnStackNotLoadable(files: Files, stack: seq<Name>, n: Name)
    requires IsChain(files, stack + [n]) && n in stack
    ensures !Loadable(files, n)
  {
    var i :| 0 <= i < |stack| && stack[i] == n;
    var cycle := stack[i..] + [n];
    forall k | 0 <= k < |cycle| - 1 ensures cycle[k] in files && cycle[k + 1] in files[cycle[k]].supers {
      assert cycle[k] == (stack + [n])[i + k] && cycle[k + 1] == (stack + [n])[i + k + 1];
    }
    forall depth: nat ensures !LoadableWithin(files, n, depth) { CycleNotLoadable(files, cycle, depth); }
  }

  lemma SmallerCount(a: set<Name>, b: set<Name>)
    requires a <= b
    ensures |a| <= |b|
  {
    if a != b {
      assert b == a + (b - a);
    }
  }

  // ---- What the loader knows ------------------------------------------------------------------

  /** `names` lists the loaded classes by index. */
  ghost predicate CacheHolds(files: Files, cached: map<Name, Option<Class>>, names: seq<Name>, metaspace: nat) {
    && (forall n :: n in cached ==> (cached[n].Some? <==> Loadable(files, n)))
    && (forall n :: n in cached && cached[n].Some? ==>
          var c := cached[n].value; c.index < |names| && names[c.index] == n && 0 < c.pointer < metaspace)
    && (forall i :: 0 <= i < |names| ==>
        && names[i] in cached
        && cached[names[i]].Some?
        && cached[names[i]].value.index == i)
    && (forall i, j :: 0 <= i < j < |names| ==> cached[names[i]].value.pointer < cached[names[j]].value.pointer)
    && (forall n, k :: n in cached && cached[n].Some? && n in files && 0 <= k < |files[n].supers| ==>
          SuperBefore(cached, n, files[n].supers[k]))
  }

  /** A declared superclass is cached, was loaded, and has a smaller index. */
  ghost predicate SuperBefore(cached: map<Name, Option<Class>>, n: Name, superclass: Name)
    requires n in cached && cached[n].Some?
  {
    superclass in cached && cached[superclass].Some? && cached[superclass].value.index < cached[n].value.index
  }

  /** The class pointers of loaded classes, in the order given. */
  ghost function PointersOf(cached: map<Name, Option<Class>>, names: seq<Name>): seq<ClassPointer>
    requires forall i :: 0 <= i < |names| ==> names[i] in cached && cached[names[i]].Some?
  {
    seq(|names|, i requires 0 <= i < |names| => cached[names[i]].value.pointer)
  }

  /** Each row of the superclass table is the sorted list of what the class declared. */
  ghost predicate RowHolds(files: Files, cached: map<Name, Option<Class>>, n: Name, row: seq<ClassPointer>) {
    && n in files
    && (forall k :: 0 <= k < |files[n].supers| ==> files[n].supers[k] in cached && cached[files[n].supers[k]].Some?)
    && Sorted(row, PointerOrder())
    && multiset(row) == multiset(PointersOf(cached, files[n].supers))
  }

  ghost predicate RowsHold(files: Files, cached: map<Name, Option<Class>>, names: seq<Name>,
                           rows: seq<seq<ClassPointer>>) {
    |rows| == |names| && forall i :: 0 <= i < |names| ==> RowHolds(files, cached, names[i], rows[i])
  }

  /** Cache entries never change. */
  ghost predicate Extends(cached: map<Name, Option<Class>>, later: map<Name, Option<Class>>) {
    forall n :: n in cached ==> n in later && later[n] == cached[n]
  }

  lemma RowStays(files: Files, cached: map<Name, Option<Class>>, later: map<Name, Option<Class>>, n: Name,
                 row: seq<ClassPointer>)
    requires RowHolds(files, cached, n, row) && Extends(cached, later)
    ensures RowHolds(files, later, n, row)
  {
    assert PointersOf(later, files[n].supers) == PointersOf(cached, files[n].supers);
  }

  lemma RowsStay(files: Files, cached: map<Name, Option<Class>>, later: map<Name, Option<Class>>, names: seq<Name>,
                 rows: seq<seq<ClassPointer>>)
    requires RowsHold(files, cached, names, rows) && Extends(cached, later)
    ensures RowsHold(files, later, names, rows)
  {
    forall i | 0 <= i < |names| ensures RowHolds(files, later, names[i], rows[i]) {
      RowStays(files, cached, later, names[i], rows[i]);
    }
  }

  /** Along declared superclasses the indices of loaded classes fall, so the hierarchy is acyclic. */
  lemma {:induction false} IndicesDescend(files: Files, cached: map<Name, Option<Class>>, names: seq<Name>,
                                          metaspace: nat, chain: seq<Name>, k: nat)
    requires CacheHolds(files, cached, names, metaspace) && IsChain(files, chain) && k < |chain|
    requires chain[0] in cached && cached[chain[0]].Some?
    ensures chain[k] in cached && cached[chain[k]].Some? &&
        cached[chain[k]].value.index + k <= cached[chain[0]].value.index
  {
    if k > 0 {
      IndicesDescend(files, cached, names, metaspace, chain, k - 1);
      var n := chain[k - 1];
      assert chain[k - 1 + 1] in files[n].supers;
      var i :| 0 <= i < |files[n].supers| && files[n].supers[i] == chain[k];
      assert SuperBefore(cached, n, files[n].supers[i]);
    }
  }

  /** A failed load leaves a correct negative entry. */
  lemma FailureCached(files: Files, cached: map<Name, Option<Class>>, names: seq<Name>, metaspace: nat, n: Name)
    requires CacheHolds(files, cached, names, metaspace) && n !in cached && !Loadable(files, n)
    ensures CacheHolds(files, cached[n := None], names, metaspace) && Extends(cached, cached[n := None])
  {
    var later := cached[n := None];
    forall m, k | m in later && later[m].Some? && m in files && 0 <= k < |files[m].supers|
      ensures SuperBefore(later, m, files[m].supers[k])
    {
      assert SuperBefore(cached, m, files[m].supers[k]);
    }
  }

  /** A successful load takes the next index and the next pointer. */
  lemma SuccessCached(files: Files, cached: map<Name, Option<Class>>, names: seq<Name>, metaspace: nat, n: Name,
                      c: Class, after: nat)
    requires CacheHolds(files, cached, names, metaspace) && n !in cached && Loadable(files, n)
    requires c.index == |names| && 0 < metaspace <= c.pointer < after
    requires forall k :: n in files && 0 <= k < |files[n].supers| ==>
        && files[n].supers[k] in cached
        && cached[files[n].supers[k]].Some?
    ensures CacheHolds(files, cached[n := Some(c)], names + [n], after) && Extends(cached, cached[n := Some(c)])
  {
    var later := cached[n := Some(c)];
    forall m, k | m in later && later[m].Some? && m in files && 0 <= k < |files[m].supers|
      ensures SuperBefore(later, m, files[m].supers[k])
    {
      if m != n { assert SuperBefore(cached, m, files[m].supers[k]); }
    }
  }

  lemma CacheAnswers(files: Files, cached: map<Name, Option<Class>>, names: seq<Name>, metaspace: nat, n: Name)
    requires CacheHolds(files, cached, names, metaspace) && n in cached
    ensures cached[n].Some? <==> Loadable(files, n)
  {
  }

  lemma MetaspaceGrows(files: Files, cached: map<Name, Option<Class>>, names: seq<Name>, metaspace: nat, after: nat)
    requires CacheHolds(files, cached, names, metaspace) && metaspace <= after
    ensures CacheHolds(files, cached, names, after)
  {
  }

  ghost predicate EndsWith(stack: seq<Name>, n: Name) { stack != [] && stack[|stack| - 1] == n }

  /** The classes being loaded are those on the stack. */
  ghost predicate OnStack(loading: set<Name>, stack: seq<Name>) { forall m :: m in loading <==> m in stack }

  lemma StackGrows(loading: set<Name>, stack: seq<Name>, n: Name)
    requires OnStack(loading, stack)
    ensures OnStack(loading + {n}, stack + [n]) && EndsWith(stack + [n], n)
  {
  }

  /** No class is both being loaded and decided. */
  ghost predicate LoadingUncached(loading: set<Name>, cached: map<Name, Option<Class>>) { loading !! cached.Keys }

  lemma LoadEnds(loading: set<Name>, n: Name, cached: map<Name, Option<Class>>, r: Option<Class>)
    requires n !in loading && LoadingUncached(loading + {n}, cached)
    ensures loading + {n} - {n} == loading && LoadingUncached(loading, cached[n := r]) && n !in cached
  {
  }

  lemma LoadStarts(loading: set<Name>, n: Name, cached: map<Name, Option<Class>>)
    requires n !in cached && LoadingUncached(loading, cached)
    ensures LoadingUncached(loading + {n}, cached)
  {
  }

  /** The first `i` names are cached as loaded. */
  ghost predicate SupersLoaded(cached: map<Name, Option<Class>>, supers: seq<Name>, i: nat)
    requires i <= |supers|
  {
    forall k :: 0 <= k < i ==> supers[k] in cached && cached[supers[k]].Some?
  }

  lemma SupersStayLoaded(cached: map<Name, Option<Class>>, later: map<Name, Option<Class>>, supers: seq<Name>, i: nat)
    requires i < |supers| && SupersLoaded(cached, supers, i) && Extends(cached, later)
    requires supers[i] in later && later[supers[i]].Some?
    ensures SupersLoaded(later, supers, i + 1)
  {
  }

  lemma AllSupersLoaded(files: Files, cached: map<Name, Option<Class>>, names: seq<Name>, metaspace: nat, n: Name)
    requires CacheHolds(files, cached, names, metaspace) && n in files && files[n].wellFormed
    requires SupersLoaded(cached, files[n].supers, |files[n].supers|)
    ensures Loadable(files, n)
  {
    forall k | 0 <= k < |files[n].supers| ensures Loadable(files, files[n].supers[k]) {
      CacheAnswers(files, cached, names, metaspace, files[n].supers[k]);
    }
    LoadableRule(files, n);
  }

  lemma SuperNotLoaded(files: Files, n: Name, i: nat)
    requires n in files && i < |files[n].supers| && !Loadable(files, files[n].supers[i])
    ensures !Loadable(files, n)
  {
    LoadableRule(files, n);
  }

  /** Nothing the loader knew before is changed or forgotten. */
  ghost predicate Advances(cached: map<Name, Option<Class>>, names: seq<Name>, metaspace: nat,
                           cached': map<Name, Option<Class>>, names': seq<Name>, metaspace': nat) {
    Extends(cached, cached') && names <= names' && metaspace <= metaspace'
  }

  lemma AdvancesTransitive(c1: map<Name, Option<Class>>, n1: seq<Name>, m1: nat, c2: map<Name, Option<Class>>,
                           n2: seq<Name>, m2: nat,
                           c3: map<Name, Option<Class>>, n3: seq<Name>, m3: nat)
    requires Advances(c1, n1, m1, c2, n2, m2) && Advances(c2, n2, m2, c3, n3, m3)
    ensures Advances(c1, n1, m1, c3, n3, m3)
  {
  }

  lemma AdvancesItself(c: map<Name, Option<Class>>, names: seq<Name>, m: nat, m': nat)
    requires m <= m'
    ensures Advances(c, names, m, c, names, m')
  {
  }

  /** The entry a finished load makes is new, so it is never lost and changes no other. */
  lemma EmplaceAdvances(c: map<Name, Option<Class>>, names: seq<Name>, m: nat, c': map<Name, Option<Class>>,
                        names': seq<Name>, m': nat,
                        n: Name, r: Option<Class>)
    requires Advances(c, names, m, c', names', m') && n !in c'
    ensures Advances(c, names, m, c'[n := r], names', m') && Advances(c, names, m, c'[n := r], names' + [n], m')
  {
  }

  lemma LoadingNotLoadable(files: Files, loading: set<Name>, stack: seq<Name>, n: Name)
    requires OnStack(loading, stack) && IsChain(files, stack + [n]) && n in loading
    ensures !Loadable(files, n)
  {
    hide Loadable, IsChain;
    OnStackNotLoadable(files, stack, n);
  }

  lemma SuperChain(files: Files, stack: seq<Name>, n: Name, i: nat)
    requires IsChain(files, stack) && EndsWith(stack, n) && n in files && i < |files[n].supers|
    ensures IsChain(files, stack + [files[n].supers[i]])
  {
  }

  lemma MeasureDrops(files: Files, loading: set<Name>, n: Name, cached: map<Name, Option<Class>>)
    requires n !in loading && n !in cached
    ensures |files.Keys - (loading + {n}) - cached.Keys| +
        (if n in files then 1 else 0) <= |files.Keys - loading - cached.Keys|
  {
    var before, after := files.Keys - loading - cached.Keys, files.Keys - (loading + {n}) - cached.Keys;
    assert after == before - {n};
  }

  lemma MeasureKept(files: Files, loading: set<Name>, cached: map<Name, Option<Class>>, later: map<Name, Option<Class>>)
    requires forall n :: n in cached ==> n in later
    ensures |files.Keys - loading - later.Keys| <= |files.Keys - loading - cached.Keys|
  {
    SmallerCount(files.Keys - loading - later.Keys, files.Keys - loading - cached.Keys);
  }

  /** The row just committed belongs to the class just loaded. */
  lemma RowsGrow(files: Files, cached: map<Name, Option<Class>>, names: seq<Name>, rows: seq<seq<ClassPointer>>,
                 n: Name, c: Class)
    requires RowsHold(files, cached, names, rows) && n in files && n !in cached
    requires forall k :: 0 <= k < |files[n].supers| ==> files[n].supers[k] in cached && cached[files[n].supers[k]].Some?
    ensures RowsHold(files, cached[n := Some(c)], names + [n], rows +
        [Sort(PointersOf(cached, files[n].supers), PointerOrder())])
  {
    var later, row := cached[n := Some(c)], Sort(PointersOf(cached, files[n].supers), PointerOrder());
    RowsStay(files, cached, later, names, rows);
    PointersOrdered();
    SortSorts(PointersOf(cached, files[n].supers), PointerOrder());
    assert PointersOf(later, files[n].supers) == PointersOf(cached, files[n].supers);
    assert RowHolds(files, later, n, row);
  }

  lemma RowsAfterFailure(files: Files, cached: map<Name, Option<Class>>, names: seq<Name>,
                         rows: seq<seq<ClassPointer>>, n: Name)
    requires RowsHold(files, cached, names, rows) && n !in cached
    ensures RowsHold(files, cached[n := None], names, rows)
  {
    RowsStay(files, cached, cached[n := None], names, rows);
  }

  // ---- Class blocks in metaspace --------------------------------------------------------------

  const METASPACE_ROOT: nat := 1

  function ClassSize(files: Files, n: Name): nat { HEADER_SIZE + if n in files then files[n].size else 0 }

  ghost function SizeOfClass(files: Files): Name -> nat { n => ClassSize(files, n) }

  /** The blocks of the loaded classes fill the used metaspace in index order, and each records its
      size. */
  ghost predicate Contiguous(files: Files, cached: map<Name, Option<Class>>, names: seq<Name>,
                             sizes: map<ClassPointer, nat>, metaspace: nat) {
    && metaspace == METASPACE_ROOT + Sum(names, SizeOfClass(files))
    && forall i :: 0 <= i < |names| ==> BlockAt(files, cached, names, sizes, i)
  }

  ghost predicate BlockAt(files: Files, cached: map<Name, Option<Class>>, names: seq<Name>,
                          sizes: map<ClassPointer, nat>, i: nat)
    requires i < |names|
  {
    && names[i] in cached && cached[names[i]].Some?
    && cached[names[i]].value.pointer == METASPACE_ROOT + Sum(names[..i], SizeOfClass(files))
    && cached[names[i]].value.pointer in sizes && sizes[cached[names[i]].value.pointer] == ClassSize(files, names[i])
  }

  /** What the loader knows when the load of a class ends, just before its cache entry is made: after
      a failure what it knew, after success the new class has its index, pointer, row and block. */
  ghost predicate Entered(files: Files, cached: map<Name, Option<Class>>, names: seq<Name>, metaspace: nat,
                          sizes: map<ClassPointer, nat>, rows: seq<seq<ClassPointer>>, n: Name, r: Option<Class>) {
    var later, longer := if r.None? then cached else cached[n := r], if r.None? then names else names + [n];
    && CacheHolds(files, later, longer, metaspace)
    && RowsHold(files, later, longer, rows)
    && Contiguous(files, later, longer, sizes, metaspace)
  }

  lemma ContiguousAfterFailure(files: Files, cached: map<Name, Option<Class>>, names: seq<Name>,
                               sizes: map<ClassPointer, nat>, metaspace: nat, n: Name)
    requires Contiguous(files, cached, names, sizes, metaspace) && n !in cached
    ensures Contiguous(files, cached[n := None], names, sizes, metaspace)
  {
    var later := cached[n := None];
    forall i | 0 <= i < |names|
      ensures BlockAt(files, later, names, sizes, i)
    {
      assert BlockAt(files, cached, names, sizes, i);
    }
  }

  lemma ContiguousOneMore(files: Files, cached: map<Name, Option<Class>>, names: seq<Name>,
                          sizes: map<ClassPointer, nat>, metaspace: nat,
                      n: Name, c: Class, written: map<ClassPointer, nat>, after: nat)
    requires Contiguous(files, cached, names, sizes, metaspace) && n !in cached && c.pointer == metaspace
    requires written == sizes[metaspace := ClassSize(files, n)] && after == metaspace + ClassSize(files, n)
    ensures Contiguous(files, cached[n := Some(c)], names + [n], written, after)
  {
    var longer, size, later := names + [n], SizeOfClass(files), cached[n := Some(c)];
    assert longer[..|names|] == names;
    forall i | 0 <= i < |longer| ensures BlockAt(files, later, longer, written, i) {
      if i < |names| {
        assert BlockAt(files, cached, names, sizes, i);
        assert longer[..i] == names[..i];
        NextBlock(names, size, i);
      }
    }
  }

  /** The block of every loaded class holds the header and what its file asks for, lies below the end of
      metaspace, and shares no byte with the block of another class. */
  ghost predicate BlocksApart(files: Files, cached: map<Name, Option<Class>>, metaspace: nat) {
    forall n :: n in cached && cached[n].Some? ==>
      && n in files
      && cached[n].value.pointer >= METASPACE_ROOT
      && cached[n].value.pointer + 96 + files[n].size <= metaspace
      && forall m :: m in cached && cached[m].Some? && m != n && m in files ==>
           Range(cached[n].value.pointer, 96 + files[n].size).Apart(
               Range(cached[m].value.pointer, 96 + files[m].size))
  }

  lemma ContiguousApart(files: Files, cached: map<Name, Option<Class>>, names: seq<Name>,
                        sizes: map<ClassPointer, nat>, metaspace: nat)
    requires CacheHolds(files, cached, names, metaspace) && Contiguous(files, cached, names, sizes, metaspace)
    ensures BlocksApart(files, cached, metaspace)
  {
    hide Loadable;
    var size := SizeOfClass(files);
    forall n | n in cached && cached[n].Some?
      ensures n in files && cached[n].value.pointer >= METASPACE_ROOT
      ensures cached[n].value.pointer + 96 + files[n].size <= metaspace
      ensures forall m :: m in cached && cached[m].Some? && m != n && m in files ==>
                Range(cached[n].value.pointer, 96 + files[n].size).Apart(
                  Range(cached[m].value.pointer, 96 + files[m].size))
    {
      LoadedHasFile(files, cached, names, metaspace, n);
      var i := cached[n].value.index;
      assert BlockAt(files, cached, names, sizes, i);
      NextBlock(names, size, i);
      forall m | m in cached && cached[m].Some? && m != n && m in files
        ensures Range(cached[n].value.pointer, 96 + files[n].size).Apart(
                  Range(cached[m].value.pointer, 96 + files[m].size))
      {
        var j := cached[m].value.index;
        assert BlockAt(files, cached, names, sizes, j);
        if i < j { BlocksAscend(names, size, i, j); } else { BlocksAscend(names, size, j, i); }
      }
    }
  }

  lemma LoadedHasFile(files: Files, cached: map<Name, Option<Class>>, names: seq<Name>, metaspace: nat, n: Name)
    requires CacheHolds(files, cached, names, metaspace) && n in cached && cached[n].Some?
    ensures n in files
  {
    assert Loadable(files, n);
  }

  lemma BlocksAscend(names: seq<Name>, size: Name -> nat, i: nat, j: nat)
    requires i < j <= |names|
    ensures Sum(names[..i], size) + size(names[i]) <= Sum(names[..j], size)
  {
    NextBlock(names, size, i);
    assert names[..j][..i + 1] == names[..i + 1];
    SumPrefix(names[..j], i + 1, size);
  }

  /** The next block begins where this one ends. */
  lemma NextBlock(names: seq<Name>, size: Name -> nat, i: nat)
    requires i < |names|
    ensures Sum(names[..i + 1], size) == Sum(names[..i], size) + size(names[i])
    ensures Sum(names[..i], size) + size(names[i]) <= Sum(names, size)
  {
    assert names[..i + 1][..i] == names[..i];
    SumPrefix(names, i + 1, size);
  }

  lemma WalkStep(files: Files, cached: map<Name, Option<Class>>, names: seq<Name>, sizes: map<ClassPointer, nat>,
                 metaspace: nat, k: nat)
    requires Contiguous(files, cached, names, sizes, metaspace) && k <= |names|
    ensures k == 0 ==> Sum(names[..k], SizeOfClass(files)) == 0
    ensures METASPACE_ROOT + Sum(names[..k], SizeOfClass(files)) == metaspace <==> k == |names|
    ensures k < |names| ==>
              var cls := METASPACE_ROOT + Sum(names[..k], SizeOfClass(files));
              && names[k] in cached && cached[names[k]].Some? && cached[names[k]].value.pointer == cls
              && cls in sizes && cls + sizes[cls] == METASPACE_ROOT + Sum(names[..k + 1], SizeOfClass(files))
  {
    assert names[..|names|] == names;
    if k < |names| {
      assert BlockAt(files, cached, names, sizes, k);
      NextBlock(names, SizeOfClass(files), k);
    }
  }

  // ---- The loader -----------------------------------------------------------------------------

  class ClassLoader {
    const files: Files
    const table: InstanceofTable
    var cachedClasses: map<Name, Option<Class>>
    var loadingClasses: set<Name>
    var metaspace: nat
    var classSizes: map<ClassPointer, nat>
    ghost var names: seq<Name>

    /** Everything but the superclass table and the metaspace, where a class being entered is unfinished. */
    ghost predicate Core()
      reads this
    {
      metaspace > 0 && CacheHolds(files, cachedClasses, names, metaspace) &&
        LoadingUncached(loadingClasses, cachedClasses)
    }

    ghost predicate TableHolds()
      reads this, table
    {
      && table.Valid() && RowsHold(files, cachedClasses, names, table.rows)
      && Contiguous(files, cachedClasses, names, classSizes, metaspace)
    }

    ghost predicate Valid()
      reads this, table
    {
      Core() && TableHolds()
    }

    /** The class files not yet decided: what the recursion consumes. */
    ghost function Undecided(): nat
      reads this
    {
      |files.Keys - loadingClasses - cachedClasses.Keys|
    }

    constructor (files: Files)
      ensures Valid() && loadingClasses == {} && cachedClasses == map[] && this.files == files && fresh(table)
    {
      this.files := files;
      this.table := new InstanceofTable();
      cachedClasses, loadingClasses, metaspace, names := map[], {}, METASPACE_ROOT, [];
      classSizes := map[];
    }

    /** A load from outside, when none is under way: which classes load does not depend on what was
        loaded before, and nothing known before is changed. */
    method LoadClass(n: Name) returns (r: Option<Class>)
      requires Valid() && loadingClasses == {}
      modifies this, table
      ensures Valid() && loadingClasses == {}
      ensures r.Some? <==> Loadable(files, n)
      ensures n in cachedClasses && cachedClasses[n] == r
      ensures Advances(old(cachedClasses), old(names), old(metaspace), cachedClasses, names, metaspace)
      ensures BlocksApart(files, cachedClasses, metaspace)
    {
      hide CacheHolds, Loadable, RowsHold, Contiguous, LoadingUncached, Advances, InstanceofTable.Valid, BlocksApart;
      r := LoadClassUnwrapped(n, []);
      ContiguousApart(files, cachedClasses, names, classSizes, metaspace);
    }

    /** Loads a class, or answers from the cache; succeeds exactly for loadable names, whatever was
        loaded before. `stack` is the chain of classes whose loading led here. */
    method LoadClassUnwrapped(n: Name, ghost stack: seq<Name>) returns (r: Option<Class>)
      requires Core() && OnStack(loadingClasses, stack) && IsChain(files, stack + [n])
      requires n in cachedClasses || TableHolds()
      modifies this, table
      ensures Core() && (old(TableHolds()) ==> TableHolds())
      ensures r.Some? <==> Loadable(files, n)
      ensures loadingClasses == old(loadingClasses)
      ensures n !in loadingClasses || r.Some? ==> n in cachedClasses && cachedClasses[n] == r
      ensures Advances(old(cachedClasses), old(names), old(metaspace), cachedClasses, names, metaspace)
      ensures n in old(cachedClasses) ==>
                cachedClasses == old(cachedClasses) && names == old(names) && metaspace == old(metaspace)
                && classSizes == old(classSizes) && unchanged(table)
      decreases Undecided(), 4
    {
      hide CacheHolds, Loadable, RowsHold, Contiguous, IsChain, OnStack, EndsWith, LoadingUncached, Advances, Extends,
           InstanceofTable.Valid;
      AdvancesItself(cachedClasses, names, metaspace, metaspace);
      if n in loadingClasses {
        LoadingNotLoadable(files, loadingClasses, stack, n);
        return None;
      }
      if n in cachedClasses {
        CacheAnswers(files, cachedClasses, names, metaspace, n);
        return cachedClasses[n];
      }
      r := LoadAfresh(n, stack);
    }

    /** The part for a name that is neither being loaded nor cached. */
    method LoadAfresh(n: Name, ghost stack: seq<Name>) returns (loaded: Option<Class>)
      requires Core() && OnStack(loadingClasses, stack) && IsChain(files, stack + [n])
      requires TableHolds() && n !in loadingClasses && n !in cachedClasses
      modifies this, table
      ensures Core() && TableHolds()
      ensures loaded.Some? <==> Loadable(files, n)
      ensures loadingClasses == old(loadingClasses)
      ensures n in cachedClasses && cachedClasses[n] == loaded
      ensures Advances(old(cachedClasses), old(names), old(metaspace), cachedClasses, names, metaspace)
      decreases Undecided(), 3
    {
      hide CacheHolds, Loadable, RowsHold, Contiguous, Entered, IsChain, OnStack, EndsWith, LoadingUncached, Advances,
           Extends, InstanceofTable.Valid;
      StackGrows(loadingClasses, stack, n);
      MeasureDrops(files, loadingClasses, n, cachedClasses);
      Enlist(n);
      ghost var longer := stack + [n];
      loaded := ImplLoadClass(n, longer);
      LoadEnds(old(loadingClasses), n, cachedClasses, loaded);
      loadingClasses := loadingClasses - {n};
      EmplaceAdvances(old(cachedClasses), old(names), old(metaspace), cachedClasses, names, metaspace, n, loaded);
      Emplace(n, loaded);
    }

    method Enlist(n: Name)
      requires Core() && TableHolds() && n !in cachedClasses
      modifies this`loadingClasses
      ensures Valid() && loadingClasses == old(loadingClasses) + {n}
    {
      hide CacheHolds, RowsHold, Contiguous, LoadingUncached, InstanceofTable.Valid;
      LoadStarts(loadingClasses, n, cachedClasses);
      loadingClasses := loadingClasses + {n};
    }

    /** Makes the cache entry of a finished load. */
    method Emplace(n: Name, loaded: Option<Class>)
      requires metaspace > 0 && n !in cachedClasses && LoadingUncached(loadingClasses, cachedClasses[n := loaded])
      requires loaded.Some? <==> Loadable(files, n)
      requires table.Valid() && Entered(files, cachedClasses, names, metaspace, classSizes, table.rows, n, loaded)
      modifies this`cachedClasses, this`names
      ensures Core() && TableHolds() && cachedClasses == old(cachedClasses)[n := loaded]
      ensures names == old(names) || names == old(names) + [n]
    {
      hide CacheHolds, Loadable, RowsHold, Contiguous, LoadingUncached, Extends, InstanceofTable.Valid;
      if loaded.None? {
        FailureCached(files, cachedClasses, names, metaspace, n);
        RowsAfterFailure(files, cachedClasses, names, table.rows, n);
        ContiguousAfterFailure(files, cachedClasses, names, classSizes, metaspace, n);
      } else {
        names := names + [n];
      }
      cachedClasses := cachedClasses[n := loaded];
    }

    /** Loads the superclasses and then the class itself. */
    method ImplLoadClass(n: Name, ghost stack: seq<Name>) returns (r: Option<Class>)
      requires Valid() && n in loadingClasses && OnStack(loadingClasses, stack)
      requires IsChain(files, stack) && EndsWith(stack, n)
      modifies this, table
      ensures Advances(old(cachedClasses), old(names), old(metaspace), cachedClasses, names, metaspace)
      ensures loadingClasses == old(loadingClasses) && LoadingUncached(loadingClasses, cachedClasses) && metaspace > 0
      ensures r.Some? <==> Loadable(files, n)
      ensures table.Valid() && Entered(files, cachedClasses, names, metaspace, classSizes, table.rows, n, r)
      decreases Undecided() + (if n in files then 1 else 0), 2
    {
      hide CacheHolds, Loadable, RowsHold, Contiguous, IsChain, OnStack, EndsWith, LoadingUncached, Advances,
           SupersLoaded, InstanceofTable.Valid;
      AdvancesItself(cachedClasses, names, metaspace, metaspace);
      if n !in files || !files[n].wellFormed {
        LoadableRule(files, n);
        return None;
      }
      var allLoaded := LoadSuperclasses(n, stack);
      if !allLoaded {
        return None;
      }
      AllSupersLoaded(files, cachedClasses, names, metaspace, n);
      AdvanceKeepsMeasure(files, loadingClasses, old(cachedClasses), old(names), old(metaspace), cachedClasses, names,
                          metaspace);
      ghost var rows, sizes := table.rows, classSizes;
      RowsCount(files, cachedClasses, names, rows);
      var pointer := metaspace;
      metaspace := metaspace + ClassSize(files, n);
      classSizes := classSizes[pointer := ClassSize(files, n)];
      AdvancesItself(cachedClasses, names, pointer, metaspace);
      AdvancesTransitive(old(cachedClasses), old(names), old(metaspace), cachedClasses, names, pointer, cachedClasses,
                         names, metaspace);
      MetaspaceGrows(files, cachedClasses, names, pointer, metaspace);
      var index := EnterSuperclasses(n, stack);
      r := Some(Class(pointer, index));
      NotYetCached(loadingClasses, cachedClasses, n);
      ClassEntered(files, cachedClasses, names, pointer, metaspace, rows, n, r.value);
      ContiguousOneMore(files, cachedClasses, names, sizes, pointer, n, r.value, classSizes, metaspace);
    }

    /** The first pass: stops at the first superclass that does not load. */
    method LoadSuperclasses(n: Name, ghost stack: seq<Name>) returns (allLoaded: bool)
      requires Valid() && n in loadingClasses && OnStack(loadingClasses, stack) && n in files
      requires IsChain(files, stack) && EndsWith(stack, n)
      modifies this, table
      ensures Valid() && loadingClasses == old(loadingClasses)
      ensures Advances(old(cachedClasses), old(names), old(metaspace), cachedClasses, names, metaspace)
      ensures allLoaded ==> SupersLoaded(cachedClasses, files[n].supers, |files[n].supers|)
      ensures !allLoaded ==> !Loadable(files, n)
      decreases Undecided() + 1, 1
    {
      hide CacheHolds, Loadable, RowsHold, Contiguous, IsChain, OnStack, EndsWith, LoadingUncached, Advances,
           SupersLoaded, InstanceofTable.Valid;
      var supers := files[n].supers;
      AdvancesItself(cachedClasses, names, metaspace, metaspace);
      NoSupersYet(cachedClasses, supers);
      for i := 0 to |supers|
        invariant Valid() && loadingClasses == old(loadingClasses)
        invariant Advances(old(cachedClasses), old(names), old(metaspace), cachedClasses, names, metaspace)
        invariant SupersLoaded(cachedClasses, supers, i)
      {
        SuperChain(files, stack, n, i);
        AdvanceKeepsMeasure(files, loadingClasses, old(cachedClasses), old(names), old(metaspace), cachedClasses,
                            names, metaspace);
        ghost var c, m, s := cachedClasses, names, metaspace;
        var supcls := LoadClassUnwrapped(supers[i], stack);
        AdvancesTransitive(old(cachedClasses), old(names), old(metaspace), c, m, s, cachedClasses, names, metaspace);
        if supcls.None? {
          SuperNotLoaded(files, n, i);
          return false;
        }
        SupersAdvance(c, m, s, cachedClasses, names, metaspace, supers, i);
      }
      return true;
    }

    /** The second pass over the superclasses: every lookup only hits the cache, so no other class
        enters the table between this class's entries. */
    method EnterSuperclasses(n: Name, ghost stack: seq<Name>) returns (index: nat)
      requires Core() && table.Valid() && n in files && n in loadingClasses && OnStack(loadingClasses, stack)
      requires IsChain(files, stack) && EndsWith(stack, n)
      requires SupersLoaded(cachedClasses, files[n].supers, |files[n].supers|)
      modifies this, table
      ensures Core() && cachedClasses == old(cachedClasses) && loadingClasses == old(loadingClasses)
      ensures names == old(names) && metaspace == old(metaspace) && classSizes == old(classSizes)
      ensures table.Valid() && index == |old(table.rows)|
      ensures table.rows == old(table.rows) + [Sort(PointersOf(cachedClasses, files[n].supers), PointerOrder())]
      decreases Undecided(), 5
    {
      hide CacheHolds, Loadable, Contiguous, IsChain, OnStack, EndsWith, LoadingUncached, Advances,
           InstanceofTable.Valid;
      var supers := files[n].supers;
      index := table.InsertIndex();
      assert PointersOf(cachedClasses, supers[..0]) == [];
      for i := 0 to |supers|
        invariant Core() && cachedClasses == old(cachedClasses) && loadingClasses == old(loadingClasses)
        invariant names == old(names) && metaspace == old(metaspace) && classSizes == old(classSizes) && table.Valid()
        invariant table.rows == old(table.rows) + [PointersOf(cachedClasses, supers[..i])]
      {
        SuperChain(files, stack, n, i);
        CachedNotLoading(loadingClasses, cachedClasses, supers[i]);
        var supcls := LoadClassUnwrapped(supers[i], stack);
        table.InsertSuperclass(supcls.value.pointer);
        assert PointersOf(cachedClasses, supers[..i + 1]) == PointersOf(cachedClasses, supers[..i]) +
          [supcls.value.pointer];
      }
      assert supers[..|supers|] == supers;
      var ok := table.CommitSuperclasses();
    }

    /** The collector's walk over metaspace, by the size in each block's header: every loaded class
        once, in index order. */
    method WalkClasses() returns (visited: seq<ClassPointer>)
      requires Valid()
      ensures |visited| == |names|
      ensures forall i :: 0 <= i < |names| ==>
                names[i] in cachedClasses && cachedClasses[names[i]].Some? &&
                  visited[i] == cachedClasses[names[i]].value.pointer
    {
      hide CacheHolds, RowsHold, InstanceofTable.Valid, LoadingUncached, Contiguous, Sum, BlockAt;
      visited := [];
      var cls := METASPACE_ROOT;
      WalkStep(files, cachedClasses, names, classSizes, metaspace, 0);
      while cls != metaspace
        invariant |visited| <= |names| && cls == METASPACE_ROOT + Sum(names[..|visited|], SizeOfClass(files))
        invariant cls == metaspace <==> |visited| == |names|
        invariant forall i :: 0 <= i < |visited| ==>
                    names[i] in cachedClasses && cachedClasses[names[i]].Some? &&
                      visited[i] == cachedClasses[names[i]].value.pointer
        decreases |names| - |visited|
      {
        WalkStep(files, cachedClasses, names, classSizes, metaspace, |visited|);
        WalkStep(files, cachedClasses, names, classSizes, metaspace, |visited| + 1);
        visited := visited + [cls];
        cls := cls + classSizes[cls];
      }
    }

    /** For loaded classes the table answers exactly whether the second declares the first as a
        superclass: not reflexively, not through other classes. */
    method IsSuperclass(superName: Name, subName: Name) returns (present: bool)
      requires Valid()
      requires superName in cachedClasses && cachedClasses[superName].Some?
      requires subName in cachedClasses && cachedClasses[subName].Some?
      ensures subName in files && (present <==> superName in files[subName].supers)
    {
      var superclass, sub := cachedClasses[superName].value, cachedClasses[subName].value;
      assert RowHolds(files, cachedClasses, names[sub.index], table.rows[sub.index]);
      present := table.IsSuperclass(superclass.pointer, sub.index);
      PointerInRow(files, cachedClasses, names, metaspace, superName, subName, table.rows[sub.index]);
    }
  }

  lemma AdvanceKeepsMeasure(files: Files, loading: set<Name>, c: map<Name, Option<Class>>, names: seq<Name>, m: nat,
                            c': map<Name, Option<Class>>, names': seq<Name>, m': nat)
    requires Advances(c, names, m, c', names', m')
    ensures |files.Keys - loading - c'.Keys| <= |files.Keys - loading - c.Keys|
  {
    MeasureKept(files, loading, c, c');
  }

  lemma NoSupersYet(cached: map<Name, Option<Class>>, supers: seq<Name>)
    ensures SupersLoaded(cached, supers, 0)
  {
  }

  lemma SupersAdvance(c: map<Name, Option<Class>>, names: seq<Name>, m: nat, c': map<Name, Option<Class>>,
                      names': seq<Name>, m': nat,
                      supers: seq<Name>, i: nat)
    requires Advances(c, names, m, c', names', m') && i < |supers| && SupersLoaded(c, supers, i)
    requires supers[i] in c' && c'[supers[i]].Some?
    ensures SupersLoaded(c', supers, i + 1)
  {
    SupersStayLoaded(c, c', supers, i);
  }

  lemma CachedNotLoading(loading: set<Name>, cached: map<Name, Option<Class>>, n: Name)
    requires LoadingUncached(loading, cached) && n in cached
    ensures n !in loading
  {
  }

  lemma NotYetCached(loading: set<Name>, cached: map<Name, Option<Class>>, n: Name)
    requires LoadingUncached(loading, cached) && n in loading
    ensures n !in cached
  {
  }

  /** What the loader knows once a class has its pointer, index and row. */
  lemma ClassEntered(files: Files, cached: map<Name, Option<Class>>, names: seq<Name>, metaspace: nat, after: nat,
                     rows: seq<seq<ClassPointer>>, n: Name, c: Class)
    requires CacheHolds(files, cached, names, metaspace) && RowsHold(files, cached, names, rows) && n !in cached &&
        Loadable(files, n)
    requires n in files && SupersLoaded(cached, files[n].supers, |files[n].supers|)
    requires c.index == |names| && 0 < metaspace <= c.pointer < after
    ensures CacheHolds(files, cached[n := Some(c)], names + [n], after)
    ensures RowsHold(files, cached[n := Some(c)], names + [n], rows +
        [Sort(PointersOf(cached, files[n].supers), PointerOrder())])
  {
    hide CacheHolds, RowsHold, Loadable;
    SuccessCached(files, cached, names, metaspace, n, c, after);
    RowsGrow(files, cached, names, rows, n, c);
  }

  lemma RowsCount(files: Files, cached: map<Name, Option<Class>>, names: seq<Name>, rows: seq<seq<ClassPointer>>)
    requires RowsHold(files, cached, names, rows)
    ensures |rows| == |names|
  {
  }

  lemma PointerInRow(files: Files, cached: map<Name, Option<Class>>, names: seq<Name>, metaspace: nat,
                     superName: Name, subName: Name, row: seq<ClassPointer>)
    requires CacheHolds(files, cached, names, metaspace) && superName in cached && cached[superName].Some?
    requires RowHolds(files, cached, subName, row)
    ensures cached[superName].value.pointer in row <==> superName in files[subName].supers
  {
    var supers := files[subName].supers;
    var pointers := PointersOf(cached, supers);
    var p := cached[superName].value.pointer;
    assert p in row <==> p in multiset(row);
    assert p in pointers <==> p in multiset(pointers);
    if superName in supers {
      var k :| 0 <= k < |supers| && supers[k] == superName;
      assert pointers[k] == p;
    }
    if p in pointers {
      var k :| 0 <= k < |pointers| && pointers[k] == p;
      SamePointer(files, cached, names, metaspace, supers[k], superName);
    }
  }

  /** Class pointers are unique. */
  lemma SamePointer(files: Files, cached: map<Name, Option<Class>>, names: seq<Name>, metaspace: nat, m: Name, n: Name)
    requires CacheHolds(files, cached, names, metaspace)
    requires m in cached && cached[m].Some? && n in cached && cached[n].Some? &&
        cached[m].value.pointer == cached[n].value.pointer
    ensures m == n
  {
    var i, j := cached[m].value.index, cached[n].value.index;
    assert names[i] == m && names[j] == n;
  }
}
