/** The heap object performs the operations of a run: whatever the program asks of it, its states form
    a run of the two-space heap, so the refinement holds of it. */
module Execution {
  import opened Prelude
  import opened Objects
  import opened Semispaces
  import opened Machine
  import opened Heaps
  import opened Refinement
  import opened Histories

  // ---- Where a root is kept -------------------------------------------------------------------

  lemma RootKept(tables: Tables, blocks: map<Address, Block>, k: Root)
    requires k in tables.View(blocks).roots
    ensures k.Static? ==> k.cls < |tables.statics| && k.index < |tables.statics[k.cls]|
    ensures k.Local? ==>
        && k.thread < |tables.stacks|
        && k.frame < |tables.stacks[k.thread]|
        && k.slot < |tables.stacks[k.thread][k.frame]|
    ensures k.Handle? ==> k.handle in tables.handles
  {
  }

  lemma RootResolves(regions: Regions, classes: ClassTable, s: State, k: Root)
    requires WellFormed(regions, classes, s) && k in s.roots
    ensures Resolves(regions, s.blocks, s.roots[k])
  {
  }

  lemma PointerResolves(regions: Regions, classes: ClassTable, s: State, a: Address, i: nat)
    requires WellFormed(regions, classes, s) && a in s.blocks && i < |s.blocks[a].pointers|
    ensures Resolves(regions, s.blocks, s.blocks[a].pointers[i])
  {
    assert AllResolve(regions, s.blocks, s.blocks[a].pointers);
  }

  lemma SlotsResolve(regions: Regions, classes: ClassTable, s: State, arguments: seq<Option<Root>>)
    requires WellFormed(regions, classes, s) && ArgumentsExist(s, arguments) && regions.Foreign(0)
    ensures AllResolve(regions, s.blocks, SlotsOf(s, arguments))
  {
    forall i | 0 <= i < |arguments| ensures Resolves(regions, s.blocks, SlotsOf(s, arguments)[i]) {
      if arguments[i].Some? { RootResolves(regions, classes, s, arguments[i].value); }
    }
  }

  lemma HandleCounts(regions: Regions, classes: ClassTable, tables: Tables, blocks: map<Address, Block>, h: nat)
    requires WellFormed(regions, classes, tables.View(blocks))
    ensures h in tables.handles <==> h in tables.View(blocks).counts
    ensures h in tables.handles ==> tables.View(blocks).counts[h] > 0
  {
    RootKinds(tables);
  }

  lemma ShapeKept(tables: Tables, blocks: map<Address, Block>, t: nat)
    ensures |tables.View(blocks).shape| == |tables.stacks|
    ensures t < |tables.stacks| ==> |tables.View(blocks).shape[t]| == |tables.stacks[t]|
  {
  }

  /** Every root survives an allocation, and the new object is there. */
  lemma AllocationKeepsRoots(regions: Regions, classes: ClassTable, s: State, t: State, header: Header,
                             r: Option<Address>)
    requires Allocatable(classes, header) && Allocates(regions, classes, s, t, header, r)
    ensures t.roots.Keys == s.roots.Keys && (r.Some? ==> r.value in t.blocks)
  {
    var mid :| MayCollect(regions, s, mid) && Placed(regions, classes, mid, t, header, r);
    PlacedKeepsRoots(regions, classes, mid, t, header, r);
    hide Placed;
    if mid != s {
      var phi :| Collects(regions, s, mid, phi);
      CollectedKeepsRoots(regions, s, mid, phi);
    }
  }

  lemma PlacedKeepsRoots(regions: Regions, classes: ClassTable, s: State, t: State, header: Header, r: Option<Address>)
    requires Allocatable(classes, header) && Placed(regions, classes, s, t, header, r)
    ensures t.roots.Keys == s.roots.Keys && (r.Some? ==> r.value in t.blocks)
  {
    hide Zeroed;
  }

  lemma CollectedKeepsRoots(regions: Regions, s: State, t: State, phi: map<Address, Address>)
    requires Collects(regions, s, t, phi)
    ensures t.roots.Keys == s.roots.Keys
  {
    hide RenameBlock, Live;
  }

  // ---- One operation --------------------------------------------------------------------------

  /** Stores into a static or a frame slot. */
  method StoreRoot(heap: Heap, k: Root, p: Address)
    requires heap.Valid() && Writable(heap.View(), k) && Resolves(heap.allocator.regions, heap.blocks, p)
    modifies heap
    ensures heap.Valid() && heap.View() == SetRoot(old(heap.View()), k, p)
  {
    hide Heap.Valid, Tables.View, Resolves, SetRoot;
    RootKept(heap.tables, heap.blocks, k);
    match k
    case Static(c, i) => heap.WriteStatic(c, i, p);
    case Local(t, f, i) => heap.WriteSlot(t, f, i, p);
    case Handle(_) => assert false;
  }

  /** An allocation the program may make. */
  ghost predicate Asks(heap: Heap, op: Op)
    requires op.New?
    reads heap
  {
    Writable(heap.View(), op.dst) && Allocatable(heap.classes, op.header)
  }

  /** The usage of the active space after an operation. */
  ghost function UsageAfterOp(heap: Heap, op: Op, grants: Grants): Usage
    reads heap, heap.allocator, heap.allocator.first, heap.allocator.second
  {
    if op.New? && Asks(heap, op) then heap.UsageAfterNew(op.header, grants) else heap.CurrentUsage()
  }

  method PerformNew(heap: Heap, op: Op, grants: Grants) returns (seen: Seen)
    requires heap.Valid() && op.New?
    modifies heap, heap.allocator, heap.allocator.first, heap.allocator.second
    ensures heap.Valid() && Step(heap.allocator.regions, heap.classes, old(heap.View()), op, heap.View(), seen)
    ensures seen == OutOfMemory <==> old(Asks(heap, op) && !heap.ObtainableFor(op.header, grants))
    ensures heap.CurrentUsage() == old(UsageAfterOp(heap, op, grants))
    ensures old(heap.NothingCommitted()) ==> seen != Done && heap.NothingCommitted()
  {
    hide Heap.Valid, Tables.View, Allocates, Resolves, SetRoot;
    ghost var before := heap.View();
    var dst, header := op.dst, op.header;
    if !Writable(heap.View(), dst) || !Allocatable(heap.classes, header) {
      return Rejected;
    }
    var r: Option<Address>;
    match header {
      case Instance(c) => r := heap.AllocateObject(c, grants);
      case Array(element, length) => r := heap.AllocateArray(element, length, grants);
      case Forwarded(_) => assert false;
    }
    ghost var mid := heap.View();
    AllocationKeepsRoots(heap.allocator.regions, heap.classes, before, mid, header, r);
    if r.Some? {
      NewResolves(heap.allocator.regions, heap.tables, heap.blocks, r.value);
      StoreRoot(heap, dst, r.value);
      seen := Done;
    } else {
      seen := OutOfMemory;
    }
    assert GoesInto(mid, dst, r, heap.View(), seen);
  }

  lemma NewResolves(regions: Regions, tables: Tables, blocks: map<Address, Block>, a: Address)
    requires a in tables.View(blocks).blocks
    ensures Resolves(regions, blocks, a)
  {
  }

  method PerformRoot(heap: Heap, op: Op) returns (seen: Seen)
    requires heap.Valid() && (op.Move? || op.Clear? || op.Same?) && heap.allocator.regions.Foreign(0)
    modifies heap
    ensures heap.Valid() && (heap.View(), seen) == Apply(old(heap.View()), op)
  {
    hide Heap.Valid, Tables.View, SetRoot, WellFormed, Regions.Foreign;
    heap.ConsistentIsWellFormed();
    ViewKeepsBlocks(heap.tables, heap.blocks);
    var s := heap.View();
    match op
    case Move(dst, src) =>
      if Writable(s, dst) && src in s.roots {
        RootResolves(heap.allocator.regions, heap.classes, s, src);
        StoreRoot(heap, dst, s.roots[src]);
        return Done;
      }
      return Rejected;
    case Clear(dst) =>
      if Writable(s, dst) {
        StoreRoot(heap, dst, 0);
        return Done;
      }
      return Rejected;
    case Same(x, y) =>
      return if x in s.roots && y in s.roots then Flag(s.roots[x] == s.roots[y]) else Rejected;
  }

  method PerformPointer(heap: Heap, op: Op) returns (seen: Seen)
    requires heap.Valid() && (op.GetPointer? || op.PutPointer?)
    modifies heap
    ensures heap.Valid() && (heap.View(), seen) == Apply(old(heap.View()), op)
  {
    hide Heap.Valid, Tables.View, SetRoot, SetPointer, WellFormed, Resolves;
    heap.ConsistentIsWellFormed();
    ViewKeepsBlocks(heap.tables, heap.blocks);
    var s := heap.View();
    if !Refers(s, op.obj) || op.index >= |s.blocks[s.roots[op.obj]].pointers| {
      return Rejected;
    }
    var a := s.roots[op.obj];
    match op
    case GetPointer(dst, obj, i) =>
      if Writable(s, dst) {
        PointerResolves(heap.allocator.regions, heap.classes, s, a, i);
        StoreRoot(heap, dst, s.blocks[a].pointers[i]);
        return Done;
      }
      return Rejected;
    case PutPointer(obj, i, src) =>
      if src in s.roots {
        RootResolves(heap.allocator.regions, heap.classes, s, src);
        heap.WritePointer(a, i, s.roots[src]);
        return Done;
      }
      return Rejected;
  }

  lemma ReadIs(s: State, op: Op)
    requires op.GetData? || op.Inspect?
    ensures !Refers(s, op.obj) ==> Apply(s, op) == (s, Rejected)
    ensures Refers(s, op.obj) && op.Inspect? ==> Apply(s, op) == (s, Kind(s.blocks[s.roots[op.obj]].header))
    ensures Refers(s, op.obj) && op.GetData? ==>
              var data := s.blocks[s.roots[op.obj]].data;
              Apply(s, op) ==
                (s, if op.index + op.size <= |data| then Datum(data[op.index..op.index + op.size]) else Rejected)
  {
  }

  /** Reading data or a header changes nothing. */
  method PerformRead(heap: Heap, op: Op) returns (seen: Seen)
    requires heap.Valid() && (op.GetData? || op.Inspect?)
    ensures (heap.View(), seen) == Apply(heap.View(), op)
  {
    hide Heap.Valid, Tables.View, Apply;
    ViewKeepsBlocks(heap.tables, heap.blocks);
    var s := heap.View();
    ReadIs(s, op);
    if !Refers(s, op.obj) {
      return Rejected;
    }
    var block := s.blocks[s.roots[op.obj]];
    match op
    case GetData(obj, i, size) =>
      return if i + size <= |block.data| then Datum(block.data[i..i + size]) else Rejected;
    case Inspect(obj) => return Kind(block.header);
  }

  lemma WriteIs(s: State, op: Op)
    requires op.PutData?
    ensures Apply(s, op) ==
        if Refers(s, op.obj) && op.index + |op.value| <= |s.blocks[s.roots[op.obj]].data|
        then (SetData(s, s.roots[op.obj], op.index, op.value), Done) else (s, Rejected)
  {
    hide SetData;
  }

  method PerformWrite(heap: Heap, op: Op) returns (seen: Seen)
    requires heap.Valid() && op.PutData?
    modifies heap
    ensures heap.Valid() && (heap.View(), seen) == Apply(old(heap.View()), op)
  {
    hide Heap.Valid, Tables.View, SetData, Apply;
    ViewKeepsBlocks(heap.tables, heap.blocks);
    var s := heap.View();
    WriteIs(s, op);
    if !Refers(s, op.obj) || op.index + |op.value| > |s.blocks[s.roots[op.obj]].data| {
      return Rejected;
    }
    heap.WriteData(s.roots[op.obj], op.index, op.value);
    return Done;
  }

  method PerformFrame(heap: Heap, op: Op) returns (seen: Seen)
    requires heap.Valid() && (op.Push? || op.Pop?) && heap.allocator.regions.Foreign(0)
    modifies heap
    ensures heap.Valid() && (heap.View(), seen) == Apply(old(heap.View()), op)
  {
    hide Heap.Valid, Tables.View, PushSlots, PopSlots, WellFormed, AllResolve, Regions.Foreign;
    heap.ConsistentIsWellFormed();
    ViewKeepsBlocks(heap.tables, heap.blocks);
    ShapeKept(heap.tables, heap.blocks, op.thread);
    var s := heap.View();
    match op
    case Push(t, arguments) =>
      if t < |s.shape| && ArgumentsExist(s, arguments) {
        SlotsResolve(heap.allocator.regions, heap.classes, s, arguments);
        heap.PushFrame(t, SlotsOf(s, arguments));
        return Done;
      }
      return Rejected;
    case Pop(t) =>
      if t < |s.shape| && |s.shape[t]| > 0 {
        heap.PopFrame(t);
        return Done;
      }
      return Rejected;
  }

  lemma AcquireIs(s: State, op: Op)
    requires op.Acquire?
    ensures Apply(s, op) ==
        if op.src !in s.roots || op.unused in s.counts then (s, Rejected)
        else
          var h := HandleFor(s, s.roots[op.src]);
          if h.None? then (AddHandle(s, s.roots[op.src], op.unused), Id(op.unused))
          else if h.value in s.counts then (CountUp(s, h.value), Id(h.value)) else (s, Rejected)
  {
    hide HandleFor, AddHandle, CountUp;
  }

  lemma ReleaseIs(s: State, op: Op)
    requires op.Release?
    ensures Apply(s, op) ==
        if op.handle in s.counts && s.counts[op.handle] > 0 then (CountDown(s, op.handle), Done) else (s, Rejected)
  {
    hide CountDown;
  }

  method PerformHandle(heap: Heap, op: Op) returns (seen: Seen)
    requires heap.Valid() && (op.Acquire? || op.Release?)
    modifies heap
    ensures heap.Valid() && (heap.View(), seen) == Apply(old(heap.View()), op)
  {
    hide Heap.Valid, Tables.View, HandleFor, AddHandle, CountUp, CountDown, WellFormed, Resolves, Apply;
    if op.Acquire? { AcquireIs(heap.View(), op); } else { ReleaseIs(heap.View(), op); }
    heap.ConsistentIsWellFormed();
    ViewKeepsBlocks(heap.tables, heap.blocks);
    var s := heap.View();
    match op
    case Acquire(src, unused) =>
      if src !in s.roots || unused in s.counts {
        return Rejected;
      }
      HandleCounts(heap.allocator.regions, heap.classes, heap.tables, heap.blocks, unused);
      RootResolves(heap.allocator.regions, heap.classes, s, src);
      var h := heap.AllocateNativeReference(s.roots[src], unused);
      return Id(h);
    case Release(h) =>
      HandleCounts(heap.allocator.regions, heap.classes, heap.tables, heap.blocks, h);
      if h in s.counts && s.counts[h] > 0 {
        heap.DeallocateNativeReference(h);
        return Done;
      }
      return Rejected;
  }

  /** Any operation: the heap object takes exactly a step of the two-space heap, and memory runs out
      exactly when what is asked for was not obtainable. */
  method Perform(heap: Heap, op: Op, grants: Grants) returns (seen: Seen)
    requires heap.Valid() && heap.allocator.regions.Foreign(0)
    modifies heap, heap.allocator, heap.allocator.first, heap.allocator.second
    ensures heap.Valid() && Step(heap.allocator.regions, heap.classes, old(heap.View()), op, heap.View(), seen)
    ensures op.New? ==> (seen == OutOfMemory <==> old(Asks(heap, op) && !heap.ObtainableFor(op.header, grants)))
    ensures heap.CurrentUsage() == old(UsageAfterOp(heap, op, grants))
    ensures old(heap.NothingCommitted()) ==> heap.NothingCommitted() && (op.New? ==> seen != Done)
  {
    hide Heap.Valid, Tables.View, Apply, Allocates, Regions.Foreign, Writable;
    if op.New? {
      seen := PerformNew(heap, op, grants);
    } else if op.Move? || op.Clear? || op.Same? {
      seen := PerformRoot(heap, op);
    } else if op.GetPointer? || op.PutPointer? {
      seen := PerformPointer(heap, op);
    } else if op.GetData? || op.Inspect? {
      seen := PerformRead(heap, op);
    } else if op.PutData? {
      seen := PerformWrite(heap, op);
    } else if op.Push? || op.Pop? {
      seen := PerformFrame(heap, op);
    } else {
      seen := PerformHandle(heap, op);
    }
  }

  // ---- Runs -----------------------------------------------------------------------------------

  lemma {:induction false} RunExtends(regions: Regions, classes: ClassTable, states: seq<State>, ops: seq<Op>,
                                      seen: seq<Seen>,
                                      i: nat, t: State, o: Seen)
    requires i < |ops| && Run(regions, classes, states, ops[..i], seen) &&
        Step(regions, classes, states[i], ops[i], t, o)
    ensures Run(regions, classes, states + [t], ops[..i + 1], seen + [o])
  {
    hide Step;
    forall k | 0 <= k < i + 1
      ensures Step(regions, classes, (states + [t])[k], ops[..i + 1][k], (states + [t])[k + 1], (seen + [o])[k])
    {
      if k < i { assert Step(regions, classes, states[k], ops[..i][k], states[k + 1], seen[k]); }
    }
  }

  /** The bytes that the allocations of a program take together. */
  function Requested(classes: ClassTable, ops: seq<Op>): nat {
    if ops == [] then 0
    else
      var n := |ops| - 1;
      Requested(classes, ops[..n]) + if ops[n].New? then BlockSize(classes, ops[n].header) else 0
  }

  lemma {:induction false} RequestedGrows(classes: ClassTable, ops: seq<Op>, i: nat)
    requires i <= |ops|
    ensures Requested(classes, ops[..i]) <= Requested(classes, ops)
  {
    if i < |ops| {
      RequestedGrows(classes, ops[..|ops| - 1], i);
      assert ops[..|ops| - 1][..i] == ops[..i];
    } else {
      assert ops[..i] == ops;
    }
  }

  lemma NothingRequested(classes: ClassTable, ops: seq<Op>)
    ensures Requested(classes, ops[..0]) == 0
  {
  }

  lemma RequestedNext(classes: ClassTable, ops: seq<Op>, i: nat)
    requires i < |ops|
    ensures Requested(classes, ops[..i + 1]) ==
        Requested(classes, ops[..i]) + if ops[i].New? then BlockSize(classes, ops[i].header) else 0
    ensures Requested(classes, ops[..i + 1]) <= Requested(classes, ops)
  {
    assert ops[..i + 1][..i] == ops[..i];
    RequestedGrows(classes, ops, i + 1);
  }

  /** The usage once the first operations of a program that fits the space have been performed. */
  ghost predicate Within(start: Usage, usage: Usage, requested: nat) {
    usage.committed == start.committed && usage.used <= start.used + requested
  }

  lemma StartsWithin(start: Usage)
    ensures Within(start, start, 0)
  {
  }

  /** While there is room for it, an operation neither runs out of memory nor collects. */
  lemma StaysWithin(heap: Heap, op: Op, grants: Grants, start: Usage, requested: nat)
    requires Within(start, heap.CurrentUsage(), requested)
    requires op.New? ==> start.used + requested + BlockSize(heap.classes, op.header) <= start.committed
    ensures op.New? ==> heap.ObtainableFor(op.header, grants)
    ensures Within(start, UsageAfterOp(heap, op, grants),
                   requested + if op.New? then BlockSize(heap.classes, op.header) else 0)
  {
    hide Asks, BlockSize, Heap.UsageAfterCollection;
  }

  /** Every program of operations on the heap object is a run of the two-space heap, and shows the
      program what some run of the heap that never moves anything shows: every operation is answered by what
      was last put where it looks. If what it allocates fits what is committed, none of its allocations
      fails; from a start with nothing committed none succeeds. */
  method PerformAll(heap: Heap, ops: seq<Op>, grants: seq<Grants>) returns (seen: seq<Seen>, ghost states: seq<State>,
                                                                            ghost simple: seq<State>)
    requires |grants| == |ops| && heap.Valid() && heap.allocator.regions.Foreign(0) && heap.View().blocks == map[]
    requires forall k :: k in heap.View().roots ==> heap.allocator.regions.Foreign(heap.View().roots[k])
    modifies heap, heap.allocator, heap.allocator.first, heap.allocator.second
    ensures heap.Valid() && Run(heap.allocator.regions, heap.classes, states, ops, seen)
    ensures states[0] == old(heap.View()) && states[|ops|] == heap.View()
    ensures SimpleRun(heap.allocator.regions, heap.classes, simple, ops, seen) && simple[0] == old(heap.View())
    ensures exists rho :: Image(heap.allocator.regions, simple[|ops|], heap.View(), rho)
    ensures History(old(heap.View()), ops, seen).Valid()
    ensures forall i :: 0 <= i < |ops| ==> History(old(heap.View()), ops, seen).Answers(heap.classes, i)
    ensures old(heap.NothingCommitted()) ==> forall i :: 0 <= i < |ops| && ops[i].New? ==> seen[i] != Done
    ensures old(heap.CurrentUsage().used) + Requested(heap.classes, ops) <= old(heap.CurrentUsage().committed) ==>
        && (forall i :: 0 <= i < |ops| && ops[i].New? ==> seen[i] != OutOfMemory)
        && Within(old(heap.CurrentUsage()), heap.CurrentUsage(), Requested(heap.classes, ops))
  {
    hide Heap.Valid, Tables.View, Step, Image, SimpleRun, Regions.Foreign, History.Answers, Heap.ObtainableFor,
         UsageAfterOp, Within, Heap.CurrentUsage, BlockSize, Asks, Heap.NothingCommitted, WellFormed;
    StartsWithin(heap.CurrentUsage());
    NothingRequested(heap.classes, ops);
    hide Requested;
    heap.ConsistentIsWellFormed();
    ghost var start := heap.View();
    ghost var fits := heap.CurrentUsage().used + Requested(heap.classes, ops) <= heap.CurrentUsage().committed;
    StartRelated(heap.allocator.regions, heap.classes, start);
    seen, states := [], [start];
    for i := 0 to |ops|
      invariant heap.Valid() && Run(heap.allocator.regions, heap.classes, states, ops[..i], seen)
      invariant states[0] == start && states[i] == heap.View()
      invariant old(heap.NothingCommitted()) ==> heap.NothingCommitted()
      invariant old(heap.NothingCommitted()) ==> forall k :: 0 <= k < i && ops[k].New? ==> seen[k] != Done
      invariant fits ==> Within(old(heap.CurrentUsage()), heap.CurrentUsage(), Requested(heap.classes, ops[..i]))
      invariant fits ==> forall k :: 0 <= k < i && ops[k].New? ==> seen[k] != OutOfMemory
    {
      RequestedNext(heap.classes, ops, i);
      if fits {
        StaysWithin(heap, ops[i], grants[i], old(heap.CurrentUsage()), Requested(heap.classes, ops[..i]));
      }
      var o := Perform(heap, ops[i], grants[i]);
      RunExtends(heap.allocator.regions, heap.classes, states, ops, seen, i, heap.View(), o);
      seen, states := seen + [o], states + [heap.View()];
    }
    assert ops[..|ops|] == ops;
    RunAnswers(heap.allocator.regions, heap.classes, states, History(start, ops, seen));
    ghost var rho;
    simple, rho := RunRefines(heap.allocator.regions, heap.classes, states, ops, seen, start, map[]);
  }

  lemma StartRelated(regions: Regions, classes: ClassTable, s: State)
    requires WellFormed(regions, classes, s) && s.blocks == map[] && forall k :: k in s.roots ==>
        regions.Foreign(s.roots[k])
    ensures Image(regions, s, s, map[]) && Numbered(regions, s) && HandlesMatch(s)
  {
    EmptyHeapRelated(regions, s);
  }
}
