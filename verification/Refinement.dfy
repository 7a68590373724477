/** Runs of the virtual machine over the two-space heap refine runs over a heap whose objects never
    move and whose addresses are never used again. */
module Refinement {
  import opened Prelude
  import opened Objects
  import opened Values
  import opened Machine

  // ---- Operations and what they let the program see -------------------------------------------

  datatype Op =
    | New(dst: Root, header: Header)
    | Move(dst: Root, src: Root)
    | Clear(dst: Root)
    | GetPointer(dst: Root, obj: Root, index: nat)
    | PutPointer(obj: Root, index: nat, src: Root)
    | GetData(obj: Root, index: nat, size: nat)
    | PutData(obj: Root, index: nat, value: seq<Byte>)
    | Same(left: Root, right: Root)
    | Inspect(obj: Root)
    | Push(thread: nat, arguments: seq<Option<Root>>)
    | Pop(thread: nat)
    | Acquire(src: Root, unused: nat)
    | Release(handle: nat)

  datatype Seen =
    | Done
    | Rejected
    | OutOfMemory
    | Datum(value: seq<Byte>)
    | Flag(equal: bool)
    | Kind(header: Header)
    | Id(handle: nat)

  /** A slot the program may store references into. */
  predicate Writable(s: State, k: Root) { k in s.roots && !k.Handle? }

  predicate Refers(s: State, k: Root) { k in s.roots && s.roots[k] in s.blocks }

  predicate ArgumentsExist(s: State, arguments: seq<Option<Root>>) {
    forall i :: 0 <= i < |arguments| ==> arguments[i].Some? ==> arguments[i].value in s.roots
  }

  /** Pointer slots of a new frame: copied arguments, null elsewhere. */
  function SlotsOf(s: State, arguments: seq<Option<Root>>): seq<Address>
    requires ArgumentsExist(s, arguments)
  {
    seq(|arguments|, i requires 0 <= i < |arguments| => if arguments[i].Some? then s.roots[arguments[i].value] else 0)
  }

  /** Every operation but allocation. */
  ghost function Apply(s: State, op: Op): (State, Seen)
    requires !op.New?
  {
    match op
    case Move(dst, src) =>
      if Writable(s, dst) && src in s.roots then (SetRoot(s, dst, s.roots[src]), Done) else (s, Rejected)
    case Clear(dst) =>
      if Writable(s, dst) then (SetRoot(s, dst, 0), Done) else (s, Rejected)
    case GetPointer(dst, obj, i) =>
      if Writable(s, dst) && Refers(s, obj) && i < |s.blocks[s.roots[obj]].pointers|
      then (SetRoot(s, dst, s.blocks[s.roots[obj]].pointers[i]), Done) else (s, Rejected)
    case PutPointer(obj, i, src) =>
      if Refers(s, obj) && i < |s.blocks[s.roots[obj]].pointers| && src in s.roots
      then (SetPointer(s, s.roots[obj], i, s.roots[src]), Done) else (s, Rejected)
    case GetData(obj, i, size) =>
      if Refers(s, obj) && i + size <= |s.blocks[s.roots[obj]].data|
      then (s, Datum(s.blocks[s.roots[obj]].data[i..i + size])) else (s, Rejected)
    case PutData(obj, i, value) =>
      if Refers(s, obj) && i + |value| <= |s.blocks[s.roots[obj]].data|
      then (SetData(s, s.roots[obj], i, value), Done) else (s, Rejected)
    case Same(x, y) =>
      if x in s.roots && y in s.roots then (s, Flag(s.roots[x] == s.roots[y])) else (s, Rejected)
    case Inspect(obj) =>
      if Refers(s, obj) then (s, Kind(s.blocks[s.roots[obj]].header)) else (s, Rejected)
    case Push(t, arguments) =>
      if t < |s.shape| && ArgumentsExist(s, arguments)
        then (PushSlots(s, t, SlotsOf(s, arguments)), Done) else (s, Rejected)
    case Pop(t) =>
      if t < |s.shape| && |s.shape[t]| > 0 then (PopSlots(s, t), Done) else (s, Rejected)
    case Acquire(src, unused) =>
      if src !in s.roots || unused in s.counts then (s, Rejected)
      else
        var h := HandleFor(s, s.roots[src]);
        if h.None? then (AddHandle(s, s.roots[src], unused), Id(unused))
        else if h.value in s.counts then (CountUp(s, h.value), Id(h.value)) else (s, Rejected)
    case Release(h) =>
      if h in s.counts && s.counts[h] > 0 then (CountDown(s, h), Done) else (s, Rejected)
  }

  /** One operation on the two-space heap; an allocation may collect. */
  ghost predicate Step(regions: Regions, classes: ClassTable, s: State, op: Op, t: State, seen: Seen) {
    match op
    case New(dst, header) =>
      if Writable(s, dst) && Allocatable(classes, header) then
        exists u, r :: Allocates(regions, classes, s, u, header, r) && GoesInto(u, dst, r, t, seen)
      else t == s && seen == Rejected
    case _ => (t, seen) == Apply(s, op)
  }

  /** The result of an allocation goes into its slot. */
  ghost predicate GoesInto(u: State, dst: Root, r: Option<Address>, t: State, seen: Seen) {
    match r
    case None => t == u && seen == OutOfMemory
    case Some(a) => t == SetRoot(u, dst, a) && seen == Done
  }

  /** The simple heap numbers its objects from `top` in order of allocation. */
  ghost predicate Numbered(regions: Regions, s: State) {
    forall a :: a in s.blocks <==> regions.top <= a < regions.top + |s.blocks|
  }

  /** One operation on the simple heap: nothing is collected, moved or used again. It runs out of
      memory when the other heap does. */
  ghost predicate SimpleStep(regions: Regions, classes: ClassTable, s: State, op: Op, t: State, seen: Seen) {
    match op
    case New(dst, header) =>
      if Writable(s, dst) && Allocatable(classes, header) then
        var a := regions.top + |s.blocks|;
        || (seen == OutOfMemory && t == s)
        || (seen == Done && t == SetRoot(s.(blocks := s.blocks[a := Zeroed(classes, header)]), dst, a))
      else t == s && seen == Rejected
    case _ => (t, seen) == Apply(s, op)
  }

  ghost predicate Run(regions: Regions, classes: ClassTable, states: seq<State>, ops: seq<Op>, seen: seq<Seen>) {
    && |states| == |ops| + 1 && |seen| == |ops|
    && forall i :: 0 <= i < |ops| ==> Step(regions, classes, states[i], ops[i], states[i + 1], seen[i])
  }

  ghost predicate SimpleRun(regions: Regions, classes: ClassTable, states: seq<State>, ops: seq<Op>, seen: seq<Seen>) {
    && |states| == |ops| + 1 && |seen| == |ops|
    && forall i :: 0 <= i < |ops| ==> SimpleStep(regions, classes, states[i], ops[i], states[i + 1], seen[i])
  }

  // ---- Each change commutes with moving -------------------------------------------------------

  lemma RenameInjective(regions: Regions, a: State, c: State, rho: map<Address, Address>, p: Address, q: Address)
    requires Image(regions, a, c, rho) && Covers(regions, rho, p) && Covers(regions, rho, q)
    ensures Rename(rho, p) == Rename(rho, q) <==> p == q
    ensures p in a.blocks <==> Rename(rho, p) in c.blocks
    ensures p in a.blocks ==> p in rho && c.blocks[Rename(rho, p)] == RenameBlock(rho, a.blocks[p])
  {
    ImageKeysManaged(regions, a, c, rho);
  }

  lemma RootMoves(regions: Regions, a: State, c: State, rho: map<Address, Address>, k: Root)
    requires Image(regions, a, c, rho) && k in a.roots
    ensures k in c.roots && c.roots[k] == Rename(rho, a.roots[k]) && Covers(regions, rho, a.roots[k])
  {
  }

  lemma SameRoots(regions: Regions, a: State, c: State, rho: map<Address, Address>)
    requires Image(regions, a, c, rho)
    ensures a.roots.Keys == c.roots.Keys && a.counts == c.counts && a.shape == c.shape
  {
  }

  /** Root contents, frames and counts may change freely as long as both heaps change alike. */
  lemma ImageNewRoots(regions: Regions, a: State, c: State, rho: map<Address, Address>,
                      roots: map<Root, Address>, shape: seq<seq<nat>>, counts: map<nat, nat>)
    requires Image(regions, a, c, rho) && forall k :: k in roots ==> Covers(regions, rho, roots[k])
    ensures Image(regions, State(a.blocks, roots, shape, counts),
        State(c.blocks, RenameRoots(rho, roots), shape, counts), rho)
  {
  }

  lemma RootsCovered(regions: Regions, a: State, c: State, rho: map<Address, Address>)
    requires Image(regions, a, c, rho)
    ensures forall k :: k in a.roots ==> Covers(regions, rho, a.roots[k])
    ensures c.roots == RenameRoots(rho, a.roots) && c.shape == a.shape && c.counts == a.counts
  {
  }

  lemma RenameRootsUpdate(rho: map<Address, Address>, roots: map<Root, Address>, k: Root, p: Address)
    ensures RenameRoots(rho, roots[k := p]) == RenameRoots(rho, roots)[k := Rename(rho, p)]
    ensures RenameRoots(rho, roots - {k}) == RenameRoots(rho, roots) - {k}
  {
  }

  lemma ImageSetRoot(regions: Regions, a: State, c: State, rho: map<Address, Address>, k: Root, p: Address)
    requires Image(regions, a, c, rho) && Covers(regions, rho, p)
    ensures Image(regions, SetRoot(a, k, p), SetRoot(c, k, Rename(rho, p)), rho)
  {
    hide Image, RenameRoots;
    RootsCovered(regions, a, c, rho);
    RenameRootsUpdate(rho, a.roots, k, p);
    ImageNewRoots(regions, a, c, rho, a.roots[k := p], a.shape, a.counts);
  }

  lemma ImageSetBlock(regions: Regions, a: State, c: State, rho: map<Address, Address>, x: Address, block: Block)
    requires Image(regions, a, c, rho) && x in rho
    requires forall i :: 0 <= i < |block.pointers| ==> Covers(regions, rho, block.pointers[i])
    ensures Image(regions, a.(blocks := a.blocks[x := block]),
        c.(blocks := c.blocks[rho[x] := RenameBlock(rho, block)]), rho)
  {
    ImageKeysManaged(regions, a, c, rho);
  }

  lemma ImageSetPointer(regions: Regions, a: State, c: State, rho: map<Address, Address>, x: Address, i: nat,
                        p: Address)
    requires Image(regions, a, c, rho) && x in rho && Covers(regions, rho, p) && i < |a.blocks[x].pointers|
    ensures rho[x] in c.blocks && i < |c.blocks[rho[x]].pointers|
    ensures Image(regions, SetPointer(a, x, i, p), SetPointer(c, rho[x], i, Rename(rho, p)), rho)
  {
    ImageKeysManaged(regions, a, c, rho);
    var block := a.blocks[x].(pointers := a.blocks[x].pointers[i := p]);
    assert c.blocks[rho[x]] == RenameBlock(rho, a.blocks[x]);
    assert RenameAll(rho, block.pointers) == RenameAll(rho, a.blocks[x].pointers)[i := Rename(rho, p)];
    forall j | 0 <= j < |block.pointers| ensures Covers(regions, rho, block.pointers[j]) {
      if j != i { assert Covers(regions, rho, a.blocks[x].pointers[j]); }
    }
    ImageSetBlock(regions, a, c, rho, x, block);
  }

  lemma ImageSetData(regions: Regions, a: State, c: State, rho: map<Address, Address>, x: Address, i: nat,
                     value: seq<Byte>)
    requires Image(regions, a, c, rho) && x in rho && i + |value| <= |a.blocks[x].data|
    ensures rho[x] in c.blocks && i + |value| <= |c.blocks[rho[x]].data|
    ensures Image(regions, SetData(a, x, i, value), SetData(c, rho[x], i, value), rho)
  {
    ImageKeysManaged(regions, a, c, rho);
    ImageSetBlock(regions, a, c, rho, x, a.blocks[x].(data := Overwrite(a.blocks[x].data, i, value)));
  }

  lemma RenameAfterAllocation(regions: Regions, rho: map<Address, Address>, x: Address, y: Address,
                              pointers: seq<Address>)
    requires !regions.Foreign(x) && x !in rho && forall i :: 0 <= i < |pointers| ==> Covers(regions, rho, pointers[i])
    ensures RenameAll(rho[x := y], pointers) == RenameAll(rho, pointers)
    ensures forall i :: 0 <= i < |pointers| ==> Covers(regions, rho[x := y], pointers[i])
  {
  }

  lemma NewIsInjective(rho: map<Address, Address>, x: Address, y: Address)
    requires Injective(rho) && y !in rho.Values && x !in rho
    ensures Injective(rho[x := y]) && rho[x := y].Values == rho.Values + {y}
  {
    assert rho[x := y][x] == y;
    forall v | v in rho.Values
      ensures v in rho[x := y].Values
    {
      var z :| z in rho && rho[z] == v;
      assert rho[x := y][z] == v;
    }
    forall z | z in rho ensures rho[z] != y { assert rho[z] in rho.Values; }
  }

  lemma ImageAllocate(regions: Regions, a: State, c: State, rho: map<Address, Address>, x: Address, y: Address,
                      block: Block)
    requires Image(regions, a, c, rho) && x !in a.blocks && y !in c.blocks && !regions.Foreign(x) && !regions.Foreign(y)
    requires regions.Foreign(0) && forall i :: 0 <= i < |block.pointers| ==> block.pointers[i] == 0
    ensures Image(regions, a.(blocks := a.blocks[x := block]), c.(blocks := c.blocks[y := block]), rho[x := y])
  {
    var rho' := rho[x := y];
    NewIsInjective(rho, x, y);
    var before, after := a.blocks[x := block], c.blocks[y := block];
    forall z | z in rho'
      ensures after[rho'[z]] == RenameBlock(rho', before[z])
      ensures forall i :: 0 <= i < |before[z].pointers| ==> Covers(regions, rho', before[z].pointers[i])
    {
      if z == x {
        assert 0 !in rho';
        assert RenameAll(rho', block.pointers) == block.pointers;
      } else {
        assert rho[z] in rho.Values;
        RenameAfterAllocation(regions, rho, x, y, a.blocks[z].pointers);
      }
    }
    RootsAfterAllocation(regions, rho, x, y, a.roots);
  }

  lemma RootsAfterAllocation(regions: Regions, rho: map<Address, Address>, x: Address, y: Address,
                             roots: map<Root, Address>)
    requires !regions.Foreign(x) && x !in rho && forall k :: k in roots ==> Covers(regions, rho, roots[k])
    ensures RenameRoots(rho[x := y], roots) == RenameRoots(rho, roots)
    ensures forall k :: k in roots ==> Covers(regions, rho[x := y], roots[k])
  {
  }

  lemma ImagePush(regions: Regions, a: State, c: State, rho: map<Address, Address>, t: nat, slots: seq<Address>)
    requires Image(regions, a, c, rho) && t < |a.shape|
    requires forall i :: 0 <= i < |slots| ==> Covers(regions, rho, slots[i])
    ensures t < |c.shape| && Image(regions, PushSlots(a, t, slots), PushSlots(c, t, RenameAll(rho, slots)), rho)
  {
    hide Image;
    RootsCovered(regions, a, c, rho);
    var f := |a.shape[t]|;
    var u := PushSlots(a, t, slots);
    RenamePushed(rho, a.roots, t, f, slots);
    ImageNewRoots(regions, a, c, rho, u.roots, u.shape, u.counts);
  }

  lemma RenamePushed(rho: map<Address, Address>, roots: map<Root, Address>, t: nat, f: nat, slots: seq<Address>)
    ensures RenameRoots(rho, roots + FrameRoots(t, f, slots)) == RenameRoots(rho, roots) +
        FrameRoots(t, f, RenameAll(rho, slots))
  {
  }

  lemma ImagePop(regions: Regions, a: State, c: State, rho: map<Address, Address>, t: nat)
    requires Image(regions, a, c, rho) && t < |a.shape| && |a.shape[t]| > 0
    ensures t < |c.shape| && |c.shape[t]| > 0 && Image(regions, PopSlots(a, t), PopSlots(c, t), rho)
  {
    hide Image;
    RootsCovered(regions, a, c, rho);
    var u := PopSlots(a, t);
    assert PopSlots(c, t).roots == RenameRoots(rho, u.roots);
    ImageNewRoots(regions, a, c, rho, u.roots, u.shape, u.counts);
  }

  lemma HandleMoves(regions: Regions, a: State, c: State, rho: map<Address, Address>, p: Address)
    requires Image(regions, a, c, rho) && HandlesMatch(a) && Covers(regions, rho, p)
    ensures HandleFor(c, Rename(rho, p)) == HandleFor(a, p)
  {
    forall h
      ensures Handle(h) in a.roots && a.roots[Handle(h)] == p <==>
              Handle(h) in c.roots && c.roots[Handle(h)] == Rename(rho, p)
    {
      if Handle(h) in a.roots {
        RootMoves(regions, a, c, rho, Handle(h));
        RenameInjective(regions, a, c, rho, a.roots[Handle(h)], p);
      }
    }
  }

  lemma ImageAddHandle(regions: Regions, a: State, c: State, rho: map<Address, Address>, p: Address, h: nat)
    requires Image(regions, a, c, rho) && Covers(regions, rho, p)
    ensures Image(regions, AddHandle(a, p, h), AddHandle(c, Rename(rho, p), h), rho)
  {
    hide Image, RenameRoots;
    RootsCovered(regions, a, c, rho);
    RenameRootsUpdate(rho, a.roots, Handle(h), p);
    ImageNewRoots(regions, a, c, rho, a.roots[Handle(h) := p], a.shape, a.counts[h := 1]);
  }

  lemma ImageCounts(regions: Regions, a: State, c: State, rho: map<Address, Address>, h: nat)
    requires Image(regions, a, c, rho) && h in a.counts && a.counts[h] > 0
    ensures h in c.counts && c.counts[h] == a.counts[h]
    ensures Image(regions, CountUp(a, h), CountUp(c, h), rho)
    ensures Image(regions, CountDown(a, h), CountDown(c, h), rho)
  {
    hide Image, RenameRoots;
    RootsCovered(regions, a, c, rho);
    RenameRootsUpdate(rho, a.roots, Handle(h), 0);
    var up, down := CountUp(a, h), CountDown(a, h);
    ImageNewRoots(regions, a, c, rho, up.roots, up.shape, up.counts);
    ImageNewRoots(regions, a, c, rho, down.roots, down.shape, down.counts);
  }

  // ---- Each operation commutes with moving ----------------------------------------------------

  /** Both heaps show the program the same and stay related. */
  ghost predicate Matches(regions: Regions, rho: map<Address, Address>, x: (State, Seen), y: (State, Seen)) {
    x.1 == y.1 && Image(regions, x.0, y.0, rho)
  }

  lemma RefersMoves(regions: Regions, a: State, c: State, rho: map<Address, Address>, obj: Root)
    requires Image(regions, a, c, rho)
    ensures Refers(a, obj) <==> Refers(c, obj)
    ensures Refers(a, obj) ==>
      && a.roots[obj] in rho && c.roots[obj] == rho[a.roots[obj]]
      && c.blocks[c.roots[obj]] == RenameBlock(rho, a.blocks[a.roots[obj]])
  {
    SameRoots(regions, a, c, rho);
    if obj in a.roots {
      RootMoves(regions, a, c, rho, obj);
      RenameInjective(regions, a, c, rho, a.roots[obj], a.roots[obj]);
    }
  }

  lemma BlockCovered(regions: Regions, a: State, c: State, rho: map<Address, Address>, obj: Root)
    requires Image(regions, a, c, rho)
    ensures Refers(a, obj) ==> forall i :: 0 <= i < |a.blocks[a.roots[obj]].pointers| ==>
        Covers(regions, rho, a.blocks[a.roots[obj]].pointers[i])
  {
    RefersMoves(regions, a, c, rho, obj);
  }

  lemma RootOpMatches(regions: Regions, a: State, c: State, rho: map<Address, Address>, op: Op)
    requires Image(regions, a, c, rho) && (op.Move? || op.Clear? || op.Same?) && regions.Foreign(0)
    ensures Matches(regions, rho, Apply(a, op), Apply(c, op))
  {
    SameRoots(regions, a, c, rho);
    RootsCovered(regions, a, c, rho);
    assert 0 !in rho;
    match op
    case Move(dst, src) => if src in a.roots { ImageSetRoot(regions, a, c, rho, dst, a.roots[src]); }
    case Clear(dst) => ImageSetRoot(regions, a, c, rho, dst, 0);
    case Same(x, y) =>
      if x in a.roots && y in a.roots { RenameInjective(regions, a, c, rho, a.roots[x], a.roots[y]); }
  }

  lemma PointerOpMatches(regions: Regions, a: State, c: State, rho: map<Address, Address>, op: Op)
    requires Image(regions, a, c, rho) && (op.GetPointer? || op.PutPointer?)
    ensures Matches(regions, rho, Apply(a, op), Apply(c, op))
  {
    SameRoots(regions, a, c, rho);
    RootsCovered(regions, a, c, rho);
    RefersMoves(regions, a, c, rho, op.obj);
    BlockCovered(regions, a, c, rho, op.obj);
    hide Image, SetRoot, SetPointer, RenameRoots;
    if Refers(a, op.obj) && op.index < |a.blocks[a.roots[op.obj]].pointers| {
      var x := a.roots[op.obj];
      match op
      case GetPointer(dst, obj, i) =>
        assert Covers(regions, rho, a.blocks[x].pointers[i]);
        ImageSetRoot(regions, a, c, rho, dst, a.blocks[x].pointers[i]);
      case PutPointer(obj, i, src) =>
        if src in a.roots { ImageSetPointer(regions, a, c, rho, x, i, a.roots[src]); }
    }
  }

  lemma DataOpMatches(regions: Regions, a: State, c: State, rho: map<Address, Address>, op: Op)
    requires Image(regions, a, c, rho) && (op.GetData? || op.PutData? || op.Inspect?)
    ensures Matches(regions, rho, Apply(a, op), Apply(c, op))
  {
    RefersMoves(regions, a, c, rho, op.obj);
    if op.PutData? && Refers(a, op.obj) && op.index + |op.value| <= |a.blocks[a.roots[op.obj]].data| {
      ImageSetData(regions, a, c, rho, a.roots[op.obj], op.index, op.value);
    }
  }

  lemma FrameOpMatches(regions: Regions, a: State, c: State, rho: map<Address, Address>, op: Op)
    requires Image(regions, a, c, rho) && (op.Push? || op.Pop?) && regions.Foreign(0)
    ensures Matches(regions, rho, Apply(a, op), Apply(c, op))
  {
    SameRoots(regions, a, c, rho);
    RootsCovered(regions, a, c, rho);
    assert 0 !in rho;
    match op
    case Push(t, arguments) =>
      assert ArgumentsExist(a, arguments) <==> ArgumentsExist(c, arguments);
      if t < |a.shape| && ArgumentsExist(a, arguments) {
        assert SlotsOf(c, arguments) == RenameAll(rho, SlotsOf(a, arguments));
        ImagePush(regions, a, c, rho, t, SlotsOf(a, arguments));
      }
    case Pop(t) => if t < |a.shape| && |a.shape[t]| > 0 { ImagePop(regions, a, c, rho, t); }
  }

  lemma HandleOpMatches(regions: Regions, a: State, c: State, rho: map<Address, Address>, op: Op)
    requires Image(regions, a, c, rho) && HandlesMatch(a) && (op.Acquire? || op.Release?)
    ensures Matches(regions, rho, Apply(a, op), Apply(c, op))
  {
    hide Image, HandleFor, CountUp, CountDown, AddHandle;
    RootsCovered(regions, a, c, rho);
    match op
    case Acquire(src, unused) =>
      if src in a.roots {
        HandleMoves(regions, a, c, rho, a.roots[src]);
        ImageAddHandle(regions, a, c, rho, a.roots[src], unused);
        var h := HandleFor(a, a.roots[src]);
        if h.Some? && h.value in a.counts { ImageCounts(regions, a, c, rho, h.value); }
      }
    case Release(h) => if h in a.counts { ImageCounts(regions, a, c, rho, h); }
  }

  lemma ApplyMatches(regions: Regions, a: State, c: State, rho: map<Address, Address>, op: Op)
    requires Image(regions, a, c, rho) && HandlesMatch(a) && regions.Foreign(0) && !op.New?
    ensures Matches(regions, rho, Apply(a, op), Apply(c, op))
  {
    hide *;
    if op.Move? || op.Clear? || op.Same? { RootOpMatches(regions, a, c, rho, op); }
    else if op.GetPointer? || op.PutPointer? { PointerOpMatches(regions, a, c, rho, op); }
    else if op.GetData? || op.PutData? || op.Inspect? { DataOpMatches(regions, a, c, rho, op); }
    else if op.Push? || op.Pop? { FrameOpMatches(regions, a, c, rho, op); }
    else { HandleOpMatches(regions, a, c, rho, op); }
  }

  lemma ApplyKeepsHandles(s: State, op: Op)
    requires HandlesMatch(s) && !op.New?
    ensures HandlesMatch(Apply(s, op).0)
  {
    if op.Push? || op.Pop? {
      FrameOpKeepsHandles(s, op);
    } else if op.Acquire? || op.Release? {
      HandleOpKeepsHandles(s, op);
    } else {
      hide HandlesMatch;
      var t := Apply(s, op).0;
      forall h ensures Handle(h) in t.roots <==> Handle(h) in s.roots {}
      SameHandles(s, t);
    }
  }

  lemma SameHandles(s: State, t: State)
    requires HandlesMatch(s) && t.counts == s.counts
    requires forall h :: Handle(h) in t.roots <==> Handle(h) in s.roots
    requires forall h :: Handle(h) in s.roots ==> t.roots[Handle(h)] == s.roots[Handle(h)]
    ensures HandlesMatch(t)
  {
  }

  lemma FrameOpKeepsHandles(s: State, op: Op)
    requires HandlesMatch(s) && (op.Push? || op.Pop?)
    ensures HandlesMatch(Apply(s, op).0)
  {
    hide HandlesMatch;
    var t := Apply(s, op).0;
    if op.Push? && op.thread < |s.shape| && ArgumentsExist(s, op.arguments) {
      forall h ensures Handle(h) !in FrameRoots(op.thread, |s.shape[op.thread]|, SlotsOf(s, op.arguments)) {}
    }
    SameHandles(s, t);
  }

  lemma HandleOpKeepsHandles(s: State, op: Op)
    requires HandlesMatch(s) && (op.Acquire? || op.Release?)
    ensures HandlesMatch(Apply(s, op).0)
  {
  }

  lemma ApplyKeepsNumbers(regions: Regions, s: State, op: Op)
    requires Numbered(regions, s) && !op.New?
    ensures Apply(s, op).0.blocks.Keys == s.blocks.Keys && Numbered(regions, Apply(s, op).0)
  {
    hide Numbered;
    ApplyKeepsKeys(s, op);
    NumberedByKeys(regions, s, Apply(s, op).0);
  }

  lemma ApplyKeepsKeys(s: State, op: Op)
    requires !op.New?
    ensures Apply(s, op).0.blocks.Keys == s.blocks.Keys
  {
    hide HandleFor, SlotsOf, FrameRoots;
    assert op.PutPointer? || op.PutData? || Apply(s, op).0.blocks == s.blocks;
  }

  lemma NumberedByKeys(regions: Regions, s: State, t: State)
    requires Numbered(regions, s) && t.blocks.Keys == s.blocks.Keys
    ensures Numbered(regions, t)
  {
    assert |t.blocks| == |t.blocks.Keys| && |s.blocks| == |s.blocks.Keys|;
  }

  // ---- Allocation -----------------------------------------------------------------------------

  /** A collection is a move, so it changes nothing the simple heap could show. */
  lemma MayCollectMatches(regions: Regions, a: State, c: State, c': State, rho: map<Address, Address>)
    returns (rho': map<Address, Address>)
    requires Image(regions, a, c, rho) && MayCollect(regions, c, c')
    ensures Image(regions, a, c', rho')
  {
    if c' == c {
      rho' := rho;
    } else {
      hide Image;
      var phi :| Collects(regions, c, c', phi);
      ImageCompose(regions, a, c, c', rho, phi);
      rho' := Compose(rho, phi);
    }
  }

  lemma NextNumberUnused(regions: Regions, s: State)
    requires Numbered(regions, s)
    ensures regions.top + |s.blocks| !in s.blocks && !regions.Foreign(regions.top + |s.blocks|)
  {
  }

  lemma NumberedAfter(regions: Regions, s: State, block: Block)
    requires Numbered(regions, s)
    ensures Numbered(regions, s.(blocks := s.blocks[regions.top + |s.blocks| := block]))
  {
    NextNumberUnused(regions, s);
  }

  lemma PlacedMatches(regions: Regions, classes: ClassTable, a: State, c: State, rho: map<Address, Address>,
                      dst: Root, header: Header, u: State, y: Address)
    returns (a': State, rho': map<Address, Address>)
    requires Image(regions, a, c, rho) && HandlesMatch(a) && Numbered(regions, a) && regions.Foreign(0) && !dst.Handle?
    requires Allocatable(classes, header) && Placed(regions, classes, c, u, header, Some(y))
    ensures a' == SetRoot(a.(blocks := a.blocks[regions.top + |a.blocks| := Zeroed(classes, header)]), dst,
        regions.top + |a.blocks|)
    ensures Image(regions, a', SetRoot(u, dst, y), rho')
    ensures HandlesMatch(a') && Numbered(regions, a')
  {
    hide Image, Zeroed, Numbered, Regions.Foreign, HandlesMatch;
    var x, block := regions.top + |a.blocks|, Zeroed(classes, header);
    NextNumberUnused(regions, a);
    ImageAllocate(regions, a, c, rho, x, y, block);
    rho' := rho[x := y];
    var b := a.(blocks := a.blocks[x := block]);
    NumberedAfter(regions, a, block);
    ImageSetRoot(regions, b, u, rho', dst, x);
    a' := SetRoot(b, dst, x);
    NumberedByBlocks(regions, b, a');
    SameHandles(a, a');
  }

  lemma NumberedByBlocks(regions: Regions, s: State, t: State)
    requires Numbered(regions, s) && t.blocks == s.blocks
    ensures Numbered(regions, t)
  {
  }

  lemma NewMatches(regions: Regions, classes: ClassTable, a: State, c: State, rho: map<Address, Address>, op: Op,
                   c': State, seen: Seen)
    returns (a': State, rho': map<Address, Address>)
    requires Image(regions, a, c, rho) && HandlesMatch(a) && Numbered(regions, a) && regions.Foreign(0) && op.New?
    requires Step(regions, classes, c, op, c', seen)
    ensures SimpleStep(regions, classes, a, op, a', seen) && Image(regions, a', c', rho')
    ensures HandlesMatch(a') && Numbered(regions, a')
  {
    hide Image, MayCollect, Collected, Zeroed, Numbered, Apply, Regions.Foreign, HandlesMatch, SetRoot;
    SameRoots(regions, a, c, rho);
    if Writable(c, op.dst) && Allocatable(classes, op.header) {
      var u, r :| Allocates(regions, classes, c, u, op.header, r) && GoesInto(u, op.dst, r, c', seen);
      var mid :| MayCollect(regions, c, mid) && Placed(regions, classes, mid, u, op.header, r);
      rho' := MayCollectMatches(regions, a, c, mid, rho);
      if r.None? {
        a' := a;
      } else {
        a', rho' := PlacedMatches(regions, classes, a, mid, rho', op.dst, op.header, u, r.value);
      }
    } else {
      a', rho' := a, rho;
    }
  }

  // ---- Runs -----------------------------------------------------------------------------------

  lemma StepRefines(regions: Regions, classes: ClassTable, a: State, c: State, rho: map<Address, Address>, op: Op,
                    c': State, seen: Seen)
    returns (a': State, rho': map<Address, Address>)
    requires Image(regions, a, c, rho) && HandlesMatch(a) && Numbered(regions, a) && regions.Foreign(0)
    requires Step(regions, classes, c, op, c', seen)
    ensures SimpleStep(regions, classes, a, op, a', seen) && Image(regions, a', c', rho')
    ensures HandlesMatch(a') && Numbered(regions, a')
  {
    hide Image, Apply, HandlesMatch, Numbered;
    if op.New? {
      a', rho' := NewMatches(regions, classes, a, c, rho, op, c', seen);
    } else {
      ApplyMatches(regions, a, c, rho, op);
      ApplyKeepsHandles(a, op);
      ApplyKeepsNumbers(regions, a, op);
      a', rho' := Apply(a, op).0, rho;
    }
  }

  /** Whatever collections a run contains, a heap that never moves or reclaims anything can perform
      the same operations and show the program the same results at every step. */
  lemma {:induction false} RunRefines(regions: Regions, classes: ClassTable, states: seq<State>, ops: seq<Op>,
                                      seen: seq<Seen>,
                                      a: State, rho: map<Address, Address>)
    returns (simple: seq<State>, last: map<Address, Address>)
    requires Run(regions, classes, states, ops, seen) && regions.Foreign(0)
    requires Image(regions, a, states[0], rho) && HandlesMatch(a) && Numbered(regions, a)
    ensures SimpleRun(regions, classes, simple, ops, seen) && simple[0] == a
    ensures Image(regions, simple[|ops|], states[|ops|], last)
    ensures HandlesMatch(simple[|ops|]) && Numbered(regions, simple[|ops|])
  {
    hide Image, HandlesMatch, Numbered, Step, SimpleStep;
    if ops == [] {
      simple, last := [a], rho;
    } else {
      var n := |ops| - 1;
      simple, last := RunRefines(regions, classes, states[..n + 1], ops[..n], seen[..n], a, rho);
      assert Step(regions, classes, states[n], ops[n], states[n + 1], seen[n]);
      var next;
      next, last := StepRefines(regions, classes, simple[n], states[n], last, ops[n], states[n + 1], seen[n]);
      forall i | 0 <= i < n ensures SimpleStep(regions, classes, simple[i], ops[i], simple[i + 1], seen[i]) {
        assert SimpleStep(regions, classes, simple[i], ops[..n][i], simple[i + 1], seen[..n][i]);
      }
      simple := simple + [next];
    }
  }

  /** An empty heap starts out related to itself. */
  lemma EmptyHeapRelated(regions: Regions, s: State)
    requires s.blocks == map[] && forall k :: k in s.roots ==> regions.Foreign(s.roots[k])
    ensures Image(regions, s, s, map[]) && Numbered(regions, s)
  {
  }

  /** In the simple heap an object stays where it was allocated, with the header it was given. */
  lemma {:induction false} SimpleHeapKeepsObjects(regions: Regions, classes: ClassTable, states: seq<State>,
                                                  ops: seq<Op>,
                                                  seen: seq<Seen>, x: Address)
    requires SimpleRun(regions, classes, states, ops, seen) && Numbered(regions, states[0]) && x in states[0].blocks
    ensures x in states[|ops|].blocks && states[|ops|].blocks[x].header == states[0].blocks[x].header
    ensures Numbered(regions, states[|ops|])
  {
    hide SimpleStep, Numbered;
    if ops != [] {
      var n := |ops| - 1;
      forall i | 0 <= i < n
        ensures SimpleStep(regions, classes, states[..n + 1][i], ops[..n][i], states[..n + 1][i + 1], seen[..n][i])
      {
        assert SimpleStep(regions, classes, states[i], ops[i], states[i + 1], seen[i]);
      }
      SimpleHeapKeepsObjects(regions, classes, states[..n + 1], ops[..n], seen[..n], x);
      assert SimpleStep(regions, classes, states[n], ops[n], states[n + 1], seen[n]);
      SimpleStepKeepsObject(regions, classes, states[n], ops[n], states[n + 1], seen[n], x);
    }
  }

  lemma SimpleStepKeepsObject(regions: Regions, classes: ClassTable, s: State, op: Op, t: State, seen: Seen, x: Address)
    requires SimpleStep(regions, classes, s, op, t, seen) && Numbered(regions, s) && x in s.blocks
    ensures x in t.blocks && t.blocks[x].header == s.blocks[x].header && Numbered(regions, t)
  {
    if op.New? {
      NextNumberUnused(regions, s);
      if Allocatable(classes, op.header) { NumberedAfter(regions, s, Zeroed(classes, op.header)); }
    } else {
      ApplyKeepsNumbers(regions, s, op);
    }
  }

  // ---- Native handles over runs ---------------------------------------------------------------

  function CountOf(s: State, h: nat): nat { if h in s.counts then s.counts[h] else 0 }

  /** Acquisitions of a handle less its releases. */
  function Outstanding(ops: seq<Op>, seen: seq<Seen>, h: nat): int
    requires |ops| == |seen|
  {
    if ops == [] then 0
    else
      var n := |ops| - 1;
      Outstanding(ops[..n], seen[..n], h)
      + (if ops[n].Acquire? && seen[n] == Id(h) then 1
         else if ops[n] == Release(h) && seen[n] == Done then -1 else 0)
  }

  lemma StepCounts(regions: Regions, classes: ClassTable, s: State, op: Op, t: State, seen: Seen, h: nat)
    requires Step(regions, classes, s, op, t, seen)
    ensures CountOf(t, h) == CountOf(s, h) + Outstanding([op], [seen], h)
  {
    assert [op][..0] == [] && [seen][..0] == [];
    if op.New? {
      if Writable(s, op.dst) && Allocatable(classes, op.header) {
        hide Zeroed;
        var u, r :| Allocates(regions, classes, s, u, op.header, r) && GoesInto(u, op.dst, r, t, seen);
        var mid :| MayCollect(regions, s, mid) && Placed(regions, classes, mid, u, op.header, r);
        CollectionKeepsCounts(regions, s, mid);
      }
    }
  }

  lemma CollectionKeepsCounts(regions: Regions, s: State, t: State)
    requires MayCollect(regions, s, t)
    ensures t.counts == s.counts
  {
    if t != s { var phi :| Collects(regions, s, t, phi); }
  }

  /** Over every run, collections included, a handle's count is what was outstanding before plus
      acquisitions minus releases. */
  lemma {:induction false} CountsAreOutstanding(regions: Regions, classes: ClassTable, states: seq<State>,
                                                ops: seq<Op>, seen: seq<Seen>, h: nat)
    requires Run(regions, classes, states, ops, seen)
    ensures CountOf(states[|ops|], h) == CountOf(states[0], h) + Outstanding(ops, seen, h)
  {
    hide Step, CountOf;
    if ops != [] {
      var n := |ops| - 1;
      forall i | 0 <= i < n
        ensures Step(regions, classes, states[..n + 1][i], ops[..n][i], states[..n + 1][i + 1], seen[..n][i])
      {
        assert Step(regions, classes, states[i], ops[i], states[i + 1], seen[i]);
      }
      CountsAreOutstanding(regions, classes, states[..n + 1], ops[..n], seen[..n], h);
      assert Step(regions, classes, states[n], ops[n], states[n + 1], seen[n]);
      StepCounts(regions, classes, states[n], ops[n], states[n + 1], seen[n], h);
      assert [ops[n]][..0] == [] && [seen[n]][..0] == [];
    }
  }
}
