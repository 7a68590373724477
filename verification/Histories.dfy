/** What a program may expect of the heap, said without heaps or addresses: what a slot, a field or a byte
    holds is what was last put there, and every operation answers accordingly. Runs of the virtual machine,
    with all their collections, show a program exactly that. */
module Histories {
  import opened Prelude
  import opened Objects
  import opened Values
  import opened Layout
  import opened Machine
  import opened Refinement

  // ---- What was last put where ----------------------------------------------------------------

  /** A reference as the program knows it: an address from before, null among them, or the object that a
      step of the program made. */
  datatype Ref = Outside(address: Address) | Made(step: nat)

  /** How many references and how many bytes of data an object of a header has. */
  function ReferenceCount(classes: ClassTable, header: Header): nat {
    match header
    case Instance(c) => if c in classes then classes[c].doubleOffset / 8 else 0
    case Array(element, length) => if element == OBJECT then length else 0
    case Forwarded(_) => 0
  }

  function DataBytes(classes: ClassTable, header: Header): int {
    match header
    case Instance(c) => if c in classes then classes[c].totalSize - classes[c].doubleOffset else 0
    case Array(element, length) => if element == OBJECT then 0 else ElementOffset(element, length)
    case Forwarded(_) => 0
  }

  /** A program and what it was shown, from a start without objects. */
  datatype History = History(start: State, ops: seq<Op>, seen: seq<Seen>) {
    ghost predicate Valid() { |ops| == |seen| && start.blocks == map[] }

    /** Step i did what it was asked to. */
    predicate Took(i: nat)
      requires i < |ops| == |seen|
    {
      !seen[i].Rejected? && !seen[i].OutOfMemory?
    }

    predicate Makes(i: nat)
      requires |ops| == |seen|
    {
      i < |ops| && ops[i].New? && Took(i)
    }

    /** Frames of a thread after n steps. */
    function Depth(n: nat, t: nat): int
      requires n <= |ops| == |seen| && t < |start.shape|
    {
      if n == 0 then |start.shape[t]|
      else
        Depth(n - 1, t) +
        if !Took(n - 1) then 0
        else if ops[n - 1].Push? && ops[n - 1].thread == t then 1
        else if ops[n - 1].Pop? && ops[n - 1].thread == t then -1 else 0
    }

    /** Slots of frame f: those of the last push that made such a frame. */
    function Slots(n: nat, t: nat, f: nat): nat
      requires n <= |ops| == |seen| && t < |start.shape|
    {
      if n == 0 then if f < |start.shape[t]| then start.shape[t][f] else 0
      else if Took(n - 1) && ops[n - 1].Push? && ops[n - 1].thread == t && Depth(n - 1, t) == f
        then |ops[n - 1].arguments|
      else Slots(n - 1, t, f)
    }

    /** Acquisitions of a handle less its releases. */
    function CountAt(n: nat, handle: nat): int
      requires n <= |ops| == |seen|
    {
      if n == 0 then if handle in start.counts then start.counts[handle] else 0
      else
        CountAt(n - 1, handle) +
        if ops[n - 1].Acquire? && seen[n - 1] == Id(handle) then 1
        else if ops[n - 1] == Release(handle) && Took(n - 1) then -1 else 0
    }

    predicate Exists(n: nat, k: Root)
      requires n <= |ops| == |seen|
    {
      match k
      case Static(_, _) => k in start.roots
      case Local(t, f, i) => t < |start.shape| && f < Depth(n, t) && i < Slots(n, t, f)
      case Handle(h) => CountAt(n, h) > 0
    }

    /** What root k holds after n steps. */
    function Held(n: nat, k: Root): Ref
      requires n <= |ops| == |seen|
    {
      if n == 0 then if k in start.roots then Outside(start.roots[k]) else Outside(0)
      else if !Took(n - 1) then Held(n - 1, k)
      else
        match ops[n - 1]
        case New(dst, _) => if k == dst then Made(n - 1) else Held(n - 1, k)
        case Move(dst, src) => if k == dst then Held(n - 1, src) else Held(n - 1, k)
        case Clear(dst) => if k == dst then Outside(0) else Held(n - 1, k)
        case GetPointer(dst, obj, i) =>
          if k == dst && Held(n - 1, obj).Made? then FieldOf(n - 1, Held(n - 1, obj).step, i) else Held(n - 1, k)
        case Push(t, arguments) =>
          if !(k.Local? && t < |start.shape| && k.thread == t && k.frame == Depth(n - 1, t)) then Held(n - 1, k)
          else if k.slot < |arguments| && arguments[k.slot].Some? then Held(n - 1, arguments[k.slot].value)
          else Outside(0)
        case Acquire(src, _) =>
          if k.Handle? && seen[n - 1] == Id(k.handle) then Held(n - 1, src) else Held(n - 1, k)
        case _ => Held(n - 1, k)
    }

    /** What reference i of the object made by a step holds after n steps: null until something is put there. */
    function FieldOf(n: nat, step: nat, i: nat): Ref
      requires n <= |ops| == |seen|
    {
      if n == 0 then Outside(0)
      else
        match ops[n - 1]
        case PutPointer(obj, index, src) =>
          if Took(n - 1) && Held(n - 1, obj) == Made(step) && index == i then Held(n - 1, src)
          else FieldOf(n - 1, step, i)
        case _ => FieldOf(n - 1, step, i)
    }

    /** And byte b of its data: zero until then. */
    function ByteOf(n: nat, step: nat, b: nat): Byte
      requires n <= |ops| == |seen|
    {
      if n == 0 then 0
      else
        match ops[n - 1]
        case PutData(obj, index, value) =>
          if Took(n - 1) && Held(n - 1, obj) == Made(step) && index <= b < index + |value| then value[b - index]
          else ByteOf(n - 1, step, b)
        case _ => ByteOf(n - 1, step, b)
    }

    function DataOf(n: nat, step: nat, i: nat, size: nat): (bytes: seq<Byte>)
      requires n <= |ops| == |seen|
      ensures |bytes| == size && forall b :: 0 <= b < size ==> bytes[b] == ByteOf(n, step, i + b)
      decreases n, size
    {
      if size == 0 then [] else [ByteOf(n, step, i)] + DataOf(n, step, i + 1, size - 1)
    }

    // ---- What the program is shown ------------------------------------------------------------

    predicate Writes(n: nat, k: Root)
      requires n <= |ops| == |seen|
    {
      Exists(n, k) && !k.Handle?
    }

    predicate HoldsObject(n: nat, k: Root)
      requires n <= |ops| == |seen|
    {
      Exists(n, k) && Held(n, k).Made? && Makes(Held(n, k).step)
    }

    function HeaderAt(n: nat, k: Root): Header
      requires n <= |ops| == |seen| && HoldsObject(n, k)
    {
      ops[Held(n, k).step].header
    }

    /** Step n answered as what was put before makes it. */
    ghost predicate Answers(classes: ClassTable, n: nat)
      requires n < |ops| == |seen|
    {
      var o := seen[n];
      match ops[n]
      case New(dst, header) =>
        if Writes(n, dst) && Allocatable(classes, header) then o == Done || o == OutOfMemory else o == Rejected
      case Move(dst, src) => o == if Writes(n, dst) && Exists(n, src) then Done else Rejected
      case Clear(dst) => o == if Writes(n, dst) then Done else Rejected
      case GetPointer(dst, obj, i) =>
        o == if Writes(n, dst) && HoldsObject(n, obj) && i < ReferenceCount(classes, HeaderAt(n, obj)) then Done
             else Rejected
      case PutPointer(obj, i, src) =>
        o == if HoldsObject(n, obj) && i < ReferenceCount(classes, HeaderAt(n, obj)) && Exists(n, src) then Done
             else Rejected
      case GetData(obj, i, size) =>
        o == if HoldsObject(n, obj) && i + size <= DataBytes(classes, HeaderAt(n, obj))
             then Datum(DataOf(n, Held(n, obj).step, i, size)) else Rejected
      case PutData(obj, i, value) =>
        o == if HoldsObject(n, obj) && i + |value| <= DataBytes(classes, HeaderAt(n, obj)) then Done else Rejected
      case Same(x, y) => o == if Exists(n, x) && Exists(n, y) then Flag(Held(n, x) == Held(n, y)) else Rejected
      case Inspect(obj) => o == if HoldsObject(n, obj) then Kind(HeaderAt(n, obj)) else Rejected
      case Push(t, arguments) =>
        o == if t < |start.shape| && ArgumentsHeld(n, arguments) then Done else Rejected
      case Pop(t) => o == if t < |start.shape| && Depth(n, t) > 0 then Done else Rejected
      case Acquire(src, unused) =>
        if !Exists(n, src) || CountAt(n, unused) > 0 then o == Rejected
        else
          && o.Id? && (o.handle != unused ==> HandleOf(n, o.handle, Held(n, src)))
          && ((exists h :: HandleOf(n, h, Held(n, src))) ==> o.handle != unused)
      case Release(h) => o == if CountAt(n, h) > 0 then Done else Rejected
    }

    predicate HandleOf(n: nat, h: nat, ref: Ref)
      requires n <= |ops| == |seen|
    {
      CountAt(n, h) > 0 && Held(n, Handle(h)) == ref
    }

    predicate ArgumentsHeld(n: nat, arguments: seq<Option<Root>>)
      requires n <= |ops| == |seen|
    {
      forall i :: 0 <= i < |arguments| && arguments[i].Some? ==> Exists(n, arguments[i].value)
    }

    /** How many objects the first n steps made. */
    function Objects(n: nat): nat
      requires n <= |ops| == |seen|
    {
      if n == 0 then 0 else Objects(n - 1) + if Makes(n - 1) then 1 else 0
    }

    /** Where the heap that never moves anything keeps it. */
    function AddressOf(top: Address, ref: Ref): Address
      requires |ops| == |seen|
    {
      match ref
      case Outside(p) => p
      case Made(step) => if step <= |ops| then top + Objects(step) else 0
    }

    /** An address below `top` that is no object's, or an object made before. */
    predicate Known(regions: Regions, n: nat, ref: Ref)
      requires n <= |ops| == |seen|
    {
      match ref
      case Outside(p) => regions.Foreign(p)
      case Made(step) => step < n && Makes(step)
    }
  }

  // ---- A state that holds what was last put there ---------------------------------------------

  ghost predicate RootsAgree(regions: Regions, h: History, n: nat, s: State)
    requires n <= |h.ops| == |h.seen|
  {
    forall k :: (k in s.roots <==> h.Exists(n, k)) &&
      (k in s.roots ==>
         h.Known(regions, n, h.Held(n, k)) && s.roots[k] == h.AddressOf(regions.top, h.Held(n, k)))
  }

  ghost predicate ShapesAgree(h: History, n: nat, s: State)
    requires n <= |h.ops| == |h.seen|
  {
    && |s.shape| == |h.start.shape|
    && (forall t :: 0 <= t < |s.shape| ==> |s.shape[t]| == h.Depth(n, t))
    && forall t, f :: 0 <= t < |s.shape| && 0 <= f < |s.shape[t]| ==> s.shape[t][f] == h.Slots(n, t, f)
  }

  ghost predicate CountsAgree(h: History, n: nat, s: State)
    requires n <= |h.ops| == |h.seen|
  {
    forall g :: h.CountAt(n, g) >= 0 && (g in s.counts <==> h.CountAt(n, g) > 0) &&
      (g in s.counts ==> s.counts[g] == h.CountAt(n, g))
  }

  ghost predicate BlockAgrees(regions: Regions, classes: ClassTable, h: History, n: nat, step: nat, block: Block)
    requires n <= |h.ops| == |h.seen| && h.Makes(step)
  {
    && block.header == h.ops[step].header
    && |block.pointers| == ReferenceCount(classes, block.header) && |block.data| == DataBytes(classes, block.header)
    && (forall i :: 0 <= i < |block.pointers| ==>
          && h.Known(regions, n, h.FieldOf(n, step, i))
          && block.pointers[i] == h.AddressOf(regions.top, h.FieldOf(n, step, i)))
    && (forall b :: 0 <= b < |block.data| ==> block.data[b] == h.ByteOf(n, step, b))
  }

  ghost predicate BlocksAgree(regions: Regions, classes: ClassTable, h: History, n: nat, s: State)
    requires n <= |h.ops| == |h.seen|
  {
    && Numbered(regions, s) && |s.blocks| == h.Objects(n)
    && forall step: nat :: step < n && h.Makes(step) ==>
         && h.AddressOf(regions.top, Made(step)) in s.blocks
         && BlockAgrees(regions, classes, h, n, step, s.blocks[h.AddressOf(regions.top, Made(step))])
  }

  ghost predicate Agrees(regions: Regions, classes: ClassTable, h: History, n: nat, s: State)
    requires n <= |h.ops| == |h.seen|
  {
    && RootsAgree(regions, h, n, s) && ShapesAgree(h, n, s) && CountsAgree(h, n, s)
    && BlocksAgree(regions, classes, h, n, s) && HandlesMatch(s)
  }

  // ---- Places ---------------------------------------------------------------------------------

  lemma {:induction false} ObjectsGrow(h: History, m: nat, n: nat)
    requires m <= n <= |h.ops| == |h.seen|
    ensures h.Objects(m) <= h.Objects(n)
    ensures m < n && h.Makes(m) ==> h.Objects(m) < h.Objects(n)
    decreases n
  {
    if m < n { ObjectsGrow(h, m, n - 1); }
  }

  /** References are the same exactly if their places are. */
  lemma PlacesDiffer(regions: Regions, h: History, n: nat, x: Ref, y: Ref)
    requires n <= |h.ops| == |h.seen| && h.Known(regions, n, x) && h.Known(regions, n, y)
    ensures h.AddressOf(regions.top, x) == h.AddressOf(regions.top, y) <==> x == y
  {
    if x.Made? && y.Made? && x.step < y.step { ObjectsGrow(h, x.step, y.step); }
    if x.Made? && y.Made? && y.step < x.step { ObjectsGrow(h, y.step, x.step); }
  }

  /** A root refers to an object exactly if an object was last put there. */
  lemma RefersToMade(regions: Regions, classes: ClassTable, h: History, n: nat, s: State, k: Root)
    requires n <= |h.ops| == |h.seen| && Agrees(regions, classes, h, n, s)
    ensures Refers(s, k) <==> h.HoldsObject(n, k)
    ensures Refers(s, k) ==>
              && BlockAgrees(regions, classes, h, n, h.Held(n, k).step, s.blocks[s.roots[k]])
              && s.blocks[s.roots[k]].header == h.HeaderAt(n, k)
  {
    hide HandlesMatch, ShapesAgree, CountsAgree;
    if k in s.roots {
      var ref := h.Held(n, k);
      assert h.Known(regions, n, ref) && s.roots[k] == h.AddressOf(regions.top, ref);
      if ref.Made? { ObjectsGrow(h, ref.step, n); }
    }
  }

  // ---- What a step leaves alone ---------------------------------------------------------------

  /** Step n did not change which frames there are ... */
  predicate KeepsFrames(h: History, n: nat)
    requires n < |h.ops| == |h.seen|
  {
    !h.Took(n) || !(h.ops[n].Push? || h.ops[n].Pop?)
  }

  /** ... nor any count ... */
  predicate KeepsCounts(h: History, n: nat)
    requires n < |h.ops| == |h.seen|
  {
    !h.Took(n) || !(h.ops[n].Acquire? || h.ops[n].Release?)
  }

  /** ... nor what any object holds. */
  predicate KeepsObjects(h: History, n: nat)
    requires n < |h.ops| == |h.seen|
  {
    !h.Took(n) || !(h.ops[n].PutPointer? || h.ops[n].PutData? || h.ops[n].New?)
  }

  lemma FramesKept(h: History, n: nat, s: State, t: State)
    requires n < |h.ops| == |h.seen| && KeepsFrames(h, n) && ShapesAgree(h, n, s) && t.shape == s.shape
    ensures ShapesAgree(h, n + 1, t)
    ensures forall u, f :: 0 <= u < |h.start.shape| && 0 <= f ==>
              h.Depth(n + 1, u) == h.Depth(n, u) && h.Slots(n + 1, u, f) == h.Slots(n, u, f)
  {
    var m := n + 1;
    forall u | 0 <= u < |h.start.shape| ensures h.Depth(m, u) == h.Depth(n, u) {}
    forall u, f | 0 <= u < |h.start.shape| && 0 <= f ensures h.Slots(m, u, f) == h.Slots(n, u, f) {}
    assert ShapesAgree(h, m, t);
  }

  lemma CountsKept(h: History, n: nat, s: State, t: State)
    requires n < |h.ops| == |h.seen| && KeepsCounts(h, n) && CountsAgree(h, n, s) && t.counts == s.counts
    ensures CountsAgree(h, n + 1, t) && forall g :: 0 <= g ==> h.CountAt(n + 1, g) == h.CountAt(n, g)
  {
    var m := n + 1;
    forall g: nat ensures h.CountAt(m, g) == h.CountAt(n, g) {}
    assert CountsAgree(h, m, t);
  }

  lemma KeysKept(h: History, n: nat, s: State, t: State, k: Root)
    requires n < |h.ops| == |h.seen| && KeepsFrames(h, n) && KeepsCounts(h, n)
    requires ShapesAgree(h, n, s) && CountsAgree(h, n, s) && t.shape == s.shape && t.counts == s.counts
    ensures h.Exists(n + 1, k) <==> h.Exists(n, k)
  {
    FramesKept(h, n, s, t);
    CountsKept(h, n, s, t);
  }

  lemma StaysKnown(regions: Regions, h: History, n: nat, ref: Ref)
    requires n < |h.ops| == |h.seen| && h.Known(regions, n, ref)
    ensures h.Known(regions, n + 1, ref)
  {
  }

  lemma ObjectsKept(regions: Regions, classes: ClassTable, h: History, n: nat, s: State, t: State)
    requires n < |h.ops| == |h.seen| && KeepsObjects(h, n) && BlocksAgree(regions, classes, h, n, s)
    requires t.blocks == s.blocks
    ensures BlocksAgree(regions, classes, h, n + 1, t)
  {
    hide Numbered;
    NumberedByBlocks(regions, s, t);
    forall step: nat | step < n + 1 && h.Makes(step)
      ensures
        && h.AddressOf(regions.top, Made(step)) in t.blocks
        && BlockAgrees(regions, classes, h, n + 1, step, t.blocks[h.AddressOf(regions.top, Made(step))])
    {
      BlockStays(regions, classes, h, n, step, t.blocks[h.AddressOf(regions.top, Made(step))]);
    }
  }

  /** An object that step n put nothing into. */
  lemma BlockStays(regions: Regions, classes: ClassTable, h: History, n: nat, step: nat, block: Block)
    requires n < |h.ops| == |h.seen| && h.Makes(step) && BlockAgrees(regions, classes, h, n, step, block)
    requires h.Took(n) && (h.ops[n].PutPointer? || h.ops[n].PutData?) ==> h.Held(n, h.ops[n].obj) != Made(step)
    ensures BlockAgrees(regions, classes, h, n + 1, step, block)
  {
    hide ReferenceCount, DataBytes, History.Held, History.Objects, History.AddressOf;
    var m := n + 1;
    forall i | 0 <= i < |block.pointers|
      ensures h.FieldOf(m, step, i) == h.FieldOf(n, step, i) && h.Known(regions, m, h.FieldOf(m, step, i))
    {
      StaysKnown(regions, h, n, h.FieldOf(n, step, i));
    }
    forall b | 0 <= b < |block.data| ensures h.ByteOf(m, step, b) == h.ByteOf(n, step, b) {}
    assert forall b :: 0 <= b < |block.data| ==> block.data[b] == h.ByteOf(m, step, b);
  }

  /** Nothing happens to a root that step n did not put anything into. */
  lemma RootStays(h: History, n: nat, k: Root)
    requires n < |h.ops| == |h.seen|
    requires h.Took(n) ==>
        match h.ops[n]
        case New(dst, _) => k != dst
        case Move(dst, _) => k != dst
        case Clear(dst) => k != dst
        case GetPointer(dst, _, _) => k != dst
        case Push(t, _) => !(k.Local? && t < |h.start.shape| && k.thread == t && k.frame == h.Depth(n, t))
        case Acquire(_, _) => !(k.Handle? && h.seen[n] == Id(k.handle))
        case _ => true
    ensures h.Held(n + 1, k) == h.Held(n, k)
  {
  }

  /** A step that neither stored into a root nor made or removed one. */
  lemma RootsKept(regions: Regions, h: History, n: nat, s: State, t: State)
    requires n < |h.ops| == |h.seen| && RootsAgree(regions, h, n, s) && t.roots == s.roots
    requires KeepsFrames(h, n) && KeepsCounts(h, n) && ShapesAgree(h, n, s) && CountsAgree(h, n, s)
    requires t.shape == s.shape && t.counts == s.counts
    requires !h.Took(n) || !(h.ops[n].New? || h.ops[n].Move? || h.ops[n].Clear? || h.ops[n].GetPointer?)
    ensures RootsAgree(regions, h, n + 1, t)
  {
    hide History.Held, History.Exists, History.AddressOf, History.Known, ShapesAgree, CountsAgree, KeepsFrames,
         KeepsCounts;
    forall k: Root
      ensures k in t.roots <==> h.Exists(n + 1, k)
      ensures k in t.roots ==> h.Known(regions, n + 1, h.Held(n + 1, k))
      ensures k in t.roots ==> t.roots[k] == h.AddressOf(regions.top, h.Held(n + 1, k))
    {
      KeysKept(h, n, s, t, k);
      PutsNoRoot(h, n, k);
      if k in s.roots { StaysKnown(regions, h, n, h.Held(n, k)); }
    }
  }

  lemma PutsNoRoot(h: History, n: nat, k: Root)
    requires n < |h.ops| == |h.seen| && KeepsFrames(h, n) && KeepsCounts(h, n)
    requires !h.Took(n) || !(h.ops[n].New? || h.ops[n].Move? || h.ops[n].Clear? || h.ops[n].GetPointer?)
    ensures h.Held(n + 1, k) == h.Held(n, k)
  {
  }

  /** A step that stored into one root. */
  lemma RootPut(regions: Regions, h: History, n: nat, s: State, t: State, dst: Root, p: Address)
    requires n < |h.ops| == |h.seen| && RootsAgree(regions, h, n, s) && h.Took(n) && dst in s.roots
    requires t.roots == s.roots[dst := p] && t.shape == s.shape && t.counts == s.counts
    requires ShapesAgree(h, n, s) && CountsAgree(h, n, s)
    requires h.ops[n].New? || h.ops[n].Move? || h.ops[n].Clear? || h.ops[n].GetPointer?
    requires h.ops[n].dst == dst && h.Known(regions, n + 1, h.Held(n + 1, dst))
    requires p == h.AddressOf(regions.top, h.Held(n + 1, dst))
    ensures RootsAgree(regions, h, n + 1, t)
  {
    hide History.Held, History.Exists, History.AddressOf, History.Known, ShapesAgree, CountsAgree;
    forall k: Root
      ensures k in t.roots <==> h.Exists(n + 1, k)
      ensures k in t.roots ==> h.Known(regions, n + 1, h.Held(n + 1, k))
      ensures k in t.roots ==> t.roots[k] == h.AddressOf(regions.top, h.Held(n + 1, k))
    {
      KeysKept(h, n, s, t, k);
      if k != dst {
        RootStays(h, n, k);
        if k in s.roots { StaysKnown(regions, h, n, h.Held(n, k)); }
      }
    }
  }

  // ---- Each operation -------------------------------------------------------------------------

  /** A step that was refused, or only looked. */
  lemma NothingChanged(regions: Regions, classes: ClassTable, h: History, n: nat, s: State)
    requires n < |h.ops| == |h.seen| && Agrees(regions, classes, h, n, s)
    requires !h.Took(n) || h.ops[n].Same? || h.ops[n].Inspect? || h.ops[n].GetData?
    ensures Agrees(regions, classes, h, n + 1, s)
  {
    hide RootsAgree, ShapesAgree, CountsAgree, BlocksAgree, HandlesMatch;
    RootsKept(regions, h, n, s, s);
    FramesKept(h, n, s, s);
    CountsKept(h, n, s, s);
    ObjectsKept(regions, classes, h, n, s, s);
  }

  /** A step that stored into a root and did nothing else. */
  lemma OneRootPut(regions: Regions, classes: ClassTable, h: History, n: nat, s: State, dst: Root, p: Address)
    requires n < |h.ops| == |h.seen| && Agrees(regions, classes, h, n, s) && h.Took(n) && Writable(s, dst)
    requires h.ops[n].Move? || h.ops[n].Clear? || h.ops[n].GetPointer?
    requires h.ops[n].dst == dst && h.Known(regions, n, h.Held(n + 1, dst))
    requires p == h.AddressOf(regions.top, h.Held(n + 1, dst))
    ensures Agrees(regions, classes, h, n + 1, SetRoot(s, dst, p))
  {
    hide RootsAgree, ShapesAgree, CountsAgree, BlocksAgree, History.Held, History.AddressOf, History.Known;
    var t := SetRoot(s, dst, p);
    StaysKnown(regions, h, n, h.Held(n + 1, dst));
    RootPut(regions, h, n, s, t, dst, p);
    FramesKept(h, n, s, t);
    CountsKept(h, n, s, t);
    ObjectsKept(regions, classes, h, n, s, t);
    SameHandles(s, t);
  }

  lemma RootHolds(regions: Regions, classes: ClassTable, h: History, n: nat, s: State, k: Root)
    requires n <= |h.ops| == |h.seen| && Agrees(regions, classes, h, n, s)
    ensures k in s.roots <==> h.Exists(n, k)
    ensures k in s.roots ==> h.Known(regions, n, h.Held(n, k)) && s.roots[k] == h.AddressOf(regions.top, h.Held(n, k))
  {
    hide ShapesAgree, CountsAgree, BlocksAgree, HandlesMatch;
  }

  lemma MoveAgrees(regions: Regions, classes: ClassTable, h: History, n: nat, s: State, t: State)
    requires n < |h.ops| == |h.seen| && Agrees(regions, classes, h, n, s) && (h.ops[n].Move? || h.ops[n].Clear?)
    requires (t, h.seen[n]) == Apply(s, h.ops[n]) && regions.Foreign(0)
    ensures Agrees(regions, classes, h, n + 1, t) && h.Answers(classes, n)
  {
    hide Agrees, History.Exists, History.Known, History.AddressOf, Regions.Foreign;
    RootHolds(regions, classes, h, n, s, h.ops[n].dst);
    if h.ops[n].Move? { RootHolds(regions, classes, h, n, s, h.ops[n].src); }
    ZeroIsOutside(regions, h, n);
    if h.seen[n] == Done {
      OneRootPut(regions, classes, h, n, s, h.ops[n].dst, t.roots[h.ops[n].dst]);
    } else {
      NothingChanged(regions, classes, h, n, s);
    }
  }

  lemma ZeroIsOutside(regions: Regions, h: History, n: nat)
    requires n <= |h.ops| == |h.seen| && regions.Foreign(0)
    ensures h.Known(regions, n, Outside(0)) && h.AddressOf(regions.top, Outside(0)) == 0
  {
  }

  lemma GetPointerAgrees(regions: Regions, classes: ClassTable, h: History, n: nat, s: State, t: State)
    requires n < |h.ops| == |h.seen| && Agrees(regions, classes, h, n, s) && h.ops[n].GetPointer?
    requires (t, h.seen[n]) == Apply(s, h.ops[n])
    ensures Agrees(regions, classes, h, n + 1, t) && h.Answers(classes, n)
  {
    hide Agrees, History.Exists, History.Known, History.AddressOf, ReferenceCount, DataBytes;
    var dst, obj, i := h.ops[n].dst, h.ops[n].obj, h.ops[n].index;
    RootHolds(regions, classes, h, n, s, dst);
    RefersToMade(regions, classes, h, n, s, obj);
    if h.seen[n] == Done {
      OneRootPut(regions, classes, h, n, s, dst, t.roots[dst]);
    } else {
      NothingChanged(regions, classes, h, n, s);
    }
  }

  lemma SameAgrees(regions: Regions, classes: ClassTable, h: History, n: nat, s: State, t: State)
    requires n < |h.ops| == |h.seen| && Agrees(regions, classes, h, n, s) && h.ops[n].Same?
    requires (t, h.seen[n]) == Apply(s, h.ops[n])
    ensures Agrees(regions, classes, h, n + 1, t) && h.Answers(classes, n)
  {
    hide Agrees, History.Exists, History.Known, History.AddressOf, History.Held;
    var x, y := h.ops[n].left, h.ops[n].right;
    RootHolds(regions, classes, h, n, s, x);
    RootHolds(regions, classes, h, n, s, y);
    if x in s.roots && y in s.roots { PlacesDiffer(regions, h, n, h.Held(n, x), h.Held(n, y)); }
    NothingChanged(regions, classes, h, n, s);
  }

  lemma ReadAgrees(regions: Regions, classes: ClassTable, h: History, n: nat, s: State, t: State)
    requires n < |h.ops| == |h.seen| && Agrees(regions, classes, h, n, s)
    requires h.ops[n].GetData? || h.ops[n].Inspect?
    requires (t, h.seen[n]) == Apply(s, h.ops[n])
    ensures Agrees(regions, classes, h, n + 1, t) && h.Answers(classes, n)
  {
    hide Agrees, History.Exists, History.Known, History.AddressOf, History.Held, ReferenceCount, DataBytes;
    RefersToMade(regions, classes, h, n, s, h.ops[n].obj);
    NothingChanged(regions, classes, h, n, s);
  }

  // ---- Stores into objects --------------------------------------------------------------------

  /** After a store into the object made by step `target`, the others are as they were. */
  lemma ObjectsPut(regions: Regions, classes: ClassTable, h: History, n: nat, s: State, target: nat, block: Block)
    requires n < |h.ops| == |h.seen| && Agrees(regions, classes, h, n, s) && h.Took(n)
    requires h.ops[n].PutPointer? || h.ops[n].PutData?
    requires h.Held(n, h.ops[n].obj) == Made(target) && target < n && h.Makes(target)
    requires BlockAgrees(regions, classes, h, n + 1, target, block)
    ensures Agrees(regions, classes, h, n + 1, s.(blocks := s.blocks[h.AddressOf(regions.top, Made(target)) := block]))
  {
    hide RootsAgree, ShapesAgree, CountsAgree, BlockAgrees, Numbered, History.Held;
    var a := h.AddressOf(regions.top, Made(target));
    var t := s.(blocks := s.blocks[a := block]);
    RootsKept(regions, h, n, s, t);
    FramesKept(h, n, s, t);
    CountsKept(h, n, s, t);
    SameHandles(s, t);
    assert t.blocks.Keys == s.blocks.Keys;
    NumberedByKeys(regions, s, t);
    forall step: nat | step < n + 1 && h.Makes(step)
      ensures
        && h.AddressOf(regions.top, Made(step)) in t.blocks
        && BlockAgrees(regions, classes, h, n + 1, step, t.blocks[h.AddressOf(regions.top, Made(step))])
    {
      PlacesDiffer(regions, h, n, Made(step), Made(target));
      if step != target { BlockStays(regions, classes, h, n, step, s.blocks[h.AddressOf(regions.top, Made(step))]); }
    }
  }

  lemma PointerPut(regions: Regions, classes: ClassTable, h: History, n: nat, block: Block, target: nat)
    requires n < |h.ops| == |h.seen| && h.Took(n) && h.ops[n].PutPointer? && h.Makes(target)
    requires h.Held(n, h.ops[n].obj) == Made(target) && BlockAgrees(regions, classes, h, n, target, block)
    requires h.ops[n].index < |block.pointers| && h.Known(regions, n, h.Held(n, h.ops[n].src))
    ensures BlockAgrees(regions, classes, h, n + 1, target, block.(pointers :=
        block.pointers[h.ops[n].index := h.AddressOf(regions.top, h.Held(n, h.ops[n].src))]))
  {
    hide ReferenceCount, DataBytes, History.Held, History.AddressOf, History.Known;
    var put, m := h.AddressOf(regions.top, h.Held(n, h.ops[n].src)), n + 1;
    forall i | 0 <= i < |block.pointers|
      ensures h.Known(regions, m, h.FieldOf(m, target, i))
      ensures block.pointers[h.ops[n].index := put][i] == h.AddressOf(regions.top, h.FieldOf(m, target, i))
    {
      StaysKnown(regions, h, n, h.FieldOf(n, target, i));
      StaysKnown(regions, h, n, h.Held(n, h.ops[n].src));
    }
    forall b | 0 <= b < |block.data| ensures h.ByteOf(n + 1, target, b) == h.ByteOf(n, target, b) {}
  }

  lemma PutPointerAgrees(regions: Regions, classes: ClassTable, h: History, n: nat, s: State, t: State)
    requires n < |h.ops| == |h.seen| && Agrees(regions, classes, h, n, s) && h.ops[n].PutPointer?
    requires (t, h.seen[n]) == Apply(s, h.ops[n])
    ensures Agrees(regions, classes, h, n + 1, t) && h.Answers(classes, n)
  {
    hide Agrees, History.Exists, BlockAgrees, ReferenceCount, DataBytes, History.Held;
    var obj, i, src := h.ops[n].obj, h.ops[n].index, h.ops[n].src;
    RefersToMade(regions, classes, h, n, s, obj);
    if Refers(s, obj) { PartsOf(regions, classes, h, n, h.Held(n, obj).step, s.blocks[s.roots[obj]]); }
    RootHolds(regions, classes, h, n, s, obj);
    RootHolds(regions, classes, h, n, s, src);
    if h.seen[n] == Done {
      var target := h.Held(n, obj).step;
      PointerPut(regions, classes, h, n, s.blocks[s.roots[obj]], target);
      ObjectsPut(regions, classes, h, n, s, target, t.blocks[s.roots[obj]]);
    } else {
      NothingChanged(regions, classes, h, n, s);
    }
  }

  lemma PartsOf(regions: Regions, classes: ClassTable, h: History, n: nat, step: nat, block: Block)
    requires n <= |h.ops| == |h.seen| && h.Makes(step) && BlockAgrees(regions, classes, h, n, step, block)
    ensures |block.pointers| == ReferenceCount(classes, h.ops[step].header)
    ensures |block.data| == DataBytes(classes, h.ops[step].header)
  {
  }

  lemma DataPut(regions: Regions, classes: ClassTable, h: History, n: nat, block: Block, target: nat)
    requires n < |h.ops| == |h.seen| && h.Took(n) && h.ops[n].PutData? && h.Makes(target)
    requires h.Held(n, h.ops[n].obj) == Made(target) && BlockAgrees(regions, classes, h, n, target, block)
    requires h.ops[n].index + |h.ops[n].value| <= |block.data|
    ensures BlockAgrees(regions, classes, h, n + 1, target, block.(data :=
        Overwrite(block.data, h.ops[n].index, h.ops[n].value)))
  {
    hide ReferenceCount, DataBytes, History.Held, History.AddressOf, History.Known;
    var at, value := h.ops[n].index, h.ops[n].value;
    var data, m := Overwrite(block.data, at, value), n + 1;
    forall i | 0 <= i < |block.pointers|
      ensures h.FieldOf(m, target, i) == h.FieldOf(n, target, i) && h.Known(regions, m, h.FieldOf(m, target, i))
    {
      StaysKnown(regions, h, n, h.FieldOf(n, target, i));
    }
    forall b | 0 <= b < |data| ensures data[b] == h.ByteOf(m, target, b) {
      if at <= b < at + |value| { assert data[at..at + |value|][b - at] == value[b - at]; }
    }
    assert forall b :: 0 <= b < |data| ==> data[b] == h.ByteOf(m, target, b);
  }

  lemma PutDataAgrees(regions: Regions, classes: ClassTable, h: History, n: nat, s: State, t: State)
    requires n < |h.ops| == |h.seen| && Agrees(regions, classes, h, n, s) && h.ops[n].PutData?
    requires (t, h.seen[n]) == Apply(s, h.ops[n])
    ensures Agrees(regions, classes, h, n + 1, t) && h.Answers(classes, n)
  {
    hide Agrees, History.Exists, BlockAgrees, ReferenceCount, DataBytes, History.Held, Overwrite;
    var obj, i, value := h.ops[n].obj, h.ops[n].index, h.ops[n].value;
    RefersToMade(regions, classes, h, n, s, obj);
    if Refers(s, obj) { PartsOf(regions, classes, h, n, h.Held(n, obj).step, s.blocks[s.roots[obj]]); }
    RootHolds(regions, classes, h, n, s, obj);
    if h.seen[n] == Done {
      var target := h.Held(n, obj).step;
      DataPut(regions, classes, h, n, s.blocks[s.roots[obj]], target);
      ObjectsPut(regions, classes, h, n, s, target, t.blocks[s.roots[obj]]);
    } else {
      NothingChanged(regions, classes, h, n, s);
    }
  }

  // ---- New objects ----------------------------------------------------------------------------

  /** Nothing holds an object before it is made. */
  lemma {:induction false} HeldWasMade(h: History, n: nat, k: Root)
    requires n <= |h.ops| == |h.seen|
    ensures h.Held(n, k).Made? ==> h.Held(n, k).step < n
    decreases n, 1
  {
    if n > 0 {
      HeldWasMade(h, n - 1, k);
      match h.ops[n - 1]
      case Move(_, src) => HeldWasMade(h, n - 1, src);
      case GetPointer(_, obj, i) =>
        if h.Held(n - 1, obj).Made? { FieldWasMade(h, n - 1, h.Held(n - 1, obj).step, i); }
      case Push(t, arguments) =>
        if k.Local? && k.slot < |arguments| && arguments[k.slot].Some? {
          HeldWasMade(h, n - 1, arguments[k.slot].value);
        }
      case Acquire(src, _) => HeldWasMade(h, n - 1, src);
      case _ =>
    }
  }

  lemma {:induction false} FieldWasMade(h: History, n: nat, step: nat, i: nat)
    requires n <= |h.ops| == |h.seen|
    ensures h.FieldOf(n, step, i).Made? ==> h.FieldOf(n, step, i).step < n
    decreases n, 0
  {
    if n > 0 {
      FieldWasMade(h, n - 1, step, i);
      if h.ops[n - 1].PutPointer? { HeldWasMade(h, n - 1, h.ops[n - 1].src); }
    }
  }

  /** So an object starts with null references and zero bytes. */
  lemma {:induction false} StartsEmpty(h: History, n: nat, step: nat, i: nat)
    requires n <= step && n <= |h.ops| == |h.seen|
    ensures h.FieldOf(n, step, i) == Outside(0) && h.ByteOf(n, step, i) == 0
  {
    if n > 0 {
      StartsEmpty(h, n - 1, step, i);
      if h.ops[n - 1].PutPointer? || h.ops[n - 1].PutData? { HeldWasMade(h, n - 1, h.ops[n - 1].obj); }
    }
  }

  lemma NewBlockAgrees(regions: Regions, classes: ClassTable, h: History, n: nat)
    requires n < |h.ops| == |h.seen| && h.Makes(n) && Allocatable(classes, h.ops[n].header) && regions.Foreign(0)
    ensures BlockAgrees(regions, classes, h, n + 1, n, Zeroed(classes, h.ops[n].header))
  {
    hide History.Held, History.AddressOf, History.Known, Regions.Foreign;
    var m, block := n + 1, Zeroed(classes, h.ops[n].header);
    ZeroIsOutside(regions, h, m);
    ZeroedParts(classes, h.ops[n].header);
    hide Zeroed, ReferenceCount, DataBytes;
    forall i | 0 <= i < |block.pointers| ensures h.FieldOf(m, n, i) == Outside(0) { StartsEmpty(h, n, n, i); }
    forall b | 0 <= b < |block.data| ensures h.ByteOf(m, n, b) == 0 { StartsEmpty(h, n, n, b); }
  }

  lemma ZeroedParts(classes: ClassTable, header: Header)
    requires Allocatable(classes, header)
    ensures |Zeroed(classes, header).pointers| == ReferenceCount(classes, header)
    ensures |Zeroed(classes, header).data| == DataBytes(classes, header)
  {
  }

  lemma ObjectMade(regions: Regions, classes: ClassTable, h: History, n: nat, s: State)
    requires n < |h.ops| == |h.seen| && Agrees(regions, classes, h, n, s) && h.Makes(n)
    requires Allocatable(classes, h.ops[n].header) && regions.Foreign(0)
    ensures
      var a := regions.top + |s.blocks|;
      BlocksAgree(regions, classes, h, n + 1, s.(blocks := s.blocks[a := Zeroed(classes, h.ops[n].header)]))
  {
    hide RootsAgree, ShapesAgree, CountsAgree, BlockAgrees, Numbered, History.Held, Zeroed, HandlesMatch,
         Regions.Foreign, Allocatable;
    var a, block := regions.top + |s.blocks|, Zeroed(classes, h.ops[n].header);
    var t := s.(blocks := s.blocks[a := block]);
    NextNumberUnused(regions, s);
    NumberedAfter(regions, s, block);
    NewBlockAgrees(regions, classes, h, n);
    forall step: nat | step < n + 1 && h.Makes(step)
      ensures
        && h.AddressOf(regions.top, Made(step)) in t.blocks
        && BlockAgrees(regions, classes, h, n + 1, step, t.blocks[h.AddressOf(regions.top, Made(step))])
    {
      if step < n {
        ObjectsGrow(h, step, n);
        BlockStays(regions, classes, h, n, step, s.blocks[h.AddressOf(regions.top, Made(step))]);
      }
    }
  }

  lemma NewMade(regions: Regions, classes: ClassTable, h: History, n: nat, s: State, t: State)
    requires n < |h.ops| == |h.seen| && Agrees(regions, classes, h, n, s) && h.Makes(n) && regions.Foreign(0)
    requires Writable(s, h.ops[n].dst) && Allocatable(classes, h.ops[n].header)
    requires
      var a := regions.top + |s.blocks|;
      t == SetRoot(s.(blocks := s.blocks[a := Zeroed(classes, h.ops[n].header)]), h.ops[n].dst, a)
    ensures Agrees(regions, classes, h, n + 1, t)
  {
    ObjectMade(regions, classes, h, n, s);
    hide RootsAgree, ShapesAgree, CountsAgree, BlockAgrees, Numbered, Zeroed, HandlesMatch, Regions.Foreign,
         Allocatable, History.Exists, ReferenceCount, DataBytes;
    var dst, a := h.ops[n].dst, regions.top + |s.blocks|;
    RootPut(regions, h, n, s, t, dst, a);
    FramesKept(h, n, s, t);
    CountsKept(h, n, s, t);
    NumberedByBlocks(regions, s.(blocks := t.blocks), t);
    SameHandles(s, t);
  }

  lemma NewAgrees(regions: Regions, classes: ClassTable, h: History, n: nat, s: State, t: State)
    requires n < |h.ops| == |h.seen| && Agrees(regions, classes, h, n, s) && h.ops[n].New?
    requires SimpleStep(regions, classes, s, h.ops[n], t, h.seen[n]) && regions.Foreign(0)
    ensures Agrees(regions, classes, h, n + 1, t) && h.Answers(classes, n)
  {
    hide Agrees, Zeroed, Regions.Foreign, Allocatable, History.Exists, History.Held, SetRoot;
    RootHolds(regions, classes, h, n, s, h.ops[n].dst);
    if h.seen[n] == Done {
      NewMade(regions, classes, h, n, s, t);
    } else {
      NothingChanged(regions, classes, h, n, s);
    }
  }

  // ---- Frames ---------------------------------------------------------------------------------

  lemma ArgumentsAgree(regions: Regions, classes: ClassTable, h: History, n: nat, s: State,
                       arguments: seq<Option<Root>>)
    requires n <= |h.ops| == |h.seen| && Agrees(regions, classes, h, n, s)
    ensures ArgumentsExist(s, arguments) <==> h.ArgumentsHeld(n, arguments)
    ensures ArgumentsExist(s, arguments) ==> forall i :: 0 <= i < |arguments| && arguments[i].Some? ==>
      && h.Known(regions, n, h.Held(n, arguments[i].value))
      && SlotsOf(s, arguments)[i] == h.AddressOf(regions.top, h.Held(n, arguments[i].value))
  {
    hide Agrees, History.Exists, History.Known, History.AddressOf, History.Held;
    forall i | 0 <= i < |arguments| && arguments[i].Some?
      ensures arguments[i].value in s.roots <==> h.Exists(n, arguments[i].value)
    {
      RootHolds(regions, classes, h, n, s, arguments[i].value);
    }
    if ArgumentsExist(s, arguments) {
      forall i | 0 <= i < |arguments| && arguments[i].Some?
        ensures h.Known(regions, n, h.Held(n, arguments[i].value))
        ensures SlotsOf(s, arguments)[i] == h.AddressOf(regions.top, h.Held(n, arguments[i].value))
      {
        RootHolds(regions, classes, h, n, s, arguments[i].value);
      }
    }
  }

  lemma PushedShapes(h: History, n: nat, s: State, t: State)
    requires n < |h.ops| == |h.seen| && ShapesAgree(h, n, s) && h.ops[n].Push? && h.Took(n)
    requires h.ops[n].thread < |s.shape|
    requires t.shape == s.shape[h.ops[n].thread := s.shape[h.ops[n].thread] + [|h.ops[n].arguments|]]
    ensures ShapesAgree(h, n + 1, t)
  {
  }

  lemma PushedRoot(regions: Regions, classes: ClassTable, h: History, n: nat, s: State, t: State, k: Root)
    requires n < |h.ops| == |h.seen| && Agrees(regions, classes, h, n, s) && h.ops[n].Push? && h.Took(n)
    requires h.ops[n].thread < |s.shape| && ArgumentsExist(s, h.ops[n].arguments) && regions.Foreign(0)
    requires t == PushSlots(s, h.ops[n].thread, SlotsOf(s, h.ops[n].arguments))
    ensures k in t.roots <==> h.Exists(n + 1, k)
    ensures k in t.roots ==>
              && h.Known(regions, n + 1, h.Held(n + 1, k))
              && t.roots[k] == h.AddressOf(regions.top, h.Held(n + 1, k))
  {
    hide BlocksAgree, HandlesMatch, History.Known, History.AddressOf, Regions.Foreign, RootsAgree;
    var thread, arguments := h.ops[n].thread, h.ops[n].arguments;
    var f := |s.shape[thread]|;
    RootHolds(regions, classes, h, n, s, k);
    PushedKeys(h, n, s, k);
    if InFrame(k, thread, f) {
      assert k == Local(thread, f, k.slot);
      if k.slot < |arguments| {
        ArgumentsAgree(regions, classes, h, n, s, arguments);
        ZeroIsOutside(regions, h, n);
        if arguments[k.slot].Some? { StaysKnown(regions, h, n, h.Held(n, arguments[k.slot].value)); }
        ZeroIsOutside(regions, h, n + 1);
      }
    } else {
      RootStays(h, n, k);
      if k in s.roots { StaysKnown(regions, h, n, h.Held(n, k)); }
    }
  }

  lemma PushedKeys(h: History, n: nat, s: State, k: Root)
    requires n < |h.ops| == |h.seen| && ShapesAgree(h, n, s) && h.ops[n].Push? && h.Took(n)
    requires h.ops[n].thread < |s.shape|
    ensures
      var thread := h.ops[n].thread;
      h.Exists(n + 1, k) <==>
        if InFrame(k, thread, |s.shape[thread]|) then k.slot < |h.ops[n].arguments| else h.Exists(n, k)
    ensures InFrame(k, h.ops[n].thread, |s.shape[h.ops[n].thread]|) ==> !h.Exists(n, k)
  {
  }

  lemma PushAgrees(regions: Regions, classes: ClassTable, h: History, n: nat, s: State, t: State)
    requires n < |h.ops| == |h.seen| && Agrees(regions, classes, h, n, s) && h.ops[n].Push?
    requires (t, h.seen[n]) == Apply(s, h.ops[n]) && regions.Foreign(0)
    ensures Agrees(regions, classes, h, n + 1, t) && h.Answers(classes, n)
  {
    hide CountsAgree, BlocksAgree, HandlesMatch, History.Exists, History.Held, History.Known, History.AddressOf,
         Regions.Foreign, SlotsOf;
    ArgumentsAgree(regions, classes, h, n, s, h.ops[n].arguments);
    assert |s.shape| == |h.start.shape|;
    hide ShapesAgree, PushSlots;
    if h.seen[n] == Done {
      forall k: Root
        ensures k in t.roots <==> h.Exists(n + 1, k)
        ensures k in t.roots ==> h.Known(regions, n + 1, h.Held(n + 1, k))
        ensures k in t.roots ==> t.roots[k] == h.AddressOf(regions.top, h.Held(n + 1, k))
      {
        PushedRoot(regions, classes, h, n, s, t, k);
      }
      FramePutRest(regions, classes, h, n, s, t);
    } else {
      NothingChanged(regions, classes, h, n, s);
    }
  }

  lemma FramePutRest(regions: Regions, classes: ClassTable, h: History, n: nat, s: State, t: State)
    requires n < |h.ops| == |h.seen| && Agrees(regions, classes, h, n, s) && h.Took(n)
    requires (h.ops[n].Push? || h.ops[n].Pop?) && (t, h.seen[n]) == Apply(s, h.ops[n])
    ensures ShapesAgree(h, n + 1, t) && CountsAgree(h, n + 1, t)
    ensures BlocksAgree(regions, classes, h, n + 1, t) && HandlesMatch(t)
  {
    hide RootsAgree, CountsAgree, BlocksAgree, HandlesMatch, History.Held;
    ApplyKeepsHandles(s, h.ops[n]);
    CountsKept(h, n, s, t);
    ObjectsKept(regions, classes, h, n, s, t);
    if h.ops[n].Push? { PushedShapes(h, n, s, t); } else { PoppedShapes(h, n, s, t); }
  }

  lemma PoppedShapes(h: History, n: nat, s: State, t: State)
    requires n < |h.ops| == |h.seen| && ShapesAgree(h, n, s) && h.ops[n].Pop? && h.Took(n)
    requires h.ops[n].thread < |s.shape| && |s.shape[h.ops[n].thread]| > 0
    requires t.shape ==
        s.shape[h.ops[n].thread := s.shape[h.ops[n].thread][..|s.shape[h.ops[n].thread]| - 1]]
    ensures ShapesAgree(h, n + 1, t)
  {
  }

  lemma PoppedKeys(h: History, n: nat, s: State, k: Root)
    requires n < |h.ops| == |h.seen| && ShapesAgree(h, n, s) && h.ops[n].Pop? && h.Took(n)
    requires h.ops[n].thread < |s.shape| && |s.shape[h.ops[n].thread]| > 0
    ensures
      var thread := h.ops[n].thread;
      h.Exists(n + 1, k) <==> h.Exists(n, k) && !InFrame(k, thread, |s.shape[thread]| - 1)
  {
  }

  lemma PopAgrees(regions: Regions, classes: ClassTable, h: History, n: nat, s: State, t: State)
    requires n < |h.ops| == |h.seen| && Agrees(regions, classes, h, n, s) && h.ops[n].Pop?
    requires (t, h.seen[n]) == Apply(s, h.ops[n])
    ensures Agrees(regions, classes, h, n + 1, t) && h.Answers(classes, n)
  {
    hide CountsAgree, BlocksAgree, HandlesMatch, History.Exists, History.Held, History.Known, History.AddressOf;
    if h.seen[n] == Done {
      forall k: Root
        ensures k in t.roots <==> h.Exists(n + 1, k)
        ensures k in t.roots ==> h.Known(regions, n + 1, h.Held(n + 1, k))
        ensures k in t.roots ==> t.roots[k] == h.AddressOf(regions.top, h.Held(n + 1, k))
      {
        RootHolds(regions, classes, h, n, s, k);
        PoppedKeys(h, n, s, k);
        RootStays(h, n, k);
        if k in s.roots { StaysKnown(regions, h, n, h.Held(n, k)); }
      }
      FramePutRest(regions, classes, h, n, s, t);
    } else {
      NothingChanged(regions, classes, h, n, s);
    }
  }

  // ---- Handles --------------------------------------------------------------------------------

  /** The handles of an object. */
  lemma HandlesAgree(regions: Regions, classes: ClassTable, h: History, n: nat, s: State, src: Root, g: nat)
    requires n <= |h.ops| == |h.seen| && Agrees(regions, classes, h, n, s) && src in s.roots
    ensures h.HandleOf(n, g, h.Held(n, src)) <==> Handle(g) in s.roots && s.roots[Handle(g)] == s.roots[src]
    ensures Handle(g) in s.roots <==> h.CountAt(n, g) > 0
    ensures g in s.counts <==> h.CountAt(n, g) > 0
  {
    hide ShapesAgree, BlocksAgree, HandlesMatch, History.Known, History.AddressOf, History.Held;
    RootHolds(regions, classes, h, n, s, src);
    RootHolds(regions, classes, h, n, s, Handle(g));
    if Handle(g) in s.roots { PlacesDiffer(regions, h, n, h.Held(n, src), h.Held(n, Handle(g))); }
  }

  /** Step n acquired handle g for what src holds, new or once more. */
  lemma HandleTaken(regions: Regions, classes: ClassTable, h: History, n: nat, s: State, t: State, g: nat)
    requires n < |h.ops| == |h.seen| && Agrees(regions, classes, h, n, s)
    requires h.ops[n].Acquire? && h.seen[n] == Id(g) && h.ops[n].src in s.roots
    requires g in s.counts ==> Handle(g) in s.roots && s.roots[Handle(g)] == s.roots[h.ops[n].src]
    requires t.roots == s.roots[Handle(g) := s.roots[h.ops[n].src]]
    requires t.counts == s.counts[g := if g in s.counts then s.counts[g] + 1 else 1]
    requires t.shape == s.shape && t.blocks == s.blocks && HandlesMatch(t)
    ensures Agrees(regions, classes, h, n + 1, t)
  {
    hide ShapesAgree, BlocksAgree, HandlesMatch, History.Known, History.AddressOf, History.Held, RootsAgree,
         CountsAgree;
    FramesKept(h, n, s, t);
    ObjectsKept(regions, classes, h, n, s, t);
    TakenCounts(h, n, s, t, g);
    TakenRoots(regions, classes, h, n, s, t, g);
  }

  lemma TakenCounts(h: History, n: nat, s: State, t: State, g: nat)
    requires n < |h.ops| == |h.seen| && CountsAgree(h, n, s) && h.ops[n].Acquire? && h.seen[n] == Id(g)
    requires t.counts == s.counts[g := if g in s.counts then s.counts[g] + 1 else 1]
    ensures CountsAgree(h, n + 1, t)
    ensures forall f: nat :: h.CountAt(n + 1, f) > 0 <==> h.CountAt(n, f) > 0 || f == g
  {
    var m := n + 1;
    forall f: nat ensures h.CountAt(m, f) == h.CountAt(n, f) + if f == g then 1 else 0 {}
    assert CountsAgree(h, m, t);
  }

  lemma TakenRoots(regions: Regions, classes: ClassTable, h: History, n: nat, s: State, t: State, g: nat)
    requires n < |h.ops| == |h.seen| && Agrees(regions, classes, h, n, s) && t.shape == s.shape
    requires h.ops[n].Acquire? && h.seen[n] == Id(g) && h.ops[n].src in s.roots
    requires t.roots == s.roots[Handle(g) := s.roots[h.ops[n].src]]
    requires forall f: nat :: h.CountAt(n + 1, f) > 0 <==> h.CountAt(n, f) > 0 || f == g
    ensures RootsAgree(regions, h, n + 1, t)
  {
    hide BlocksAgree, HandlesMatch, History.Known, History.AddressOf, ShapesAgree, CountsAgree, History.CountAt;
    forall k: Root
      ensures k in t.roots <==> h.Exists(n + 1, k)
      ensures k in t.roots ==> h.Known(regions, n + 1, h.Held(n + 1, k))
      ensures k in t.roots ==> t.roots[k] == h.AddressOf(regions.top, h.Held(n + 1, k))
    {
      RootHolds(regions, classes, h, n, s, k);
      RootHolds(regions, classes, h, n, s, h.ops[n].src);
      FramesKept(h, n, s, t);
      StaysKnown(regions, h, n, h.Held(n, h.ops[n].src));
      if k != Handle(g) {
        RootStays(h, n, k);
        if k in s.roots { StaysKnown(regions, h, n, h.Held(n, k)); }
      }
    }
  }

  lemma AcquireAgrees(regions: Regions, classes: ClassTable, h: History, n: nat, s: State, t: State)
    requires n < |h.ops| == |h.seen| && Agrees(regions, classes, h, n, s) && h.ops[n].Acquire?
    requires (t, h.seen[n]) == Apply(s, h.ops[n])
    ensures Agrees(regions, classes, h, n + 1, t) && h.Answers(classes, n)
  {
    hide RootsAgree, ShapesAgree, CountsAgree, BlocksAgree, HandlesMatch, History.Held, History.HandleOf,
         History.CountAt,
         History.Exists;
    var src, unused := h.ops[n].src, h.ops[n].unused;
    RootHolds(regions, classes, h, n, s, src);
    CountHolds(h, n, s, unused);
    ApplyKeepsHandles(s, h.ops[n]);
    if src in s.roots && unused !in s.counts {
      forall g: nat
        ensures h.HandleOf(n, g, h.Held(n, src)) <==> Handle(g) in s.roots && s.roots[Handle(g)] == s.roots[src]
      {
        HandlesAgree(regions, classes, h, n, s, src, g);
      }
      var found := HandleFor(s, s.roots[src]);
      if found.Some? { CountedHandle(s, found.value); }
      var g := if found.None? then unused else found.value;
      assert h.seen[n] == Id(g);
      HandleTaken(regions, classes, h, n, s, t, g);
    } else {
      NothingChanged(regions, classes, h, n, s);
    }
  }

  lemma CountHolds(h: History, n: nat, s: State, g: nat)
    requires n <= |h.ops| == |h.seen| && CountsAgree(h, n, s)
    ensures g in s.counts <==> h.CountAt(n, g) > 0
    ensures g in s.counts ==> s.counts[g] > 0
  {
  }

  lemma CountedHandle(s: State, g: nat)
    requires HandlesMatch(s)
    ensures Handle(g) in s.roots <==> g in s.counts
  {
  }

  lemma ReleasedCounts(h: History, n: nat, s: State, t: State)
    requires n < |h.ops| == |h.seen| && CountsAgree(h, n, s) && h.ops[n].Release? && h.Took(n)
    requires h.ops[n].handle in s.counts && s.counts[h.ops[n].handle] > 0 && t == CountDown(s, h.ops[n].handle)
    ensures CountsAgree(h, n + 1, t)
    ensures forall f: nat :: f in t.counts <==> h.CountAt(n + 1, f) > 0
    ensures forall f: nat :: f != h.ops[n].handle ==> h.CountAt(n + 1, f) == h.CountAt(n, f)
  {
    var m := n + 1;
    forall f: nat ensures h.CountAt(m, f) == h.CountAt(n, f) - if f == h.ops[n].handle then 1 else 0 {}
    assert CountsAgree(h, m, t);
  }

  lemma ReleaseAgrees(regions: Regions, classes: ClassTable, h: History, n: nat, s: State, t: State)
    requires n < |h.ops| == |h.seen| && Agrees(regions, classes, h, n, s) && h.ops[n].Release?
    requires (t, h.seen[n]) == Apply(s, h.ops[n])
    ensures Agrees(regions, classes, h, n + 1, t) && h.Answers(classes, n)
  {
    hide ShapesAgree, BlocksAgree, HandlesMatch, CountsAgree, History.Held, History.CountAt, History.Known,
         History.AddressOf;
    var g := h.ops[n].handle;
    CountHolds(h, n, s, g);
    ApplyKeepsHandles(s, h.ops[n]);
    if h.seen[n] == Done {
      ReleasedCounts(h, n, s, t);
      FramesKept(h, n, s, t);
      ObjectsKept(regions, classes, h, n, s, t);
      forall k: Root
        ensures k in t.roots <==> h.Exists(n + 1, k)
        ensures k in t.roots ==> h.Known(regions, n + 1, h.Held(n + 1, k))
        ensures k in t.roots ==> t.roots[k] == h.AddressOf(regions.top, h.Held(n + 1, k))
      {
        RootHolds(regions, classes, h, n, s, k);
        RootStays(h, n, k);
        if k in s.roots { StaysKnown(regions, h, n, h.Held(n, k)); }
        if k.Handle? { CountedHandle(t, k.handle); }
      }
    } else {
      NothingChanged(regions, classes, h, n, s);
    }
  }

  // ---- Runs -----------------------------------------------------------------------------------

  lemma StepAgrees(regions: Regions, classes: ClassTable, h: History, n: nat, s: State, t: State)
    requires n < |h.ops| == |h.seen| && Agrees(regions, classes, h, n, s) && regions.Foreign(0)
    requires SimpleStep(regions, classes, s, h.ops[n], t, h.seen[n])
    ensures Agrees(regions, classes, h, n + 1, t) && h.Answers(classes, n)
  {
    hide Agrees, History.Answers, Apply, Regions.Foreign;
    match h.ops[n]
    case New(_, _) => NewAgrees(regions, classes, h, n, s, t);
    case Move(_, _) => MoveAgrees(regions, classes, h, n, s, t);
    case Clear(_) => MoveAgrees(regions, classes, h, n, s, t);
    case GetPointer(_, _, _) => GetPointerAgrees(regions, classes, h, n, s, t);
    case PutPointer(_, _, _) => PutPointerAgrees(regions, classes, h, n, s, t);
    case GetData(_, _, _) => ReadAgrees(regions, classes, h, n, s, t);
    case PutData(_, _, _) => PutDataAgrees(regions, classes, h, n, s, t);
    case Same(_, _) => SameAgrees(regions, classes, h, n, s, t);
    case Inspect(_) => ReadAgrees(regions, classes, h, n, s, t);
    case Push(_, _) => PushAgrees(regions, classes, h, n, s, t);
    case Pop(_) => PopAgrees(regions, classes, h, n, s, t);
    case Acquire(_, _) => AcquireAgrees(regions, classes, h, n, s, t);
    case Release(_) => ReleaseAgrees(regions, classes, h, n, s, t);
  }

  lemma StartAgrees(regions: Regions, classes: ClassTable, h: History)
    requires h.Valid() && WellFormed(regions, classes, h.start)
    requires forall k :: k in h.start.roots ==> regions.Foreign(h.start.roots[k])
    ensures Agrees(regions, classes, h, 0, h.start)
  {
    EmptyHeapRelated(regions, h.start);
    StartWellFormed(regions, classes, h.start);
    StartRoots(regions, h);
    hide Regions.Foreign, Numbered, WellFormed, RootsAgree, HandlesMatch, LocalExists;
    StartCounts(h);
    hide CountsAgree;
  }

  lemma StartRoots(regions: Regions, h: History)
    requires h.Valid() && HandlesMatch(h.start)
    requires forall k: Root :: k.Local? ==> (k in h.start.roots <==> LocalExists(h.start.shape, k))
    requires forall k :: k in h.start.roots ==> regions.Foreign(h.start.roots[k])
    ensures RootsAgree(regions, h, 0, h.start)
  {
    hide Regions.Foreign;
    forall k: Root
      ensures k in h.start.roots <==> h.Exists(0, k)
      ensures k in h.start.roots ==> h.Held(0, k) == Outside(h.start.roots[k])
    {
      if k.Handle? { CountedHandle(h.start, k.handle); }
    }
    hide History.Exists, History.Held, HandlesMatch, LocalExists;
  }

  lemma StartCounts(h: History)
    requires h.Valid() && HandlesMatch(h.start)
    ensures CountsAgree(h, 0, h.start)
  {
  }

  lemma StartWellFormed(regions: Regions, classes: ClassTable, s: State)
    requires WellFormed(regions, classes, s)
    ensures HandlesMatch(s) && forall k: Root :: k.Local? ==> (k in s.roots <==> LocalExists(s.shape, k))
  {
    hide Shaped, AllResolve, Resolves, LocalExists;
  }

  /** Every answer of a run of the heap that never moves anything, and every state it goes through, is what
      was last put there. */
  lemma {:induction false} SimpleRunAgrees(regions: Regions, classes: ClassTable, states: seq<State>, h: History,
                                           n: nat)
    requires h.Valid() && SimpleRun(regions, classes, states, h.ops, h.seen) && n <= |h.ops| && regions.Foreign(0)
    requires states[0] == h.start && WellFormed(regions, classes, h.start)
    requires forall k :: k in h.start.roots ==> regions.Foreign(h.start.roots[k])
    ensures Agrees(regions, classes, h, n, states[n])
    ensures forall i :: 0 <= i < n ==> h.Answers(classes, i)
  {
    hide Agrees, History.Answers, SimpleStep, WellFormed, Regions.Foreign;
    if n == 0 {
      StartAgrees(regions, classes, h);
    } else {
      SimpleRunAgrees(regions, classes, states, h, n - 1);
      assert SimpleStep(regions, classes, states[n - 1], h.ops[n - 1], states[n], h.seen[n - 1]);
      StepAgrees(regions, classes, h, n - 1, states[n - 1], states[n]);
    }
  }

  /** So whatever collections a run contains, it answers every operation by what was last put there. */
  lemma RunAnswers(regions: Regions, classes: ClassTable, states: seq<State>, h: History)
    requires h.Valid() && Run(regions, classes, states, h.ops, h.seen) && regions.Foreign(0)
    requires states[0] == h.start && WellFormed(regions, classes, h.start)
    requires forall k :: k in h.start.roots ==> regions.Foreign(h.start.roots[k])
    ensures forall i :: 0 <= i < |h.ops| ==> h.Answers(classes, i)
  {
    hide History.Answers, SimpleStep, Regions.Foreign, Run;
    EmptyHeapRelated(regions, h.start);
    hide WellFormed;
    var simple, last := RunRefines(regions, classes, states, h.ops, h.seen, h.start, map[]);
    SimpleRunAgrees(regions, classes, simple, h, |h.ops|);
  }
}
