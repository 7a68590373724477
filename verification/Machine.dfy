/** What the virtual machine does to references and objects between collections: field and array
    access (classes/object.h), frame slots (memory/ostack.h, memory/ostack.cpp) and native
    reference counting (memory/oheap.cpp:38-53), as steps on states. */
module Machine {
  import opened Prelude
  import opened Objects
  import opened Values

  // ---- State changes --------------------------------------------------------------------------

  function SetRoot(s: State, k: Root, p: Address): State { s.(roots := s.roots[k := p]) }

  function SetPointer(s: State, a: Address, i: nat, p: Address): State
    requires a in s.blocks && i < |s.blocks[a].pointers|
  {
    s.(blocks := s.blocks[a := s.blocks[a].(pointers := s.blocks[a].pointers[i := p])])
  }

  /** A value of any width, as its bytes. */
  function SetData(s: State, a: Address, i: nat, value: seq<Byte>): State
    requires a in s.blocks && i + |value| <= |s.blocks[a].data|
  {
    s.(blocks := s.blocks[a := s.blocks[a].(data := Overwrite(s.blocks[a].data, i, value))])
  }

  /** The pointer slots of a new current frame. */
  function FrameRoots(t: nat, f: nat, slots: seq<Address>): map<Root, Address> {
    map i | 0 <= i < |slots| :: Local(t, f, i) := slots[i]
  }

  function PushSlots(s: State, t: nat, slots: seq<Address>): State
    requires t < |s.shape|
  {
    s.(roots := s.roots + FrameRoots(t, |s.shape[t]|, slots), shape := s.shape[t := s.shape[t] + [|slots|]])
  }

  predicate InFrame(k: Root, t: nat, f: nat) { k.Local? && k.thread == t && k.frame == f }

  function PopSlots(s: State, t: nat): State
    requires t < |s.shape| && |s.shape[t]| > 0
  {
    var f := |s.shape[t]| - 1;
    s.(roots := map k | k in s.roots && !InFrame(k, t, f) :: s.roots[k], shape := s.shape[t := s.shape[t][..f]])
  }

  /** The handle an object already has, if any. */
  ghost function HandleFor(s: State, p: Address): Option<nat> {
    if exists h :: Handle(h) in s.roots && s.roots[Handle(h)] == p
    then var h :| Handle(h) in s.roots && s.roots[Handle(h)] == p; Some(h)
    else None
  }

  function AddHandle(s: State, p: Address, h: nat): State {
    s.(roots := s.roots[Handle(h) := p], counts := s.counts[h := 1])
  }

  function CountUp(s: State, h: nat): State
    requires h in s.counts
  {
    s.(counts := s.counts[h := s.counts[h] + 1])
  }

  /** One release: the last one removes the handle. */
  function CountDown(s: State, h: nat): State
    requires h in s.counts && s.counts[h] > 0
  {
    if s.counts[h] == 1 then s.(roots := s.roots - {Handle(h)}, counts := s.counts - {h})
    else s.(counts := s.counts[h := s.counts[h] - 1])
  }

  // ---- What a change is, slot by slot ---------------------------------------------------------

  ghost predicate SameButBlock(s: State, t: State, a: Address) {
    && t.roots == s.roots && t.shape == s.shape && t.counts == s.counts
    && t.blocks.Keys == s.blocks.Keys && a in s.blocks
    && (forall b :: b in s.blocks && b != a ==> t.blocks[b] == s.blocks[b])
    && t.blocks[a].header == s.blocks[a].header
    && |t.blocks[a].pointers| == |s.blocks[a].pointers| && |t.blocks[a].data| == |s.blocks[a].data|
  }

  /** Reference i of the object at a is p; every other reference and all data, headers, objects and roots are as
      they were. */
  ghost predicate OnlyPointer(s: State, t: State, a: Address, i: nat, p: Address) {
    && SameButBlock(s, t, a) && t.blocks[a].data == s.blocks[a].data
    && i < |s.blocks[a].pointers| && t.blocks[a].pointers[i] == p
    && forall k :: 0 <= k < |s.blocks[a].pointers| && k != i ==> t.blocks[a].pointers[k] == s.blocks[a].pointers[k]
  }

  /** The bytes from i on are those of the value, and nothing else has changed. */
  ghost predicate OnlyData(s: State, t: State, a: Address, i: nat, value: seq<Byte>) {
    && SameButBlock(s, t, a) && t.blocks[a].pointers == s.blocks[a].pointers
    && i + |value| <= |s.blocks[a].data|
    && (forall k :: 0 <= k < |value| ==> t.blocks[a].data[i + k] == value[k])
    && forall k :: 0 <= k < |s.blocks[a].data| && !(i <= k < i + |value|) ==>
         t.blocks[a].data[k] == s.blocks[a].data[k]
  }

  /** Root k is p, and nothing else has changed. */
  ghost predicate OnlyRoot(s: State, t: State, k: Root, p: Address) {
    && t.blocks == s.blocks && t.shape == s.shape && t.counts == s.counts && t.roots.Keys == s.roots.Keys
    && k in s.roots && t.roots[k] == p
    && forall r :: r in s.roots && r != k ==> t.roots[r] == s.roots[r]
  }

  /** Thread t has one more frame, with these slots, and nothing else has changed. */
  ghost predicate OnlyFrame(s: State, u: State, t: nat, slots: seq<Address>) {
    && u.blocks == s.blocks && u.counts == s.counts && t < |s.shape| == |u.shape|
    && (forall r :: 0 <= r < |s.shape| && r != t ==> u.shape[r] == s.shape[r])
    && u.shape[t] == s.shape[t] + [|slots|]
    && (forall i :: 0 <= i < |slots| ==>
          Local(t, |s.shape[t]|, i) in u.roots && u.roots[Local(t, |s.shape[t]|, i)] == slots[i])
    && (forall k :: k in u.roots && !InFrame(k, t, |s.shape[t]|) ==> k in s.roots)
    && forall k :: k in s.roots && !InFrame(k, t, |s.shape[t]|) ==> k in u.roots && u.roots[k] == s.roots[k]
  }

  lemma PointerSet(s: State, a: Address, i: nat, p: Address)
    requires a in s.blocks && i < |s.blocks[a].pointers|
    ensures OnlyPointer(s, SetPointer(s, a, i, p), a, i, p)
  {
  }

  lemma DataSet(s: State, a: Address, i: nat, value: seq<Byte>)
    requires a in s.blocks && i + |value| <= |s.blocks[a].data|
    ensures OnlyData(s, SetData(s, a, i, value), a, i, value)
  {
    var t := SetData(s, a, i, value);
    forall k | 0 <= k < |value| ensures t.blocks[a].data[i + k] == value[k] {
      assert t.blocks[a].data[i..i + |value|][k] == value[k];
    }
  }

  lemma RootSet(s: State, k: Root, p: Address)
    requires k in s.roots
    ensures OnlyRoot(s, SetRoot(s, k, p), k, p)
  {
  }

  lemma FramePut(s: State, t: nat, slots: seq<Address>)
    requires t < |s.shape|
    ensures OnlyFrame(s, PushSlots(s, t, slots), t, slots)
  {
  }

  /** A frame that is popped again leaves everything as it was. */
  lemma PushPop(s: State, t: nat, slots: seq<Address>)
    requires t < |s.shape| && forall k :: k in s.roots ==> !InFrame(k, t, |s.shape[t]|)
    ensures |PushSlots(s, t, slots).shape[t]| > 0 && PopSlots(PushSlots(s, t, slots), t) == s
  {
    var u := PushSlots(s, t, slots);
    assert u.shape[t][..|s.shape[t]|] == s.shape[t];
    assert PopSlots(u, t).shape == s.shape;
    forall k: Root ensures k in PopSlots(u, t).roots <==> k in s.roots {}
  }

  /** A handle acquired for the first time and released again leaves everything as it was. */
  lemma AddRelease(s: State, p: Address, h: nat)
    requires h !in s.counts && Handle(h) !in s.roots
    ensures AddHandle(s, p, h).counts[h] == 1 && CountDown(AddHandle(s, p, h), h) == s
  {
  }

  lemma UpDown(s: State, h: nat)
    requires h in s.counts && s.counts[h] > 0
    ensures CountUp(s, h).counts[h] > 1 && CountDown(CountUp(s, h), h) == s
  {
  }

  // ---- Allocation -----------------------------------------------------------------------------

  /** A full collection has happened. */
  ghost predicate Collected(regions: Regions, s: State, t: State) { exists phi :: Collects(regions, s, t, phi) }

  /** The state is the same, or a collection has happened. */
  ghost predicate MayCollect(regions: Regions, s: State, t: State) { t == s || Collected(regions, s, t) }

  /** A zeroed object at an unused address of a space; or nothing. */
  ghost predicate Placed(regions: Regions, classes: ClassTable, s: State, t: State, header: Header, r: Option<Address>)
    requires Allocatable(classes, header)
  {
    match r
    case None => t == s
    case Some(a) => a !in s.blocks && a < regions.top && !regions.Foreign(a)
                    && t == s.(blocks := s.blocks[a := Zeroed(classes, header)])
  }

  /** What an allocation does: perhaps a collection, then a new object or failure. */
  ghost predicate Allocates(regions: Regions, classes: ClassTable, s: State, t: State, header: Header,
                            r: Option<Address>)
    requires Allocatable(classes, header)
  {
    exists mid :: MayCollect(regions, s, mid) && Placed(regions, classes, mid, t, header, r)
  }

  /** The same, saying whether there was a collection. */
  ghost predicate PlacedAfter(regions: Regions, classes: ClassTable, s: State, t: State, header: Header,
                              r: Option<Address>, collected: bool)
    requires Allocatable(classes, header)
  {
    exists mid :: (if collected then Collected(regions, s, mid) else mid == s) &&
      Placed(regions, classes, mid, t, header, r)
  }

  // ---- They keep states well-formed -----------------------------------------------------------

  lemma SetRootWellFormed(regions: Regions, classes: ClassTable, s: State, k: Root, p: Address)
    requires WellFormed(regions, classes, s) && k in s.roots && !k.Handle? && Resolves(regions, s.blocks, p)
    ensures WellFormed(regions, classes, SetRoot(s, k, p))
  {
  }

  lemma BlockChangeWellFormed(regions: Regions, classes: ClassTable, s: State, a: Address, block: Block)
    requires WellFormed(regions, classes, s) && !regions.Foreign(a)
    requires Shaped(classes, block) && AllResolve(regions, s.blocks, block.pointers)
    ensures WellFormed(regions, classes, s.(blocks := s.blocks[a := block]))
  {
    var t := s.(blocks := s.blocks[a := block]);
    hide Shaped;
    assert HandlesMatch(t);
    forall b | b in t.blocks ensures AllResolve(regions, t.blocks, t.blocks[b].pointers) {
      if b != a { assert AllResolve(regions, s.blocks, s.blocks[b].pointers); }
    }
    forall k | k in t.roots ensures Resolves(regions, t.blocks, t.roots[k]) {
      assert Resolves(regions, s.blocks, s.roots[k]);
    }
  }

  lemma SetPointerWellFormed(regions: Regions, classes: ClassTable, s: State, a: Address, i: nat, p: Address)
    requires WellFormed(regions, classes, s) && a in s.blocks && i < |s.blocks[a].pointers| &&
        Resolves(regions, s.blocks, p)
    ensures WellFormed(regions, classes, SetPointer(s, a, i, p))
  {
    BlockChangeWellFormed(regions, classes, s, a, s.blocks[a].(pointers := s.blocks[a].pointers[i := p]));
  }

  lemma SetDataWellFormed(regions: Regions, classes: ClassTable, s: State, a: Address, i: nat, value: seq<Byte>)
    requires WellFormed(regions, classes, s) && a in s.blocks && i + |value| <= |s.blocks[a].data|
    ensures WellFormed(regions, classes, SetData(s, a, i, value))
  {
    BlockChangeWellFormed(regions, classes, s, a, s.blocks[a].(data := Overwrite(s.blocks[a].data, i, value)));
  }

  lemma AllocatedWellFormed(regions: Regions, classes: ClassTable, s: State, a: Address, header: Header)
    requires WellFormed(regions, classes, s) && !regions.Foreign(a) && regions.Foreign(0) &&
        Allocatable(classes, header)
    ensures WellFormed(regions, classes, s.(blocks := s.blocks[a := Zeroed(classes, header)]))
  {
    BlockChangeWellFormed(regions, classes, s, a, Zeroed(classes, header));
  }

  lemma PushWellFormed(regions: Regions, classes: ClassTable, s: State, t: nat, slots: seq<Address>)
    requires WellFormed(regions, classes, s) && t < |s.shape| && AllResolve(regions, s.blocks, slots)
    ensures WellFormed(regions, classes, PushSlots(s, t, slots))
  {
    hide Shaped;
    var u, f := PushSlots(s, t, slots), |s.shape[t]|;
    forall k: Root | k.Local? ensures k in u.roots <==> LocalExists(u.shape, k) {
      assert k in s.roots <==> LocalExists(s.shape, k);
      if InFrame(k, t, f) { assert k == Local(t, f, k.slot); }
    }
    forall k | k in u.roots ensures Resolves(regions, u.blocks, u.roots[k]) {
      if k in FrameRoots(t, f, slots) { assert Resolves(regions, s.blocks, slots[k.slot]); }
    }
    assert HandlesMatch(u) by {
      forall h ensures Handle(h) !in FrameRoots(t, f, slots) {}
    }
  }

  lemma PopWellFormed(regions: Regions, classes: ClassTable, s: State, t: nat)
    requires WellFormed(regions, classes, s) && t < |s.shape| && |s.shape[t]| > 0
    ensures WellFormed(regions, classes, PopSlots(s, t))
  {
    hide Shaped, AllResolve;
    var u, f := PopSlots(s, t), |s.shape[t]| - 1;
    forall k: Root | k.Local? ensures k in u.roots <==> LocalExists(u.shape, k) {
      assert k in s.roots <==> LocalExists(s.shape, k);
    }
    assert HandlesMatch(u) by {
      forall h ensures Handle(h) in u.roots <==> Handle(h) in s.roots {}
    }
  }

  lemma AddHandleWellFormed(regions: Regions, classes: ClassTable, s: State, p: Address, h: nat)
    requires WellFormed(regions, classes, s) && HandleFor(s, p) == None && h !in s.counts
    requires Resolves(regions, s.blocks, p)
    ensures WellFormed(regions, classes, AddHandle(s, p, h))
  {
    hide Shaped, AllResolve;
  }

  lemma CountUpWellFormed(regions: Regions, classes: ClassTable, s: State, h: nat)
    requires WellFormed(regions, classes, s) && h in s.counts
    ensures WellFormed(regions, classes, CountUp(s, h))
  {
    hide Shaped, AllResolve;
  }

  lemma CountDownWellFormed(regions: Regions, classes: ClassTable, s: State, h: nat)
    requires WellFormed(regions, classes, s) && h in s.counts
    ensures s.counts[h] > 0 && WellFormed(regions, classes, CountDown(s, h))
  {
    hide Shaped, AllResolve;
  }
}
