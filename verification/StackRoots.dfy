/** The collector's walk over the words of a call stack: every pointer slot of every frame is forwarded
    in place (gc/stop_and_copy.cpp:61-73, gc/stack_iterators.h). */
module StackRoots {
  import opened Prelude
  import opened Objects
  import opened Evacuation
  import opened StopAndCopy
  import opened CallStacks
  import Heaps

  /** A frame with the method that says where its pointers are. */
  ghost predicate IsFrame(methods: map<DoubleWord, Method>, mem: Memory, f: nat) {
    && HasHeader(mem, f) && Executing(mem, f) in methods
    && f + HEADER + methods[Executing(mem, f)].doubleOffset <= |mem|
  }

  /** The pointers in the slots of the frame at f. */
  ghost function RootsOf(methods: map<DoubleWord, Method>, mem: Memory, f: nat): seq<Address> {
    if IsFrame(methods, mem, f) then FramePointers(mem, f, methods[Executing(mem, f)]) else []
  }

  lemma PushedIsFrame(methods: map<DoubleWord, Method>, mem: Memory, frames: seq<nat>, i: nat)
    requires Chain(methods, mem, frames) && 0 < i < |frames|
    ensures IsFrame(methods, mem, frames[i]) && frames[i] != 0
    ensures methods[Executing(mem, frames[i])].WellLaid() && methods[Executing(mem, frames[i])].doubleOffset % 2 == 0
  {
    assert FrameHolds(methods, mem, frames, i);
    BoundsOrdered(methods[Executing(mem, frames[i])], ARG_DOUBLE, TYPES);
    OnlyRootAtZero(methods, mem, frames, i);
  }

  /** The first `done` slots are redirected, the others are as they were. */
  ghost predicate PartRedirected(e: Progress, from: seq<Address>, to: seq<Address>, done: nat) {
    && done <= |from| && |to| == |from|
    && Redirects(e, from[..done], to[..done]) && to[done..] == from[done..]
  }

  /** Frames behind the i-th are redirected, the i-th up to `done`, and those before it not at all. */
  ghost predicate Walked(e: Progress, methods: map<DoubleWord, Method>, before: Memory, mem: Memory,
                         frames: seq<nat>, i: nat, done: nat) {
    forall j :: 0 < j < |frames| ==>
      var from, to := RootsOf(methods, before, frames[j]), RootsOf(methods, mem, frames[j]);
      PartRedirected(e, from, to, if j < i then 0 else if j == i then done else |from|)
  }

  /** Word w belongs to a pointer slot of some pushed frame. */
  ghost predicate InSlots(methods: map<DoubleWord, Method>, mem: Memory, frames: seq<nat>, w: nat) {
    exists j :: 0 < j < |frames| &&
      var f := frames[j] + HEADER; f <= w < f + 2 * |RootsOf(methods, mem, frames[j])|
  }

  /** All other words are as they were: headers, values of other types, and whatever lies behind. */
  ghost predicate OnlySlots(methods: map<DoubleWord, Method>, before: Memory, mem: Memory, frames: seq<nat>) {
    && |mem| == |before|
    && forall w :: 0 <= w < |mem| && !InSlots(methods, before, frames, w) ==> mem[w] == before[w]
  }

  // ---- One slot -------------------------------------------------------------------------------

  lemma MethodKept(methods: map<DoubleWord, Method>, mem: Memory, mem': Memory, frames: seq<nat>, j: nat)
    requires Chain(methods, mem, frames) && SameHeaders(mem, mem', frames) && 0 < j < |frames|
    ensures IsFrame(methods, mem, frames[j]) && IsFrame(methods, mem', frames[j])
    ensures Executing(mem', frames[j]) == Executing(mem, frames[j])
  {
    PushedIsFrame(methods, mem, frames, j);
    HeaderKept(methods, mem, mem', frames, j);
  }

  /** Writing pointer k of frame i changes that root and no other. */
  lemma RootWritten(methods: map<DoubleWord, Method>, mem: Memory, mem': Memory, frames: seq<nat>, i: nat, k: nat,
                    j: nat)
    requires Chain(methods, mem, frames) && 0 < i < |frames| && 0 < j < |frames|
    requires k < |RootsOf(methods, mem, frames[i])|
    requires frames[i] + HEADER + 2 * k + 2 <= |mem| == |mem'|
    requires SameOutside(mem, mem', frames[i] + HEADER + 2 * k, frames[i] + HEADER + 2 * k + 2)
    ensures
      var from := RootsOf(methods, mem, frames[j]);
      RootsOf(methods, mem', frames[j]) ==
        if j == i then from[k := Pointer(mem', frames[i] + HEADER + 2 * k)] else from
  {
    PushedIsFrame(methods, mem, frames, i);
    PushedIsFrame(methods, mem, frames, j);
    var f, g := frames[i], frames[j];
    assert PointerSlot(methods, mem, frames, f, 2 * k);
    SlotWriteKeepsChain(methods, mem, mem', frames, f, 2 * k);
    MethodKept(methods, mem, mem', frames, j);
    var from, to := RootsOf(methods, mem, g), RootsOf(methods, mem', g);
    hide PointerSlot, Chain, SameHeaders;
    forall r | 0 <= r < |from| && (j != i || r != k) ensures to[r] == from[r] {
      SlotKept(methods, mem, mem', frames, i, k, j, r);
    }
  }

  lemma SlotKept(methods: map<DoubleWord, Method>, mem: Memory, mem': Memory, frames: seq<nat>, i: nat, k: nat, j: nat,
                 r: nat)
    requires Chain(methods, mem, frames) && 0 < i < |frames| && 0 < j < |frames|
    requires k < |RootsOf(methods, mem, frames[i])| && r < |RootsOf(methods, mem, frames[j])| && (i, k) != (j, r)
    requires SameOutside(mem, mem', frames[i] + HEADER + 2 * k, frames[i] + HEADER + 2 * k + 2)
    ensures frames[j] + HEADER + 2 * r + 2 <= |mem| == |mem'|
    ensures Pointer(mem', frames[j] + HEADER + 2 * r) == Pointer(mem, frames[j] + HEADER + 2 * r)
  {
    RootIsSlot(methods, mem, frames, i, k);
    RootIsSlot(methods, mem, frames, j, r);
    if i < j { FramesAscend(methods, mem, frames, i, j); } else if j < i { FramesAscend(methods, mem, frames, j, i); }
    hide PointerSlot, Chain, RootsOf, HasHeader;
    OtherSlotKept(methods, mem, mem', frames, frames[i], 2 * k, frames[j], 2 * r);
  }

  lemma RootIsSlot(methods: map<DoubleWord, Method>, mem: Memory, frames: seq<nat>, i: nat, k: nat)
    requires Chain(methods, mem, frames) && 0 < i < |frames| && k < |RootsOf(methods, mem, frames[i])|
    ensures PointerSlot(methods, mem, frames, frames[i], 2 * k) && frames[i] + HEADER + 2 * k + 2 <= |mem|
  {
    PushedIsFrame(methods, mem, frames, i);
  }

  // ---- What the walk keeps --------------------------------------------------------------------

  lemma NothingWalked(e: Progress, methods: map<DoubleWord, Method>, mem: Memory, frames: seq<nat>)
    requires frames != []
    ensures Walked(e, methods, mem, mem, frames, |frames| - 1, 0)
  {
    forall j | 0 < j < |frames|
      ensures PartRedirected(e, RootsOf(methods, mem, frames[j]), RootsOf(methods, mem, frames[j]), 0)
    {
      assert RenameAll(e.phi, []) == [];
    }
  }

  lemma PartStays(e: Progress, e': Progress, blocks: map<Address, Block>, blocks': map<Address, Block>,
                  classes: ClassTable,
                  objects: seq<Address>, from: seq<Address>, to: seq<Address>, done: nat)
    requires Collecting(e, blocks, classes, objects) && Collecting(e', blocks', classes, objects) && Grows(e, e')
    requires PartRedirected(e, from, to, done)
    ensures PartRedirected(e', from, to, done)
  {
    hide Collecting, Grows, Redirects;
    RedirectsStay(e, e', blocks, blocks', classes, objects, from[..done], to[..done]);
  }

  lemma PartOneMore(e: Progress, from: seq<Address>, to: seq<Address>, done: nat, location: Address)
    requires PartRedirected(e, from, to, done) && done < |from|
    requires Covers(e.regions, e.phi, from[done]) && location == Rename(e.phi, from[done])
    ensures PartRedirected(e, from, to[done := location], done + 1)
  {
    hide Redirects;
    RedirectsOneMore(e, from, to[..done], done, location);
    var next := to[done := location];
    assert next[..done + 1] == to[..done] + [location];
    assert next[done + 1..] == to[done..][1..] && from[done + 1..] == from[done..][1..];
  }

  /** The next frame starts where the one behind it is done. */
  lemma FrameWalked(e: Progress, methods: map<DoubleWord, Method>, before: Memory, mem: Memory, frames: seq<nat>,
                    i: nat)
    requires 0 < i < |frames| && Walked(e, methods, before, mem, frames, i, |RootsOf(methods, before, frames[i])|)
    ensures Walked(e, methods, before, mem, frames, i - 1, 0)
  {
    hide PartRedirected;
    forall j | 0 < j < |frames|
      ensures
        var from, to := RootsOf(methods, before, frames[j]), RootsOf(methods, mem, frames[j]);
        PartRedirected(e, from, to, if j < i - 1 then 0 else if j == i - 1 then 0 else |from|)
    {
    }
  }

  lemma SlotWalked(e: Progress, e': Progress, blocks: map<Address, Block>, blocks': map<Address, Block>,
                   classes: ClassTable,
                   objects: seq<Address>, methods: map<DoubleWord, Method>, before: Memory, mem: Memory, mem': Memory,
                   frames: seq<nat>, i: nat, k: nat)
    requires Collecting(e, blocks, classes, objects) && Collecting(e', blocks', classes, objects) && Grows(e, e')
    requires Chain(methods, mem, frames) && Walked(e, methods, before, mem, frames, i, k) && 0 < i < |frames|
    requires k < |RootsOf(methods, mem, frames[i])| == |RootsOf(methods, before, frames[i])|
    requires frames[i] + HEADER + 2 * k + 2 <= |mem| == |mem'|
    requires SameOutside(mem, mem', frames[i] + HEADER + 2 * k, frames[i] + HEADER + 2 * k + 2)
    requires Covers(e'.regions, e'.phi, RootsOf(methods, mem, frames[i])[k])
    requires Pointer(mem', frames[i] + HEADER + 2 * k) == Rename(e'.phi, RootsOf(methods, mem, frames[i])[k])
    ensures Walked(e', methods, before, mem', frames, i, k + 1)
  {
    hide Collecting, Grows, Chain, PartRedirected, RootsOf, SameOutside, Covers;
    forall j | 0 < j < |frames|
      ensures
        var from, to := RootsOf(methods, before, frames[j]), RootsOf(methods, mem', frames[j]);
        PartRedirected(e', from, to, if j < i then 0 else if j == i then k + 1 else |from|)
    {
      var from, to := RootsOf(methods, before, frames[j]), RootsOf(methods, mem, frames[j]);
      var done := if j < i then 0 else if j == i then k else |from|;
      PartStays(e, e', blocks, blocks', classes, objects, from, to, done);
      RootWritten(methods, mem, mem', frames, i, k, j);
      if j == i {
        RestIs(e', from, to, k);
        PartOneMore(e', from, to, k, Rename(e'.phi, from[k]));
      }
    }
  }

  lemma RestIs(e: Progress, from: seq<Address>, to: seq<Address>, done: nat)
    requires PartRedirected(e, from, to, done) && done < |from|
    ensures to[done] == from[done]
  {
    assert to[done..][0] == from[done..][0];
  }

  lemma OneMoreSlot(methods: map<DoubleWord, Method>, before: Memory, mem: Memory, mem': Memory, frames: seq<nat>,
                    i: nat, k: nat)
    requires OnlySlots(methods, before, mem, frames) && 0 < i < |frames|
    requires k < |RootsOf(methods, before, frames[i])|
    requires SameOutside(mem, mem', frames[i] + HEADER + 2 * k, frames[i] + HEADER + 2 * k + 2)
    ensures OnlySlots(methods, before, mem', frames)
  {
    hide RootsOf;
    forall w | 0 <= w < |mem| && !InSlots(methods, before, frames, w) ensures mem'[w] == before[w] {
      assert !(frames[i] + HEADER <= w < frames[i] + HEADER + 2 * |RootsOf(methods, before, frames[i])|);
    }
  }

  lemma AllWalked(e: Progress, methods: map<DoubleWord, Method>, before: Memory, mem: Memory, frames: seq<nat>, j: nat)
    requires Walked(e, methods, before, mem, frames, 0, 0) && 0 < j < |frames|
    ensures Redirects(e, RootsOf(methods, before, frames[j]), RootsOf(methods, mem, frames[j]))
  {
    var from, to := RootsOf(methods, before, frames[j]), RootsOf(methods, mem, frames[j]);
    assert PartRedirected(e, from, to, |from|);
    assert from[..|from|] == from && to[..|to|] == to;
  }

  lemma NewPlaceFits(e: Progress, root: Address)
    requires e.Ordered() && root < ADDRESS_LIMIT && e.limit <= ADDRESS_LIMIT
    ensures Rename(e.phi, root) < ADDRESS_LIMIT
  {
    ForwardingInjective(e);
  }

  lemma StaysTraced(e: Progress, e': Progress, slots: seq<Address>, k: nat)
    requires Grows(e, e') && AllTraced(e, slots) && k < |slots|
    ensures e'.Traced(slots[k])
  {
  }

  /** What the walk needs of a frame when it comes to its k-th pointer. */
  lemma NextRoot(e: Progress, methods: map<DoubleWord, Method>, before: Memory, mem: Memory, frames: seq<nat>, i: nat,
                 k: nat)
    requires Chain(methods, mem, frames) && 0 < i < |frames| && Walked(e, methods, before, mem, frames, i, k)
    requires IsFrame(methods, mem, frames[i]) && 2 * k < methods[Executing(mem, frames[i])].doubleOffset
    ensures k < |RootsOf(methods, before, frames[i])| == |RootsOf(methods, mem, frames[i])|
    ensures frames[i] + HEADER + 2 * k + 2 <= |mem|
    ensures RootsOf(methods, mem, frames[i])[k] == RootsOf(methods, before, frames[i])[k]
    ensures Pointer(mem, frames[i] + HEADER + 2 * k) == RootsOf(methods, before, frames[i])[k]
    ensures PointerSlot(methods, mem, frames, frames[i], 2 * k)
  {
    PushedIsFrame(methods, mem, frames, i);
    var from, to := RootsOf(methods, before, frames[i]), RootsOf(methods, mem, frames[i]);
    assert PartRedirected(e, from, to, k);
    RestIs(e, from, to, k);
  }

  // ---- The walk -------------------------------------------------------------------------------

  /** Forwards one pointer slot in place. */
  method TrackSlot(gc: Collector, stack: Stack, f: nat, k: nat, destination: Address, ghost before: Memory,
                   ghost i: nat)
    returns (next: Address)
    requires gc.Running() && stack.Valid() && destination == gc.e.end && gc.e.limit <= ADDRESS_LIMIT
    requires 0 < i < |stack.frames| && f == stack.frames[i]
    requires Walked(gc.e, stack.methods, before, stack.memory[..], stack.frames, i, k)
    requires OnlySlots(stack.methods, before, stack.memory[..], stack.frames)
    requires IsFrame(stack.methods, stack.memory[..], f)
    requires 2 * k < stack.methods[Executing(stack.memory[..], f)].doubleOffset
    requires AllTraced(gc.e, RootsOf(stack.methods, before, f))
    modifies gc, stack.memory
    ensures gc.Running() && Continues(old(gc.e), gc.e) && next == gc.e.end
    ensures stack.Valid() && SameHeaders(old(stack.memory[..]), stack.memory[..], stack.frames)
    ensures Walked(gc.e, stack.methods, before, stack.memory[..], stack.frames, i, k + 1)
    ensures OnlySlots(stack.methods, before, stack.memory[..], stack.frames)
  {
    hide Collecting, Walked, RootsOf, AllTraced, Progress.Traced, Continues, Covers, Chain, SameOutside, SameHeaders,
         PointerSlot, OnlySlots;
    ghost var e, blocks, mem := gc.e, gc.blocks, stack.memory[..];
    NextRoot(e, stack.methods, before, mem, stack.frames, i, k);
    GrowsItself(e);
    StaysTraced(e, e, RootsOf(stack.methods, before, f), k);
    var root := Pointer(stack.memory[..], f + HEADER + 2 * k);
    var location;
    location, next := gc.ForwardObject(root, destination);
    CollectingBasics(gc.e, gc.blocks, gc.classes, gc.objects);
    ContinuesMeans(e, gc.e);
    NewPlaceFits(gc.e, root);
    stack.RedirectSlot(f, 2 * k, location);
    SlotWriteKeepsChain(stack.methods, mem, stack.memory[..], stack.frames, f, 2 * k);
    SlotWalked(e, gc.e, blocks, gc.blocks, gc.classes, gc.objects, stack.methods, before, mem, stack.memory[..],
               stack.frames, i, k);
    OneMoreSlot(stack.methods, before, mem, stack.memory[..], stack.frames, i, k);
  }

  lemma GrowsItself(e: Progress)
    ensures Grows(e, e)
  {
  }

  lemma ContinuesMeans(e: Progress, e': Progress)
    requires Continues(e, e')
    ensures Grows(e, e') && e'.limit == e.limit && e'.regions == e.regions
  {
  }

  lemma ContinuesChain(e: Progress, f: Progress, g: Progress)
    requires Continues(e, f) && Continues(f, g)
    ensures Continues(e, g)
  {
    Heaps.ContinuesTransitive(e, f, g);
  }

  /** Every root of the stack is to a live object or out of the collected range. */
  ghost predicate StackTraced(e: Progress, methods: map<DoubleWord, Method>, mem: Memory, frames: seq<nat>) {
    forall j :: 0 < j < |frames| ==> AllTraced(e, RootsOf(methods, mem, frames[j]))
  }

  lemma StackStaysTraced(e: Progress, e': Progress, methods: map<DoubleWord, Method>, mem: Memory, frames: seq<nat>)
    requires Continues(e, e') && StackTraced(e, methods, mem, frames)
    ensures StackTraced(e', methods, mem, frames)
  {
    forall j | 0 < j < |frames| ensures AllTraced(e', RootsOf(methods, mem, frames[j])) {
      Collector.TracedStays(e, e', RootsOf(methods, mem, frames[j]));
    }
  }

  lemma HeadersChain(a: Memory, b: Memory, c: Memory, frames: seq<nat>)
    requires SameHeaders(a, b, frames) && SameHeaders(b, c, frames)
    ensures SameHeaders(a, c, frames)
  {
  }

  lemma MethodStays(methods: map<DoubleWord, Method>, mem: Memory, mem': Memory, frames: seq<nat>, i: nat)
    requires Chain(methods, mem, frames) && SameHeaders(mem, mem', frames) && 0 < i < |frames|
    ensures IsFrame(methods, mem, frames[i]) && IsFrame(methods, mem', frames[i])
    ensures methods[Executing(mem', frames[i])] == methods[Executing(mem, frames[i])]
    ensures |RootsOf(methods, mem, frames[i])| == methods[Executing(mem, frames[i])].doubleOffset / 2
    ensures methods[Executing(mem, frames[i])].doubleOffset % 2 == 0
  {
    MethodKept(methods, mem, mem', frames, i);
    PushedIsFrame(methods, mem, frames, i);
  }

  /** The pointer slots of one frame, from the first to the last. */
  method TrackFrame(gc: Collector, stack: Stack, f: nat, destination: Address, ghost before: Memory, ghost i: nat)
    returns (next: Address)
    requires gc.Running() && stack.Valid() && destination == gc.e.end && gc.e.limit <= ADDRESS_LIMIT
    requires 0 < i < |stack.frames| && f == stack.frames[i]
    requires Chain(stack.methods, before, stack.frames) && SameHeaders(before, stack.memory[..], stack.frames)
    requires Walked(gc.e, stack.methods, before, stack.memory[..], stack.frames, i, 0)
    requires OnlySlots(stack.methods, before, stack.memory[..], stack.frames)
    requires StackTraced(gc.e, stack.methods, before, stack.frames)
    modifies gc, stack.memory
    ensures gc.Running() && Continues(old(gc.e), gc.e) && next == gc.e.end
    ensures stack.Valid() && SameHeaders(before, stack.memory[..], stack.frames)
    ensures Walked(gc.e, stack.methods, before, stack.memory[..], stack.frames, i - 1, 0)
    ensures OnlySlots(stack.methods, before, stack.memory[..], stack.frames)
  {
    hide OnlySlots, Collecting, Walked, RootsOf, AllTraced, Continues, Chain, SameHeaders, StackTraced;
    MethodStays(stack.methods, before, stack.memory[..], stack.frames, i);
    var m := stack.methods[Executing(stack.memory[..], f)];
    Heaps.ContinuesRefl(gc.e);
    next := destination;
    var slot := 0;
    while slot != m.doubleOffset
      invariant slot % 2 == 0 && slot <= m.doubleOffset
      invariant gc.Running() && Continues(old(gc.e), gc.e) && next == gc.e.end
      invariant stack.Valid() && SameHeaders(before, stack.memory[..], stack.frames)
      invariant Walked(gc.e, stack.methods, before, stack.memory[..], stack.frames, i, slot / 2)
      invariant OnlySlots(stack.methods, before, stack.memory[..], stack.frames)
      invariant StackTraced(gc.e, stack.methods, before, stack.frames)
      decreases m.doubleOffset - slot
    {
      ghost var e, mem := gc.e, stack.memory[..];
      ContinuesMeans(old(gc.e), gc.e);
      MethodStays(stack.methods, before, mem, stack.frames, i);
      FrameTraced(gc.e, stack.methods, before, stack.frames, i);
      next := TrackSlot(gc, stack, f, slot / 2, next, before, i);
      HeadersChain(before, mem, stack.memory[..], stack.frames);
      StackStaysTraced(e, gc.e, stack.methods, before, stack.frames);
      ContinuesChain(old(gc.e), e, gc.e);
      slot := slot + 2;
    }
    FrameWalked(gc.e, stack.methods, before, stack.memory[..], stack.frames, i);
  }

  lemma FrameTraced(e: Progress, methods: map<DoubleWord, Method>, mem: Memory, frames: seq<nat>, i: nat)
    requires StackTraced(e, methods, mem, frames) && 0 < i < |frames|
    ensures AllTraced(e, RootsOf(methods, mem, frames[i]))
  {
  }

  lemma PreviousIs(methods: map<DoubleWord, Method>, mem: Memory, frames: seq<nat>, i: nat)
    requires Chain(methods, mem, frames) && i < |frames|
    ensures HasHeader(mem, frames[i]) && (frames[i] == 0 <==> i == 0)
    ensures i > 0 ==> Previous(mem, frames[i]) == frames[i - 1]
  {
    assert FrameHolds(methods, mem, frames, i);
    OnlyRootAtZero(methods, mem, frames, i);
  }

  /** The frames from the current one back to the root. Afterwards the roots of every frame are what
      they were with every reference forwarded; no other word has changed. */
  method TrackStack(gc: Collector, stack: Stack, destination: Address) returns (next: Address)
    requires gc.Running() && stack.Valid() && destination == gc.e.end && gc.e.limit <= ADDRESS_LIMIT
    requires StackTraced(gc.e, stack.methods, stack.memory[..], stack.frames)
    modifies gc, stack.memory
    ensures gc.Running() && Continues(old(gc.e), gc.e) && next == gc.e.end
    ensures stack.Valid() && SameHeaders(old(stack.memory[..]), stack.memory[..], stack.frames)
    ensures forall j :: 0 < j < |stack.frames| ==>
              Redirects(gc.e, RootsOf(stack.methods, old(stack.memory[..]), stack.frames[j]),
                        RootsOf(stack.methods, stack.memory[..], stack.frames[j]))
    ensures OnlySlots(stack.methods, old(stack.memory[..]), stack.memory[..], stack.frames)
  {
    hide OnlySlots, Collecting, Walked, RootsOf, Continues, Chain, SameHeaders, StackTraced, Redirects;
    NotEmpty(stack.methods, stack.memory[..], stack.frames);
    ghost var before, i := stack.memory[..], |stack.frames| - 1;
    NothingWalked(gc.e, stack.methods, before, stack.frames);
    Heaps.ContinuesRefl(gc.e);
    HeadersSame(before, stack.frames);
    NothingWritten(stack.methods, before, stack.frames);
    var f := stack.current;
    next := destination;
    PreviousIs(stack.methods, before, stack.frames, i);
    while f != 0
      invariant 0 <= i < |stack.frames| && f == stack.frames[i] && (f == 0 <==> i == 0)
      invariant gc.Running() && Continues(old(gc.e), gc.e) && next == gc.e.end
      invariant stack.Valid() && SameHeaders(before, stack.memory[..], stack.frames)
      invariant Walked(gc.e, stack.methods, before, stack.memory[..], stack.frames, i, 0)
      invariant OnlySlots(stack.methods, before, stack.memory[..], stack.frames)
      invariant StackTraced(gc.e, stack.methods, before, stack.frames)
      decreases i
    {
      ghost var e := gc.e;
      ContinuesMeans(old(gc.e), gc.e);
      next := TrackFrame(gc, stack, f, next, before, i);
      ContinuesChain(old(gc.e), e, gc.e);
      StackStaysTraced(e, gc.e, stack.methods, before, stack.frames);
      PreviousIs(stack.methods, stack.memory[..], stack.frames, i);
      PreviousIs(stack.methods, stack.memory[..], stack.frames, i - 1);
      f := Previous(stack.memory[..], f);
      i := i - 1;
    }
    forall j | 0 < j < |stack.frames|
      ensures Redirects(gc.e, RootsOf(stack.methods, before, stack.frames[j]),
                        RootsOf(stack.methods, stack.memory[..], stack.frames[j]))
    {
      AllWalked(gc.e, stack.methods, before, stack.memory[..], stack.frames, j);
    }
  }

  lemma NotEmpty(methods: map<DoubleWord, Method>, mem: Memory, frames: seq<nat>)
    requires Chain(methods, mem, frames)
    ensures frames != []
  {
  }

  lemma NothingWritten(methods: map<DoubleWord, Method>, mem: Memory, frames: seq<nat>)
    ensures OnlySlots(methods, mem, mem, frames)
  {
  }

  lemma HeadersSame(mem: Memory, frames: seq<nat>)
    ensures SameHeaders(mem, mem, frames)
  {
  }

  // ---- A whole collection ---------------------------------------------------------------------

  /** The lists of references that the frames above the root stand for. */
  ghost function SlotsIn(methods: map<DoubleWord, Method>, mem: Memory, frames: seq<nat>): seq<seq<Address>>
    requires frames != []
  {
    seq(|frames| - 1, f requires 0 <= f < |frames| - 1 => RootsOf(methods, mem, frames[f + 1]))
  }

  ghost function SlotLists(stack: Stack): seq<seq<Address>>
    reads stack, stack.memory
  {
    if stack.frames == [] then [] else SlotsIn(stack.methods, stack.memory[..], stack.frames)
  }

  /** The stacks of the executors stand for these lists. */
  ghost predicate Stands(stacks: seq<Stack>, lists: seq<seq<seq<Address>>>)
    reads stacks, set t | 0 <= t < |stacks| :: stacks[t].memory
  {
    |lists| == |stacks| && forall t :: 0 <= t < |stacks| ==> stacks[t].Valid() && SlotLists(stacks[t]) == lists[t]
  }

  ghost predicate Separate(stacks: seq<Stack>) {
    forall t, u :: 0 <= t < u < |stacks| ==> stacks[t] != stacks[u] && stacks[t].memory != stacks[u].memory
  }

  lemma SlotsTraced(e: Progress, methods: map<DoubleWord, Method>, mem: Memory, frames: seq<nat>)
    requires frames != []
    requires forall f :: 0 <= f < |frames| - 1 ==> AllTraced(e, SlotsIn(methods, mem, frames)[f])
    ensures StackTraced(e, methods, mem, frames)
  {
    hide RootsOf, AllTraced;
    forall j | 0 < j < |frames| ensures AllTraced(e, RootsOf(methods, mem, frames[j])) {
      assert SlotsIn(methods, mem, frames)[j - 1] == RootsOf(methods, mem, frames[j]);
    }
  }

  lemma SlotsRedirected(e: Progress, methods: map<DoubleWord, Method>, before: Memory, mem: Memory, frames: seq<nat>)
    requires frames != []
    requires forall j :: 0 < j < |frames| ==>
               Redirects(e, RootsOf(methods, before, frames[j]), RootsOf(methods, mem, frames[j]))
    ensures
      var from, to := SlotsIn(methods, before, frames), SlotsIn(methods, mem, frames);
      |to| == |from| && forall f :: 0 <= f < |from| ==> Redirects(e, from[f], to[f])
  {
    hide RootsOf, Redirects;
  }

  /** The stack of one executor. */
  method TrackLists(gc: Collector, stack: Stack, destination: Address) returns (next: Address)
    requires gc.Running() && stack.Valid() && destination == gc.e.end && gc.e.limit <= ADDRESS_LIMIT
    requires forall f :: 0 <= f < |SlotLists(stack)| ==> AllTraced(gc.e, SlotLists(stack)[f])
    modifies gc, stack.memory
    ensures gc.Running() && Continues(old(gc.e), gc.e) && next == gc.e.end
    ensures stack.Valid() && OnlySlots(stack.methods, old(stack.memory[..]), stack.memory[..], stack.frames)
    ensures |SlotLists(stack)| == |old(SlotLists(stack))|
    ensures forall f :: 0 <= f < |old(SlotLists(stack))| ==>
              Redirects(gc.e, old(SlotLists(stack))[f], SlotLists(stack)[f])
  {
    hide Collecting, Continues, AllTraced, Redirects, OnlySlots, Chain, RootsOf, StackTraced, SameHeaders;
    ghost var before := stack.memory[..];
    NotEmpty(stack.methods, before, stack.frames);
    assert SlotLists(stack) == SlotsIn(stack.methods, before, stack.frames);
    SlotsTraced(gc.e, stack.methods, before, stack.frames);
    next := TrackStack(gc, stack, destination);
    SlotsRedirected(gc.e, stack.methods, before, stack.memory[..], stack.frames);
  }

  /** The stack of every executor, in its own memory. */
  method TrackAllStacks(gc: Collector, stacks: seq<Stack>, destination: Address, ghost lists: seq<seq<seq<Address>>>)
    returns (next: Address, ghost moved: seq<seq<seq<Address>>>)
    requires gc.Running() && destination == gc.e.end && gc.e.limit <= ADDRESS_LIMIT
    requires Stands(stacks, lists) && Separate(stacks) && Heaps.StacksTraced(gc.e, lists)
    modifies gc, set t | 0 <= t < |stacks| :: stacks[t].memory
    ensures gc.Running() && Continues(old(gc.e), gc.e) && next == gc.e.end
    ensures Stands(stacks, moved) && Heaps.AllStacks(gc.e, lists, moved)
    ensures forall t :: 0 <= t < |stacks| ==>
              OnlySlots(stacks[t].methods, old(stacks[t].memory[..]), stacks[t].memory[..], stacks[t].frames)
  {
    hide Collecting, Continues, Heaps.AllStacks, AllTraced, Redirects, Grows, OnlySlots, Stack.Valid, SlotLists;
    next, moved := destination, [];
    Heaps.NoStacks(gc.e, lists);
    Heaps.ContinuesRefl(gc.e);
    for t := 0 to |stacks|
      invariant gc.Running() && Continues(old(gc.e), gc.e) && next == gc.e.end
      invariant |moved| == t && Heaps.AllStacks(gc.e, lists[..t], moved) && Heaps.StacksTraced(gc.e, lists)
      invariant forall u :: 0 <= u < |stacks| ==>
                  stacks[u].Valid() && SlotLists(stacks[u]) == if u < t then moved[u] else lists[u]
      invariant forall u :: 0 <= u < t ==>
                  OnlySlots(stacks[u].methods, old(stacks[u].memory[..]), stacks[u].memory[..], stacks[u].frames)
      invariant forall u :: t <= u < |stacks| ==> stacks[u].memory[..] == old(stacks[u].memory[..])
    {
      ghost var e, memory := gc.e, gc.blocks;
      var stack := stacks[t];
      Heaps.ContinuesGrows(old(gc.e), e);
      Heaps.SameCollection(old(gc.e), e);
      next := TrackLists(gc, stack, next);
      ContinuesChain(old(gc.e), e, gc.e);
      Heaps.ContinuesGrows(e, gc.e);
      Heaps.StacksStay(e, gc.e, memory, gc.blocks, gc.classes, gc.objects, lists[..t], moved);
      Heaps.StacksTracedStay(e, gc.e, lists);
      Heaps.OneMoreStack(gc.e, lists, moved, t, SlotLists(stack));
      moved := moved + [SlotLists(stack)];
    }
    assert lists[..|stacks|] == lists;
  }

  /** The collection of `Heaps.CopyLive` with the stacks of the executors in memory: everything the statics,
      the words of the stacks and the handles reach is copied, and all of them are redirected in place. */
  method CopyLiveFromStacks(classes: ClassTable, statics: seq<seq<Address>>, stacks: seq<Stack>,
                            native: map<Address, NativeRef>, handles: map<nat, Address>, blocks: map<Address, Block>,
                            low: Address, high: Address, begin: Address, ghost lists: seq<seq<seq<Address>>>,
                            ghost regions: Regions, ghost objects: seq<Address>, ghost used: Address,
                            ghost limit: Address)
    returns (movedStatics: seq<seq<Address>>, movedNative: map<Address, NativeRef>, movedHandles: map<nat, Address>,
             survivors: map<Address, Block>, end: Address, ghost moved: Heaps.Tables, ghost e: Progress)
    requires Stands(stacks, lists) && Separate(stacks) && limit <= ADDRESS_LIMIT
    requires
      var tables := Heaps.Tables(statics, lists, native, handles);
      Heaps.Consistent(regions, classes, tables, blocks, objects, low, used)
    requires used <= high && Heaps.Halves(regions, low, high, begin, limit) && used - low <= limit - begin
    modifies set t | 0 <= t < |stacks| :: stacks[t].memory
    ensures moved == Heaps.Tables(movedStatics, moved.stacks, movedNative, movedHandles) && Stands(stacks, moved.stacks)
    ensures
      var tables := Heaps.Tables(statics, lists, native, handles);
      && Collects(regions, tables.View(blocks), moved.View(survivors), e.phi)
      && Heaps.Consistent(regions, classes, moved, survivors, e.at, begin, end)
      && begin <= end <= limit && end == begin + LiveBytes(classes, tables.View(blocks))
    ensures forall t :: 0 <= t < |stacks| ==>
              OnlySlots(stacks[t].methods, old(stacks[t].memory[..]), stacks[t].memory[..], stacks[t].frames)
  {
    hide *;
    ghost var tables := Heaps.Tables(statics, lists, native, handles);
    var gc, destination;
    gc, movedStatics, destination := Heaps.BeginCopy(classes, tables, statics, blocks, low, high, begin,
                                                     regions, objects, used, limit);
    ghost var e0 := Heaps.Begin(regions, classes, tables.View(blocks), low, high, begin, limit);
    ghost var e1, memory1 := gc.e, gc.blocks;
    Heaps.RunningMeans(gc);
    Heaps.FollowingMeans(e0, e1, tables, movedStatics);
    Heaps.StartOf(regions, classes, tables.View(blocks), low, high, begin, limit);
    Heaps.ContinuesGrows(e0, e1);
    Heaps.SameCollection(e0, e1);
    ghost var movedLists;
    destination, movedLists := TrackAllStacks(gc, stacks, destination, lists);
    movedNative, movedHandles, survivors, end, e :=
      Heaps.FinishCopy(gc, native, handles, low, high, begin, destination, tables, blocks, movedStatics, movedLists,
                       e0, e1, memory1, regions, limit);
    moved := Heaps.Tables(movedStatics, movedLists, movedNative, movedHandles);
  }
}
