/** The copying collector (gc/stop_and_copy.cpp). The forwarding mark stores the new address under
    its own tag, and copying and scanning use the size allocation used. */
module StopAndCopy {
  import opened Prelude
  import opened Layout
  import opened Objects
  import opened Evacuation

  /** Entry of the native reference table: the handle and how often it was acquired. */
  datatype NativeRef = NativeRef(handle: nat, count: nat)

  // ---- The mark as written --------------------------------------------------------------------

  /** The first word of an array: length, element type and a set lowest bit. */
  function ArrayWord(element: Datatype, length: nat): nat { length * 0x1_0000_0000 + 2 * element + 1 }

  predicate WordIsArray(word: nat) { word % 2 == 1 }
  function WordLength(word: nat): nat { word / 0x1_0000_0000 }
  function WordElement(word: nat): nat { word / 2 % 8 }

  /** The forwarding test as written: bit 0b10 of the first word. */
  predicate LooksForwarded(word: nat) { word / 2 % 2 == 1 }

  /** An array header reads back as what was written. */
  lemma ArrayWordReadsBack(element: Datatype, length: nat)
    ensures WordIsArray(ArrayWord(element, length))
    ensures WordLength(ArrayWord(element, length)) == length && WordElement(ArrayWord(element, length)) == element
    ensures length < 0x8000_0000 ==> ArrayWord(element, length) < 0x8000_0000_0000_0000
  {
    var half := length * 0x8000_0000 + element;
    assert ArrayWord(element, length) == 2 * half + 1;
    OddHalf(half);
    LowBits(length * 0x1000_0000, element);
    assert half == 8 * (length * 0x1000_0000) + element;
    HighPart(length, 2 * element + 1);
  }

  lemma OddHalf(half: nat)
    ensures (2 * half + 1) % 2 == 1 && (2 * half + 1) / 2 == half
  {
  }

  lemma LowBits(high: nat, low: nat)
    requires low < 8
    ensures (8 * high + low) % 8 == low
  {
  }

  lemma HighPart(high: nat, low: nat)
    requires low < 0x1_0000_0000
    ensures (high * 0x1_0000_0000 + low) / 0x1_0000_0000 == high
  {
  }

  /** No class pointer reads as an array or as forwarded. */
  lemma ClassWordReadsBack(cls: nat)
    requires cls % 8 == 0
    ensures !WordIsArray(cls) && !LooksForwarded(cls)
  {
  }

  /** As written, an array nobody has copied looks forwarded exactly when its element type is
      SHORT, FLOAT or DOUBLE. */
  lemma ArraysMistakenForForwarded(element: Datatype, length: nat)
    ensures LooksForwarded(ArrayWord(element, length)) <==> element in {SHORT, FLOAT, DOUBLE}
  {
    assert ArrayWord(element, length) / 2 == length * 0x8000_0000 + element;
  }

  /** The mark as written sets bit 0b10 of the first word and drops the address copied to; the reader
      clears the bit and takes what is left for that address. */
  function MarkAsWritten(word: nat, to: Address): nat { if LooksForwarded(word) then word else word + 2 }

  function AddressAsWritten(word: nat): nat { if LooksForwarded(word) then word - 2 else word }

  /** As written, what is read back is the object's old first word, wherever it was copied to. */
  lemma MarkAsWrittenForgetsAddress(word: nat, to: Address)
    requires !LooksForwarded(word)
    ensures LooksForwarded(MarkAsWritten(word, to)) && AddressAsWritten(MarkAsWritten(word, to)) == word
  {
    assert (word + 2) / 2 == word / 2 + 1;
  }

  /** As written, copying and scanning take payload + 8 bytes for an object that was allocated
      payload + 16: the last word of every object would be left out. */
  lemma SizeAsWrittenTooSmall(classes: ClassTable, header: Header)
    ensures PayloadSize(classes, header) + 8 < BlockSize(classes, header)
  {
  }

  // ---- A running collection -------------------------------------------------------------------

  /** The invariant of a collection, with what it needs to know about the space it collects:
      `objects` lists its objects, and together they fit the space copied into. */
  ghost predicate Collecting(e: Progress, blocks: map<Address, Block>, classes: ClassTable, objects: seq<Address>) {
    && e.Holds(blocks) && e.Compact() && Closed(e.regions, e.pre, e.live)
    && e.size == SizeIn(classes, e.pre.blocks)
    && (forall a :: a in e.pre.blocks ==> Shaped(classes, e.pre.blocks[a]))
    && (forall a :: a in e.pre.blocks ==> a in objects)
    && e.start + Sum(objects, e.size) <= e.limit
  }

  /** `to` holds what the slots `from` become under the forwarding so far. */
  ghost predicate Redirects(e: Progress, from: seq<Address>, to: seq<Address>) {
    && to == RenameAll(e.phi, from)
    && forall i :: 0 <= i < |from| ==> Covers(e.regions, e.phi, from[i])
  }

  ghost predicate AllTraced(e: Progress, slots: seq<Address>) {
    forall i :: 0 <= i < |slots| ==> e.Traced(slots[i])
  }

  lemma RedirectsStay(e: Progress, e': Progress, blocks: map<Address, Block>, blocks': map<Address, Block>,
                      classes: ClassTable, objects: seq<Address>, from: seq<Address>, to: seq<Address>)
    requires Collecting(e, blocks, classes, objects) && Collecting(e', blocks', classes, objects) && Grows(e, e')
    requires Redirects(e, from, to)
    ensures Redirects(e', from, to)
  {
    AllRenamesStay(e, e', from);
  }

  lemma RedirectsOneMore(e: Progress, from: seq<Address>, to: seq<Address>, i: nat, location: Address)
    requires i < |from| && Redirects(e, from[..i], to)
    requires Covers(e.regions, e.phi, from[i]) && location == Rename(e.phi, from[i])
    ensures Redirects(e, from[..i + 1], to + [location])
  {
    forall k | 0 <= k < i ensures from[..i][k] == from[..i + 1][k] {}
    assert RenameAll(e.phi, from[..i + 1]) == to + [location];
  }

  lemma GrowsTransitive(e: Progress, f: Progress, g: Progress)
    requires Grows(e, f) && Grows(f, g)
    ensures Grows(e, g)
  {
  }

  // ---- Steps of one object --------------------------------------------------------------------

  lemma InRangeIsLive(e: Progress, root: Address)
    requires e.Setup() && e.Ordered() && e.Traced(root)
    ensures e.low <= root < e.high <==> root in e.live
    ensures root !in e.live ==> root !in e.phi && Covers(e.regions, e.phi, root)
  {
    if root in e.phi { CopiedLive(e, root); }
  }

  lemma HeaderTells(e: Progress, blocks: map<Address, Block>, root: Address)
    requires e.Marked(blocks) && root in e.pre.blocks && !e.pre.blocks[root].header.Forwarded?
    ensures root in blocks && (blocks[root].header.Forwarded? <==> root in e.phi)
    ensures root in e.phi ==> blocks[root].header.location == e.phi[root]
    ensures root !in e.phi ==> blocks[root] == e.pre.blocks[root]
  {
  }

  /** What the bounds and the header of a traced reference say about it. */
  lemma RootTold(e: Progress, blocks: map<Address, Block>, classes: ClassTable, objects: seq<Address>, root: Address)
    requires Collecting(e, blocks, classes, objects) && e.Traced(root)
    ensures !(e.low <= root < e.high) ==> Covers(e.regions, e.phi, root) && Rename(e.phi, root) == root
    ensures e.low <= root < e.high ==>
        && root in blocks
        && root in e.live
        && (blocks[root].header.Forwarded? <==> root in e.phi)
    ensures root in e.phi ==> root in blocks && blocks[root].header == Forwarded(e.phi[root])
  {
    InRangeIsLive(e, root);
    if root in e.live {
      assert Shaped(classes, e.pre.blocks[root]);
      HeaderTells(e, blocks, root);
    }
  }

  lemma RootEvacuated(e: Progress, blocks: map<Address, Block>, classes: ClassTable, objects: seq<Address>,
                      root: Address)
    requires Collecting(e, blocks, classes, objects) && root in e.live && root !in e.phi && root in blocks
    ensures e.size(root) == BlockSize(classes, blocks[root].header)
    ensures Collecting(Evacuated(e, root, blocks[root]), Evacuate(blocks, root, e.end + 8), classes, objects)
    ensures Continues(e, Evacuated(e, root, blocks[root]))
  {
    CopiesFit(e, objects, root);
    EvacuatedHolds(e, blocks, root);
    EvacuatedCompact(e, root, blocks[root]);
  }

  /** No more copies than live objects. */
  lemma {:induction false} CopiesBounded(order: seq<Address>, live: set<Address>)
    requires Distinct(order) && forall i :: 0 <= i < |order| ==> order[i] in live
    ensures |order| <= |live|
  {
    if order != [] {
      var n := |order| - 1;
      CopiesBounded(order[..n], live - {order[n]});
    }
  }

  lemma NextPlace(e: Progress, i: nat)
    requires e.Compact() && i < |e.at|
    ensures e.at[i] + e.size(e.order[i]) == if i + 1 < |e.at| then e.at[i + 1] else e.end + 8
  {
    assert e.order[..i + 1][..i] == e.order[..i];
    assert e.order[..|e.order|] == e.order;
  }

  // ---- Steps of the scan ----------------------------------------------------------------------

  /** Where the scan stands: the address of the next copy to scan, or 8 past the free pointer. */
  ghost function ScanAddress(e: Progress): Address {
    if e.scanned < |e.at| then e.at[e.scanned] else e.end + 8
  }

  lemma ScanStarts(e: Progress, blocks: map<Address, Block>, classes: ClassTable, objects: seq<Address>)
    requires Collecting(e, blocks, classes, objects) && e.scanned == 0
    ensures ScanAddress(e) == e.start + 8
  {
    assert e.order[..0] == [];
  }

  /** The block at the scan address, and how many references its header says it holds. */
  lemma ScanTarget(e: Progress, blocks: map<Address, Block>, classes: ClassTable, objects: seq<Address>)
    requires Collecting(e, blocks, classes, objects)
    ensures e.scanned < |e.at| <==> ScanAddress(e) < e.end
    ensures e.scanned < |e.at| ==>
      && e.scanned < |e.source| && e.scanned < |e.copies| && ScanAddress(e) in blocks
      && blocks[ScanAddress(e)] == e.copies[e.scanned]
      && |e.copies[e.scanned].pointers| == |e.source[e.scanned].pointers|
      && References(classes, blocks[ScanAddress(e)].header) == |e.source[e.scanned].pointers|
      && (e.slot < |e.source[e.scanned].pointers| ==>
            && e.copies[e.scanned].pointers[e.slot] == e.source[e.scanned].pointers[e.slot]
            && e.Traced(e.source[e.scanned].pointers[e.slot]))
  {
    if e.scanned < |e.at| {
      ScannedPointerTraced(e);
      assert Shaped(classes, e.source[e.scanned]);
    }
  }

  /** Number of references an object holds, read off its header as the scan does. */
  function References(classes: ClassTable, header: Header): nat {
    match header
    case Array(element, length) => if element == OBJECT then length else 0
    case Instance(c) => if c in classes then classes[c].doubleOffset / 8 else 0
    case Forwarded(_) => 0
  }

  lemma ScanStep(e: Progress, blocks: map<Address, Block>, classes: ClassTable, objects: seq<Address>, p: Address)
    requires Collecting(e, blocks, classes, objects) && e.scanned < |e.source| &&
        e.slot < |e.source[e.scanned].pointers|
    requires p == e.source[e.scanned].pointers[e.slot] && Covers(e.regions, e.phi, p)
    requires e.scanned < |e.copies| && e.scanned < |e.at| && e.slot < |e.copies[e.scanned].pointers|
    ensures
      var block := Redirect(e.copies[e.scanned], e.slot, Rename(e.phi, p));
      Collecting(Redirected(e, block), blocks[e.at[e.scanned] := block], classes, objects)
  {
    hide Progress.Holds, Progress.Compact, Closed, Shaped;
    RedirectedHolds(e, blocks, p);
    RedirectedCompact(e, Redirect(e.copies[e.scanned], e.slot, Rename(e.phi, p)));
  }

  lemma RedirectedCompact(e: Progress, block: Block)
    requires e.Compact() && e.scanned < |e.copies|
    ensures Redirected(e, block).Compact()
  {
  }

  /** Progress once the scan has left the object it was at. */
  function Passed(e: Progress): Progress { e.(scanned := e.scanned + 1, slot := 0) }

  lemma ScanPasses(e: Progress, blocks: map<Address, Block>, classes: ClassTable, objects: seq<Address>)
    requires Collecting(e, blocks, classes, objects) && e.scanned < |e.source| &&
        e.slot == |e.source[e.scanned].pointers|
    requires ScanAddress(e) in blocks
    ensures Collecting(Passed(e), blocks, classes, objects)
    ensures ScanAddress(Passed(e)) == ScanAddress(e) + BlockSize(classes, blocks[ScanAddress(e)].header)
    ensures e.scanned < |e.live|
  {
    assert Collecting(Passed(e), blocks, classes, objects) by { PassedCollecting(e, blocks, classes, objects); }
    assert ScanAddress(Passed(e)) == ScanAddress(e) + BlockSize(classes, blocks[ScanAddress(e)].header) &&
      e.scanned < |e.live| by {
      PassedAddress(e, blocks, classes);
    }
  }

  lemma PassedCollecting(e: Progress, blocks: map<Address, Block>, classes: ClassTable, objects: seq<Address>)
    requires Collecting(e, blocks, classes, objects) && e.scanned < |e.source| &&
        e.slot == |e.source[e.scanned].pointers|
    ensures Collecting(Passed(e), blocks, classes, objects)
  {
    hide Progress.Setup, Progress.Ordered, Progress.Compact, Progress.Faithful, Progress.Marked, Progress.Stored,
         Closed, Shaped;
    ObjectScanned(e);
    PassedRest(e, blocks);
  }

  lemma PassedAddress(e: Progress, blocks: map<Address, Block>, classes: ClassTable)
    requires e.Compact() && e.Ordered() && e.Faithful() && e.Stored(blocks) && e.scanned < |e.source|
    requires e.size == SizeIn(classes, e.pre.blocks) && ScanAddress(e) in blocks
    ensures ScanAddress(Passed(e)) == ScanAddress(e) + BlockSize(classes, blocks[ScanAddress(e)].header)
    ensures e.scanned < |e.live|
  {
    assert e.scanned < |e.at| && e.scanned < |e.live| by {
      hide Progress.Compact, Progress.Stored;
      CopiesBounded(e.order, e.live);
    }
    assert e.size(e.order[e.scanned]) == BlockSize(classes, blocks[ScanAddress(e)].header) by {
      hide Progress.Compact, Progress.Ordered, BlockSize;
      assert e.IsCopy(e.source[e.scanned], e.Done(e.scanned), e.copies[e.scanned]);
    }
    hide Progress.Ordered, Progress.Faithful, Progress.Stored, BlockSize;
    NextPlace(e, e.scanned);
  }

  lemma PassedRest(e: Progress, blocks: map<Address, Block>)
    requires e.Setup() && e.Ordered() && e.Compact() && e.Marked(blocks) && e.Stored(blocks)
    ensures Passed(e).Setup() && Passed(e).Ordered() && Passed(e).Compact() && Passed(e).Marked(blocks) &&
        Passed(e).Stored(blocks)
  {
  }

  // ---- Native references ----------------------------------------------------------------------

  /** The table is keyed by what each handle refers to, and every handle has one entry. */
  ghost predicate TableMatches(native: map<Address, NativeRef>, handles: map<nat, Address>) {
    && (forall p :: p in native ==>
        && native[p].handle in handles
        && handles[native[p].handle] == p
        && native[p].count > 0)
    && (forall h :: h in handles ==> handles[h] in native && native[handles[h]].handle == h)
  }

  /** Part of the table has moved: entries in `done` are in `scratch` under their new keys with the
      same handle and count, their handles are redirected, and the other handles are not. */
  ghost predicate Rekeyed(e: Progress, native: map<Address, NativeRef>, handles: map<nat, Address>, done: set<Address>,
                          scratch: map<Address, NativeRef>, moved: map<nat, Address>) {
    Listed(e, native, done, scratch) && Pointed(e, handles, done, moved)
  }

  ghost predicate Listed(e: Progress, native: map<Address, NativeRef>, done: set<Address>,
                         scratch: map<Address, NativeRef>) {
    && (forall p :: p in done ==> p in native && Covers(e.regions, e.phi, p))
    && (forall p :: p in done ==> Rename(e.phi, p) in scratch && scratch[Rename(e.phi, p)] == native[p])
    && (forall q :: q in scratch ==> exists p :: p in done && Rename(e.phi, p) == q)
  }

  ghost predicate Pointed(e: Progress, handles: map<nat, Address>, done: set<Address>, moved: map<nat, Address>) {
    && moved.Keys == handles.Keys
    && (forall h :: h in handles ==>
          moved[h] == if handles[h] in done then Rename(e.phi, handles[h]) else handles[h])
  }

  /** Two references that have been followed are equal afterwards only if they were before. */
  lemma RenameKeepsDistinct(e: Progress, p: Address, q: Address)
    requires e.Setup() && e.Ordered()
    requires Covers(e.regions, e.phi, p) && Covers(e.regions, e.phi, q) && p != q
    ensures Rename(e.phi, p) != Rename(e.phi, q)
  {
    ForwardingInjective(e);
  }

  lemma RekeyedStays(e: Progress, e': Progress, native: map<Address, NativeRef>, handles: map<nat, Address>,
                     done: set<Address>, scratch: map<Address, NativeRef>, moved: map<nat, Address>)
    requires e.Setup() && Grows(e, e') && e'.Ordered()
    requires Rekeyed(e, native, handles, done, scratch, moved)
    ensures Rekeyed(e', native, handles, done, scratch, moved)
  {
    forall p | p in done
      ensures Rename(e'.phi, p) == Rename(e.phi, p) && Covers(e.regions, e'.phi, p)
    {
      RenameStays(e, e', p);
    }
  }

  lemma ListedOneMore(e: Progress, native: map<Address, NativeRef>, done: set<Address>,
                      scratch: map<Address, NativeRef>, p: Address)
    requires e.Setup() && e.Ordered() && Listed(e, native, done, scratch)
    requires p in native && p !in done && Covers(e.regions, e.phi, p)
    ensures Rename(e.phi, p) !in scratch
    ensures Listed(e, native, done + {p}, scratch[Rename(e.phi, p) := native[p]])
  {
    var to := Rename(e.phi, p);
    forall r | r in done ensures Rename(e.phi, r) != to { RenameKeepsDistinct(e, r, p); }
    var scratch' := scratch[to := native[p]];
    forall q | q in scratch' ensures exists r :: r in done + {p} && Rename(e.phi, r) == q {
      if q == to { assert p in done + {p}; }
      else { var r :| r in done && Rename(e.phi, r) == q; assert r in done + {p}; }
    }
  }

  lemma PointedOneMore(e: Progress, native: map<Address, NativeRef>, handles: map<nat, Address>, done: set<Address>,
                       moved: map<nat, Address>, p: Address)
    requires Pointed(e, handles, done, moved) && TableMatches(native, handles) && p in native
    ensures Pointed(e, handles, done + {p}, moved[native[p].handle := Rename(e.phi, p)])
  {
  }

  /** One entry more: its new key is not one already taken, so no two entries merge. */
  lemma RekeyedOneMore(e: Progress, e': Progress, blocks: map<Address, Block>, blocks': map<Address, Block>,
                       classes: ClassTable, objects: seq<Address>,
                       native: map<Address, NativeRef>, handles: map<nat, Address>,
                       remaining: set<Address>, scratch: map<Address, NativeRef>, moved: map<nat, Address>, p: Address)
    requires Collecting(e, blocks, classes, objects) && Collecting(e', blocks', classes, objects) && Grows(e, e')
    requires Rekeyed(e, native, handles, native.Keys - remaining, scratch, moved) && TableMatches(native, handles)
    requires p in native && p in remaining && Covers(e.regions, e'.phi, p)
    ensures Rename(e'.phi, p) !in scratch
    ensures Rekeyed(e', native, handles, native.Keys - (remaining - {p}), scratch[Rename(e'.phi, p) := native[p]],
                    moved[native[p].handle := Rename(e'.phi, p)])
  {
    hide Collecting, Listed, Pointed, TableMatches;
    CollectingBasics(e, blocks, classes, objects);
    CollectingBasics(e', blocks', classes, objects);
    RekeyedStays(e, e', native, handles, native.Keys - remaining, scratch, moved);
    ListedOneMore(e', native, native.Keys - remaining, scratch, p);
    PointedOneMore(e', native, handles, native.Keys - remaining, moved, p);
    assert native.Keys - remaining + {p} == native.Keys - (remaining - {p});
  }

  lemma CollectingBasics(e: Progress, blocks: map<Address, Block>, classes: ClassTable, objects: seq<Address>)
    requires Collecting(e, blocks, classes, objects)
    ensures e.Setup() && e.Ordered()
  {
  }

  /** The memory and bounds that the functions of the collector receive, with the progress of the
      collection as ghost state. */
  class Collector {
    var blocks: map<Address, Block>
    const classes: ClassTable
    const low: Address
    const high: Address
    ghost var e: Progress
    ghost const objects: seq<Address>

    ghost predicate Running()
      reads this
    {
      Collecting(e, blocks, classes, objects) && low == e.low && high == e.high
    }

    constructor (ghost e: Progress, blocks: map<Address, Block>, classes: ClassTable, low: Address, high: Address,
                 ghost objects: seq<Address>)
      requires Collecting(e, blocks, classes, objects) && low == e.low && high == e.high
      ensures Running() && this.e == e && this.classes == classes && this.objects == objects
    {
      this.blocks := blocks;
      this.classes := classes;
      this.low := low;
      this.high := high;
      this.e := e;
      this.objects := objects;
    }

    /** Returns where `root` is from now on, copying it first if it has not been copied. */
    method ForwardObject(root: Address, destination: Address) returns (location: Address, next: Address)
      requires Running() && e.Traced(root) && destination == e.end
      modifies this
      ensures Running() && Continues(old(e), e) && next == e.end
      ensures Covers(e.regions, e.phi, root) && location == Rename(e.phi, root)
    {
      hide Collecting;
      RootTold(e, blocks, classes, objects, root);
      if root < low || root >= high {
        return root, destination;
      }
      var header := blocks[root].header;
      if header.Forwarded? {
        return header.location, destination;
      }
      var totalSize := BlockSize(classes, header);
      RootEvacuated(e, blocks, classes, objects, root);
      e := Evacuated(e, root, blocks[root]);
      blocks := Evacuate(blocks, root, destination + 8);
      return destination + 8, destination + totalSize;
    }

    /** Forwards every reference of one table: the statics of a class, or a frame's pointer slots. */
    method TrackPointers(slots: seq<Address>, destination: Address) returns (forwarded: seq<Address>, next: Address)
      requires Running() && AllTraced(e, slots) && destination == e.end
      modifies this
      ensures Running() && Continues(old(e), e) && next == e.end
      ensures Redirects(e, slots, forwarded)
    {
      hide Collecting;
      forwarded, next := [], destination;
      for i := 0 to |slots|
        invariant Running() && Continues(old(e), e) && next == e.end
        invariant Redirects(e, slots[..i], forwarded)
      {
        ghost var before, memory := e, blocks;
        var location;
        location, next := ForwardObject(slots[i], next);
        RedirectsStay(before, e, memory, blocks, classes, objects, slots[..i], forwarded);
        RedirectsOneMore(e, slots, forwarded, i, location);
        forwarded := forwarded + [location];
      }
      assert slots[..|slots|] == slots;
    }

    /** The frames of one stack, from the current frame back to the root. */
    method TrackStackPointers(frames: seq<seq<Address>>, destination: Address)
      returns (forwarded: seq<seq<Address>>, next: Address)
      requires Running() && destination == e.end
      requires forall f :: 0 <= f < |frames| ==> AllTraced(e, frames[f])
      modifies this
      ensures Running() && Continues(old(e), e) && next == e.end
      ensures |forwarded| == |frames|
      ensures forall f :: 0 <= f < |frames| ==> Redirects(e, frames[f], forwarded[f])
    {
      hide Collecting, Redirects, AllTraced;
      forwarded, next := frames, destination;
      var f := |frames|;
      while f > 0
        invariant 0 <= f <= |frames| == |forwarded|
        invariant Running() && Continues(old(e), e) && next == e.end
        invariant forall g :: 0 <= g < f ==> AllTraced(e, frames[g])
        invariant forall g :: f <= g < |frames| ==> Redirects(e, frames[g], forwarded[g])
      {
        f := f - 1;
        ghost var before, memory := e, blocks;
        var slots;
        slots, next := TrackPointers(frames[f], next);
        forall g | f < g < |frames| ensures Redirects(e, frames[g], forwarded[g]) {
          RedirectsStay(before, e, memory, blocks, classes, objects, frames[g], forwarded[g]);
        }
        forall g | 0 <= g < f ensures AllTraced(e, frames[g]) { TracedStays(before, e, frames[g]); }
        forwarded := forwarded[f := slots];
      }
    }

    static lemma TracedStays(e: Progress, e': Progress, slots: seq<Address>)
      requires Grows(e, e') && AllTraced(e, slots)
      ensures AllTraced(e', slots)
    {
    }

    /** Moves the table of native references entry by entry into the scratch table. */
    method TrackNativePointers(native: map<Address, NativeRef>, handles: map<nat, Address>, destination: Address)
      returns (scratch: map<Address, NativeRef>, moved: map<nat, Address>, next: Address)
      requires Running() && destination == e.end && TableMatches(native, handles)
      requires forall p :: p in native ==> e.Traced(p)
      modifies this
      ensures Running() && Continues(old(e), e) && next == e.end
      ensures Rekeyed(e, native, handles, native.Keys, scratch, moved)
    {
      hide Collecting, Rekeyed;
      scratch, moved, next := map[], handles, destination;
      var remaining := native.Keys;
      assert Rekeyed(e, native, handles, {}, scratch, moved) by { NothingRekeyed(e, native, handles); }
      assert native.Keys - remaining == {};
      while remaining != {}
        invariant remaining <= native.Keys
        invariant Running() && Continues(old(e), e) && next == e.end
        invariant Rekeyed(e, native, handles, native.Keys - remaining, scratch, moved)
        decreases |remaining|
      {
        var p :| p in remaining;
        ghost var before, memory := e, blocks;
        var location;
        location, next := ForwardObject(p, next);
        RekeyedOneMore(before, e, memory, blocks, classes, objects, native, handles, remaining, scratch, moved, p);
        scratch := scratch[location := native[p]];
        moved := moved[native[p].handle := location];
        remaining := remaining - {p};
      }
      assert native.Keys - remaining == native.Keys;
    }

    static lemma NothingRekeyed(e: Progress, native: map<Address, NativeRef>, handles: map<nat, Address>)
      ensures Rekeyed(e, native, handles, {}, map[], handles)
    {
    }

    /** Redirects the `count` references of the copy at `at`. */
    method ScanReferences(at: Address, count: nat, destination: Address) returns (next: Address)
      requires Running() && destination == e.end && e.slot == 0
      requires e.scanned < |e.at| && at == ScanAddress(e)
      requires e.scanned < |e.source| && count == |e.source[e.scanned].pointers|
      modifies this
      ensures Running() && Grows(old(e), e) && next == e.end
      ensures e.scanned == old(e.scanned) && e.slot == count
      ensures e.scanned < |e.source| && e.source[e.scanned] == old(e.source[e.scanned])
      ensures ScanAddress(e) == at && at in blocks && blocks[at].header == old(e.source[e.scanned].header)
    {
      hide Collecting;
      next := destination;
      for i := 0 to count
        invariant Running() && Grows(old(e), e) && next == e.end
        invariant e.scanned == old(e.scanned) && e.slot == i
      {
        ScanTarget(e, blocks, classes, objects);
        ghost var before := e;
        var location;
        location, next := ForwardObject(blocks[at].pointers[i], next);
        ScanTarget(e, blocks, classes, objects);
        ghost var p := e.source[e.scanned].pointers[i];
        ScanStep(e, blocks, classes, objects, p);
        ghost var block := Redirect(e.copies[e.scanned], i, location);
        e := Redirected(e, block);
        blocks := blocks[at := Redirect(blocks[at], i, location)];
      }
      ScanTarget(e, blocks, classes, objects);
      ScanHeader(e, blocks, classes, objects);
    }

    static lemma ScanHeader(e: Progress, blocks: map<Address, Block>, classes: ClassTable, objects: seq<Address>)
      requires Collecting(e, blocks, classes, objects) && e.scanned < |e.source| && e.scanned < |e.copies|
      ensures e.copies[e.scanned].header == e.source[e.scanned].header
    {
      assert e.IsCopy(e.source[e.scanned], e.Done(e.scanned), e.copies[e.scanned]);
    }

    /** Scans the copies from the first to the last, extending the copied region as it goes. It
        terminates because each step reduces the objects not yet copied plus the copies not yet
        scanned. */
    method CleanupMigratedObjects(start: Address, destination: Address) returns (end: Address)
      requires Running() && start == e.start && destination == e.end && e.scanned == 0 && e.slot == 0
      modifies this
      ensures Running() && Grows(old(e), e) && end == e.end
      ensures e.scanned == |e.order|
    {
      hide Collecting;
      ScanStarts(e, blocks, classes, objects);
      var begin := start + 8;
      end := destination;
      while begin < end
        invariant Running() && Grows(old(e), e) && end == e.end
        invariant begin == ScanAddress(e) && e.slot == 0
        decreases |e.live| - e.scanned
      {
        ghost var before := e;
        ScanTarget(e, blocks, classes, objects);
        ScanHeader(e, blocks, classes, objects);
        var header := blocks[begin].header;
        end := ScanReferences(begin, References(classes, header), end);
        ScanPasses(e, blocks, classes, objects);
        e := Passed(e);
        begin := begin + BlockSize(classes, header);
      }
      ScanTarget(e, blocks, classes, objects);
      assert e.scanned == |e.order| by { ScanEnds(e, blocks, classes, objects); }
    }

    static lemma ScanEnds(e: Progress, blocks: map<Address, Block>, classes: ClassTable, objects: seq<Address>)
      requires Collecting(e, blocks, classes, objects) && e.scanned >= |e.at|
      ensures e.scanned == |e.order|
    {
    }
  }
}
