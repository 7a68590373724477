/** Heap objects, roots, and what it means for one heap to be a moved copy of another
    (classes/object.h, classes/object.cpp, memory/oheap.cpp). */
module Objects {
  import opened Prelude
  import opened Layout
  import opened Values

  type Address = nat

  /** The first word of an object: class pointer, array header, or, during a collection, the
      address the object moved to. */
  datatype Header = Instance(cls: nat) | Array(element: Datatype, length: nat) | Forwarded(location: Address)

  /** An object's header, its reference section and the rest of its payload. */
  datatype Block = Block(header: Header, pointers: seq<Address>, data: seq<Byte>)

  /** The instance part of each loaded class's header, by class pointer. */
  type ClassTable = map<nat, SectionTable>

  // ---- Sizes ----------------------------------------------------------------------------------

  /** The least multiple of the word size that holds `amount`. */
  function AlignedMemoryAmount(amount: nat): (r: nat)
    ensures r % 8 == 0 && amount <= r < amount + 8
  {
    (amount + 7) - (amount + 7) % 8
  }

  function PayloadSize(classes: ClassTable, header: Header): nat {
    match header
    case Instance(c) => if c in classes then classes[c].totalSize else 0
    case Array(element, length) => Size(element) * length
    case Forwarded(_) => 0
  }

  /** Bytes from the start of an object's allocation to the start of the next: an 8-byte prefix,
      the header word and the payload, rounded to words. */
  function BlockSize(classes: ClassTable, header: Header): (size: nat)
    ensures size >= 16 && size % 8 == 0
  {
    AlignedMemoryAmount(PayloadSize(classes, header) + 16)
  }

  /** The request for an array of a signed 32-bit length, in 64-bit unsigned arithmetic. */
  function ArrayRequest(element: Datatype, length: int): nat {
    (length % ADDRESS_LIMIT * Size(element) + 8) % ADDRESS_LIMIT
  }

  /** It is the header and the elements if and only if the length is not negative: for a negative one
      it wraps around to less than the header or to more than any memory. */
  lemma ArrayRequestHolds(element: Datatype, length: int)
    requires -0x8000_0000 <= length < 0x8000_0000
    ensures length >= 0 ==> ArrayRequest(element, length) == Size(element) * length + 8
    ensures length >= 0 <==> 8 <= ArrayRequest(element, length) < 0x8000_0000_0000_0000
  {
    var z, negative := Size(element), if length < 0 then 1 else 0;
    var bytes := ByCases(length, z);
    WrapsTo(length, -negative, length + negative * ADDRESS_LIMIT);
    assert (length + negative * ADDRESS_LIMIT) * z + 8 == negative * z * ADDRESS_LIMIT + bytes + 8;
    if bytes + 8 >= 0 {
      WrapsTo(negative * z * ADDRESS_LIMIT + bytes + 8, negative * z, bytes + 8);
    } else {
      WrapsTo(negative * z * ADDRESS_LIMIT + bytes + 8, z - 1, ADDRESS_LIMIT + bytes + 8);
    }
  }

  lemma WrapsTo(x: int, k: int, r: int)
    requires x == k * ADDRESS_LIMIT + r && 0 <= r < ADDRESS_LIMIT
    ensures x % ADDRESS_LIMIT == r
  {
  }

  lemma ByCases(length: int, z: nat) returns (bytes: int)
    requires z in {1, 2, 4, 8} && -0x8000_0000 <= length < 0x8000_0000
    ensures bytes == z * length && -0x4_0000_0000 <= bytes < 0x4_0000_0000
    ensures (length < 0 <==> bytes < 0) && (length >= 0 <==> bytes >= 0)
  {
    bytes := z * length;
  }

  /** The pointer map of a class covers whole words and lies within the object. */
  predicate PointerMap(layout: SectionTable) {
    layout.doubleOffset % 8 == 0 && layout.doubleOffset <= layout.totalSize
  }

  /** Headers the loader writes give such maps, with one word for each reference field. */
  lemma LoadedHeadersAreMaps(lineage: seq<seq<Datatype>>)
    requires ClassHeaders.FitsIn32Bits(lineage)
    ensures PointerMap(ClassHeaders.HeaderOf(lineage))
    ensures ClassHeaders.HeaderOf(lineage).doubleOffset == 8 * Count(Flatten(lineage), OBJECT)
  {
    ClassHeaders.HeaderCountsEveryField(lineage);
    FittingMap(Totals(Flatten(lineage)));
  }

  lemma FittingMap(counts: Counts)
    requires Total(counts) < WORD
    ensures PointerMap(LayoutOf(counts)) && LayoutOf(counts).doubleOffset == 8 * counts[OBJECT]
  {
    ClassHeaders.FittingSection(counts, OBJECT);
    ClassHeaders.FittingSection(counts, BYTE);
    SectionsInOrder(counts, OBJECT, BYTE);
    var layout := LayoutOf(counts);
    assert layout.Limit(OBJECT) == layout.doubleOffset && layout.Limit(BYTE) == layout.totalSize;
    assert End(counts, OBJECT) == counts[OBJECT] * 8;
    MultipleOf(counts[OBJECT], 8);
  }

  /** A block whose sections are as long as its header says. */
  predicate Shaped(classes: ClassTable, block: Block) {
    match block.header
    case Instance(c) =>
      && c in classes && PointerMap(classes[c])
      && 8 * |block.pointers| == classes[c].doubleOffset
      && |block.data| == classes[c].totalSize - classes[c].doubleOffset
    case Array(element, length) =>
      if element == OBJECT then |block.pointers| == length && block.data == []
      else block.pointers == [] && |block.data| == Size(element) * length
    case Forwarded(_) => false
  }

  /** A header an allocation can be asked for. */
  predicate Allocatable(classes: ClassTable, header: Header) {
    match header
    case Instance(c) => c in classes && PointerMap(classes[c])
    case Array(_, _) => true
    case Forwarded(_) => false
  }

  // ---- Objects as bytes -----------------------------------------------------------------------

  function PointerBytes(pointers: seq<Address>): (bytes: seq<Byte>)
    ensures |bytes| == 8 * |pointers|
  {
    if pointers == [] then []
    else PointerBytes(pointers[..|pointers| - 1]) + Encode(OBJECT, pointers[|pointers| - 1])
  }

  /** What lies behind an object's first word. */
  function Payload(block: Block): (bytes: seq<Byte>)
    ensures |bytes| == 8 * |block.pointers| + |block.data|
  {
    PointerBytes(block.pointers) + block.data
  }

  /** Reference i lies at word i. */
  lemma {:induction false} PointerBytesAt(pointers: seq<Address>, i: nat)
    requires i < |pointers|
    ensures PointerBytes(pointers)[8 * i..8 * i + 8] == Encode(OBJECT, pointers[i])
  {
    var n := |pointers| - 1;
    if i < n {
      PointerBytesAt(pointers[..n], i);
      assert PointerBytes(pointers)[8 * i..8 * i + 8] == PointerBytes(pointers[..n])[8 * i..8 * i + 8];
    }
  }

  lemma {:induction false} PointerBytesWritten(pointers: seq<Address>, i: nat, p: Address)
    requires i < |pointers|
    ensures PointerBytes(pointers[i := p]) == Overwrite(PointerBytes(pointers), 8 * i, Encode(OBJECT, p))
  {
    var n := |pointers| - 1;
    if i < n {
      PointerBytesWritten(pointers[..n], i, p);
      assert pointers[i := p][..n] == pointers[..n][i := p];
    } else {
      assert pointers[i := p][..n] == pointers[..n];
    }
  }

  /** An object is read as references at its first words ... */
  lemma PointerRead(block: Block, i: nat)
    requires i < |block.pointers| && block.pointers[i] < ADDRESS_LIMIT
    ensures ReadValue(Payload(block), OBJECT, 8 * i) == block.pointers[i]
  {
    PointerBytesAt(block.pointers, i);
    DecodeEncode(OBJECT, block.pointers[i]);
    assert Payload(block)[8 * i..8 * i + 8] == PointerBytes(block.pointers)[8 * i..8 * i + 8];
  }

  /** ... and written there word by word, and behind them byte by byte. */
  lemma PointerWritten(block: Block, i: nat, p: Address)
    requires i < |block.pointers|
    ensures Payload(block.(pointers := block.pointers[i := p])) == WriteValue(Payload(block), OBJECT, 8 * i, p)
  {
    PointerBytesWritten(block.pointers, i, p);
  }

  lemma DataWritten(block: Block, i: nat, value: seq<Byte>)
    requires i + |value| <= |block.data|
    ensures Payload(block.(data := Overwrite(block.data, i, value))) ==
        Overwrite(Payload(block), 8 * |block.pointers| + i, value)
  {
  }

  /** A store into a field at an offset: into a reference, or into the data behind the references. */
  function StoreField(block: Block, t: Datatype, offset: nat, v: int): Block
    requires IsValue(t, v)
    requires if t == OBJECT then offset / 8 < |block.pointers|
             else 8 * |block.pointers| <= offset && offset + Size(t) <= 8 * |block.pointers| + |block.data|
  {
    if t == OBJECT then block.(pointers := block.pointers[offset / 8 := v])
    else block.(data := Overwrite(block.data, offset - 8 * |block.pointers|, Encode(t, v)))
  }

  /** Every field of a class finds its place in the references or in the data of an instance, and a store there
      is the store at its offset into the payload. */
  lemma FieldStored(classes: ClassTable, block: Block, lineage: seq<seq<Datatype>>, k: nat, j: nat, v: int)
    requires Shaped(classes, block) && block.header.Instance? && ClassHeaders.FitsIn32Bits(lineage)
    requires classes[block.header.cls] == ClassHeaders.HeaderOf(lineage)
    requires k < |lineage| && j < |lineage[k]| && IsValue(lineage[k][j], v)
    ensures
      var t, offset := lineage[k][j], ClassHeaders.RangeOf(lineage, k, j).from;
      && (if t == OBJECT then offset / 8 < |block.pointers|
          else 8 * |block.pointers| <= offset && offset + Size(t) <= 8 * |block.pointers| + |block.data|)
      && offset + Size(t) <= |Payload(block)|
      && Shaped(classes, StoreField(block, t, offset, v))
      && Payload(StoreField(block, t, offset, v)) == WriteValue(Payload(block), t, offset, v)
  {
    var t, offset := lineage[k][j], ClassHeaders.RangeOf(lineage, k, j).from;
    FieldSide(lineage, k, j);
    ShapedInstance(classes, block);
    hide ClassHeaders.HeaderOf, ClassHeaders.RangeOf, ClassHeaders.FitsIn32Bits, Payload, WriteValue, Shaped,
         StoreField;
    StoreIsWrite(block, t, offset, v);
    ShapedByLengths(classes, block, StoreField(block, t, offset, v));
  }

  lemma ShapedInstance(classes: ClassTable, block: Block)
    requires Shaped(classes, block) && block.header.Instance?
    ensures block.header.cls in classes && 8 * |block.pointers| == classes[block.header.cls].doubleOffset
    ensures 8 * |block.pointers| + |block.data| == classes[block.header.cls].totalSize
  {
  }

  lemma ShapedByLengths(classes: ClassTable, block: Block, other: Block)
    requires Shaped(classes, block) && other.header == block.header
    requires |other.pointers| == |block.pointers| && |other.data| == |block.data|
    ensures Shaped(classes, other)
  {
  }

  lemma StoreIsWrite(block: Block, t: Datatype, offset: nat, v: int)
    requires IsValue(t, v)
    requires if t == OBJECT then offset % 8 == 0 && offset + 8 <= 8 * |block.pointers|
             else 8 * |block.pointers| <= offset && offset + Size(t) <= 8 * |block.pointers| + |block.data|
    ensures
      var after := StoreField(block, t, offset, v);
      && after.header == block.header
      && |after.pointers| == |block.pointers| && |after.data| == |block.data|
      && offset + Size(t) <= |Payload(block)| && Payload(after) == WriteValue(Payload(block), t, offset, v)
  {
    if t == OBJECT { PointerStore(block, offset / 8, v); } else { DataStore(block, t, offset, v); }
    hide Payload, Overwrite, Encode, WriteValue;
  }

  lemma PointerStore(block: Block, i: nat, p: Address)
    requires i < |block.pointers| && IsValue(OBJECT, p)
    ensures StoreField(block, OBJECT, 8 * i, p) == block.(pointers := block.pointers[i := p])
    ensures Payload(StoreField(block, OBJECT, 8 * i, p)) == WriteValue(Payload(block), OBJECT, 8 * i, p)
  {
    hide Payload, WriteValue;
    PointerWritten(block, i, p);
  }

  lemma DataStore(block: Block, t: Datatype, offset: nat, v: int)
    requires t != OBJECT && IsValue(t, v) && 8 * |block.pointers| <= offset
    requires offset + Size(t) <= 8 * |block.pointers| + |block.data|
    ensures Payload(StoreField(block, t, offset, v)) == WriteValue(Payload(block), t, offset, v)
  {
    hide Payload;
    DataWritten(block, offset - 8 * |block.pointers|, Encode(t, v));
  }

  /** References lie in front of the double offset, all other fields behind it. */
  lemma FieldSide(lineage: seq<seq<Datatype>>, k: nat, j: nat)
    requires ClassHeaders.FitsIn32Bits(lineage) && k < |lineage| && j < |lineage[k]|
    ensures
      var t, offset, layout := lineage[k][j], ClassHeaders.RangeOf(lineage, k, j).from, ClassHeaders.HeaderOf(lineage);
      && offset + Size(t) <= layout.totalSize
      && if t == OBJECT then offset % 8 == 0 && offset + 8 <= layout.doubleOffset else layout.doubleOffset <= offset
  {
    var t, all, f := lineage[k][j], Flatten(lineage), ClassHeaders.Position(lineage, k, j);
    ClassHeaders.IndexKeepsMeaning(lineage, k, j);
    ClassHeaders.HeaderCountsEveryField(lineage);
    FieldInBounds(all, f);
    ClassHeaders.FittingSection(Totals(all), OBJECT);
    ClassHeaders.FittingSection(Totals(all), BYTE);
    if t != OBJECT { SectionsInOrder(Totals(all), OBJECT, t); }
    hide ClassHeaders.HeaderOf, ClassHeaders.RangeOf, ClassHeaders.FitsIn32Bits, ClassHeaders.Position, Place, Start,
         End;
    assert LayoutOf(Totals(all)).Limit(OBJECT) == LayoutOf(Totals(all)).doubleOffset;
    assert LayoutOf(Totals(all)).Limit(BYTE) == LayoutOf(Totals(all)).totalSize;
  }

  /** The payload is as long as the class's fields or the array's elements need ... */
  lemma PayloadFills(classes: ClassTable, block: Block)
    requires Shaped(classes, block)
    ensures
      match block.header
      case Instance(c) => c in classes && |Payload(block)| == classes[c].totalSize
      case Array(element, length) => |Payload(block)| == ElementOffset(element, length)
      case Forwarded(_) => false
  {
  }

  /** ... and the allocation holds it behind the prefix and the first word, with less than a word to spare. */
  lemma BlockHoldsPayload(classes: ClassTable, block: Block)
    requires Shaped(classes, block)
    ensures 16 + |Payload(block)| <= BlockSize(classes, block.header) < 24 + |Payload(block)|
  {
  }

  // ---- New objects ----------------------------------------------------------------------------

  /** What freshly committed memory, which is zero, holds once the header is written. */
  function Zeroed(classes: ClassTable, header: Header): (block: Block)
    requires Allocatable(classes, header)
    ensures Shaped(classes, block)
    ensures block.header == header
    ensures forall i :: 0 <= i < |block.pointers| ==> block.pointers[i] == 0
    ensures forall i :: 0 <= i < |block.data| ==> block.data[i] == 0
  {
    match header
    case Instance(c) =>
      Block(header, seq(classes[c].doubleOffset / 8, _ => 0),
            seq(classes[c].totalSize - classes[c].doubleOffset, _ => 0))
    case Array(element, length) =>
      if element == OBJECT then Block(header, seq(length, _ => 0), [])
      else Block(header, [], seq(Size(element) * length, _ => 0))
  }

  // ---- Address ranges -------------------------------------------------------------------------

  /** The reservations of the two spaces; addresses from `top` on are used by no allocator. */
  datatype Regions = Regions(base0: Address, cap0: Address, base1: Address, cap1: Address, top: Address) {
    predicate Valid() {
      && 0 < base0 <= cap0 <= top && 0 < base1 <= cap1 <= top
      && (cap0 <= base1 || cap1 <= base0)
    }

    /** Null and every other address below `top` that no space covers. */
    predicate Foreign(p: Address) {
      p < top && !(base0 <= p < cap0) && !(base1 <= p < cap1)
    }
  }

  // ---- States ---------------------------------------------------------------------------------

  /** Where the virtual machine keeps references outside the heap. */
  datatype Root =
    | Static(cls: nat, index: nat)
    | Local(thread: nat, frame: nat, slot: nat)
    | Handle(handle: nat)

  /** Objects, root contents, pointer-slot counts of the live frames of each thread, and the
      reference count of each native handle. */
  datatype State = State(
    blocks: map<Address, Block>, roots: map<Root, Address>, shape: seq<seq<nat>>, counts: map<nat, nat>)

  ghost predicate Resolves(regions: Regions, blocks: map<Address, Block>, p: Address) {
    p in blocks || regions.Foreign(p)
  }

  ghost predicate AllResolve(regions: Regions, blocks: map<Address, Block>, pointers: seq<Address>) {
    forall i :: 0 <= i < |pointers| ==> Resolves(regions, blocks, pointers[i])
  }

  ghost predicate LocalExists(shape: seq<seq<nat>>, k: Root) {
    k.Local? && k.thread < |shape| && k.frame < |shape[k.thread]| && k.slot < shape[k.thread][k.frame]
  }

  /** Each handle has a positive count and no object has two handles. */
  ghost predicate HandlesMatch(s: State) {
    && (forall h :: Handle(h) in s.roots <==> h in s.counts)
    && (forall h :: h in s.counts ==> s.counts[h] > 0)
    && (forall g, h :: Handle(g) in s.roots && Handle(h) in s.roots && s.roots[Handle(g)] == s.roots[Handle(h)] ==>
      g == h)
  }

  /** No dangling references; object and frame shapes agree with what describes them. */
  ghost predicate WellFormed(regions: Regions, classes: ClassTable, s: State) {
    && (forall a :: a in s.blocks ==>
          !regions.Foreign(a) && Shaped(classes, s.blocks[a]) && AllResolve(regions, s.blocks, s.blocks[a].pointers))
    && (forall k :: k in s.roots ==> Resolves(regions, s.blocks, s.roots[k]))
    && (forall k: Root :: k.Local? ==> (k in s.roots <==> LocalExists(s.shape, k)))
    && HandlesMatch(s)
  }

  /** A path of references from a root to its last object. */
  ghost predicate IsPath(s: State, path: seq<Address>) {
    && |path| > 0
    && path[0] in s.roots.Values
    && (forall i :: 0 <= i < |path| ==> path[i] in s.blocks)
    && (forall i :: 0 < i < |path| ==> path[i] in s.blocks[path[i - 1]].pointers)
  }

  ghost predicate Reachable(s: State, a: Address) {
    exists path :: IsPath(s, path) && path[|path| - 1] == a
  }

  /** The objects a collection has to keep. */
  ghost function Live(s: State): set<Address> { set a | a in s.blocks && Reachable(s, a) }

  lemma RootReachable(s: State, k: Root)
    requires k in s.roots && s.roots[k] in s.blocks
    ensures Reachable(s, s.roots[k])
  {
    assert s.roots[k] in s.roots.Values;
    assert IsPath(s, [s.roots[k]]);
  }

  lemma PointeeReachable(s: State, a: Address, p: Address)
    requires Reachable(s, a) && a in s.blocks && p in s.blocks[a].pointers && p in s.blocks
    ensures Reachable(s, p)
  {
    var path :| IsPath(s, path) && path[|path| - 1] == a;
    assert IsPath(s, path + [p]);
  }

  /** References out of live objects, and out of roots, lead to live objects or out of the heap. */
  ghost predicate Closed(regions: Regions, s: State, live: set<Address>) {
    && live <= s.blocks.Keys
    && (forall a, i :: a in live && 0 <= i < |s.blocks[a].pointers| ==>
          s.blocks[a].pointers[i] in live || regions.Foreign(s.blocks[a].pointers[i]))
    && (forall k :: k in s.roots ==> s.roots[k] in live || regions.Foreign(s.roots[k]))
  }

  lemma LiveIsClosed(regions: Regions, classes: ClassTable, s: State)
    requires WellFormed(regions, classes, s)
    ensures Closed(regions, s, Live(s))
  {
    forall k | k in s.roots ensures s.roots[k] in Live(s) || regions.Foreign(s.roots[k]) {
      assert Resolves(regions, s.blocks, s.roots[k]);
      if s.roots[k] in s.blocks { RootReachable(s, k); }
    }
    forall a, i | a in Live(s) && 0 <= i < |s.blocks[a].pointers|
      ensures s.blocks[a].pointers[i] in Live(s) || regions.Foreign(s.blocks[a].pointers[i])
    {
      assert AllResolve(regions, s.blocks, s.blocks[a].pointers);
      assert Resolves(regions, s.blocks, s.blocks[a].pointers[i]);
      if s.blocks[a].pointers[i] in s.blocks { PointeeReachable(s, a, s.blocks[a].pointers[i]); }
    }
  }

  // ---- Renaming -------------------------------------------------------------------------------

  function Rename(phi: map<Address, Address>, p: Address): Address { if p in phi then phi[p] else p }

  function RenameAll(phi: map<Address, Address>, pointers: seq<Address>): seq<Address> {
    seq(|pointers|, i requires 0 <= i < |pointers| => Rename(phi, pointers[i]))
  }

  function RenameBlock(phi: map<Address, Address>, block: Block): Block {
    block.(pointers := RenameAll(phi, block.pointers))
  }

  function RenameRoots(phi: map<Address, Address>, roots: map<Root, Address>): map<Root, Address> {
    map k | k in roots :: Rename(phi, roots[k])
  }

  ghost predicate Injective(phi: map<Address, Address>) {
    forall a, b :: a in phi && b in phi && phi[a] == phi[b] ==> a == b
  }

  ghost predicate Covers(regions: Regions, phi: map<Address, Address>, p: Address) {
    p in phi || regions.Foreign(p)
  }

  /** `t` is the part of `s` that `phi` selects, moved by `phi`: headers and data are kept, every
      reference commutes with the move, nothing else exists in `t`, and no root is left behind. */
  ghost predicate Image(regions: Regions, s: State, t: State, phi: map<Address, Address>) {
    && Injective(phi)
    && phi.Keys <= s.blocks.Keys && t.blocks.Keys == phi.Values
    && (forall a :: a in s.blocks ==> !regions.Foreign(a))
    && (forall a :: a in t.blocks ==> !regions.Foreign(a))
    && (forall a :: a in phi ==> t.blocks[phi[a]] == RenameBlock(phi, s.blocks[a]))
    && (forall a, i :: a in phi && 0 <= i < |s.blocks[a].pointers| ==> Covers(regions, phi, s.blocks[a].pointers[i]))
    && (forall k :: k in s.roots ==> Covers(regions, phi, s.roots[k]))
    && t.roots == RenameRoots(phi, s.roots)
    && t.shape == s.shape && t.counts == s.counts
  }

  /** A full collection: an image of exactly the objects reachable from the roots. */
  ghost predicate Collects(regions: Regions, s: State, t: State, phi: map<Address, Address>) {
    Image(regions, s, t, phi) && forall a :: a in phi <==> Reachable(s, a)
  }

  function Compose(rho: map<Address, Address>, phi: map<Address, Address>): map<Address, Address> {
    map a | a in rho && rho[a] in phi :: phi[rho[a]]
  }

  lemma RenameCompose(regions: Regions, rho: map<Address, Address>, phi: map<Address, Address>, p: Address)
    requires Covers(regions, rho, p) && Covers(regions, phi, Rename(rho, p))
    requires forall a :: a in rho ==> !regions.Foreign(a) && !regions.Foreign(rho[a])
    requires forall a :: a in phi ==> !regions.Foreign(a)
    ensures Covers(regions, Compose(rho, phi), p)
    ensures Rename(Compose(rho, phi), p) == Rename(phi, Rename(rho, p))
  {
  }

  lemma ImageKeysManaged(regions: Regions, s: State, t: State, rho: map<Address, Address>)
    requires Image(regions, s, t, rho)
    ensures forall a :: a in rho ==> !regions.Foreign(a) && !regions.Foreign(rho[a]) && rho[a] in t.blocks
  {
    forall a | a in rho ensures rho[a] in t.blocks { assert rho[a] in rho.Values; }
  }

  lemma ComposeBlock(regions: Regions, s: State, t: State, u: State, rho: map<Address, Address>,
                     phi: map<Address, Address>, a: Address)
    requires Image(regions, s, t, rho) && Image(regions, t, u, phi)
    requires a in rho && rho[a] in phi
    ensures forall i :: 0 <= i < |s.blocks[a].pointers| ==> Covers(regions, Compose(rho, phi), s.blocks[a].pointers[i])
    ensures u.blocks[phi[rho[a]]] == RenameBlock(Compose(rho, phi), s.blocks[a])
  {
    ImageKeysManaged(regions, s, t, rho);
    var from, mid := s.blocks[a].pointers, t.blocks[rho[a]].pointers;
    assert mid == RenameAll(rho, from);
    forall i | 0 <= i < |from|
      ensures Covers(regions, Compose(rho, phi), from[i]) && Rename(Compose(rho, phi), from[i]) == Rename(phi, mid[i])
    {
      assert mid[i] == Rename(rho, from[i]) && Covers(regions, phi, mid[i]);
      RenameCompose(regions, rho, phi, from[i]);
    }
    assert RenameAll(Compose(rho, phi), from) == RenameAll(phi, mid);
  }

  lemma ComposeRoots(regions: Regions, s: State, t: State, u: State, rho: map<Address, Address>,
                     phi: map<Address, Address>)
    requires Image(regions, s, t, rho) && Image(regions, t, u, phi)
    ensures forall k :: k in s.roots ==> Covers(regions, Compose(rho, phi), s.roots[k])
    ensures u.roots == RenameRoots(Compose(rho, phi), s.roots)
  {
    hide RenameBlock, Injective, Compose;
    ImageKeysManaged(regions, s, t, rho);
    forall k | k in s.roots
      ensures Covers(regions, Compose(rho, phi), s.roots[k]) && u.roots[k] == Rename(Compose(rho, phi), s.roots[k])
    {
      assert t.roots[k] == Rename(rho, s.roots[k]) && Covers(regions, phi, t.roots[k]);
      RenameCompose(regions, rho, phi, s.roots[k]);
    }
  }

  /** Moving twice is moving once. */
  lemma ImageCompose(regions: Regions, s: State, t: State, u: State, rho: map<Address, Address>,
                     phi: map<Address, Address>)
    requires Image(regions, s, t, rho) && Image(regions, t, u, phi)
    ensures Image(regions, s, u, Compose(rho, phi))
  {
    forall a | a in Compose(rho, phi)
      ensures forall i :: 0 <= i < |s.blocks[a].pointers| ==>
          Covers(regions, Compose(rho, phi), s.blocks[a].pointers[i])
      ensures u.blocks[phi[rho[a]]] == RenameBlock(Compose(rho, phi), s.blocks[a])
    {
      ComposeBlock(regions, s, t, u, rho, phi, a);
    }
    ComposeRoots(regions, s, t, u, rho, phi);
    SameValues(rho, phi);
  }

  lemma SameValues(rho: map<Address, Address>, phi: map<Address, Address>)
    requires phi.Keys <= rho.Values
    ensures Compose(rho, phi).Values == phi.Values
  {
    forall b | b in phi.Values ensures b in Compose(rho, phi).Values {
      var a :| a in phi && phi[a] == b;
      assert a in rho.Values;
      var x :| x in rho && rho[x] == a;
      assert x in Compose(rho, phi) && Compose(rho, phi)[x] == b;
    }
    forall b | b in Compose(rho, phi).Values ensures b in phi.Values {
      var x :| x in Compose(rho, phi) && Compose(rho, phi)[x] == b;
      assert phi[rho[x]] == b;
    }
  }
}
