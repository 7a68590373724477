/** The garbage-collected heap (memory/oheap.cpp). Allocation writes the header into zeroed memory
    and takes the rounded size that copying and scanning use. */
module Heaps {
  import opened Prelude
  import opened Layout
  import opened ClassHeaders
  import opened Objects
  import opened Values
  import opened Evacuation
  import opened StopAndCopy
  import opened Semispaces
  import opened Machine

  // ---- The state a heap object stands for -----------------------------------------------------

  function StaticRoots(statics: seq<seq<Address>>): map<Root, Address> {
    map c, i | 0 <= c < |statics| && 0 <= i < |statics[c]| :: Static(c, i) := statics[c][i]
  }

  function LocalRoots(stacks: seq<seq<seq<Address>>>): map<Root, Address> {
    map t, f, i | 0 <= t < |stacks| && 0 <= f < |stacks[t]| && 0 <= i < |stacks[t][f]| ::
      Local(t, f, i) := stacks[t][f][i]
  }

  function HandleRoots(handles: map<nat, Address>): map<Root, Address> {
    map h | h in handles :: Handle(h) := handles[h]
  }

  function ShapeOf(stacks: seq<seq<seq<Address>>>): seq<seq<nat>> {
    seq(|stacks|, t requires 0 <= t < |stacks| =>
      seq(|stacks[t]|, f requires 0 <= f < |stacks[t]| => |stacks[t][f]|))
  }

  function CountsIn(native: map<Address, NativeRef>, handles: map<nat, Address>): map<nat, nat> {
    map h | h in handles && handles[h] in native :: native[handles[h]].count
  }

  /** The reference tables of the virtual machine: class statics, pointer slots of the live frames
      of each executor, and native handles with the table that counts them. */
  datatype Tables = Tables(
    statics: seq<seq<Address>>, stacks: seq<seq<seq<Address>>>,
    native: map<Address, NativeRef>, handles: map<nat, Address>)
  {
    function Roots(): map<Root, Address> { StaticRoots(statics) + LocalRoots(stacks) + HandleRoots(handles) }

    function View(blocks: map<Address, Block>): State {
      State(blocks, Roots(), ShapeOf(stacks), CountsIn(native, handles))
    }
  }

  ghost predicate AllTables(e: Progress, from: seq<seq<Address>>, to: seq<seq<Address>>) {
    |to| == |from| && forall c :: 0 <= c < |from| ==> Redirects(e, from[c], to[c])
  }

  ghost predicate AllStacks(e: Progress, from: seq<seq<seq<Address>>>, to: seq<seq<seq<Address>>>) {
    |to| == |from| && forall t :: 0 <= t < |from| ==> AllTables(e, from[t], to[t])
  }

  /** Every table has been redirected. */
  ghost predicate AllRedirected(e: Progress, from: Tables, to: Tables) {
    && AllTables(e, from.statics, to.statics)
    && AllStacks(e, from.stacks, to.stacks)
    && Rekeyed(e, from.native, from.handles, from.native.Keys, to.native, to.handles)
  }

  lemma StaticsRenamed(e: Progress, from: seq<seq<Address>>, to: seq<seq<Address>>)
    requires AllTables(e, from, to)
    ensures StaticRoots(to) == RenameRoots(e.phi, StaticRoots(from))
    ensures forall k :: k in StaticRoots(from) ==> Covers(e.regions, e.phi, StaticRoots(from)[k])
  {
    forall c, i | 0 <= c < |from| && 0 <= i < |from[c]|
      ensures |to[c]| == |from[c]| && to[c][i] == Rename(e.phi, from[c][i]) && Covers(e.regions, e.phi, from[c][i])
    {
      assert Redirects(e, from[c], to[c]);
    }
    forall c | 0 <= c < |from| ensures |to[c]| == |from[c]| { assert Redirects(e, from[c], to[c]); }
  }

  lemma StacksRenamed(e: Progress, from: seq<seq<seq<Address>>>, to: seq<seq<seq<Address>>>)
    requires AllStacks(e, from, to)
    ensures LocalRoots(to) == RenameRoots(e.phi, LocalRoots(from)) && ShapeOf(to) == ShapeOf(from)
    ensures forall k :: k in LocalRoots(from) ==> Covers(e.regions, e.phi, LocalRoots(from)[k])
  {
    forall t, f | 0 <= t < |from| && 0 <= f < |from[t]|
      ensures |to[t]| == |from[t]| && Redirects(e, from[t][f], to[t][f])
    {
      assert AllTables(e, from[t], to[t]);
    }
    forall t | 0 <= t < |from| ensures |to[t]| == |from[t]| { assert AllTables(e, from[t], to[t]); }
    forall t, f, i | 0 <= t < |from| && 0 <= f < |from[t]| && 0 <= i < |from[t][f]|
      ensures |to[t][f]| == |from[t][f]| && to[t][f][i] == Rename(e.phi, from[t][f][i])
      ensures Covers(e.regions, e.phi, from[t][f][i])
    {
      assert Redirects(e, from[t][f], to[t][f]);
    }
    forall t | 0 <= t < |from| ensures ShapeOf(to)[t] == ShapeOf(from)[t] {
      forall f | 0 <= f < |from[t]| ensures ShapeOf(to)[t][f] == ShapeOf(from)[t][f] {
        assert Redirects(e, from[t][f], to[t][f]);
      }
    }
  }

  lemma RenameUnion(phi: map<Address, Address>, a: map<Root, Address>, b: map<Root, Address>)
    ensures RenameRoots(phi, a + b) == RenameRoots(phi, a) + RenameRoots(phi, b)
  {
  }

  /** Collection conserves the native table: the same handles with the same counts, each now keyed
      by where its object went. */
  lemma HandlesRenamed(e: Progress, from: Tables, to: Tables)
    requires Rekeyed(e, from.native, from.handles, from.native.Keys, to.native, to.handles)
    requires TableMatches(from.native, from.handles)
    ensures HandleRoots(to.handles) == RenameRoots(e.phi, HandleRoots(from.handles))
    ensures forall k :: k in HandleRoots(from.handles) ==> Covers(e.regions, e.phi, HandleRoots(from.handles)[k])
    ensures CountsIn(to.native, to.handles) == CountsIn(from.native, from.handles)
    ensures TableMatches(to.native, to.handles)
  {
    forall h | h in from.handles
      ensures to.handles[h] == Rename(e.phi, from.handles[h]) && Covers(e.regions, e.phi, from.handles[h])
      ensures to.handles[h] in to.native && to.native[to.handles[h]] == from.native[from.handles[h]]
    {
      assert from.handles[h] in from.native.Keys;
    }
    forall q | q in to.native
      ensures to.native[q].handle in to.handles && to.handles[to.native[q].handle] == q && to.native[q].count > 0
    {
      var p :| p in from.native.Keys && Rename(e.phi, p) == q;
      assert to.native[q] == from.native[p];
    }
  }

  lemma TablesRenamed(e: Progress, from: Tables, to: Tables)
    requires AllRedirected(e, from, to) && TableMatches(from.native, from.handles)
    ensures to.Roots() == RenameRoots(e.phi, from.Roots())
    ensures forall k :: k in from.Roots() ==> Covers(e.regions, e.phi, from.Roots()[k])
    ensures ShapeOf(to.stacks) == ShapeOf(from.stacks)
    ensures CountsIn(to.native, to.handles) == CountsIn(from.native, from.handles)
    ensures TableMatches(to.native, to.handles)
  {
    hide AllTables, AllStacks, Rekeyed, TableMatches, StaticRoots, LocalRoots, HandleRoots, ShapeOf, CountsIn,
         RenameRoots;
    RenameUnion(e.phi, StaticRoots(from.statics), LocalRoots(from.stacks));
    RenameUnion(e.phi, StaticRoots(from.statics) + LocalRoots(from.stacks), HandleRoots(from.handles));
    StaticsRenamed(e, from.statics, to.statics);
    StacksRenamed(e, from.stacks, to.stacks);
    HandlesRenamed(e, from, to);
  }

  // ---- Well-formedness is kept ----------------------------------------------------------------

  lemma ImageBlockWellFormed(regions: Regions, classes: ClassTable, s: State, t: State, phi: map<Address, Address>,
                             a: Address)
    requires Image(regions, s, t, phi) && a in phi && Shaped(classes, s.blocks[a])
    ensures phi[a] in t.blocks && Shaped(classes, t.blocks[phi[a]]) &&
        AllResolve(regions, t.blocks, t.blocks[phi[a]].pointers)
  {
    ImageKeysManaged(regions, s, t, phi);
    forall i | 0 <= i < |t.blocks[phi[a]].pointers|
      ensures Resolves(regions, t.blocks, t.blocks[phi[a]].pointers[i])
    {
      assert Covers(regions, phi, s.blocks[a].pointers[i]);
    }
  }

  lemma ImageHandles(regions: Regions, s: State, t: State, phi: map<Address, Address>)
    requires Image(regions, s, t, phi) && HandlesMatch(s)
    ensures HandlesMatch(t)
  {
    ImageKeysManaged(regions, s, t, phi);
    forall g, h | Handle(g) in t.roots && Handle(h) in t.roots && t.roots[Handle(g)] == t.roots[Handle(h)]
      ensures g == h
    {
      assert Covers(regions, phi, s.roots[Handle(g)]) && Covers(regions, phi, s.roots[Handle(h)]);
    }
  }

  /** A moved copy of a well-formed heap is well-formed. */
  lemma ImageWellFormed(regions: Regions, classes: ClassTable, s: State, t: State, phi: map<Address, Address>)
    requires Image(regions, s, t, phi) && WellFormed(regions, classes, s)
    ensures WellFormed(regions, classes, t)
  {
    hide HandlesMatch, Shaped, AllResolve;
    ImageHandles(regions, s, t, phi);
    forall b | b in t.blocks
      ensures !regions.Foreign(b) && Shaped(classes, t.blocks[b]) && AllResolve(regions, t.blocks, t.blocks[b].pointers)
    {
      assert b in phi.Values;
      var a :| a in phi && phi[a] == b;
      ImageBlockWellFormed(regions, classes, s, t, phi, a);
    }
    forall k | k in t.roots ensures Resolves(regions, t.blocks, t.roots[k]) {
      ImageKeysManaged(regions, s, t, phi);
      assert Covers(regions, phi, s.roots[k]);
    }
  }

  // ---- Beginning and ending a collection ------------------------------------------------------

  lemma {:induction false} TilesInside(classes: ClassTable, blocks: map<Address, Block>, objects: seq<Address>,
                                       base: Address, a: Address)
    requires Tiles(classes, blocks, objects, base) && a in blocks
    ensures base < a < base + Sum(objects, SizeIn(classes, blocks))
  {
    hide BlockSize;
    var size := SizeIn(classes, blocks);
    var i :| 0 <= i < |objects| && objects[i] == a;
    assert objects[..i + 1][..i] == objects[..i];
    SumPrefix(objects, i + 1, size);
    assert size(a) >= 16;
  }

  /** A heap at rest: its objects fill the active space from `base` to `used` without gaps, and
      nothing dangles. */
  ghost predicate Consistent(regions: Regions, classes: ClassTable, tables: Tables, blocks: map<Address, Block>,
                             objects: seq<Address>, base: Address, used: Address) {
    && Tiles(classes, blocks, objects, base)
    && used == base + Sum(objects, SizeIn(classes, blocks))
    && WellFormed(regions, classes, tables.View(blocks))
    && TableMatches(tables.native, tables.handles)
  }

  /** The bytes of an object: its prefix, its first word and its payload. */
  function Extent(a: Address, block: Block): Range
    requires a >= 8
  {
    Range(a - 8, 16 + |Payload(block)|)
  }

  /** No two objects of a space share a byte, and none reaches past what is used. */
  lemma ObjectsApart(regions: Regions, classes: ClassTable, tables: Tables, blocks: map<Address, Block>,
                     objects: seq<Address>, base: Address, used: Address, a: Address)
    requires Consistent(regions, classes, tables, blocks, objects, base, used) && a in blocks
    ensures base + 8 <= a && Extent(a, blocks[a]).from + Extent(a, blocks[a]).size <= used
    ensures forall b :: b in blocks && b != a ==> b >= 8 && Extent(a, blocks[a]).Apart(Extent(b, blocks[b]))
  {
    hide TableMatches, Payload;
    var i := PlaceOf(classes, blocks, objects, base, a);
    PayloadWithin(regions, classes, tables, blocks, a);
    PrefixEnd(classes, blocks, objects, i, |objects|);
    assert objects[..|objects|] == objects;
    forall b | b in blocks && b != a ensures b >= 8 && Extent(a, blocks[a]).Apart(Extent(b, blocks[b])) {
      var j := PlaceOf(classes, blocks, objects, base, b);
      PayloadWithin(regions, classes, tables, blocks, b);
      hide WellFormed, Tiles;
      if i < j { PrefixEnd(classes, blocks, objects, i, j); } else { PrefixEnd(classes, blocks, objects, j, i); }
    }
  }

  lemma PlaceOf(classes: ClassTable, blocks: map<Address, Block>, objects: seq<Address>, base: Address, a: Address)
    returns (i: nat)
    requires Tiles(classes, blocks, objects, base) && a in blocks
    ensures i < |objects| && objects[i] == a && a == base + 8 + Sum(objects[..i], SizeIn(classes, blocks))
  {
    i :| 0 <= i < |objects| && objects[i] == a;
  }

  lemma PayloadWithin(regions: Regions, classes: ClassTable, tables: Tables, blocks: map<Address, Block>, a: Address)
    requires WellFormed(regions, classes, tables.View(blocks)) && a in blocks
    ensures 16 + |Payload(blocks[a])| <= SizeIn(classes, blocks)(a)
  {
    hide Tables.Roots, ShapeOf, CountsIn, Payload, AllResolve;
    BlockHoldsPayload(classes, blocks[a]);
  }

  lemma PrefixEnd(classes: ClassTable, blocks: map<Address, Block>, objects: seq<Address>, i: nat, j: nat)
    requires i < j <= |objects|
    ensures Sum(objects[..i], SizeIn(classes, blocks)) + SizeIn(classes, blocks)(objects[i]) <=
        Sum(objects[..j], SizeIn(classes, blocks))
  {
    hide SizeIn;
    assert objects[..i + 1][..i] == objects[..i];
    assert objects[..j][..i + 1] == objects[..i + 1];
    SumPrefix(objects[..j], i + 1, SizeIn(classes, blocks));
  }

  /** The collected space and the part of the other space that was committed for the copies. */
  predicate Halves(regions: Regions, low: Address, high: Address, start: Address, limit: Address) {
    && regions.Valid() && low <= high && start <= limit
    && (|| (low == regions.base0 && high == regions.cap0 && start == regions.base1 && limit <= regions.cap1)
        || (low == regions.base1 && high == regions.cap1 && start == regions.base0 && limit <= regions.cap0))
  }

  ghost function Begin(regions: Regions, classes: ClassTable, pre: State, low: Address, high: Address, start: Address,
                       limit: Address): Progress {
    Progress(regions, pre, Live(pre), SizeIn(classes, pre.blocks), low, high, start, limit, [], [], [], [], map[],
      start, 0, 0)
  }

  /** The copies fit what was committed for them, because what was committed is what the collected
      space had and that held all its objects. */
  lemma CollectionBegins(regions: Regions, classes: ClassTable, tables: Tables, blocks: map<Address, Block>,
                         objects: seq<Address>, used: Address,
                         low: Address, high: Address, start: Address, limit: Address)
    requires Consistent(regions, classes, tables, blocks, objects, low, used) && used <= high
    requires Halves(regions, low, high, start, limit) && used - low <= limit - start
    ensures Collecting(Begin(regions, classes, tables.View(blocks), low, high, start, limit), blocks, classes, objects)
  {
    hide WellFormed, Progress.Setup, Progress.Marked, Progress.Ordered, Progress.Compact, Progress.Faithful,
         Progress.Stored,
         Closed, Shaped, Tables.View, TableMatches, SizeIn;
    var e := Begin(regions, classes, tables.View(blocks), low, high, start, limit);
    LiveIsClosed(regions, classes, tables.View(blocks));
    ShapesKnown(regions, classes, tables.View(blocks));
    ViewKeepsBlocks(tables, blocks);
    BeginSetup(regions, classes, e, objects, low, high, start, limit);
    NothingCopied(e, blocks);
  }

  lemma ViewKeepsBlocks(tables: Tables, blocks: map<Address, Block>)
    ensures tables.View(blocks).blocks == blocks && tables.View(blocks).roots == tables.Roots()
  {
  }

  lemma BeginSetup(regions: Regions, classes: ClassTable, e: Progress, objects: seq<Address>,
                   low: Address, high: Address, start: Address, limit: Address)
    requires e == Begin(regions, classes, e.pre, low, high, start, limit)
    requires Tiles(classes, e.pre.blocks, objects, low) && low + Sum(objects, SizeIn(classes, e.pre.blocks)) <= high
    requires Halves(regions, low, high, start, limit)
    ensures e.Setup()
  {
    hide Tiles;
    forall a | a in e.pre.blocks ensures low <= a < high && e.size(a) >= 16 {
      TilesInside(classes, e.pre.blocks, objects, low, a);
    }
  }

  lemma ShapesKnown(regions: Regions, classes: ClassTable, s: State)
    requires WellFormed(regions, classes, s)
    ensures forall a :: a in s.blocks ==> Shaped(classes, s.blocks[a])
  {
  }

  lemma NothingCopied(e: Progress, blocks: map<Address, Block>)
    requires e.pre.blocks == blocks && e.order == [] && e.source == [] && e.copies == [] && e.at == [] && e.phi == map[]
    requires e.start == e.end <= e.limit && e.scanned == 0 && e.slot == 0
    ensures e.Ordered() && e.Faithful() && e.Marked(blocks) && e.Stored(blocks) && e.Compact()
  {
  }

  /** Before anything is copied every reference in the tables is to a live object or foreign. */
  lemma TablesTraced(e: Progress, tables: Tables, blocks: map<Address, Block>)
    requires e.pre == tables.View(blocks) && Closed(e.regions, e.pre, e.live) &&
        TableMatches(tables.native, tables.handles)
    ensures forall c :: 0 <= c < |tables.statics| ==> AllTraced(e, tables.statics[c])
    ensures forall t, f :: 0 <= t < |tables.stacks| && 0 <= f < |tables.stacks[t]| ==> AllTraced(e, tables.stacks[t][f])
    ensures forall p :: p in tables.native ==> e.Traced(p)
  {
    hide Tables.View, Tables.Roots, Closed, TableMatches;
    RootsTraced(e, tables, blocks);
    forall c | 0 <= c < |tables.statics| ensures AllTraced(e, tables.statics[c]) {
      forall i | 0 <= i < |tables.statics[c]| ensures e.Traced(tables.statics[c][i]) {
        RootAt(tables, Static(c, i), tables.statics[c][i]);
      }
    }
    forall t, f | 0 <= t < |tables.stacks| && 0 <= f < |tables.stacks[t]| ensures AllTraced(e, tables.stacks[t][f]) {
      forall i | 0 <= i < |tables.stacks[t][f]| ensures e.Traced(tables.stacks[t][f][i]) {
        RootAt(tables, Local(t, f, i), tables.stacks[t][f][i]);
      }
    }
    forall p | p in tables.native ensures e.Traced(p) {
      RootAt(tables, Handle(tables.native[p].handle), p);
    }
  }

  lemma RootsTraced(e: Progress, tables: Tables, blocks: map<Address, Block>)
    requires e.pre == tables.View(blocks) && Closed(e.regions, e.pre, e.live)
    ensures forall k :: k in tables.Roots() ==> e.Traced(tables.Roots()[k])
  {
    ViewKeepsBlocks(tables, blocks);
  }

  lemma RootAt(tables: Tables, k: Root, p: Address)
    requires match k
             case Static(c, i) => c < |tables.statics| && i < |tables.statics[c]| && tables.statics[c][i] == p
             case Local(t, f, i) =>
               && t < |tables.stacks| && f < |tables.stacks[t]| && i < |tables.stacks[t][f]|
               && tables.stacks[t][f][i] == p
             case Handle(h) =>
               && TableMatches(tables.native, tables.handles)
               && p in tables.native && tables.native[p].handle == h
    ensures k in tables.Roots() && tables.Roots()[k] == p
  {
    match k
    case Static(c, i) => assert k in StaticRoots(tables.statics) && k !in LocalRoots(tables.stacks) &&
      k !in HandleRoots(tables.handles);
    case Local(t, f, i) => assert k in LocalRoots(tables.stacks) && k !in HandleRoots(tables.handles);
    case Handle(h) => assert k in HandleRoots(tables.handles);
  }

  /** What a finished collection leaves. */
  lemma CollectionEnds(e: Progress, memory: map<Address, Block>, classes: ClassTable, objects: seq<Address>,
                       from: Tables, to: Tables, blocks: map<Address, Block>)
    requires Collecting(e, memory, classes, objects) && e.scanned == |e.order| && e.live == Live(e.pre)
    requires e.pre == from.View(blocks) && WellFormed(e.regions, classes, e.pre)
    requires AllRedirected(e, from, to) && TableMatches(from.native, from.handles)
    ensures Collects(e.regions, e.pre, to.View(Survivors(blocks, memory)), e.phi)
    ensures Consistent(e.regions, classes, to, Survivors(blocks, memory), e.at, e.start, e.end)
    ensures e.start <= e.end <= e.limit && e.end == e.start + LiveBytes(classes, e.pre)
  {
    hide *;
    var post := to.View(Survivors(blocks, memory));
    CollectingFacts(e, memory, classes, objects);
    ViewKeepsBlocks(from, blocks);
    TablesRenamed(e, from, to);
    ViewsAgree(e, from, to, blocks, Survivors(blocks, memory));
    CollectionComplete(e, memory, post);
    CollectsIsImage(e.regions, e.pre, post, e.phi);
    CopiedBytes(e, classes);
    ImageWellFormed(e.regions, classes, e.pre, post, e.phi);
    SurvivorsTile(e, memory, classes);
    ConsistentAgain(e.regions, classes, to, Survivors(blocks, memory), e.at, e.start, e.end);
  }

  lemma ConsistentAgain(regions: Regions, classes: ClassTable, tables: Tables, blocks: map<Address, Block>,
                        objects: seq<Address>, base: Address, used: Address)
    requires Tiles(classes, blocks, objects, base) && base + Sum(objects, SizeIn(classes, blocks)) == used
    requires WellFormed(regions, classes, tables.View(blocks)) && TableMatches(tables.native, tables.handles)
    ensures Consistent(regions, classes, tables, blocks, objects, base, used)
  {
    hide Tiles, WellFormed, TableMatches;
  }

  lemma CollectingFacts(e: Progress, memory: map<Address, Block>, classes: ClassTable, objects: seq<Address>)
    requires Collecting(e, memory, classes, objects)
    ensures e.Holds(memory) && e.Ordered() && e.Compact() && e.size == SizeIn(classes, e.pre.blocks)
    ensures e.start <= e.end <= e.limit
  {
    hide Progress.Faithful, Progress.Marked, Progress.Stored, Closed, Shaped;
  }

  lemma ViewsAgree(e: Progress, from: Tables, to: Tables, blocks: map<Address, Block>, after: map<Address, Block>)
    requires to.Roots() == RenameRoots(e.phi, from.Roots()) && ShapeOf(to.stacks) == ShapeOf(from.stacks)
    requires CountsIn(to.native, to.handles) == CountsIn(from.native, from.handles)
    ensures to.View(after) == from.View(blocks).(blocks := after, roots := RenameRoots(e.phi, from.View(blocks).roots))
  {
  }

  lemma CollectsIsImage(regions: Regions, s: State, t: State, phi: map<Address, Address>)
    requires Collects(regions, s, t, phi)
    ensures Image(regions, s, t, phi) && forall a :: a in phi <==> Reachable(s, a)
  {
  }

  /** Giving the collected space back leaves exactly the survivors. */
  lemma SurvivorsOutside(e: Progress, memory: map<Address, Block>, classes: ClassTable, objects: seq<Address>)
    requires Collecting(e, memory, classes, objects)
    ensures forall a :: a in memory ==> (a in e.pre.blocks <==> e.low <= a < e.high)
  {
    hide Progress.Faithful, Progress.Marked, Progress.Compact, Closed, Shaped;
  }

  // ---- Following all roots --------------------------------------------------------------------

  lemma TablesStay(e: Progress, e': Progress, memory: map<Address, Block>, memory': map<Address, Block>,
                   classes: ClassTable, objects: seq<Address>, from: seq<seq<Address>>, to: seq<seq<Address>>)
    requires Collecting(e, memory, classes, objects) && Collecting(e', memory', classes, objects) && Grows(e, e')
    requires AllTables(e, from, to)
    ensures AllTables(e', from, to)
  {
    hide Collecting, Grows, Redirects;
    forall c | 0 <= c < |from| ensures Redirects(e', from[c], to[c]) {
      RedirectsStay(e, e', memory, memory', classes, objects, from[c], to[c]);
    }
  }

  lemma StacksStay(e: Progress, e': Progress, memory: map<Address, Block>, memory': map<Address, Block>,
                   classes: ClassTable, objects: seq<Address>, from: seq<seq<seq<Address>>>, to: seq<seq<seq<Address>>>)
    requires Collecting(e, memory, classes, objects) && Collecting(e', memory', classes, objects) && Grows(e, e')
    requires AllStacks(e, from, to)
    ensures AllStacks(e', from, to)
  {
    hide Collecting, Grows, AllTables;
    forall t | 0 <= t < |from| ensures AllTables(e', from[t], to[t]) {
      TablesStay(e, e', memory, memory', classes, objects, from[t], to[t]);
    }
  }

  lemma RekeyedStaysRunning(e: Progress, e': Progress, memory: map<Address, Block>, memory': map<Address, Block>,
                            classes: ClassTable, objects: seq<Address>,
                            native: map<Address, NativeRef>, handles: map<nat, Address>,
                            scratch: map<Address, NativeRef>, moved: map<nat, Address>)
    requires Collecting(e, memory, classes, objects) && Collecting(e', memory', classes, objects) && Grows(e, e')
    requires Rekeyed(e, native, handles, native.Keys, scratch, moved)
    ensures Rekeyed(e', native, handles, native.Keys, scratch, moved)
  {
    hide *;
    CollectingBasics(e, memory, classes, objects);
    CollectingBasics(e', memory', classes, objects);
    RekeyedStays(e, e', native, handles, native.Keys, scratch, moved);
  }

  lemma ContinuesGrows(e: Progress, e': Progress)
    requires Continues(e, e')
    ensures Grows(e, e')
  {
  }

  lemma ContinuesTransitive(e: Progress, f: Progress, g: Progress)
    requires Continues(e, f) && Continues(f, g)
    ensures Continues(e, g)
  {
  }

  lemma ContinuesRefl(e: Progress)
    ensures Continues(e, e)
  {
  }

  lemma NoTables(e: Progress, from: seq<seq<Address>>)
    ensures AllTables(e, from[..0], [])
  {
  }

  lemma OneMoreTable(e: Progress, from: seq<seq<Address>>, to: seq<seq<Address>>, c: nat, slots: seq<Address>)
    requires c < |from| && AllTables(e, from[..c], to) && Redirects(e, from[c], slots)
    ensures AllTables(e, from[..c + 1], to + [slots])
  {
    hide Redirects;
    assert from[..c + 1] == from[..c] + [from[c]];
  }

  lemma NoStacks(e: Progress, from: seq<seq<seq<Address>>>)
    ensures AllStacks(e, from[..0], [])
  {
  }

  lemma OneMoreStack(e: Progress, from: seq<seq<seq<Address>>>, to: seq<seq<seq<Address>>>, t: nat,
                     frames: seq<seq<Address>>)
    requires t < |from| && AllStacks(e, from[..t], to)
    requires |frames| == |from[t]| && forall f :: 0 <= f < |frames| ==> Redirects(e, from[t][f], frames[f])
    ensures AllStacks(e, from[..t + 1], to + [frames])
  {
    hide Redirects;
    assert AllTables(e, from[t], frames);
    hide AllTables;
    assert from[..t + 1] == from[..t] + [from[t]];
  }

  /** The static references of every loaded class. */
  method TrackClasses(gc: Collector, statics: seq<seq<Address>>,
                      destination: Address) returns (moved: seq<seq<Address>>, next: Address)
    requires gc.Running() && destination == gc.e.end
    requires forall c :: 0 <= c < |statics| ==> AllTraced(gc.e, statics[c])
    modifies gc
    ensures gc.Running() && Continues(old(gc.e), gc.e) && next == gc.e.end
    ensures AllTables(gc.e, statics, moved)
  {
    hide Collecting, AllTables, AllTraced, Redirects, Continues;
    moved, next := [], destination;
    NoTables(gc.e, statics);
    ContinuesRefl(gc.e);
    for c := 0 to |statics|
      invariant gc.Running() && Continues(old(gc.e), gc.e) && next == gc.e.end
      invariant AllTables(gc.e, statics[..c], moved)
      invariant forall d :: 0 <= d < |statics| ==> AllTraced(gc.e, statics[d])
    {
      ghost var before, memory := gc.e, gc.blocks;
      var slots;
      slots, next := gc.TrackPointers(statics[c], next);
      ContinuesGrows(before, gc.e);
      ContinuesTransitive(old(gc.e), before, gc.e);
      TablesStay(before, gc.e, memory, gc.blocks, gc.classes, gc.objects, statics[..c], moved);
      OneMoreTable(gc.e, statics, moved, c, slots);
      forall d | 0 <= d < |statics|
        ensures AllTraced(gc.e, statics[d])
      {
        Collector.TracedStays(before, gc.e, statics[d]);
      }
      moved := moved + [slots];
    }
    assert statics[..|statics|] == statics;
  }

  ghost predicate StacksTraced(e: Progress, stacks: seq<seq<seq<Address>>>) {
    forall t, f :: 0 <= t < |stacks| && 0 <= f < |stacks[t]| ==> AllTraced(e, stacks[t][f])
  }

  lemma StacksTracedStay(e: Progress, e': Progress, stacks: seq<seq<seq<Address>>>)
    requires Grows(e, e') && StacksTraced(e, stacks)
    ensures StacksTraced(e', stacks)
  {
  }

  /** The stack of every executor. */
  method TrackStacks(gc: Collector, stacks: seq<seq<seq<Address>>>,
                     destination: Address) returns (moved: seq<seq<seq<Address>>>, next: Address)
    requires gc.Running() && destination == gc.e.end && StacksTraced(gc.e, stacks)
    modifies gc
    ensures gc.Running() && Continues(old(gc.e), gc.e) && next == gc.e.end
    ensures AllStacks(gc.e, stacks, moved)
  {
    hide Collecting, AllStacks, AllTraced, Redirects, Continues, Grows;
    moved, next := [], destination;
    NoStacks(gc.e, stacks);
    ContinuesRefl(gc.e);
    for t := 0 to |stacks|
      invariant gc.Running() && Continues(old(gc.e), gc.e) && next == gc.e.end
      invariant AllStacks(gc.e, stacks[..t], moved)
      invariant StacksTraced(gc.e, stacks)
    {
      ghost var before, memory := gc.e, gc.blocks;
      var frames;
      frames, next := gc.TrackStackPointers(stacks[t], next);
      ContinuesGrows(before, gc.e);
      ContinuesTransitive(old(gc.e), before, gc.e);
      StacksStay(before, gc.e, memory, gc.blocks, gc.classes, gc.objects, stacks[..t], moved);
      OneMoreStack(gc.e, stacks, moved, t, frames);
      StacksTracedStay(before, gc.e, stacks);
      moved := moved + [frames];
    }
    assert stacks[..|stacks|] == stacks;
  }

  lemma BeginTraced(regions: Regions, classes: ClassTable, tables: Tables, blocks: map<Address, Block>,
                    objects: seq<Address>,
                    low: Address, used: Address, high: Address, start: Address, limit: Address)
    requires Consistent(regions, classes, tables, blocks, objects, low, used)
    ensures
      var e := Begin(regions, classes, tables.View(blocks), low, high, start, limit);
      && (forall c :: 0 <= c < |tables.statics| ==> AllTraced(e, tables.statics[c]))
      && StacksTraced(e, tables.stacks)
      && (forall p :: p in tables.native ==> e.Traced(p))
      && TableMatches(tables.native, tables.handles)
      && e.end == e.start == start && e.low == low && e.high == high
    ensures WellFormed(regions, classes, tables.View(blocks))
  {
    hide WellFormed, Closed, Tables.View, AllTraced, TableMatches, Tiles, SizeIn;
    var e := Begin(regions, classes, tables.View(blocks), low, high, start, limit);
    LiveIsClosed(regions, classes, tables.View(blocks));
    TablesTraced(e, tables, blocks);
  }

  lemma NativesTracedStay(e: Progress, e': Progress, native: map<Address, NativeRef>)
    requires Continues(e, e') && forall p :: p in native ==> e.Traced(p)
    ensures forall p :: p in native ==> e'.Traced(p)
  {
  }

  lemma SameCollection(e: Progress, e': Progress)
    requires Grows(e, e')
    ensures e'.regions == e.regions && e'.pre == e.pre && e'.live == e.live
    ensures e'.low == e.low && e'.high == e.high && e'.start == e.start && e'.limit == e.limit
    ensures Continues(e, e') ==> e'.scanned == e.scanned && e'.slot == e.slot
  {
  }

  /** Tables redirected early stay redirected while more is copied. */
  lemma RootsStayRedirected(e1: Progress, memory1: map<Address, Block>, e2: Progress, memory2: map<Address, Block>,
                            e3: Progress, memory3: map<Address, Block>, e: Progress, memory: map<Address, Block>,
                            classes: ClassTable, objects: seq<Address>, from: Tables, to: Tables)
    requires Collecting(e1, memory1, classes, objects) && Collecting(e2, memory2, classes, objects)
    requires Collecting(e3, memory3, classes, objects) && Collecting(e, memory, classes, objects)
    requires Grows(e1, e2) && Grows(e2, e3) && Grows(e3, e)
    requires AllTables(e1, from.statics, to.statics) && AllStacks(e2, from.stacks, to.stacks)
    requires Rekeyed(e3, from.native, from.handles, from.native.Keys, to.native, to.handles)
    ensures AllRedirected(e, from, to)
  {
    hide Collecting, Grows, AllTables, AllStacks, Rekeyed;
    GrowsTransitive(e2, e3, e);
    GrowsTransitive(e1, e2, e);
    TablesStay(e1, e, memory1, memory, classes, objects, from.statics, to.statics);
    StacksStay(e2, e, memory2, memory, classes, objects, from.stacks, to.stacks);
    RekeyedStaysRunning(e3, e, memory3, memory, classes, objects, from.native, from.handles, to.native, to.handles);
  }

  lemma RunningMeans(gc: Collector)
    requires gc.Running()
    ensures Collecting(gc.e, gc.blocks, gc.classes, gc.objects) && gc.low == gc.e.low && gc.high == gc.e.high
  {
    hide Collecting;
  }

  lemma StartOf(regions: Regions, classes: ClassTable, pre: State, low: Address, high: Address, start: Address,
                limit: Address)
    ensures
      var e := Begin(regions, classes, pre, low, high, start, limit);
      && e.regions == regions && e.pre == pre && e.live == Live(pre) && e.low == low && e.high == high
      && e.start == start && e.limit == limit && e.scanned == 0 && e.slot == 0
  {
  }

  /** The collection of these tables is under way: all it will follow is traced, and the statics have been
      redirected. */
  ghost predicate Following(e0: Progress, e: Progress, tables: Tables, statics: seq<seq<Address>>) {
    && Continues(e0, e) && AllTables(e, tables.statics, statics)
    && StacksTraced(e, tables.stacks) && forall p :: p in tables.native ==> e.Traced(p)
  }

  /** What starts a collection: a collector at the beginning of the space copied into, and the statics. */
  method BeginCopy(classes: ClassTable, ghost tables: Tables, statics: seq<seq<Address>>, blocks: map<Address, Block>,
                   low: Address, high: Address, begin: Address,
                   ghost regions: Regions, ghost objects: seq<Address>, ghost used: Address, ghost limit: Address)
    returns (gc: Collector, moved: seq<seq<Address>>, destination: Address)
    requires Consistent(regions, classes, tables, blocks, objects, low, used) && used <= high
    requires Halves(regions, low, high, begin, limit) && used - low <= limit - begin && statics == tables.statics
    ensures fresh(gc) && gc.Running() && destination == gc.e.end && gc.classes == classes && gc.objects == objects
    ensures Following(Begin(regions, classes, tables.View(blocks), low, high, begin, limit), gc.e, tables, moved)
    ensures TableMatches(tables.native, tables.handles) && WellFormed(regions, classes, tables.View(blocks))
  {
    hide *;
    CollectionBegins(regions, classes, tables, blocks, objects, used, low, high, begin, limit);
    ghost var e0 := Begin(regions, classes, tables.View(blocks), low, high, begin, limit);
    StartOf(regions, classes, tables.View(blocks), low, high, begin, limit);
    BeginTraced(regions, classes, tables, blocks, objects, low, used, high, begin, limit);
    gc := new Collector(e0, blocks, classes, low, high, objects);
    moved, destination := TrackClasses(gc, statics, begin);
    ContinuesGrows(e0, gc.e);
    StacksTracedStay(e0, gc.e, tables.stacks);
    NativesTracedStay(e0, gc.e, tables.native);
    FollowingMeans(e0, gc.e, tables, moved);
  }

  lemma FollowingMeans(e0: Progress, e: Progress, tables: Tables, statics: seq<seq<Address>>)
    ensures Following(e0, e, tables, statics) <==>
      && Continues(e0, e) && AllTables(e, tables.statics, statics)
      && StacksTraced(e, tables.stacks) && forall p :: p in tables.native ==> e.Traced(p)
  {
    hide Continues, AllTables, StacksTraced, Progress.Traced;
  }

  /** What ends it once the stacks have been followed: handles, and then the scan. */
  method FinishCopy(gc: Collector, native: map<Address, NativeRef>, handles: map<nat, Address>, low: Address,
                    high: Address, begin: Address, destination: Address, ghost tables: Tables,
                    ghost blocks: map<Address, Block>, ghost statics: seq<seq<Address>>,
                    ghost stacks: seq<seq<seq<Address>>>, ghost e0: Progress, ghost e1: Progress,
                    ghost memory1: map<Address, Block>, ghost regions: Regions, ghost limit: Address)
    returns (scratch: map<Address, NativeRef>, movedHandles: map<nat, Address>, survivors: map<Address, Block>,
             end: Address, ghost e: Progress)
    requires native == tables.native && handles == tables.handles && TableMatches(native, handles)
    requires e0 == Begin(regions, gc.classes, tables.View(blocks), low, high, begin, limit)
    requires WellFormed(regions, gc.classes, tables.View(blocks))
    requires Following(e0, e1, tables, statics) && Collecting(e1, memory1, gc.classes, gc.objects)
    requires gc.Running() && destination == gc.e.end && Continues(e1, gc.e) && AllStacks(gc.e, tables.stacks, stacks)
    modifies gc
    ensures
      var moved := Tables(statics, stacks, scratch, movedHandles);
      && Collects(regions, tables.View(blocks), moved.View(survivors), e.phi)
      && Consistent(regions, gc.classes, moved, survivors, e.at, begin, end)
      && begin <= end <= limit && end == begin + LiveBytes(gc.classes, tables.View(blocks))
  {
    hide *;
    StartOf(regions, gc.classes, tables.View(blocks), low, high, begin, limit);
    FollowingMeans(e0, e1, tables, statics);
    RunningMeans(gc);
    ghost var e2, memory2 := gc.e, gc.blocks;
    ContinuesGrows(e1, e2);
    ContinuesTransitive(e0, e1, e2);
    NativesTracedStay(e1, e2, native);
    var next;
    scratch, movedHandles, next := gc.TrackNativePointers(native, handles, destination);
    RunningMeans(gc);
    ghost var e3, memory3 := gc.e, gc.blocks;
    ContinuesGrows(e2, e3);
    ContinuesTransitive(e0, e2, e3);
    ContinuesGrows(e0, e3);
    SameCollection(e0, e3);
    end := gc.CleanupMigratedObjects(begin, next);
    e := gc.e;
    RunningMeans(gc);
    SameCollection(e3, e);
    ghost var moved := Tables(statics, stacks, scratch, movedHandles);
    RootsStayRedirected(e1, memory1, e2, memory2, e3, memory3, e, gc.blocks, gc.classes, gc.objects, tables, moved);
    survivors := map a | a in gc.blocks && !(low <= a < high) :: gc.blocks[a];
    SurvivorsFound(e, gc.blocks, gc.classes, gc.objects, blocks, survivors, tables);
    CollectionEnds(e, gc.blocks, gc.classes, gc.objects, tables, moved, blocks);
  }

  /** Copies everything reachable to the space that starts at `begin`, roots first, and redirects
      all roots. */
  method CopyLive(classes: ClassTable, tables: Tables, blocks: map<Address, Block>, low: Address, high: Address,
                  begin: Address,
                  ghost regions: Regions, ghost objects: seq<Address>, ghost used: Address, ghost limit: Address)
    returns (moved: Tables, survivors: map<Address, Block>, end: Address, ghost e: Progress)
    requires Consistent(regions, classes, tables, blocks, objects, low, used) && used <= high
    requires Halves(regions, low, high, begin, limit) && used - low <= limit - begin
    ensures Collects(regions, tables.View(blocks), moved.View(survivors), e.phi)
    ensures Consistent(regions, classes, moved, survivors, e.at, begin, end)
    ensures begin <= end <= limit && end == begin + LiveBytes(classes, tables.View(blocks))
  {
    hide *;
    var gc, statics, destination := BeginCopy(classes, tables, tables.statics, blocks, low, high, begin,
                                              regions, objects, used, limit);
    ghost var e0 := Begin(regions, classes, tables.View(blocks), low, high, begin, limit);
    ghost var e1, memory1 := gc.e, gc.blocks;
    RunningMeans(gc);
    FollowingMeans(e0, e1, tables, statics);
    var stacks, native, handles;
    stacks, destination := TrackStacks(gc, tables.stacks, destination);
    native, handles, survivors, end, e :=
      FinishCopy(gc, tables.native, tables.handles, low, high, begin, destination, tables, blocks, statics, stacks,
                 e0, e1, memory1, regions, limit);
    moved := Tables(statics, stacks, native, handles);
  }

  lemma SurvivorsFound(e: Progress, memory: map<Address, Block>, classes: ClassTable, objects: seq<Address>,
                       blocks: map<Address, Block>, survivors: map<Address, Block>, tables: Tables)
    requires Collecting(e, memory, classes, objects) && e.pre == tables.View(blocks)
    requires survivors == map a | a in memory && !(e.low <= a < e.high) :: memory[a]
    ensures survivors == Survivors(blocks, memory)
  {
    hide Collecting, Tables.Roots, ShapeOf, CountsIn;
    SurvivorsOutside(e, memory, classes, objects);
  }

  // ---- Changes of one object ------------------------------------------------------------------

  lemma AlignPlusWord(x: nat)
    ensures AlignedMemoryAmount(x + 8) + 8 == AlignedMemoryAmount(x + 16)
  {
  }

  lemma PackedOneMore(objects: seq<Address>, size: Address -> nat, size': Address -> nat, base: Address, a: Address)
    requires Packed(objects, objects, size, base) && a == base + Sum(objects, size) + 8
    requires forall k :: 0 <= k < |objects| ==> size'(objects[k]) == size(objects[k])
    ensures Packed(objects + [a], objects + [a], size', base)
    ensures Sum(objects + [a], size') == Sum(objects, size) + size'(a)
  {
    PackedAgain(objects, objects, size, size', base);
    assert (objects + [a])[..|objects|] == objects;
    forall i | 0 <= i < |objects| ensures (objects + [a])[i] == base + 8 + Sum((objects + [a])[..i], size') {
      assert (objects + [a])[..i] == objects[..i];
    }
  }

  lemma TilesExtended(classes: ClassTable, blocks: map<Address, Block>, objects: seq<Address>, base: Address,
                      a: Address, block: Block)
    requires Tiles(classes, blocks, objects, base) && a == base + Sum(objects, SizeIn(classes, blocks)) + 8
    ensures a !in blocks
    ensures Tiles(classes, blocks[a := block], objects + [a], base)
    ensures Sum(objects + [a], SizeIn(classes, blocks[a := block]))
         == Sum(objects, SizeIn(classes, blocks)) + BlockSize(classes, block.header)
  {
    hide Packed, BlockSize;
    if a in blocks { TilesInside(classes, blocks, objects, base, a); }
    var size, size' := SizeIn(classes, blocks), SizeIn(classes, blocks[a := block]);
    forall k | 0 <= k < |objects| ensures size'(objects[k]) == size(objects[k]) { assert objects[k] in objects; }
    PackedOneMore(objects, size, size', base, a);
  }

  lemma TilesRewritten(classes: ClassTable, blocks: map<Address, Block>, objects: seq<Address>, base: Address,
                       a: Address, block: Block)
    requires Tiles(classes, blocks, objects, base) && a in blocks && block.header == blocks[a].header
    ensures Tiles(classes, blocks[a := block], objects, base)
    ensures Sum(objects, SizeIn(classes, blocks[a := block])) == Sum(objects, SizeIn(classes, blocks))
  {
    hide Packed, BlockSize;
    var size, size' := SizeIn(classes, blocks), SizeIn(classes, blocks[a := block]);
    forall k | 0 <= k < |objects| ensures size'(objects[k]) == size(objects[k]) { assert objects[k] in objects; }
    PackedAgain(objects, objects, size, size', base);
  }

  /** Placing a zeroed object where the objects of the space end keeps the heap consistent. */
  lemma ObjectPlaced(regions: Regions, classes: ClassTable, tables: Tables,
                     blocks: map<Address, Block>, after: map<Address, Block>,
                     objects: seq<Address>, grown: seq<Address>,
                     base: Address, used: Address, at: Address, end: Address,
                     cap: Address, header: Header)
    requires Allocatable(classes, header) && regions.Valid() && at == used + 8
    requires end == used + BlockSize(classes, header) && end <= cap
    requires (base == regions.base0 && cap == regions.cap0) || (base == regions.base1 && cap == regions.cap1)
    requires after == blocks[at := Zeroed(classes, header)] && grown == objects + [at]
    requires Consistent(regions, classes, tables, blocks, objects, base, used)
    ensures Consistent(regions, classes, tables, after, grown, base, end)
    ensures at !in blocks && at < regions.top && !regions.Foreign(at)
  {
    hide *;
    var block := Zeroed(classes, header);
    ConsistentParts(regions, classes, tables, blocks, objects, base, used);
    NewAddress(regions, base, cap, used, BlockSize(classes, header));
    ZeroedHeader(classes, header);
    TilesExtended(classes, blocks, objects, base, at, block);
    ViewKeepsBlocks(tables, blocks);
    AllocatedWellFormed(regions, classes, tables.View(blocks), at, header);
    ViewOfChange(tables, blocks, at, block);
    ConsistentAgain(regions, classes, tables, after, grown, base, end);
  }

  lemma ConsistentParts(regions: Regions, classes: ClassTable, tables: Tables, blocks: map<Address, Block>,
                        objects: seq<Address>, base: Address, used: Address)
    requires Consistent(regions, classes, tables, blocks, objects, base, used)
    ensures Tiles(classes, blocks, objects, base) && base <= used == base + Sum(objects, SizeIn(classes, blocks))
    ensures WellFormed(regions, classes, tables.View(blocks)) && TableMatches(tables.native, tables.handles)
  {
    hide Tiles, WellFormed, TableMatches;
  }

  lemma NewAddress(regions: Regions, base: Address, cap: Address, used: Address, size: nat)
    requires regions.Valid() && base <= used && used + size <= cap && size >= 16
    requires (base == regions.base0 && cap == regions.cap0) || (base == regions.base1 && cap == regions.cap1)
    ensures !regions.Foreign(used + 8) && used + 8 < regions.top && regions.Foreign(0)
  {
  }

  lemma PlacedSome(regions: Regions, classes: ClassTable, s: State, a: Address, header: Header)
    requires Allocatable(classes, header) && a !in s.blocks && a < regions.top && !regions.Foreign(a)
    ensures Placed(regions, classes, s, s.(blocks := s.blocks[a := Zeroed(classes, header)]), header, Some(a))
  {
  }

  lemma ZeroedHeader(classes: ClassTable, header: Header)
    requires Allocatable(classes, header)
    ensures Zeroed(classes, header).header == header
  {
  }

  lemma ViewOfChange(tables: Tables, blocks: map<Address, Block>, a: Address, block: Block)
    ensures tables.View(blocks[a := block]) == tables.View(blocks).(blocks := blocks[a := block])
  {
  }

  lemma ObjectRewritten(regions: Regions, classes: ClassTable, tables: Tables, blocks: map<Address, Block>,
                        objects: seq<Address>, base: Address, used: Address, a: Address, block: Block)
    requires Consistent(regions, classes, tables, blocks, objects, base, used)
    requires a in blocks && block.header == blocks[a].header
    requires WellFormed(regions, classes, tables.View(blocks).(blocks := blocks[a := block]))
    ensures Consistent(regions, classes, tables, blocks[a := block], objects, base, used)
  {
    hide Tiles, WellFormed, TableMatches, Tables.View;
    TilesRewritten(classes, blocks, objects, base, a, block);
    ViewOfChange(tables, blocks, a, block);
  }

  // ---- Changes of the tables ------------------------------------------------------------------

  lemma RootKinds(tables: Tables)
    ensures forall k :: k in StaticRoots(tables.statics) ==> k.Static?
    ensures forall k :: k in LocalRoots(tables.stacks) ==> k.Local?
    ensures forall k :: k in HandleRoots(tables.handles) ==> k.Handle?
    ensures forall h :: Handle(h) in tables.Roots() <==> h in tables.handles
    ensures forall h :: h in tables.handles ==> tables.Roots()[Handle(h)] == tables.handles[h]
  {
  }

  lemma UnionStatic(s: map<Root, Address>, l: map<Root, Address>, h: map<Root, Address>, k: Root, p: Address)
    requires k !in l && k !in h
    ensures s[k := p] + l + h == (s + l + h)[k := p]
  {
  }

  lemma UnionLocal(s: map<Root, Address>, l: map<Root, Address>, h: map<Root, Address>, k: Root, p: Address)
    requires k !in h
    ensures s + l[k := p] + h == (s + l + h)[k := p]
  {
  }

  lemma UnionHandle(s: map<Root, Address>, l: map<Root, Address>, h: map<Root, Address>, k: Root, p: Address)
    ensures s + l + h[k := p] == (s + l + h)[k := p]
    ensures k !in s && k !in l ==> s + l + (h - {k}) == s + l + h - {k}
  {
  }

  lemma UnionFrame(s: map<Root, Address>, l: map<Root, Address>, h: map<Root, Address>, f: map<Root, Address>)
    requires f.Keys !! h.Keys
    ensures s + (l + f) + h == s + l + h + f
  {
  }

  lemma UnionPopped(s: map<Root, Address>, l: map<Root, Address>, h: map<Root, Address>, t: nat, f: nat)
    requires forall k :: k in s ==> k.Static?
    requires forall k :: k in h ==> k.Handle?
    ensures s + (map k | k in l && !InFrame(k, t, f) :: l[k]) + h == map k | k in s + l + h &&
        !InFrame(k, t, f) :: (s + l + h)[k]
  {
  }

  lemma RootsAre(tables: Tables)
    ensures tables.Roots() == StaticRoots(tables.statics) + LocalRoots(tables.stacks) + HandleRoots(tables.handles)
  {
  }

  lemma ViewIs(tables: Tables, blocks: map<Address, Block>)
    ensures tables.View(blocks) ==
        State(blocks, tables.Roots(), ShapeOf(tables.stacks), CountsIn(tables.native, tables.handles))
  {
  }

  lemma StaticWritten(tables: Tables, next: Tables, blocks: map<Address, Block>, c: nat, i: nat, p: Address)
    requires c < |tables.statics| && i < |tables.statics[c]|
    requires var row: seq<Address> := tables.statics[c][i := p]; next == tables.(statics := tables.statics[c := row])
    ensures Static(c, i) in tables.Roots() && next.View(blocks) == SetRoot(tables.View(blocks), Static(c, i), p)
  {
    hide StaticRoots, LocalRoots, HandleRoots, ShapeOf, CountsIn, Tables.Roots, Tables.View;
    RowWritten(tables.statics, next.statics, c, i, p);
    RootKinds(tables);
    RootsAre(tables);
    RootsAre(next);
    ViewIs(tables, blocks);
    ViewIs(next, blocks);
    var s, l, h := StaticRoots(tables.statics), LocalRoots(tables.stacks), HandleRoots(tables.handles);
    UnionStatic(s, l, h, Static(c, i), p);
  }

  lemma RowWritten(from: seq<seq<Address>>, to: seq<seq<Address>>, c: nat, i: nat, p: Address)
    requires c < |from| && i < |from[c]|
    requires var row: seq<Address> := from[c][i := p]; to == from[c := row]
    ensures Static(c, i) in StaticRoots(from) && StaticRoots(to) == StaticRoots(from)[Static(c, i) := p]
  {
  }

  lemma SlotWritten(tables: Tables, next: Tables, blocks: map<Address, Block>, t: nat, f: nat, i: nat, p: Address)
    requires t < |tables.stacks| && f < |tables.stacks[t]| && i < |tables.stacks[t][f]|
    requires var frame: seq<Address> := tables.stacks[t][f][i := p];
             next == tables.(stacks := tables.stacks[t := tables.stacks[t][f := frame]])
    ensures Local(t, f, i) in tables.Roots() && next.View(blocks) == SetRoot(tables.View(blocks), Local(t, f, i), p)
  {
    hide StaticRoots, LocalRoots, HandleRoots, ShapeOf, CountsIn, Tables.Roots, Tables.View;
    FrameWritten(tables.stacks, next.stacks, t, f, i, p);
    FrameShape(tables.stacks, next.stacks, t, f);
    RootKinds(tables);
    RootsAre(tables);
    RootsAre(next);
    ViewIs(tables, blocks);
    ViewIs(next, blocks);
    var s, l, h := StaticRoots(tables.statics), LocalRoots(tables.stacks), HandleRoots(tables.handles);
    UnionLocal(s, l, h, Local(t, f, i), p);
  }

  lemma FrameWritten(from: seq<seq<seq<Address>>>, to: seq<seq<seq<Address>>>, t: nat, f: nat, i: nat, p: Address)
    requires t < |from| && f < |from[t]| && i < |from[t][f]|
    requires var frame: seq<Address> := from[t][f][i := p]; to == from[t := from[t][f := frame]]
    ensures Local(t, f, i) in LocalRoots(from) && LocalRoots(to) == LocalRoots(from)[Local(t, f, i) := p]
  {
    hide LocalRoots;
    LocalAt(from, Local(t, f, i));
    forall k: Root
      ensures k in LocalRoots(to) <==> k in LocalRoots(from)
      ensures k in LocalRoots(to) ==> LocalRoots(to)[k] == if k == Local(t, f, i) then p else LocalRoots(from)[k]
    {
      LocalAt(from, k);
      LocalAt(to, k);
    }
  }

  lemma FrameShape(from: seq<seq<seq<Address>>>, to: seq<seq<seq<Address>>>, t: nat, f: nat)
    requires t < |from| == |to| && f < |from[t]| == |to[t]| && |to[t][f]| == |from[t][f]|
    requires to == from[t := from[t][f := to[t][f]]]
    ensures ShapeOf(to) == ShapeOf(from)
  {
    forall u | 0 <= u < |from| ensures ShapeOf(to)[u] == ShapeOf(from)[u] {}
  }

  lemma FramePushed(tables: Tables, next: Tables, blocks: map<Address, Block>, t: nat, slots: seq<Address>)
    requires t < |tables.stacks| && next == tables.(stacks := tables.stacks[t := tables.stacks[t] + [slots]])
    ensures t < |tables.View(blocks).shape| && next.View(blocks) == PushSlots(tables.View(blocks), t, slots)
  {
    hide StaticRoots, LocalRoots, HandleRoots, ShapeOf, CountsIn, Tables.Roots, Tables.View;
    SlotsPushed(tables.stacks, next.stacks, t, slots);
    ShapePushed(tables.stacks, next.stacks, t, slots);
    RootKinds(tables);
    RootsAre(tables);
    RootsAre(next);
    ViewIs(tables, blocks);
    ViewIs(next, blocks);
    var s, l, h := StaticRoots(tables.statics), LocalRoots(tables.stacks), HandleRoots(tables.handles);
    UnionFrame(s, l, h, FrameRoots(t, |tables.stacks[t]|, slots));
  }

  lemma SlotsPushed(from: seq<seq<seq<Address>>>, to: seq<seq<seq<Address>>>, t: nat, slots: seq<Address>)
    requires t < |from| && to == from[t := from[t] + [slots]]
    ensures LocalRoots(to) == LocalRoots(from) + FrameRoots(t, |from[t]|, slots)
  {
    hide LocalRoots, FrameRoots;
    var frame := FrameRoots(t, |from[t]|, slots);
    forall k: Root
      ensures k in LocalRoots(to) <==> k in LocalRoots(from) || k in frame
      ensures k in frame ==> k !in LocalRoots(from) && LocalRoots(to)[k] == frame[k]
      ensures k in LocalRoots(from) ==> LocalRoots(to)[k] == LocalRoots(from)[k]
    {
      LocalAt(from, k);
      LocalAt(to, k);
      FrameAt(t, |from[t]|, slots, k);
    }
  }

  /** Which keys there are for the slots of all frames, and what they hold. */
  lemma LocalAt(stacks: seq<seq<seq<Address>>>, k: Root)
    ensures k in LocalRoots(stacks) <==>
      && k.Local? && k.thread < |stacks| && k.frame < |stacks[k.thread]| && k.slot < |stacks[k.thread][k.frame]|
    ensures k in LocalRoots(stacks) ==> LocalRoots(stacks)[k] == stacks[k.thread][k.frame][k.slot]
  {
  }

  lemma FrameAt(t: nat, f: nat, slots: seq<Address>, k: Root)
    ensures k in FrameRoots(t, f, slots) <==> k.Local? && k.thread == t && k.frame == f && k.slot < |slots|
    ensures k in FrameRoots(t, f, slots) ==> FrameRoots(t, f, slots)[k] == slots[k.slot]
  {
  }

  lemma ShapePushed(from: seq<seq<seq<Address>>>, to: seq<seq<seq<Address>>>, t: nat, slots: seq<Address>)
    requires t < |from| && to == from[t := from[t] + [slots]]
    ensures |ShapeOf(from)| == |from| && |ShapeOf(from)[t]| == |from[t]|
    ensures ShapeOf(to) == ShapeOf(from)[t := ShapeOf(from)[t] + [|slots|]]
  {
    forall u | 0 <= u < |from| ensures ShapeOf(to)[u] == ShapeOf(from)[t := ShapeOf(from)[t] + [|slots|]][u] {}
  }

  lemma FramePopped(tables: Tables, next: Tables, blocks: map<Address, Block>, t: nat)
    requires t < |tables.stacks| && |tables.stacks[t]| > 0
    requires next == tables.(stacks := tables.stacks[t := tables.stacks[t][..|tables.stacks[t]| - 1]])
    ensures t < |tables.View(blocks).shape| && |tables.View(blocks).shape[t]| > 0
    ensures next.View(blocks) == PopSlots(tables.View(blocks), t)
  {
    hide StaticRoots, LocalRoots, HandleRoots, ShapeOf, CountsIn, Tables.Roots, Tables.View;
    SlotsPopped(tables.stacks, next.stacks, t);
    ShapePopped(tables.stacks, next.stacks, t);
    RootKinds(tables);
    RootsAre(tables);
    RootsAre(next);
    ViewIs(tables, blocks);
    ViewIs(next, blocks);
    var s, l, h := StaticRoots(tables.statics), LocalRoots(tables.stacks), HandleRoots(tables.handles);
    UnionPopped(s, l, h, t, |tables.stacks[t]| - 1);
  }

  lemma SlotsPopped(from: seq<seq<seq<Address>>>, to: seq<seq<seq<Address>>>, t: nat)
    requires t < |from| && |from[t]| > 0 && to == from[t := from[t][..|from[t]| - 1]]
    ensures LocalRoots(to) == map k | k in LocalRoots(from) && !InFrame(k, t, |from[t]| - 1) :: LocalRoots(from)[k]
  {
    hide LocalRoots;
    forall k: Root
      ensures k in LocalRoots(to) <==> k in LocalRoots(from) && !InFrame(k, t, |from[t]| - 1)
      ensures k in LocalRoots(to) ==> LocalRoots(to)[k] == LocalRoots(from)[k]
    {
      LocalAt(from, k);
      LocalAt(to, k);
    }
  }

  lemma ShapePopped(from: seq<seq<seq<Address>>>, to: seq<seq<seq<Address>>>, t: nat)
    requires t < |from| && |from[t]| > 0 && to == from[t := from[t][..|from[t]| - 1]]
    ensures |ShapeOf(from)| == |from| && |ShapeOf(from)[t]| == |from[t]|
    ensures ShapeOf(to) == ShapeOf(from)[t := ShapeOf(from)[t][..|from[t]| - 1]]
  {
    forall u | 0 <= u < |from| ensures ShapeOf(to)[u] == ShapeOf(from)[t := ShapeOf(from)[t][..|from[t]| - 1]][u] {}
  }

  lemma HandleInTable(tables: Tables, blocks: map<Address, Block>, p: Address)
    requires TableMatches(tables.native, tables.handles)
    ensures HandleFor(tables.View(blocks), p) == if p in tables.native then Some(tables.native[p].handle) else None
  {
    var s := tables.View(blocks);
    RootKinds(tables);
    hide StaticRoots, LocalRoots, HandleRoots, ShapeOf, CountsIn, Tables.Roots;
    if p in tables.native {
      assert Handle(tables.native[p].handle) in s.roots && s.roots[Handle(tables.native[p].handle)] == p;
    }
  }

  lemma EntryAdded(native: map<Address, NativeRef>, handles: map<nat, Address>, p: Address, h: nat)
    requires TableMatches(native, handles) && p !in native && h !in handles
    ensures HandleRoots(handles[h := p]) == HandleRoots(handles)[Handle(h) := p]
    ensures CountsIn(native[p := NativeRef(h, 1)], handles[h := p]) == CountsIn(native, handles)[h := 1]
    ensures TableMatches(native[p := NativeRef(h, 1)], handles[h := p]) && h !in CountsIn(native, handles)
  {
    hide *;
    RootAdded(handles, p, h);
    CountAdded(native, handles, p, h);
    MatchAdded(native, handles, p, h);
  }

  lemma CountAdded(native: map<Address, NativeRef>, handles: map<nat, Address>, p: Address, h: nat)
    requires TableMatches(native, handles) && p !in native && h !in handles
    ensures CountsIn(native[p := NativeRef(h, 1)], handles[h := p]) == CountsIn(native, handles)[h := 1]
    ensures h !in CountsIn(native, handles)
  {
    var native', handles' := native[p := NativeRef(h, 1)], handles[h := p];
    var from, to := CountsIn(native, handles), CountsIn(native', handles');
    forall g | g in handles ensures g in from && g in to && to[g] == from[g] {
      assert handles[g] in native && handles[g] != p;
    }
    assert to[h] == 1;
    hide TableMatches;
    assert to.Keys == handles'.Keys && from.Keys == handles.Keys;
  }

  lemma MatchAdded(native: map<Address, NativeRef>, handles: map<nat, Address>, p: Address, h: nat)
    requires TableMatches(native, handles) && p !in native && h !in handles
    ensures TableMatches(native[p := NativeRef(h, 1)], handles[h := p])
  {
  }

  lemma RootAdded(handles: map<nat, Address>, p: Address, h: nat)
    ensures HandleRoots(handles[h := p]) == HandleRoots(handles)[Handle(h) := p]
  {
  }

  lemma EntryDropped(native: map<Address, NativeRef>, handles: map<nat, Address>, h: nat)
    requires TableMatches(native, handles) && h in handles
    ensures HandleRoots(handles - {h}) == HandleRoots(handles) - {Handle(h)}
    ensures CountsIn(native - {handles[h]}, handles - {h}) == CountsIn(native, handles) - {h}
    ensures TableMatches(native - {handles[h]}, handles - {h})
    ensures h in CountsIn(native, handles) && CountsIn(native, handles)[h] == native[handles[h]].count
  {
    hide *;
    RootDropped(handles, h);
    MatchDropped(native, handles, h);
    CountDropped(native, handles, h);
  }

  lemma RootDropped(handles: map<nat, Address>, h: nat)
    ensures HandleRoots(handles - {h}) == HandleRoots(handles) - {Handle(h)}
  {
  }

  lemma MatchDropped(native: map<Address, NativeRef>, handles: map<nat, Address>, h: nat)
    requires TableMatches(native, handles) && h in handles
    ensures TableMatches(native - {handles[h]}, handles - {h})
  {
  }

  lemma CountDropped(native: map<Address, NativeRef>, handles: map<nat, Address>, h: nat)
    requires TableMatches(native, handles) && h in handles
    ensures CountsIn(native - {handles[h]}, handles - {h}) == CountsIn(native, handles) - {h}
    ensures h in CountsIn(native, handles) && CountsIn(native, handles)[h] == native[handles[h]].count
  {
    var native', handles' := native - {handles[h]}, handles - {h};
    var from, to := CountsIn(native, handles), CountsIn(native', handles');
    forall g | g in handles ensures handles[g] in native && (g != h ==> handles[g] != handles[h]) {}
    hide TableMatches;
    assert to.Keys == handles'.Keys && from.Keys == handles.Keys;
    forall g | g in handles' ensures to[g] == from[g] {}
  }

  lemma HandleAdded(tables: Tables, next: Tables, blocks: map<Address, Block>, p: Address, h: nat)
    requires TableMatches(tables.native, tables.handles) && p !in tables.native && h !in tables.handles
    requires next == tables.(native := tables.native[p := NativeRef(h, 1)], handles := tables.handles[h := p])
    ensures next.View(blocks) == AddHandle(tables.View(blocks), p, h) && TableMatches(next.native, next.handles)
    ensures h !in tables.View(blocks).counts
  {
    hide StaticRoots, LocalRoots, HandleRoots, ShapeOf, CountsIn, TableMatches, Tables.Roots, Tables.View;
    EntryAdded(tables.native, tables.handles, p, h);
    RootKinds(tables);
    RootsAre(tables);
    RootsAre(next);
    ViewIs(tables, blocks);
    ViewIs(next, blocks);
    UnionHandle(StaticRoots(tables.statics), LocalRoots(tables.stacks), HandleRoots(tables.handles), Handle(h), p);
  }

  lemma HandleCounted(tables: Tables, next: Tables, blocks: map<Address, Block>, h: nat, count: nat)
    requires TableMatches(tables.native, tables.handles) && h in tables.handles && count > 0
    requires next == tables.(native := tables.native[tables.handles[h] := NativeRef(h, count)])
    ensures h in tables.View(blocks).counts && tables.View(blocks).counts[h] == tables.native[tables.handles[h]].count
    ensures next.View(blocks) == tables.View(blocks).(counts := tables.View(blocks).counts[h := count])
    ensures TableMatches(next.native, next.handles)
  {
    hide StaticRoots, LocalRoots, HandleRoots, ShapeOf;
  }

  lemma HandleDropped(tables: Tables, next: Tables, blocks: map<Address, Block>, h: nat)
    requires TableMatches(tables.native, tables.handles) && h in tables.handles
    requires next == tables.(native := tables.native - {tables.handles[h]}, handles := tables.handles - {h})
    ensures h in tables.View(blocks).counts && tables.View(blocks).counts[h] == tables.native[tables.handles[h]].count
    ensures next.View(blocks) ==
              tables.View(blocks).(roots := tables.View(blocks).roots - {Handle(h)},
                counts := tables.View(blocks).counts - {h})
    ensures TableMatches(next.native, next.handles)
  {
    hide StaticRoots, LocalRoots, HandleRoots, ShapeOf, CountsIn, TableMatches, Tables.Roots, Tables.View;
    EntryDropped(tables.native, tables.handles, h);
    RootKinds(tables);
    RootsAre(tables);
    RootsAre(next);
    ViewIs(tables, blocks);
    ViewIs(next, blocks);
    UnionHandle(StaticRoots(tables.statics), LocalRoots(tables.stacks), HandleRoots(tables.handles), Handle(h),
                tables.handles[h]);
  }

  // ---- The heap -------------------------------------------------------------------------------

  /** How many bytes of the active space are in use, and how many are committed. */
  datatype Usage = Usage(used: int, committed: int)

  class Heap {
    const classes: ClassTable
    const allocator: Semispace
    var blocks: map<Address, Block>
    var tables: Tables
    ghost var objects: seq<Address>

    function View(): State reads this { tables.View(blocks) }

    /** Consistent, with the objects ending at `end`. */
    ghost predicate AtRest(end: Address)
      reads this, allocator, allocator.first, allocator.second
    {
      allocator.Valid() && Consistent(allocator.regions, classes, tables, blocks, objects, allocator.Active().base, end)
    }

    ghost predicate Valid()
      reads this, allocator, allocator.first, allocator.second
    {
      AtRest(allocator.Active().used)
    }

    predicate NothingCommitted()
      reads this, allocator, allocator.first, allocator.second
    {
      allocator.Active().committed == allocator.Active().base
    }

    /** An empty heap, with the roots of the classes and executors there are, all foreign. */
    constructor (classes: ClassTable, allocator: Semispace, tables: Tables)
      requires allocator.Valid() && allocator.Active().used == allocator.Active().base
      requires WellFormed(allocator.regions, classes, tables.View(map[])) && TableMatches(tables.native, tables.handles)
      ensures Valid() && View() == tables.View(map[]) && this.allocator == allocator && this.classes == classes
    {
      hide Consistent, WellFormed, TableMatches, Tables.View, Semispace.ValidSpaces;
      EmptyConsistent(allocator.regions, classes, tables, allocator.Active().base);
      this.classes := classes;
      this.allocator := allocator;
      this.blocks := map[];
      this.tables := tables;
      this.objects := [];
    }

    static lemma EmptyConsistent(regions: Regions, classes: ClassTable, tables: Tables, base: Address)
      requires WellFormed(regions, classes, tables.View(map[])) && TableMatches(tables.native, tables.handles)
      ensures Consistent(regions, classes, tables, map[], [], base, base)
    {
      hide WellFormed, TableMatches;
    }

    /** The active space has room for so many bytes without a collection. */
    predicate Room(amount: nat)
      reads this, allocator, allocator.first, allocator.second
    {
      allocator.Active().used + amount <= allocator.Active().committed
    }

    /** The committed size a collection would leave: it depends on the live bytes, the committed size
        and the reservation, and not on what is asked for. */
    ghost function SizeAfterCollection(grants: Grants): int
      reads this, allocator, allocator.first, allocator.second
    {
      var active, idle := allocator.Active(), allocator.Idle();
      if allocator.policy.Valid() && active.base <= active.committed && idle.base <= idle.cap then
        allocator.policy.Resized(LiveBytes(classes, View()), active.committed - active.base, idle.cap - idle.base,
          grants.growing)
      else 0
    }

    /** What decides an allocation of so many bytes, before it is made: there is room, or a collection
        can start and the live bytes leave room in what it commits. */
    ghost predicate Obtainable(amount: nat, grants: Grants)
      reads this, allocator, allocator.first, allocator.second
    {
      || Room(amount)
      || (allocator.Copyable(grants.copying) && LiveBytes(classes, View()) + amount <= SizeAfterCollection(grants))
    }

    function CurrentUsage(): Usage
      reads this, allocator, allocator.first, allocator.second
    {
      var active := allocator.Active();
      Usage(active.used - active.base, active.committed - active.base)
    }

    ghost function UsageAfterCollection(grants: Grants): Usage
      reads this, allocator, allocator.first, allocator.second
    {
      if allocator.Copyable(grants.copying) then Usage(LiveBytes(classes, View()), SizeAfterCollection(grants))
      else CurrentUsage()
    }

    /** The usage an allocation of so many bytes leaves: it takes them where there is room, at once or after
        a collection, and commits or gives back nothing but what the collection does. */
    ghost function UsageAfter(amount: nat, grants: Grants): Usage
      reads this, allocator, allocator.first, allocator.second
    {
      var usage := if Room(amount) then CurrentUsage() else UsageAfterCollection(grants);
      if usage.used + amount <= usage.committed then usage.(used := usage.used + amount) else usage
    }

    /** Copies the live objects to the idle space and exchanges the spaces, unless the idle space
        cannot be committed. */
    method CollectGarbage(grants: Grants) returns (ok: bool)
      requires Valid()
      modifies this, allocator, allocator.first, allocator.second
      ensures Valid()
      ensures ok <==> old(allocator.Copyable(grants.copying))
      ensures ok <==> allocator.useSecondSpace != old(allocator.useSecondSpace)
      ensures if ok then Collected(allocator.regions, old(View()), View()) else View() == old(View())
      ensures CurrentUsage() == old(UsageAfterCollection(grants))
      ensures ok ==> Sized(allocator.policy, LiveBytes(classes, old(View())), old(CurrentUsage().committed),
                           allocator.Active().cap - allocator.Active().base, grants.growing, CurrentUsage().committed)
      ensures old(NothingCommitted()) ==> NothingCommitted()
    {
      hide LiveBytes, Consistent, Collected, Tables.View, Policy.Resized, Policy.TooFull, Policy.Allows, Sized,
           SizeAfterCollection;
      SizeAfter(grants);
      ghost var live, size := LiveBytes(classes, View()), SizeAfterCollection(grants);
      EndWithinSpace(allocator.regions, classes, tables, blocks, objects, allocator.Active().base,
                     allocator.Active().used);
      var destination := allocator.GcPrologue(grants.copying);
      if destination.None? {
        return false;
      }
      var end := MoveLive(destination.value);
      EmptyNeverGrows(allocator.policy, 0, allocator.Idle().cap - allocator.Idle().base, grants.growing);
      allocator.GcEpilogue(end, grants.growing);
      assert CurrentUsage() == Usage(live, size);
      return true;
    }

    /** Moves the live objects to the start of the idle space, of which enough has been committed. */
    method MoveLive(destination: Address) returns (end: Address)
      requires allocator.ValidSpaces() && destination == allocator.Idle().base
      requires Consistent(allocator.regions, classes, tables, blocks, objects, allocator.Active().base,
                          allocator.Active().used)
      requires allocator.Active().used - allocator.Active().base <= allocator.Idle().CommittedMemory()
      modifies this
      ensures Collected(allocator.regions, old(View()), View())
      ensures Consistent(allocator.regions, classes, tables, blocks, objects, destination, end)
      ensures destination <= end <= allocator.Idle().committed && end == destination + LiveBytes(classes, old(View()))
    {
      hide LiveBytes, Consistent, Collected, Collects, Tables.View;
      var low, high := allocator.Active().base, allocator.Active().cap;
      var moved, survivors;
      ghost var e;
      moved, survivors, end, e := CopyLive(classes, tables, blocks, low, high, destination,
                                           allocator.regions, objects, allocator.Active().used,
                                           allocator.Idle().committed);
      ACollection(allocator.regions, View(), moved.View(survivors), e.phi);
      tables, blocks, objects := moved, survivors, e.at;
    }

    lemma SizeAfter(grants: Grants)
      requires allocator.Valid()
      ensures SizeAfterCollection(grants) ==
              allocator.policy.Resized(LiveBytes(classes, View()), allocator.Active().CommittedMemory(),
                                       allocator.Idle().cap - allocator.Idle().base, grants.growing)
    {
      hide LiveBytes, Tables.View, Policy.Resized;
    }

    static lemma ACollection(regions: Regions, s: State, t: State, phi: map<Address, Address>)
      requires Collects(regions, s, t, phi)
      ensures Collected(regions, s, t)
    {
      hide Collects;
    }

    static lemma EndWithinSpace(regions: Regions, classes: ClassTable, tables: Tables, blocks: map<Address, Block>,
                                objects: seq<Address>, base: Address, used: Address)
      requires Consistent(regions, classes, tables, blocks, objects, base, used)
      ensures base <= used
    {
      hide Tiles, WellFormed, TableMatches;
    }

    /** Memory for one object: tried, and tried once more after a collection. The address returned
        is 8 past the start of the allocation. */
    method AllocateMemory(amount: nat, grants: Grants) returns (r: Option<Address>)
      requires Valid()
      modifies this, allocator, allocator.first, allocator.second
      ensures r.None? ==> Valid()
      ensures r.Some? ==> r.value >= 8 && AtRest(r.value - 8) && allocator.Active().used == r.value + amount
      ensures old(Room(amount + 8)) ==> r == Some(old(allocator.Active().used) + 8) && View() == old(View())
      ensures allocator.useSecondSpace != old(allocator.useSecondSpace) <==>
                !old(Room(amount + 8)) && old(allocator.Copyable(grants.copying))
      ensures allocator.useSecondSpace == old(allocator.useSecondSpace) ==> View() == old(View())
      ensures allocator.useSecondSpace != old(allocator.useSecondSpace) ==>
          Collected(allocator.regions, old(View()), View())
      ensures r.Some? <==> old(Obtainable(amount + 8, grants))
      ensures CurrentUsage() == old(UsageAfter(amount + 8, grants))
      ensures allocator.useSecondSpace == old(allocator.useSecondSpace) ==>
          CurrentUsage().committed == old(CurrentUsage().committed)
      ensures allocator.useSecondSpace != old(allocator.useSecondSpace) ==>
          Sized(allocator.policy, LiveBytes(classes, old(View())), old(CurrentUsage().committed),
                allocator.Active().cap - allocator.Active().base, grants.growing, CurrentUsage().committed)
      ensures old(NothingCommitted()) ==> NothingCommitted()
    {
      hide LiveBytes, SizeAfterCollection, AtRest, Collected, Tables.View, Semispace.Valid, Sized;
      var total := amount + 8;
      var space := Take(total);
      if space.Some? {
        return Some(space.value + 8);
      }
      var ok := CollectGarbage(grants);
      if !ok {
        return None;
      }
      space := Take(total);
      if space.Some? {
        return Some(space.value + 8);
      }
      return None;
    }

    /** One try at the active space: the objects end where they did, in front of what was taken. */
    method Take(amount: nat) returns (r: Option<Address>)
      requires Valid()
      modifies allocator.Active()`used
      ensures AtRest(old(allocator.Active().used)) && (r.None? ==> Valid())
      ensures r == if old(Room(amount)) then Some(old(allocator.Active().used)) else None
      ensures r.Some? ==> CurrentUsage() == old(CurrentUsage()).(used := old(CurrentUsage().used) + amount)
      ensures r.None? ==> CurrentUsage() == old(CurrentUsage())
    {
      hide Consistent;
      r := allocator.Allocate(amount);
    }

    /** Puts a zeroed object with the given header into the memory just allocated for it. */
    method PlaceObject(header: Header, at: Address)
      requires at >= 8 && AtRest(at - 8) && Allocatable(classes, header)
      requires allocator.Active().used == at - 8 + BlockSize(classes, header)
      modifies this
      ensures Valid() && Placed(allocator.regions, classes, old(View()), View(), header, Some(at))
    {
      hide Consistent, Zeroed, BlockSize, Tables.View, Placed;
      ObjectPlaced(allocator.regions, classes, tables, blocks, blocks[at := Zeroed(classes, header)],
                   objects, objects + [at], allocator.Active().base, at - 8, at,
                   allocator.Active().used, allocator.Active().cap, header);
      ViewKeepsBlocks(tables, blocks);
      ViewOfChange(tables, blocks, at, Zeroed(classes, header));
      PlacedSome(allocator.regions, classes, View(), at, header);
      blocks := blocks[at := Zeroed(classes, header)];
      objects := objects + [at];
    }

    predicate RoomFor(header: Header)
      reads this, allocator, allocator.first, allocator.second
    {
      Room(BlockSize(classes, header))
    }

    ghost function UsageAfterNew(header: Header, grants: Grants): Usage
      reads this, allocator, allocator.first, allocator.second
    {
      UsageAfter(BlockSize(classes, header), grants)
    }

    ghost predicate ObtainableFor(header: Header, grants: Grants)
      reads this, allocator, allocator.first, allocator.second
    {
      Obtainable(BlockSize(classes, header), grants)
    }

    /** How an allocation ends: perhaps a collection, then a zeroed object or failure. It collects
        exactly when there is no room and a collection can start, and succeeds exactly when the memory
        was obtainable. */
    static ghost predicate AllocationEnds(regions: Regions, classes: ClassTable, s: State, t: State, header: Header,
                                          r: Option<Address>, hadRoom: bool, copyable: bool, exchanged: bool,
                                          obtainable: bool) {
      && Allocatable(classes, header) && Allocates(regions, classes, s, t, header, r)
      && PlacedAfter(regions, classes, s, t, header, r, exchanged)
      && (exchanged <==> !hadRoom && copyable)
      && (r.Some? <==> obtainable)
    }

    // ---- What never succeeds ------------------------------------------------------------------

    static lemma NothingLive(classes: ClassTable, s: State)
      requires s.blocks == map[]
      ensures LiveBytes(classes, s) == 0
    {
      assert Live(s) == {};
    }

    /** On an empty heap a collection never helps: an allocation succeeds exactly if there is room,
        however much of the reservation is left and whatever the platform grants, because the size
        left after a collection does not depend on what is asked for. */
    lemma EmptyHeapNeverGrows(amount: nat, grants: Grants)
      requires Valid() && blocks == map[] && allocator.Active().used == allocator.Active().base
      ensures Obtainable(amount, grants) <==> Room(amount)
    {
      hide AtRest, Collected, Live, LiveBytes, Policy.Resized;
      NothingLive(classes, View());
      PartsValid();
      EmptyNeverGrows(allocator.policy, allocator.Active().committed - allocator.Active().base,
                      allocator.Idle().cap - allocator.Idle().base, grants.growing);
    }

    lemma PartsValid()
      requires Valid()
      ensures allocator.Valid()
    {
      hide Consistent;
    }

    /** So from an empty heap with one page committed an object of two pages cannot be had ... */
    lemma TwoPagesFromOne(grants: Grants)
      requires Valid() && blocks == map[] && allocator.Active().used == allocator.Active().base
      requires allocator.Active().committed == allocator.Active().base + allocator.policy.page
      ensures !Obtainable(2 * allocator.policy.page, grants)
    {
      hide AtRest, Obtainable;
      PartsValid();
      EmptyHeapNeverGrows(2 * allocator.policy.page, grants);
    }

    static lemma NoSpaceNoObjects(regions: Regions, classes: ClassTable, tables: Tables, blocks: map<Address, Block>,
                                  objects: seq<Address>, base: Address)
      requires Consistent(regions, classes, tables, blocks, objects, base, base)
      ensures blocks == map[]
    {
      hide WellFormed, TableMatches;
      forall a: Address ensures a !in blocks {
        if a in blocks { TilesInside(classes, blocks, objects, base, a); }
      }
    }

    /** ... and from one with nothing committed, as start-up leaves it, nothing can. */
    lemma NothingObtainable(amount: nat, grants: Grants)
      requires Valid() && NothingCommitted() && amount > 0
      ensures !Obtainable(amount, grants)
    {
      hide Consistent, Obtainable;
      PartsValid();
      NoSpaceNoObjects(allocator.regions, classes, tables, blocks, objects, allocator.Active().base);
      EmptyHeapNeverGrows(amount, grants);
    }

    method AllocateObject(cls: nat, grants: Grants) returns (r: Option<Address>)
      requires Valid() && Allocatable(classes, Instance(cls))
      modifies this, allocator, allocator.first, allocator.second
      ensures Valid() && (old(NothingCommitted()) ==> r.None? && NothingCommitted())
      ensures CurrentUsage() == old(UsageAfterNew(Instance(cls), grants))
      ensures AllocationEnds(allocator.regions, classes, old(View()), View(), Instance(cls), r,
                             old(RoomFor(Instance(cls))), old(allocator.Copyable(grants.copying)),
                             allocator.useSecondSpace != old(allocator.useSecondSpace), old(ObtainableFor(Instance(cls),
                               grants)))
    {
      hide AtRest, MayCollect, Collected, Tables.View, Placed, AlignedMemoryAmount, Zeroed, Obtainable, UsageAfter;
      AlignPlusWord(classes[cls].totalSize);
      if NothingCommitted() { NothingObtainable(BlockSize(classes, Instance(cls)), grants); }
      ghost var before := View();
      r := AllocateMemory(AlignedMemoryAmount(classes[cls].totalSize + 8), grants);
      ghost var mid := View();
      if r.Some? {
        PlaceObject(Instance(cls), r.value);
      } else {
        NotPlaced(allocator.regions, classes, mid, Instance(cls));
      }
      Allocated(allocator.regions, classes, before, mid, View(), Instance(cls), r,
                allocator.useSecondSpace != old(allocator.useSecondSpace));
    }

    method AllocateArray(element: Datatype, length: nat, grants: Grants) returns (r: Option<Address>)
      requires Valid() && Allocatable(classes, Array(element, length))
      modifies this, allocator, allocator.first, allocator.second
      ensures Valid() && (old(NothingCommitted()) ==> r.None? && NothingCommitted())
      ensures CurrentUsage() == old(UsageAfterNew(Array(element, length), grants))
      ensures AllocationEnds(allocator.regions, classes, old(View()), View(), Array(element, length), r,
                             old(RoomFor(Array(element, length))), old(allocator.Copyable(grants.copying)),
                             allocator.useSecondSpace != old(allocator.useSecondSpace), old(ObtainableFor(Array(element,
                               length), grants)))
    {
      hide AtRest, MayCollect, Collected, Tables.View, Placed, AlignedMemoryAmount, Zeroed, Obtainable, UsageAfter;
      var toAllocateBytes := Size(element) * length;
      AlignPlusWord(toAllocateBytes);
      if NothingCommitted() { NothingObtainable(BlockSize(classes, Array(element, length)), grants); }
      ghost var before := View();
      r := AllocateMemory(AlignedMemoryAmount(toAllocateBytes + 8), grants);
      ghost var mid := View();
      if r.Some? {
        PlaceObject(Array(element, length), r.value);
      } else {
        NotPlaced(allocator.regions, classes, mid, Array(element, length));
      }
      Allocated(allocator.regions, classes, before, mid, View(), Array(element, length), r,
                allocator.useSecondSpace != old(allocator.useSecondSpace));
    }

    static lemma NotPlaced(regions: Regions, classes: ClassTable, s: State, header: Header)
      requires Allocatable(classes, header)
      ensures Placed(regions, classes, s, s, header, None)
    {
    }

    static lemma Allocated(regions: Regions, classes: ClassTable, s: State, mid: State, t: State, header: Header,
                           r: Option<Address>, collected: bool)
      requires Allocatable(classes, header) && Placed(regions, classes, mid, t, header, r)
      requires if collected then Collected(regions, s, mid) else mid == s
      ensures Allocates(regions, classes, s, t, header, r) && PlacedAfter(regions, classes, s, t, header, r, collected)
    {
      hide Collected, Placed;
      assert MayCollect(regions, s, mid);
    }

    // ---- Stores, frames and handles -----------------------------------------------------------

    /** Writing a reference into a field or an array element. */
    method WritePointer(a: Address, i: nat, p: Address)
      requires Valid() && a in blocks && i < |blocks[a].pointers| && Resolves(allocator.regions, blocks, p)
      modifies this
      ensures Valid() && View() == SetPointer(old(View()), a, i, p)
      ensures OnlyPointer(old(View()), View(), a, i, p)
    {
      hide Consistent, Tables.Roots, ShapeOf, CountsIn, OnlyPointer;
      PointerSet(View(), a, i, p);
      ConsistentIsWellFormed();
      SetPointerWellFormed(allocator.regions, classes, View(), a, i, p);
      var block := blocks[a].(pointers := blocks[a].pointers[i := p]);
      ObjectRewritten(allocator.regions, classes, tables, blocks, objects, allocator.Active().base,
                      allocator.Active().used, a, block);
      blocks := blocks[a := block];
    }

    /** Writing a value of any width, given as its bytes. */
    method WriteData(a: Address, i: nat, value: seq<Byte>)
      requires Valid() && a in blocks && i + |value| <= |blocks[a].data|
      modifies this
      ensures Valid() && View() == SetData(old(View()), a, i, value)
      ensures OnlyData(old(View()), View(), a, i, value)
    {
      hide Consistent, Tables.Roots, ShapeOf, CountsIn, OnlyData;
      DataSet(View(), a, i, value);
      ConsistentIsWellFormed();
      SetDataWellFormed(allocator.regions, classes, View(), a, i, value);
      var block := blocks[a].(data := Overwrite(blocks[a].data, i, value));
      ObjectRewritten(allocator.regions, classes, tables, blocks, objects, allocator.Active().base,
                      allocator.Active().used, a, block);
      blocks := blocks[a := block];
    }

    method WriteStatic(c: nat, i: nat, p: Address)
      requires Valid() && c < |tables.statics| && i < |tables.statics[c]| && Resolves(allocator.regions, blocks, p)
      modifies this
      ensures Valid() && View() == SetRoot(old(View()), Static(c, i), p)
      ensures OnlyRoot(old(View()), View(), Static(c, i), p)
    {
      hide Consistent, WellFormed, TableMatches, Tables.View, Tables.Roots, OnlyRoot;
      ConsistentIsWellFormed();
      var row: seq<Address> := tables.statics[c][i := p];
      var next := tables.(statics := tables.statics[c := row]);
      StaticWritten(tables, next, blocks, c, i, p);
      ViewKeepsBlocks(tables, blocks);
      RootSet(View(), Static(c, i), p);
      SetRootWellFormed(allocator.regions, classes, View(), Static(c, i), p);
      RootsChanged(next);
      tables := next;
    }

    method WriteSlot(t: nat, f: nat, i: nat, p: Address)
      requires Valid() && Resolves(allocator.regions, blocks, p)
      requires t < |tables.stacks| && f < |tables.stacks[t]| && i < |tables.stacks[t][f]|
      modifies this
      ensures Valid() && View() == SetRoot(old(View()), Local(t, f, i), p)
      ensures OnlyRoot(old(View()), View(), Local(t, f, i), p)
    {
      hide Consistent, WellFormed, TableMatches, Tables.View, Tables.Roots, OnlyRoot;
      ConsistentIsWellFormed();
      var frame: seq<Address> := tables.stacks[t][f][i := p];
      var next := tables.(stacks := tables.stacks[t := tables.stacks[t][f := frame]]);
      SlotWritten(tables, next, blocks, t, f, i, p);
      ViewKeepsBlocks(tables, blocks);
      RootSet(View(), Local(t, f, i), p);
      SetRootWellFormed(allocator.regions, classes, View(), Local(t, f, i), p);
      RootsChanged(next);
      tables := next;
    }

    /** A new current frame with the given pointer slots. */
    method PushFrame(t: nat, slots: seq<Address>)
      requires Valid() && t < |tables.stacks| && AllResolve(allocator.regions, blocks, slots)
      modifies this
      ensures Valid() && t < |old(View()).shape| && View() == PushSlots(old(View()), t, slots)
      ensures OnlyFrame(old(View()), View(), t, slots)
    {
      hide Consistent, WellFormed, TableMatches, Tables.View, Tables.Roots, AllResolve, OnlyFrame;
      ConsistentIsWellFormed();
      var next := tables.(stacks := tables.stacks[t := tables.stacks[t] + [slots]]);
      FramePushed(tables, next, blocks, t, slots);
      ViewKeepsBlocks(tables, blocks);
      FramePut(View(), t, slots);
      PushWellFormed(allocator.regions, classes, View(), t, slots);
      RootsChanged(next);
      tables := next;
    }

    method PopFrame(t: nat)
      requires Valid() && t < |tables.stacks| && |tables.stacks[t]| > 0
      modifies this
      ensures Valid() && t < |old(View()).shape| && |old(View()).shape[t]| > 0 && View() == PopSlots(old(View()), t)
    {
      hide Consistent, WellFormed, TableMatches, Tables.View, Tables.Roots;
      ConsistentIsWellFormed();
      var next := tables.(stacks := tables.stacks[t := tables.stacks[t][..|tables.stacks[t]| - 1]]);
      FramePopped(tables, next, blocks, t);
      PopWellFormed(allocator.regions, classes, View(), t);
      RootsChanged(next);
      tables := next;
    }

    lemma ConsistentIsWellFormed()
      requires Valid()
      ensures WellFormed(allocator.regions, classes, View()) && TableMatches(tables.native, tables.handles)
    {
      hide WellFormed, TableMatches, Tiles;
    }

    lemma RootsChanged(next: Tables)
      requires Valid() && WellFormed(allocator.regions, classes, next.View(blocks)) &&
          TableMatches(next.native, next.handles)
      ensures Consistent(allocator.regions, classes, next, blocks, objects, allocator.Active().base,
          allocator.Active().used)
    {
      hide WellFormed, TableMatches, Tiles;
    }

    /** The handle of an object, with one more acquisition; a new handle if it has none. `unused` is
        what the native allocator returns. */
    method AllocateNativeReference(obj: Address, unused: nat) returns (h: nat)
      requires Valid() && Resolves(allocator.regions, blocks, obj) && unused !in tables.handles
      modifies this
      ensures Valid()
      ensures HandleFor(old(View()), obj) == None ==> h == unused && View() == AddHandle(old(View()), obj, unused)
      ensures HandleFor(old(View()), obj) != None ==>
                h in old(View()).counts && HandleFor(old(View()), obj) == Some(h) && View() == CountUp(old(View()), h)
    {
      hide Consistent, WellFormed, HandleFor, Tables.View, Tables.Roots;
      ConsistentIsWellFormed();
      HandleInTable(tables, blocks, obj);
      ViewKeepsBlocks(tables, blocks);
      var next;
      if obj in tables.native {
        h := tables.native[obj].handle;
        next := tables.(native := tables.native[obj := NativeRef(h, tables.native[obj].count + 1)]);
        HandleCounted(tables, next, blocks, h, tables.native[obj].count + 1);
        CountUpWellFormed(allocator.regions, classes, View(), h);
      } else {
        h := unused;
        next := tables.(native := tables.native[obj := NativeRef(h, 1)], handles := tables.handles[h := obj]);
        HandleAdded(tables, next, blocks, obj, h);
        AddHandleWellFormed(allocator.regions, classes, View(), obj, h);
      }
      RootsChanged(next);
      tables := next;
    }

    /** One release of a live handle; the last one deletes it. */
    method DeallocateNativeReference(h: nat)
      requires Valid() && h in tables.handles
      modifies this
      ensures Valid() && h in old(View()).counts && old(View()).counts[h] > 0 && View() == CountDown(old(View()), h)
    {
      hide Consistent, WellFormed, HandleFor, Tables.View, Tables.Roots;
      ConsistentIsWellFormed();
      var obj := tables.handles[h];
      if obj in tables.native {
        var count := tables.native[obj].count - 1;
        var next;
        if count == 0 {
          next := tables.(native := tables.native - {obj}, handles := tables.handles - {h});
          HandleDropped(tables, next, blocks, h);
        } else {
          next := tables.(native := tables.native[obj := NativeRef(tables.native[obj].handle, count)]);
          HandleCounted(tables, next, blocks, h, count);
        }
        CountDownWellFormed(allocator.regions, classes, View(), h);
        RootsChanged(next);
        tables := next;
      }
    }
  }
}
