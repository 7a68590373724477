/** The state of a collection in progress, and what each of its steps keeps
    (gc/stop_and_copy.cpp:12-108). */
module Evacuation {
  import opened Prelude
  import opened Objects

  /** Sizes of the objects of a space, for sums over lists of addresses. */
  function SizeIn(classes: ClassTable, blocks: map<Address, Block>): Address -> nat {
    a => if a in blocks then BlockSize(classes, blocks[a].header) else 0
  }

  /** Each allocation starts where the one before it ends, the first at `base`; an object's
      address is 8 past the start of its allocation. */
  ghost predicate Packed(objects: seq<Address>, at: seq<Address>, size: Address -> nat, base: Address) {
    |at| == |objects| && forall i :: 0 <= i < |at| ==> at[i] == base + 8 + Sum(objects[..i], size)
  }

  /** `objects` lists the objects of a space in address order, without gaps. */
  ghost predicate Tiles(classes: ClassTable, blocks: map<Address, Block>, objects: seq<Address>, base: Address) {
    && (forall a :: a in blocks <==> a in objects)
    && Packed(objects, objects, SizeIn(classes, blocks), base)
  }

  /** A collection: the heap it started from and its live objects, the sizes of those objects, the
      bounds of the collected space and of the space copied into; then the objects copied so far in
      copy order, as they were, as they are now, their new addresses, and the free pointer; then
      how many copies are completely scanned and how many references of the next one are. */
  datatype Progress = Progress(
    regions: Regions, pre: State, live: set<Address>, size: Address -> nat,
    low: Address, high: Address, start: Address, limit: Address,
    order: seq<Address>, source: seq<Block>, copies: seq<Block>,
    at: seq<Address>, phi: map<Address, Address>, end: Address,
    scanned: nat, slot: nat)
  {
    ghost predicate Setup() {
      && 0 < start <= limit && 0 < low <= high && (limit <= low || high <= start)
      && (forall p :: low <= p < high || start <= p < limit ==> !regions.Foreign(p))
      && (forall a :: a in pre.blocks ==> low <= a < high && size(a) >= 16)
      && live <= pre.blocks.Keys
    }

    /** Each live object is copied at most once, to its own place below the free pointer. */
    ghost predicate Ordered() {
      && Distinct(order) && |at| == |order|
      && (forall i :: 0 <= i < |order| ==> order[i] in live)
      && (forall i :: 0 <= i < |order| ==> order[i] in phi && phi[order[i]] == at[i])
      && (forall a :: a in phi ==> a in order)
      && (forall i :: 0 <= i < |at| ==> start < at[i] < end)
      && (forall i, j :: 0 <= i < j < |at| ==> at[i] < at[j])
      && start <= end <= limit
    }

    /** How many references of the i-th copy have been redirected. */
    function Done(i: nat): nat
      requires i < |source|
    {
      if i < scanned then |source[i].pointers| else if i == scanned then slot else 0
    }

    /** A copy of `original` whose first `done` references are redirected. */
    ghost predicate IsCopy(original: Block, done: nat, block: Block) {
      && block.header == original.header && block.data == original.data
      && |block.pointers| == |original.pointers|
      && (forall j :: 0 <= j < |original.pointers| ==>
            block.pointers[j] == if j < done then Rename(phi, original.pointers[j]) else original.pointers[j])
      && (forall j :: 0 <= j < done && j < |original.pointers| ==> Covers(regions, phi, original.pointers[j]))
    }

    /** Copies below the scan position hold new references, copies above it original ones. */
    ghost predicate Faithful() {
      && |source| == |order| && |copies| == |order|
      && scanned <= |source| && slot <= (if scanned < |source| then |source[scanned].pointers| else 0)
      && (forall i :: 0 <= i < |order| ==> order[i] in pre.blocks && source[i] == pre.blocks[order[i]])
      && (forall i :: 0 <= i < |source| ==> IsCopy(source[i], Done(i), copies[i]))
    }

    /** The collected space is unchanged but for forwarding marks. */
    ghost predicate Marked(blocks: map<Address, Block>) {
      forall a :: a in pre.blocks ==>
        && a in blocks
        && blocks[a] == if a in phi then pre.blocks[a].(header := Forwarded(phi[a])) else pre.blocks[a]
    }

    /** The other space holds the copies and nothing else. */
    ghost predicate Stored(blocks: map<Address, Block>) {
      && |copies| == |at|
      && (forall i :: 0 <= i < |at| ==> at[i] in blocks && blocks[at[i]] == copies[i])
      && (forall b :: b in blocks ==> b in pre.blocks || b in at)
    }

    /** The invariant of the whole collection. */
    ghost predicate Holds(blocks: map<Address, Block>) {
      Setup() && Ordered() && Faithful() && Marked(blocks) && Stored(blocks)
    }

    /** A reference found in a root or a copied object. */
    ghost predicate Traced(p: Address) { p in live || regions.Foreign(p) }

    /** Copies are laid end to end. */
    ghost predicate Compact() {
      Packed(order, at, size, start) && end == start + Sum(order, size)
    }
  }

  /** Later progress of the same collection: forwarding addresses never change. */
  ghost predicate Grows(e: Progress, e': Progress) {
    && e' == e.(order := e'.order, source := e'.source, copies := e'.copies, at := e'.at, phi := e'.phi,
                end := e'.end, scanned := e'.scanned, slot := e'.slot)
    && e.order <= e'.order && e.source <= e'.source && e.at <= e'.at
    && (forall a :: a in e.phi ==> a in e'.phi && e'.phi[a] == e.phi[a])
  }

  /** Later progress with the scan at the same place. */
  ghost predicate Continues(e: Progress, e': Progress) {
    Grows(e, e') && e'.scanned == e.scanned && e'.slot == e.slot
  }

  // ---- Space ----------------------------------------------------------------------------------

  /** Distinct objects of the collected space never need more room than it used. */
  lemma CopiesFit(e: Progress, objects: seq<Address>, more: Address)
    requires e.live <= e.pre.blocks.Keys && e.Ordered() && e.Compact()
    requires forall a :: a in e.pre.blocks ==> a in objects
    requires more in e.pre.blocks && more !in e.phi
    ensures e.end + e.size(more) <= e.start + Sum(objects, e.size)
  {
    var order := e.order + [more];
    forall a | a in order ensures a in objects {
      if a in e.order { var i :| 0 <= i < |e.order| && e.order[i] == a; }
    }
    SumOfSelection(order, objects, e.size);
    assert order[..|e.order|] == e.order;
  }

  lemma ForwardingInjective(e: Progress)
    requires e.Ordered()
    ensures Injective(e.phi)
    ensures forall a :: a in e.phi ==> e.start < e.phi[a] < e.end <= e.limit && e.phi[a] in e.at
  {
    forall a | a in e.phi ensures e.start < e.phi[a] < e.end && e.phi[a] in e.at {
      var i :| 0 <= i < |e.order| && e.order[i] == a;
    }
    forall a, b | a in e.phi && b in e.phi && a != b ensures e.phi[a] != e.phi[b] {
      var i :| 0 <= i < |e.order| && e.order[i] == a;
      var j :| 0 <= j < |e.order| && e.order[j] == b;
      assert i < j || j < i;
    }
  }

  // ---- Steps ----------------------------------------------------------------------------------

  lemma RenameStays(e: Progress, e': Progress, p: Address)
    requires e.Setup() && Grows(e, e') && e'.Ordered() && Covers(e.regions, e.phi, p)
    ensures Rename(e'.phi, p) == Rename(e.phi, p) && Covers(e.regions, e'.phi, p)
  {
    if p in e'.phi {
      var i :| 0 <= i < |e'.order| && e'.order[i] == p;
    }
  }

  lemma AllRenamesStay(e: Progress, e': Progress, pointers: seq<Address>)
    requires e.Setup() && Grows(e, e') && e'.Ordered()
    requires forall i :: 0 <= i < |pointers| ==> Covers(e.regions, e.phi, pointers[i])
    ensures RenameAll(e'.phi, pointers) == RenameAll(e.phi, pointers)
    ensures forall i :: 0 <= i < |pointers| ==> Covers(e.regions, e'.phi, pointers[i])
  {
    forall i | 0 <= i < |pointers|
      ensures Rename(e'.phi, pointers[i]) == Rename(e.phi, pointers[i]) && Covers(e.regions, e'.phi, pointers[i])
    {
      RenameStays(e, e', pointers[i]);
    }
  }

  /** Progress after one more object is copied to the free pointer. */
  function Evacuated(e: Progress, root: Address, block: Block): Progress {
    e.(order := e.order + [root], source := e.source + [block], copies := e.copies + [block],
       at := e.at + [e.end + 8], phi := e.phi[root := e.end + 8], end := e.end + e.size(root))
  }

  /** The memory after that step. */
  function Evacuate(blocks: map<Address, Block>, root: Address, to: Address): map<Address, Block>
    requires root in blocks
  {
    blocks[to := blocks[root]][root := blocks[root].(header := Forwarded(to))]
  }

  lemma EvacuatedContinues(e: Progress, root: Address, block: Block)
    requires root !in e.phi
    ensures Continues(e, Evacuated(e, root, block))
  {
  }

  lemma EvacuatedDistinct(order: seq<Address>, root: Address)
    requires Distinct(order) && root !in order
    ensures Distinct(order + [root])
  {
  }

  lemma EvacuatedOrdered(e: Progress, root: Address, block: Block)
    requires e.Ordered() && root in e.live && root !in e.phi
    requires e.size(root) >= 16 && e.end + e.size(root) <= e.limit
    ensures Evacuated(e, root, block).Ordered() && Continues(e, Evacuated(e, root, block))
  {
    EvacuatedContinues(e, root, block);
    var e' := Evacuated(e, root, block);
    assert root !in e.order;
    EvacuatedDistinct(e.order, root);
    hide Continues, Distinct;
    assert e'.order[|e.order|] == root;
    forall a | a in e'.phi ensures a in e'.order {
      if a != root { var i :| 0 <= i < |e.order| && e.order[i] == a; assert e'.order[i] == a; }
    }
  }

  lemma EvacuatedCompact(e: Progress, root: Address, block: Block)
    requires e.Compact()
    ensures Evacuated(e, root, block).Compact()
  {
    var e' := Evacuated(e, root, block);
    assert e'.order[..|e.order|] == e.order;
    forall i | 0 <= i < |e'.at| ensures e'.at[i] == e.start + 8 + Sum(e'.order[..i], e.size) {
      assert e'.order[..i] == e.order[..i];
      assert e.order[..|e.order|] == e.order;
    }
  }

  lemma CopyStays(e: Progress, e': Progress, original: Block, done: nat, block: Block)
    requires e.Setup() && e'.Ordered() && Grows(e, e') && e.IsCopy(original, done, block)
    ensures e'.IsCopy(original, done, block)
  {
    forall j | 0 <= j < |original.pointers| && j < done
      ensures Rename(e'.phi, original.pointers[j]) == Rename(e.phi, original.pointers[j])
      ensures Covers(e.regions, e'.phi, original.pointers[j])
    {
      RenameStays(e, e', original.pointers[j]);
    }
  }

  lemma EvacuatedFaithful(e: Progress, root: Address)
    requires e.Setup() && e.Faithful() && root in e.pre.blocks
    requires Evacuated(e, root, e.pre.blocks[root]).Ordered() && Continues(e, Evacuated(e, root, e.pre.blocks[root]))
    ensures Evacuated(e, root, e.pre.blocks[root]).Faithful()
  {
    var e' := Evacuated(e, root, e.pre.blocks[root]);
    forall i | 0 <= i < |e'.source| ensures e'.IsCopy(e'.source[i], e'.Done(i), e'.copies[i]) {
      if i < |e.source| { CopyStays(e, e', e.source[i], e.Done(i), e.copies[i]); }
    }
  }

  lemma EvacuationTargetFree(e: Progress, blocks: map<Address, Block>)
    requires e.Setup() && e.Ordered() && e.Stored(blocks) && e.end + 16 <= e.limit
    ensures e.end + 8 !in blocks
  {
  }

  lemma EvacuatedMarked(e: Progress, blocks: map<Address, Block>, root: Address)
    requires e.Marked(blocks) && root in e.pre.blocks && root !in e.phi && e.end + 8 !in blocks
    ensures blocks[root] == e.pre.blocks[root]
    ensures Evacuated(e, root, blocks[root]).Marked(Evacuate(blocks, root, e.end + 8))
  {
  }

  lemma EvacuatedStored(e: Progress, blocks: map<Address, Block>, root: Address)
    requires e.Stored(blocks) && root in blocks && root !in e.at && e.end + 8 !in blocks
    ensures Evacuated(e, root, blocks[root]).Stored(Evacuate(blocks, root, e.end + 8))
  {
    var e' := Evacuated(e, root, blocks[root]);
    assert e'.at[|e.at|] == e.end + 8;
    forall b | b in Evacuate(blocks, root, e.end + 8) ensures b in e.pre.blocks || b in e'.at {
      if b in e.at { var i :| 0 <= i < |e.at| && e.at[i] == b; assert e'.at[i] == b; }
    }
  }

  lemma EvacuatedHolds(e: Progress, blocks: map<Address, Block>, root: Address)
    requires e.Holds(blocks) && root in e.live && root !in e.phi
    requires e.end + e.size(root) <= e.limit
    ensures root in blocks && blocks[root] == e.pre.blocks[root]
    ensures Evacuated(e, root, blocks[root]).Holds(Evacuate(blocks, root, e.end + 8))
    ensures Continues(e, Evacuated(e, root, blocks[root]))
  {
    EvacuationTargetFree(e, blocks);
    EvacuatedMarked(e, blocks, root);
    EvacuatedOrdered(e, root, blocks[root]);
    EvacuatedFaithful(e, root);
    OldSpaceApart(e, root);
    EvacuatedStored(e, blocks, root);
  }

  lemma OldSpaceApart(e: Progress, root: Address)
    requires e.Setup() && e.Ordered() && root in e.pre.blocks
    ensures root !in e.at
  {
  }

  /** The reference the scan is about to follow is still the original one. */
  lemma ScannedPointerTraced(e: Progress)
    requires e.Faithful() && Closed(e.regions, e.pre, e.live) && e.scanned < |e.order| && e.order[e.scanned] in e.live
    ensures e.copies[e.scanned].header == e.source[e.scanned].header == e.pre.blocks[e.order[e.scanned]].header
    ensures |e.copies[e.scanned].pointers| == |e.source[e.scanned].pointers|
    ensures e.slot < |e.source[e.scanned].pointers| ==>
              && e.copies[e.scanned].pointers[e.slot] == e.source[e.scanned].pointers[e.slot]
              && e.Traced(e.source[e.scanned].pointers[e.slot])
  {
    assert e.IsCopy(e.source[e.scanned], e.Done(e.scanned), e.copies[e.scanned]);
  }

  /** A block with one reference redirected. */
  function Redirect(block: Block, slot: nat, to: Address): Block
    requires slot < |block.pointers|
  {
    block.(pointers := block.pointers[slot := to])
  }

  /** Progress after the reference at the scan position is redirected. */
  function Redirected(e: Progress, block: Block): Progress
    requires e.scanned < |e.copies|
  {
    e.(copies := e.copies[e.scanned := block], slot := e.slot + 1)
  }

  lemma RedirectedFaithful(e: Progress, p: Address)
    requires e.Faithful() && e.scanned < |e.source| && e.slot < |e.source[e.scanned].pointers|
    requires p == e.source[e.scanned].pointers[e.slot] && Covers(e.regions, e.phi, p)
    ensures e.slot < |e.copies[e.scanned].pointers|
    ensures Redirected(e, Redirect(e.copies[e.scanned], e.slot, Rename(e.phi, p))).Faithful()
  {
    assert e.IsCopy(e.source[e.scanned], e.slot, e.copies[e.scanned]);
    var e' := Redirected(e, Redirect(e.copies[e.scanned], e.slot, Rename(e.phi, p)));
    forall i | 0 <= i < |e'.source| ensures e'.IsCopy(e'.source[i], e'.Done(i), e'.copies[i]) {
      assert e.IsCopy(e.source[i], e.Done(i), e.copies[i]);
    }
  }

  lemma RedirectedStored(e: Progress, blocks: map<Address, Block>, block: Block)
    requires e.Ordered() && e.Stored(blocks) && e.scanned < |e.copies|
    ensures Redirected(e, block).Stored(blocks[e.at[e.scanned] := block])
  {
  }

  lemma RedirectedMarked(e: Progress, blocks: map<Address, Block>, block: Block)
    requires e.Setup() && e.Ordered() && e.Marked(blocks) && e.scanned < |e.at| == |e.copies|
    ensures Redirected(e, block).Marked(blocks[e.at[e.scanned] := block])
  {
  }

  lemma RedirectedOrdered(e: Progress, block: Block)
    requires e.Setup() && e.Ordered() && e.scanned < |e.copies|
    ensures Redirected(e, block).Setup() && Redirected(e, block).Ordered()
  {
  }

  /** Redirecting a reference whose target has been forwarded advances the scan. */
  lemma RedirectedHolds(e: Progress, blocks: map<Address, Block>, p: Address)
    requires e.Holds(blocks) && e.scanned < |e.source| && e.slot < |e.source[e.scanned].pointers|
    requires p == e.source[e.scanned].pointers[e.slot] && Covers(e.regions, e.phi, p)
    ensures e.slot < |e.copies[e.scanned].pointers|
    ensures
      var block := Redirect(e.copies[e.scanned], e.slot, Rename(e.phi, p));
      Redirected(e, block).Holds(blocks[e.at[e.scanned] := block])
  {
    RedirectedFaithful(e, p);
    var block := Redirect(e.copies[e.scanned], e.slot, Rename(e.phi, p));
    RedirectedOrdered(e, block);
    RedirectedStored(e, blocks, block);
    RedirectedMarked(e, blocks, block);
  }

  /** When all references of a copy are redirected the scan moves to the next copy. */
  lemma ObjectScanned(e: Progress)
    requires e.Faithful() && e.scanned < |e.source| && e.slot == |e.source[e.scanned].pointers|
    ensures e.(scanned := e.scanned + 1, slot := 0).Faithful()
  {
    var e' := e.(scanned := e.scanned + 1, slot := 0);
    forall i | 0 <= i < |e'.source| ensures e'.IsCopy(e'.source[i], e'.Done(i), e'.copies[i]) {
      assert e.IsCopy(e.source[i], e.Done(i), e.copies[i]);
    }
  }

  /** The scan pointer separates the copies: those below it refer only into the space copied into,
      below the free pointer, or out of the heap; those above it still hold the original references. */
  lemma ScanSeparates(e: Progress, blocks: map<Address, Block>, i: nat, j: nat)
    requires e.Holds(blocks) && i < |e.at| && j < |e.source[i].pointers|
    ensures e.at[i] in blocks && |blocks[e.at[i]].pointers| == |e.source[i].pointers|
    ensures e.source[i] == e.pre.blocks[e.order[i]]
    ensures i < e.scanned ==>
              var q := blocks[e.at[i]].pointers[j]; e.start < q < e.end || e.regions.Foreign(q)
    ensures i > e.scanned ==> blocks[e.at[i]].pointers[j] == e.pre.blocks[e.order[i]].pointers[j]
  {
    assert e.IsCopy(e.source[i], e.Done(i), e.copies[i]);
    if i < e.scanned { ForwardingInjective(e); }
  }

  // ---- Completion -----------------------------------------------------------------------------

  lemma CopyFinished(e: Progress, a: Address)
    requires e.Ordered() && e.Faithful() && e.scanned == |e.order| && a in e.phi
    ensures a in e.pre.blocks
    ensures forall j :: 0 <= j < |e.pre.blocks[a].pointers| ==> Covers(e.regions, e.phi, e.pre.blocks[a].pointers[j])
    ensures exists i :: 0 <= i < |e.order| && e.order[i] == a && e.copies[i] == RenameBlock(e.phi, e.pre.blocks[a])
  {
    var i :| 0 <= i < |e.order| && e.order[i] == a;
    assert e.IsCopy(e.source[i], e.Done(i), e.copies[i]);
    assert e.copies[i].pointers == RenameAll(e.phi, e.pre.blocks[a].pointers);
  }

  lemma FinishedCopyStored(e: Progress, blocks: map<Address, Block>, a: Address)
    requires e.Ordered() && e.Faithful() && e.Stored(blocks) && e.scanned == |e.order| && a in e.phi
    ensures a in e.pre.blocks && e.phi[a] in blocks && blocks[e.phi[a]] == RenameBlock(e.phi, e.pre.blocks[a])
  {
    CopyFinished(e, a);
  }

  /** Everything on a path from the roots has been copied once no copy is left to scan. */
  lemma {:induction false} PathCopied(e: Progress, path: seq<Address>, i: nat)
    requires e.Ordered() && e.Faithful() && e.scanned == |e.order|
    requires forall k :: k in e.pre.roots ==> Covers(e.regions, e.phi, e.pre.roots[k])
    requires forall a :: a in e.pre.blocks ==> !e.regions.Foreign(a)
    requires IsPath(e.pre, path) && i < |path|
    ensures path[i] in e.phi
  {
    if i == 0 {
      var k :| k in e.pre.roots && e.pre.roots[k] == path[0];
      assert Covers(e.regions, e.phi, e.pre.roots[k]);
    } else {
      PathCopied(e, path, i - 1);
      CopyFinished(e, path[i - 1]);
      var j :| 0 <= j < |e.pre.blocks[path[i - 1]].pointers| && e.pre.blocks[path[i - 1]].pointers[j] == path[i];
      assert Covers(e.regions, e.phi, path[i]);
    }
  }

  /** What is left when the collected space is given back. */
  function Survivors(pre: map<Address, Block>, blocks: map<Address, Block>): map<Address, Block> {
    map a | a in blocks && a !in pre :: blocks[a]
  }

  lemma SurvivorKeys(e: Progress, blocks: map<Address, Block>)
    requires e.Setup() && e.Ordered() && e.Stored(blocks)
    ensures Survivors(e.pre.blocks, blocks).Keys == e.phi.Values
    ensures forall b :: b in Survivors(e.pre.blocks, blocks) <==> b in e.at
    ensures forall b :: b in e.at ==> !e.regions.Foreign(b)
  {
    var survivors := Survivors(e.pre.blocks, blocks);
    AtIsImage(e);
    forall b | b in e.at ensures b in survivors && !e.regions.Foreign(b) {
      var i :| 0 <= i < |e.at| && e.at[i] == b;
    }
  }

  lemma AtIsImage(e: Progress)
    requires e.Ordered()
    ensures forall b :: b in e.phi.Values <==> b in e.at
  {
    forall b | b in e.at ensures b in e.phi.Values {
      var i :| 0 <= i < |e.at| && e.at[i] == b;
      assert e.phi[e.order[i]] == b;
    }
    forall b | b in e.phi.Values ensures b in e.at {
      var a :| a in e.phi && e.phi[a] == b;
      var i :| 0 <= i < |e.order| && e.order[i] == a;
    }
  }

  lemma ImageComplete(e: Progress, blocks: map<Address, Block>, post: State)
    requires e.Holds(blocks) && e.scanned == |e.order|
    requires forall k :: k in e.pre.roots ==> Covers(e.regions, e.phi, e.pre.roots[k])
    requires post == e.pre.(blocks := Survivors(e.pre.blocks, blocks), roots := RenameRoots(e.phi, e.pre.roots))
    ensures Image(e.regions, e.pre, post, e.phi)
  {
    ForwardingInjective(e);
    SurvivorKeys(e, blocks);
    forall a | a in e.phi
      ensures a in e.pre.blocks
      ensures e.phi[a] in post.blocks && post.blocks[e.phi[a]] == RenameBlock(e.phi, e.pre.blocks[a])
      ensures forall j :: 0 <= j < |e.pre.blocks[a].pointers| ==> Covers(e.regions, e.phi, e.pre.blocks[a].pointers[j])
    {
      CopyFinished(e, a);
      FinishedCopyStored(e, blocks, a);
    }
  }

  lemma ReachableCopied(e: Progress, a: Address)
    requires e.Ordered() && e.Faithful() && e.scanned == |e.order|
    requires forall k :: k in e.pre.roots ==> Covers(e.regions, e.phi, e.pre.roots[k])
    requires forall a :: a in e.pre.blocks ==> !e.regions.Foreign(a)
    requires Reachable(e.pre, a)
    ensures a in e.phi
  {
    var path :| IsPath(e.pre, path) && path[|path| - 1] == a;
    PathCopied(e, path, |path| - 1);
  }

  lemma CopiedLive(e: Progress, a: Address)
    requires e.Ordered() && a in e.phi
    ensures a in e.live
  {
    var i :| 0 <= i < |e.order| && e.order[i] == a;
  }

  /** A collection that has nothing left to scan, and whose roots were all forwarded, has produced
      an isomorphic copy of exactly the reachable objects. */
  lemma CollectionComplete(e: Progress, blocks: map<Address, Block>, post: State)
    requires e.Holds(blocks) && e.scanned == |e.order| && e.live == Live(e.pre)
    requires forall k :: k in e.pre.roots ==> Covers(e.regions, e.phi, e.pre.roots[k])
    requires post == e.pre.(blocks := Survivors(e.pre.blocks, blocks), roots := RenameRoots(e.phi, e.pre.roots))
    ensures Collects(e.regions, e.pre, post, e.phi)
  {
    ImageComplete(e, blocks, post);
    forall a | Reachable(e.pre, a) ensures a in e.phi { ReachableCopied(e, a); }
    forall a | a in e.phi ensures a in e.live { CopiedLive(e, a); }
  }

  /** The bytes that what the roots reach takes up. */
  ghost function LiveBytes(classes: ClassTable, s: State): nat { SumOver(Live(s), SizeIn(classes, s.blocks)) }

  /** A finished collection has copied exactly the live bytes. */
  lemma CopiedBytes(e: Progress, classes: ClassTable)
    requires e.Ordered() && e.Compact() && e.size == SizeIn(classes, e.pre.blocks)
    requires forall a :: a in e.phi <==> Reachable(e.pre, a)
    ensures e.end == e.start + LiveBytes(classes, e.pre)
  {
    forall a: Address ensures a in Live(e.pre) <==> a in e.order {
      if a in e.order { var i :| 0 <= i < |e.order| && e.order[i] == a; assert a in e.phi; }
      if Reachable(e.pre, a) { var path :| IsPath(e.pre, path) && path[|path| - 1] == a; }
    }
    SumOverListing(Live(e.pre), e.order, e.size);
  }

  lemma CopySize(e: Progress, blocks: map<Address, Block>, classes: ClassTable, i: nat)
    requires e.Setup() && e.Ordered() && e.Faithful() && e.Stored(blocks) && i < |e.at|
    ensures SizeIn(classes, Survivors(e.pre.blocks, blocks))(e.at[i]) == SizeIn(classes, e.pre.blocks)(e.order[i])
  {
    assert e.IsCopy(e.source[i], e.Done(i), e.copies[i]);
  }

  lemma PackedAgain(order: seq<Address>, at: seq<Address>, size: Address -> nat, size': Address -> nat, base: Address)
    requires Packed(order, at, size, base)
    requires forall k :: 0 <= k < |at| ==> size'(at[k]) == size(order[k])
    ensures Packed(at, at, size', base) && Sum(at, size') == Sum(order, size)
  {
    forall i | 0 <= i <= |at| ensures Sum(at[..i], size') == Sum(order[..i], size) {
      SameSums(at, size', order, size, i);
    }
    assert at[..|at|] == at && order[..|at|] == order;
  }

  /** The survivors again fill their space without gaps, from its start to the free pointer. */
  lemma SurvivorsTile(e: Progress, blocks: map<Address, Block>, classes: ClassTable)
    requires e.Holds(blocks) && e.Compact() && e.size == SizeIn(classes, e.pre.blocks)
    ensures Tiles(classes, Survivors(e.pre.blocks, blocks), e.at, e.start)
    ensures e.start + Sum(e.at, SizeIn(classes, Survivors(e.pre.blocks, blocks))) == e.end
  {
    SurvivorKeys(e, blocks);
    forall i | 0 <= i < |e.at|
      ensures SizeIn(classes, Survivors(e.pre.blocks, blocks))(e.at[i]) == e.size(e.order[i])
    {
      CopySize(e, blocks, classes, i);
    }
    PackedAgain(e.order, e.at, e.size, SizeIn(classes, Survivors(e.pre.blocks, blocks)), e.start);
  }

  lemma {:induction false} SameSums(a: seq<Address>, f: Address -> nat, b: seq<Address>, g: Address -> nat, i: nat)
    requires i <= |a| == |b| && forall k :: 0 <= k < |a| ==> f(a[k]) == g(b[k])
    ensures Sum(a[..i], f) == Sum(b[..i], g)
  {
    if i > 0 {
      SameSums(a, f, b, g, i - 1);
      assert a[..i][..i - 1] == a[..i - 1] && b[..i][..i - 1] == b[..i - 1];
    }
  }
}
