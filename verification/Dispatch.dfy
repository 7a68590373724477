/** Virtual method tables: what the loader writes into them, and when dispatch by table index agrees
    with lookup by name (classloader/classloader_impl.cpp, classloader/class_writer.cpp,
    classes/class.cpp). A virtual method's export carries its table index. */
module Dispatch {
  import opened Prelude
  import opened Sorting
  import opened Exports

  /** A member of a class file. A field's data is the offset or index recorded for it, a method's
      the place of its code; bit 0 of a method's metadata makes it virtual. */
  datatype Member =
    | Field(name: Name, data: nat, metadata: bv8)
    | Method(name: Name, data: nat, metadata: bv8)

  predicate IsVirtual(m: Member) { m.Method? && m.metadata & 1 == 1 }

  /** The members of one class in the order the loader exports them: fields, then methods. */
  type Members = seq<Member>

  ghost predicate DistinctMembers(own: Members) {
    forall i, j :: 0 <= i < j < |own| ==> own[i].name != own[j].name
  }

  /** The code of a method: the class that declares it, by depth from the root, and its position. */
  datatype Code = Code(depth: nat, member: nat)

  // ---- The reference --------------------------------------------------------------------------

  /** The virtual method of a name that a class itself declares. */
  function Declared(own: Members, x: Name): Option<nat> {
    if own == [] then None
    else
      var n := |own| - 1;
      if IsVirtual(own[n]) && own[n].name == x then Some(n) else Declared(own[..n], x)
  }

  /** The nearest definition of a virtual name on the chain upward from its last class. */
  function NearestDefinition(chain: seq<Members>, x: Name): Option<Code> {
    if chain == [] then None
    else
      var n := |chain| - 1;
      match Declared(chain[n], x)
      case Some(i) => Some(Code(n, i))
      case None => NearestDefinition(chain[..n], x)
  }

  function AddNew(names: seq<Name>, own: Members, i: nat): seq<Name>
    requires i <= |own|
  {
    if i == 0 then names
    else
      var before := AddNew(names, own, i - 1);
      if IsVirtual(own[i - 1]) && own[i - 1].name !in names then before + [own[i - 1].name] else before
  }

  /** The virtual names of a chain in the order of their first introduction. */
  function Introduced(chain: seq<Members>): seq<Name> {
    if chain == [] then []
    else
      var n := |chain| - 1;
      AddNew(Introduced(chain[..n]), chain[n], |chain[n]|)
  }

  // ---- What the loader computes ---------------------------------------------------------------

  /** The table of the last class of a chain, null where nothing was written, and the exports of
      every class of it. */
  datatype Loaded = Loaded(vmt: seq<Option<Code>>, exports: seq<seq<Export>>)

  /** How many of the first i members are virtual methods of names the primary does not export. */
  function Fresh(p: Loaded, own: Members, i: nat): nat
    requires i <= |own|
  {
    if i == 0 then 0
    else Fresh(p, own, i - 1) + if IsVirtual(own[i - 1]) && Nearest(p.exports, own[i - 1].name).None? then 1 else 0
  }

  /** The index a virtual method is written to: that of the nearest export of its name, or the next
      one behind the primary's table. */
  function SlotOf(p: Loaded, own: Members, i: nat): nat
    requires i < |own|
  {
    match Nearest(p.exports, own[i].name)
    case Some((_, index)) => index
    case None => |p.vmt| + Fresh(p, own, i)
  }

  function ExportOf(p: Loaded, own: Members, i: nat): Export
    requires i < |own|
  {
    EntryFor(own[i].name, if IsVirtual(own[i]) then SlotOf(p, own, i) else own[i].data, own[i].metadata)
  }

  function OwnExports(p: Loaded, own: Members): seq<Export> {
    seq(|own|, i requires 0 <= i < |own| => ExportOf(p, own, i))
  }

  /** The table after the first i members: the primary's, then the writes. A write past the table
      is lost to the import table behind it. */
  function VmtAfter(p: Loaded, own: Members, depth: nat, i: nat): (vmt: seq<Option<Code>>)
    requires i <= |own|
    ensures |vmt| == |p.vmt| + Fresh(p, own, |own|)
  {
    if i == 0 then p.vmt + seq(Fresh(p, own, |own|), _ => None)
    else
      var vmt := VmtAfter(p, own, depth, i - 1);
      var write := IsVirtual(own[i - 1]) && SlotOf(p, own, i - 1) < |vmt|;
      if write then vmt[SlotOf(p, own, i - 1) := Some(Code(depth, i - 1))] else vmt
  }

  function Extend(p: Loaded, own: Members): Loaded {
    Loaded(VmtAfter(p, own, |p.exports|, |own|), p.exports + [OwnExports(p, own)])
  }

  /** Loading the classes of a chain, root first. */
  function Load(chain: seq<Members>): (p: Loaded)
    ensures |p.exports| == |chain|
  {
    if chain == [] then Loaded([], []) else Extend(Load(chain[..|chain| - 1]), chain[|chain| - 1])
  }

  // ---- The loader's loops ---------------------------------------------------------------------

  ghost predicate DistinctExports(exports: seq<seq<Export>>) {
    forall k :: 0 <= k < |exports| ==> DistinctNames(exports[k])
  }

  /** The answer the loader gets from the sorted tables of the primary superclass and those above. */
  method ReflectVirtual(tables: seq<seq<Export>>, name: Name, ghost p: Loaded) returns (found: Option<nat>)
    requires tables == SortedTables(p.exports) && DistinctExports(p.exports)
    ensures found == match Nearest(p.exports, name) { case Some((_, index)) => Some(index) case None => None }
  {
    forall k | 0 <= k < |tables| ensures Sorted(tables[k], EntryOrder()) { TableSorted(p.exports[k]); }
    NearestUnordered(p.exports, name);
    var nearest := ReflectIndexRecursively(tables, name);
    found := match nearest { case Some((_, index)) => Some(index) case None => None };
  }

  /** The number of table entries the block is sized for. */
  method VirtualMethodCount(primaryCount: nat, tables: seq<seq<Export>>, own: Members,
                            ghost p: Loaded) returns (total: nat)
    requires primaryCount == |p.vmt| && tables == SortedTables(p.exports) && DistinctExports(p.exports)
    ensures total == |p.vmt| + Fresh(p, own, |own|)
  {
    total := primaryCount;
    for i := 0 to |own|
      invariant total == |p.vmt| + Fresh(p, own, i)
    {
      if IsVirtual(own[i]) {
        var found := ReflectVirtual(tables, own[i].name, p);
        if found.None? {
          total := total + 1;
        }
      }
    }
  }

  /** Copies the primary's table to the front of a new one and writes the class's virtual methods:
      every slot ends as the specification says, and the export table is sorted. */
  method LoadMethods(primary: array<Option<Code>>, tables: seq<seq<Export>>, own: Members, depth: nat, ghost p: Loaded)
    returns (vmt: array<Option<Code>>, table: seq<Export>)
    requires primary[..] == p.vmt && depth == |p.exports|
    requires tables == SortedTables(p.exports) && DistinctExports(p.exports)
    ensures fresh(vmt) && vmt[..] == Extend(p, own).vmt
    ensures table == Table(Extend(p, own).exports[depth])
  {
    hide Nearest, Table;
    var total := VirtualMethodCount(primary.Length, tables, own, p);
    vmt := new Option<Code>[total](_ => None);
    Preload(primary, vmt);
    assert vmt[..] == VmtAfter(p, own, depth, 0);
    var next := primary.Length;
    var exports := [];
    for i := 0 to |own|
      invariant vmt[..] == VmtAfter(p, own, depth, i)
      invariant next == |p.vmt| + Fresh(p, own, i)
      invariant exports == OwnExports(p, own)[..i]
    {
      var data := own[i].data;
      if IsVirtual(own[i]) {
        var found := ReflectVirtual(tables, own[i].name, p);
        if found.Some? {
          data := found.value;
        } else {
          data := next;
          next := next + 1;
        }
        assert data == SlotOf(p, own, i);
        SetVirtualMethod(vmt, data, Code(depth, i));
      }
      exports := exports + [EntryFor(own[i].name, data, own[i].metadata)];
    }
    assert OwnExports(p, own)[..|own|] == OwnExports(p, own);
    table := Table(exports);
  }

  method Preload(primary: array<Option<Code>>, vmt: array<Option<Code>>)
    requires primary != vmt && primary.Length <= vmt.Length
    modifies vmt
    ensures vmt[..] == primary[..] + old(vmt[primary.Length..])
  {
    for i := 0 to primary.Length
      invariant vmt[..] == primary[..i] + old(vmt[i..])
    {
      vmt[i] := primary[i];
    }
  }

  method SetVirtualMethod(vmt: array<Option<Code>>, index: nat, code: Code)
    modifies vmt
    ensures vmt[..] == if index < vmt.Length then old(vmt[..])[index := Some(code)] else old(vmt[..])
  {
    if index < vmt.Length {
      vmt[index] := Some(code);
    }
  }

  // ---- Facts about the reference --------------------------------------------------------------

  lemma {:induction false} DeclaredAnswers(own: Members, x: Name)
    ensures Declared(own, x).Some? ==>
              var i := Declared(own, x).value; i < |own| && IsVirtual(own[i]) && own[i].name == x
    ensures (exists i :: 0 <= i < |own| && IsVirtual(own[i]) && own[i].name == x) ==> Declared(own, x).Some?
  {
    if own != [] {
      var n := |own| - 1;
      DeclaredAnswers(own[..n], x);
      forall i | 0 <= i < n && IsVirtual(own[i]) && own[i].name == x ensures Declared(own[..n], x).Some? {
        assert own[..n][i] == own[i];
      }
    }
  }

  /** A definition found belongs to a virtual method of the name. */
  lemma {:induction false} DefinitionNamed(chain: seq<Members>, x: Name)
    ensures NearestDefinition(chain, x).Some? ==>
              var c := NearestDefinition(chain, x).value;
              c.depth < |chain| && c.member < |chain[c.depth]| && chain[c.depth][c.member].name == x
  {
    if chain != [] {
      DeclaredAnswers(chain[|chain| - 1], x);
      DefinitionNamed(chain[..|chain| - 1], x);
    }
  }

  lemma {:induction false} NewNames(names: seq<Name>, own: Members, i: nat)
    requires i <= |own| && Distinct(names) && DistinctMembers(own)
    ensures names <= AddNew(names, own, i) && Distinct(AddNew(names, own, i))
    ensures forall s :: |names| <= s < |AddNew(names, own, i)| ==> NewAt(names, own, i, AddNew(names, own, i)[s])
  {
    if i > 0 {
      NewNames(names, own, i - 1);
      var before, after := AddNew(names, own, i - 1), AddNew(names, own, i);
      forall s | |names| <= s < |after| ensures NewAt(names, own, i, after[s]) {
        if s < |before| {
          assert NewAt(names, own, i - 1, before[s]);
          var j :| 0 <= j < i - 1 && IsVirtual(own[j]) && own[j].name == before[s] && before[s] !in names;
        }
      }
      forall s | 0 <= s < |before| ensures before[s] != own[i - 1].name || own[i - 1].name in names {
        if s < |names| { assert before[s] == names[s]; } else { assert NewAt(names, own, i - 1, before[s]); }
      }
    }
  }

  /** The name is new and introduced by one of the first i members. */
  ghost predicate NewAt(names: seq<Name>, own: Members, i: nat, x: Name)
    requires i <= |own|
  {
    x !in names && exists j :: 0 <= j < i && IsVirtual(own[j]) && own[j].name == x
  }

  lemma {:induction false} IntroducedDistinct(chain: seq<Members>)
    requires forall d :: 0 <= d < |chain| ==> DistinctMembers(chain[d])
    ensures Distinct(Introduced(chain))
  {
    if chain != [] {
      var n := |chain| - 1;
      IntroducedDistinct(chain[..n]);
      NewNames(Introduced(chain[..n]), chain[n], |chain[n]|);
    }
  }

  /** Every introduced name is a virtual method of some class of the chain. */
  lemma {:induction false} IntroducedBy(chain: seq<Members>, s: nat) returns (d: nat, j: nat)
    requires forall d :: 0 <= d < |chain| ==> DistinctMembers(chain[d])
    requires s < |Introduced(chain)|
    ensures d < |chain| && j < |chain[d]| && IsVirtual(chain[d][j]) && chain[d][j].name == Introduced(chain)[s]
  {
    var n := |chain| - 1;
    var names := Introduced(chain[..n]);
    IntroducedDistinct(chain[..n]);
    NewNames(names, chain[n], |chain[n]|);
    if s < |names| {
      d, j := IntroducedBy(chain[..n], s);
    } else {
      d := n;
      assert NewAt(names, chain[n], |chain[n]|, Introduced(chain)[s]);
      j :| 0 <= j < |chain[n]| && IsVirtual(chain[n][j]) && chain[n][j].name == Introduced(chain)[s];
    }
  }

  // ---- Dispatch -------------------------------------------------------------------------------

  ghost predicate WellDeclared(chain: seq<Members>) { forall d :: 0 <= d < |chain| ==> DistinctMembers(chain[d]) }

  /** The slot leads to the nearest definition of the name. */
  ghost predicate LeadsTo(chain: seq<Members>, vmt: seq<Option<Code>>, slot: nat, x: Name) {
    slot < |vmt| && vmt[slot].Some? && vmt[slot] == NearestDefinition(chain, x)
  }

  /** Every index recorded for a virtual method, in any class of the chain, leads in the last
      class's table to the nearest definition. */
  ghost predicate Dispatches(chain: seq<Members>) {
    forall d, j :: 0 <= d < |chain| && 0 <= j < |chain[d]| && IsVirtual(chain[d][j]) ==>
      LeadsTo(chain, Load(chain).vmt, RecordedIndex(chain, d, j), chain[d][j].name)
  }

  ghost function RecordedIndex(chain: seq<Members>, d: nat, j: nat): nat
    requires d < |chain| && j < |chain[d]|
  {
    ExportsMatch(chain, d);
    Load(chain).exports[d][j].index
  }

  /** The exports of a class do not change when a subclass is loaded. */
  lemma {:induction false} ExportsMatch(chain: seq<Members>, d: nat)
    requires d < |chain|
    ensures Load(chain).exports[d] == OwnExports(Load(chain[..d]), chain[d])
  {
    var n := |chain| - 1;
    if d < n {
      ExportsMatch(chain[..n], d);
      assert chain[..n][..d] == chain[..d];
    }
  }

  /** The table is the reference: slot s holds the nearest definition of the s-th introduced name,
      and every virtual method's recorded index is the position of its name. */
  ghost predicate Good(chain: seq<Members>, p: Loaded) {
    && |p.exports| == |chain|
    && (forall d :: 0 <= d < |chain| ==> |p.exports[d]| == |chain[d]|)
    && |p.vmt| == |Introduced(chain)|
    && (forall s :: 0 <= s < |p.vmt| ==> LeadsTo(chain, p.vmt, s, Introduced(chain)[s]))
    && (forall d, j :: 0 <= d < |chain| && 0 <= j < |chain[d]| ==>
        && p.exports[d][j].name == chain[d][j].name
        && p.exports[d][j].index < INDEX_LIMIT)
    && (forall d, j :: 0 <= d < |chain| && 0 <= j < |chain[d]| && IsVirtual(chain[d][j]) ==>
          Names(Introduced(chain), p.exports[d][j].index, chain[d][j].name))
  }

  /** Slot s belongs to the name. */
  ghost predicate Names(names: seq<Name>, s: nat, x: Name) { s < |names| && names[s] == x }

  /** A virtual method goes where it should: no class up the chain exports its name, or the nearest
      export of it carries the name's slot, as it does when that export is a virtual method; and
      its index fits an export entry. */
  ghost predicate Routed(chain: seq<Members>, p: Loaded, own: Members, i: nat)
    requires i < |own|
  {
    && SlotOf(p, own, i) < INDEX_LIMIT
    && (Nearest(p.exports, own[i].name).Some? ==> Names(Introduced(chain), SlotOf(p, own, i), own[i].name))
  }

  ghost predicate AllRouted(chain: seq<Members>, p: Loaded, own: Members) {
    forall i :: 0 <= i < |own| && IsVirtual(own[i]) ==> Routed(chain, p, own, i)
  }

  // ---- A routed class extends the reference ---------------------------------------------------

  lemma {:induction false} ExportsNamed(chain: seq<Members>, p: Loaded, d: nat, j: nat)
    requires Good(chain, p) && d < |chain| && j < |chain[d]|
    ensures Nearest(p.exports, chain[d][j].name).Some?
  {
    NearestAnswers(p.exports, chain[d][j].name);
    assert p.exports[d][j] in p.exports[d];
    assert Exported(p.exports[d], chain[d][j].name);
  }

  /** An introduced name is exported by the primary or one of its superclasses. */
  lemma IntroducedExported(chain: seq<Members>, p: Loaded, x: Name)
    requires WellDeclared(chain) && Good(chain, p) && x in Introduced(chain)
    ensures Nearest(p.exports, x).Some?
  {
    var s :| 0 <= s < |Introduced(chain)| && Introduced(chain)[s] == x;
    var d, j := IntroducedBy(chain, s);
    ExportsNamed(chain, p, d, j);
  }

  /** Names and slots are handed out in step. */
  lemma {:induction false} NamesInStep(chain: seq<Members>, p: Loaded, own: Members, i: nat)
    requires WellDeclared(chain) && Good(chain, p) && AllRouted(chain, p, own) && i <= |own|
    ensures |AddNew(Introduced(chain), own, i)| == |p.vmt| + Fresh(p, own, i)
  {
    if i > 0 {
      NamesInStep(chain, p, own, i - 1);
      if IsVirtual(own[i - 1]) {
        assert Routed(chain, p, own, i - 1);
        if own[i - 1].name in Introduced(chain) { IntroducedExported(chain, p, own[i - 1].name); }
      }
    }
  }

  lemma {:induction false} AddNewGrows(names: seq<Name>, own: Members, i: nat, k: nat)
    requires i <= k <= |own|
    ensures AddNew(names, own, i) <= AddNew(names, own, k)
    decreases k
  {
    if i < k { AddNewGrows(names, own, i, k - 1); }
  }

  /** A routed method's slot is the position of its name. */
  lemma SlotNamed(chain: seq<Members>, p: Loaded, own: Members, i: nat)
    requires WellDeclared(chain) && Good(chain, p) && AllRouted(chain, p, own) && i < |own| && IsVirtual(own[i])
    ensures Names(AddNew(Introduced(chain), own, |own|), SlotOf(p, own, i), own[i].name)
  {
    hide Good, WellDeclared, Fresh, Nearest;
    assert Routed(chain, p, own, i);
    var names := Introduced(chain);
    AddNewGrows(names, own, 0, |own|);
    AddNewGrows(names, own, i + 1, |own|);
    if Nearest(p.exports, own[i].name).None? {
      NamesInStep(chain, p, own, i);
      if own[i].name in names { IntroducedExported(chain, p, own[i].name); }
    }
  }

  /** What the writes of the first i members leave in slot s, when no two members share a slot. */
  lemma {:induction false} WriteLands(p: Loaded, own: Members, depth: nat, i: nat, s: nat)
    requires i <= |own| && s < |p.vmt| + Fresh(p, own, |own|)
    requires forall j, k :: 0 <= j < k < |own| && IsVirtual(own[j]) && IsVirtual(own[k]) ==>
        SlotOf(p, own, j) != SlotOf(p, own, k)
    ensures forall j :: 0 <= j < i && IsVirtual(own[j]) && SlotOf(p, own, j) == s ==>
        VmtAfter(p, own, depth, i)[s] == Some(Code(depth, j))
    ensures (forall j :: 0 <= j < i && IsVirtual(own[j]) ==> SlotOf(p, own, j) != s) ==>
              VmtAfter(p, own, depth, i)[s] == VmtAfter(p, own, depth, 0)[s]
  {
    hide SlotOf, Fresh, Nearest;
    if i > 0 { WriteLands(p, own, depth, i - 1, s); }
  }

  lemma SlotsDiffer(chain: seq<Members>, p: Loaded, own: Members)
    requires WellDeclared(chain) && Good(chain, p) && AllRouted(chain, p, own) && DistinctMembers(own)
    ensures forall j, k :: 0 <= j < k < |own| && IsVirtual(own[j]) && IsVirtual(own[k]) ==>
        SlotOf(p, own, j) != SlotOf(p, own, k)
  {
    forall j, k | 0 <= j < k < |own| && IsVirtual(own[j]) && IsVirtual(own[k])
      ensures SlotOf(p, own, j) != SlotOf(p, own, k)
    {
      SlotNamed(chain, p, own, j);
      SlotNamed(chain, p, own, k);
    }
  }

  lemma ChainGrows(chain: seq<Members>, own: Members, x: Name)
    ensures Introduced(chain + [own]) == AddNew(Introduced(chain), own, |own|)
    ensures Load(chain + [own]) == Extend(Load(chain), own)
    ensures NearestDefinition(chain + [own], x) ==
      match Declared(own, x) { case Some(i) => Some(Code(|chain|, i)) case None => NearestDefinition(chain, x) }
  {
    assert (chain + [own])[..|chain|] == chain;
  }

  /** Slot s of the extended table leads to the nearest definition of the s-th name. */
  lemma SlotExtended(chain: seq<Members>, p: Loaded, own: Members, s: nat)
    requires WellDeclared(chain) && Good(chain, p) && AllRouted(chain, p, own) && DistinctMembers(own)
    requires s < |p.vmt| + Fresh(p, own, |own|)
    ensures s < |Introduced(chain + [own])|
    ensures LeadsTo(chain + [own], Extend(p, own).vmt, s, Introduced(chain + [own])[s])
  {
    var names := AddNew(Introduced(chain), own, |own|);
    NamesInStep(chain, p, own, |own|);
    var x := names[s];
    ChainGrows(chain, own, x);
    SlotsDiffer(chain, p, own);
    WriteLands(p, own, |chain|, |own|, s);
    DeclaredAnswers(own, x);
    IntroducedDistinct(chain);
    NewNames(Introduced(chain), own, |own|);
    if s >= |p.vmt| { assert NewAt(Introduced(chain), own, |own|, x); }
    match Declared(own, x) {
      case Some(i) =>
        SlotNamed(chain, p, own, i);
        assert SlotOf(p, own, i) == s;
      case None =>
        forall j | 0 <= j < |own| && IsVirtual(own[j]) ensures SlotOf(p, own, j) != s { SlotNamed(chain, p, own, j); }
        assert LeadsTo(chain, p.vmt, s, Introduced(chain)[s]);
    }
  }

  lemma RecordExtended(chain: seq<Members>, p: Loaded, own: Members, d: nat, j: nat)
    requires WellDeclared(chain) && Good(chain, p) && AllRouted(chain, p, own)
    requires d <= |chain| && j < |(chain + [own])[d]| && IsVirtual((chain + [own])[d][j])
    ensures Names(Introduced(chain + [own]), Extend(p, own).exports[d][j].index, (chain + [own])[d][j].name)
  {
    hide VmtAfter, Introduced, Load, SlotOf, NearestDefinition, Nearest;
    ChainGrows(chain, own, "");
    AddNewGrows(Introduced(chain), own, 0, |own|);
    if d == |chain| {
      SlotNamed(chain, p, own, j);
      assert Routed(chain, p, own, j);
    } else {
      assert Names(Introduced(chain), p.exports[d][j].index, chain[d][j].name);
    }
  }

  lemma RoutedIsGood(chain: seq<Members>, p: Loaded, own: Members)
    requires WellDeclared(chain) && Good(chain, p) && AllRouted(chain, p, own) && DistinctMembers(own)
    ensures Good(chain + [own], Extend(p, own))
  {
    hide VmtAfter, AddNew, Introduced, SlotOf, Nearest, NearestDefinition, LeadsTo, Names, Load, Routed;
    var longer, q := chain + [own], Extend(p, own);
    NamesInStep(chain, p, own, |own|);
    ChainGrows(chain, own, "");
    forall s | 0 <= s < |q.vmt|
      ensures LeadsTo(longer, q.vmt, s, Introduced(longer)[s])
    {
      SlotExtended(chain, p, own, s);
    }
    forall d, j | 0 <= d < |longer| && 0 <= j < |longer[d]| && IsVirtual(longer[d][j])
      ensures Names(Introduced(longer), q.exports[d][j].index, longer[d][j].name)
    {
      RecordExtended(chain, p, own, d, j);
    }
  }

  lemma GoodDispatches(chain: seq<Members>)
    requires Good(chain, Load(chain))
    ensures Dispatches(chain)
  {
    var p := Load(chain);
    forall d, j | 0 <= d < |chain| && 0 <= j < |chain[d]| && IsVirtual(chain[d][j])
      ensures LeadsTo(chain, p.vmt, RecordedIndex(chain, d, j), chain[d][j].name)
    {
      assert Names(Introduced(chain), p.exports[d][j].index, chain[d][j].name);
    }
  }

  // ---- A class that dispatches was routed -----------------------------------------------------

  /** Two virtual methods recorded with one index have one name. */
  lemma SameSlotSameName(chain: seq<Members>, d: nat, j: nat, d': nat, j': nat)
    requires Dispatches(chain)
    requires d < |chain| && j < |chain[d]| && IsVirtual(chain[d][j])
    requires d' < |chain| && j' < |chain[d']| && IsVirtual(chain[d'][j'])
    requires RecordedIndex(chain, d, j) == RecordedIndex(chain, d', j')
    ensures chain[d][j].name == chain[d'][j'].name
  {
    assert LeadsTo(chain, Load(chain).vmt, RecordedIndex(chain, d, j), chain[d][j].name);
    assert LeadsTo(chain, Load(chain).vmt, RecordedIndex(chain, d', j'), chain[d'][j'].name);
    DefinitionNamed(chain, chain[d][j].name);
    DefinitionNamed(chain, chain[d'][j'].name);
  }

  lemma {:induction false} FreshWithNumber(p: Loaded, own: Members, i: nat, f: nat) returns (k: nat)
    requires i <= |own| && f < Fresh(p, own, i)
    ensures k < i && IsVirtual(own[k]) && Nearest(p.exports, own[k].name).None? && Fresh(p, own, k) == f
  {
    if f < Fresh(p, own, i - 1) {
      k := FreshWithNumber(p, own, i - 1, f);
    } else {
      k := i - 1;
    }
  }

  /** Every slot of the table that fits an export entry is the recorded index of some virtual method,
      either a superclass's with that introduced name or a fresh one of the class itself. */
  lemma SlotOwned(chain: seq<Members>, own: Members, s: nat) returns (d: nat, j: nat)
    requires WellDeclared(chain) && Good(chain, Load(chain)) && s < INDEX_LIMIT
    requires s < |Load(chain).vmt| + Fresh(Load(chain), own, |own|)
    ensures d <= |chain| && j < |(chain + [own])[d]| && IsVirtual((chain + [own])[d][j])
    ensures RecordedIndex(chain + [own], d, j) == s
    ensures s < |Load(chain).vmt| ==> Names(Introduced(chain), s, (chain + [own])[d][j].name)
    ensures s >= |Load(chain).vmt| ==>
              d == |chain| && Nearest(Load(chain).exports, own[j].name).None? && SlotOf(Load(chain), own, j) == s
  {
    hide VmtAfter, Introduced, AddNew, Load, NearestDefinition, Nearest, LeadsTo, Fresh;
    var p := Load(chain);
    ChainGrows(chain, own, "");
    if s < |p.vmt| {
      d, j := IntroducedBy(chain, s);
      assert Names(Introduced(chain), p.exports[d][j].index, chain[d][j].name);
      IntroducedDistinct(chain);
      assert p.exports[d][j].index == s;
    } else {
      d := |chain|;
      j := FreshWithNumber(p, own, |own|, s - |p.vmt|);
    }
  }

  lemma DispatchWasRouted(chain: seq<Members>, own: Members, i: nat)
    requires WellDeclared(chain) && Good(chain, Load(chain)) && DistinctMembers(own)
    requires Dispatches(chain + [own]) && i < |own| && IsVirtual(own[i])
    ensures Routed(chain, Load(chain), own, i)
  {
    hide VmtAfter, Introduced, AddNew, Load, NearestDefinition, Nearest, Fresh;
    var p, n, longer := Load(chain), |chain|, chain + [own];
    ChainGrows(chain, own, "");
    var s := RecordedIndex(longer, n, i);
    assert LeadsTo(longer, Load(longer).vmt, s, longer[n][i].name);
    var d, j := SlotOwned(chain, own, s);
    SameSlotSameName(longer, d, j, n, i);
    NearestAnswers(p.exports, own[i].name);
    if s < |p.vmt| {
      assert Names(Introduced(chain), s, own[i].name);
      assert own[i].name in Introduced(chain);
      IntroducedExported(chain, p, own[i].name);
      NearestBounded(chain, p, own[i].name);
    } else {
      assert j == i;
    }
  }

  /** Indices read back from exports fit an export entry. */
  lemma NearestBounded(chain: seq<Members>, p: Loaded, x: Name)
    requires Good(chain, p) && Nearest(p.exports, x).Some?
    ensures Nearest(p.exports, x).value.1 < INDEX_LIMIT
  {
    NearestAnswers(p.exports, x);
    var (k, index) := Nearest(p.exports, x).value;
    LookupMisses(p.exports[k], x);
    var j := FirstOf(p.exports[k], x);
    LookupAt(p.exports[k], x, j);
  }

  // ---- The main results -----------------------------------------------------------------------

  /** Each class of the chain was routed when it was loaded. */
  ghost predicate ChainRouted(chain: seq<Members>) {
    forall k :: 0 <= k < |chain| ==> AllRouted(chain[..k], Load(chain[..k]), chain[k])
  }

  lemma NoClassGood()
    ensures Good([], Load([]))
  {
  }

  lemma {:induction false} ChainIsGood(chain: seq<Members>)
    requires WellDeclared(chain) && ChainRouted(chain)
    ensures Good(chain, Load(chain))
  {
    hide Good, AllRouted, Extend, DistinctMembers;
    if chain == [] {
      NoClassGood();
    } else {
      var n := |chain| - 1;
      forall k | 0 <= k < n ensures AllRouted(chain[..n][..k], Load(chain[..n][..k]), chain[..n][k]) {
        assert chain[..n][..k] == chain[..k];
      }
      ChainIsGood(chain[..n]);
      assert chain == chain[..n] + [chain[n]];
      RoutedIsGood(chain[..n], Load(chain[..n]), chain[n]);
    }
  }

  /** Loaded below a chain that dispatches, a class dispatches if and only if it was routed. */
  lemma RoutedStep(chain: seq<Members>, own: Members)
    requires WellDeclared(chain) && Good(chain, Load(chain)) && DistinctMembers(own)
    ensures Dispatches(chain + [own]) <==> AllRouted(chain, Load(chain), own)
  {
    hide Dispatches, Good, Routed, Introduced, NearestDefinition, VmtAfter;
    if AllRouted(chain, Load(chain), own) {
      RoutedIsGood(chain, Load(chain), own);
      ChainGrows(chain, own, "");
      GoodDispatches(chain + [own]);
    }
    if Dispatches(chain + [own]) {
      forall i | 0 <= i < |own| && IsVirtual(own[i]) ensures Routed(chain, Load(chain), own, i) {
        DispatchWasRouted(chain, own, i);
      }
    }
  }

  /** Every class of the chain dispatches. */
  ghost predicate AllDispatch(chain: seq<Members>) { forall k :: 0 <= k <= |chain| ==> Dispatches(chain[..k]) }

  lemma LastApart(chain: seq<Members>)
    requires chain != []
    ensures
      var n := |chain| - 1;
      && (AllDispatch(chain) <==> AllDispatch(chain[..n]) && Dispatches(chain))
      && (ChainRouted(chain) <==> ChainRouted(chain[..n]) && AllRouted(chain[..n], Load(chain[..n]), chain[n]))
  {
    hide Dispatches, AllRouted, Load;
    var n := |chain| - 1;
    var shorter := chain[..n];
    assert chain[..|chain|] == chain;
    forall k | 0 <= k <= n ensures shorter[..k] == chain[..k] {}
    if AllDispatch(chain) {
      assert Dispatches(chain[..|chain|]);
      forall k | 0 <= k <= n ensures Dispatches(shorter[..k]) { assert Dispatches(chain[..k]); }
    }
    if ChainRouted(chain) {
      forall k | 0 <= k < n ensures AllRouted(shorter[..k], Load(shorter[..k]), shorter[k]) {
        assert AllRouted(chain[..k], Load(chain[..k]), chain[k]);
      }
    }
    if AllDispatch(shorter) && Dispatches(chain) {
      forall k | 0 <= k <= |chain| ensures Dispatches(chain[..k]) { if k <= n { assert Dispatches(shorter[..k]); } }
    }
    if ChainRouted(shorter) && AllRouted(shorter, Load(shorter), chain[n]) {
      forall k | 0 <= k < |chain| ensures AllRouted(chain[..k], Load(chain[..k]), chain[k]) {
        if k < n { assert AllRouted(shorter[..k], Load(shorter[..k]), shorter[k]); }
      }
    }
  }

  /** Dispatch agrees with lookup in every class of a chain if and only if every class was routed. */
  lemma {:induction false} DispatchExactlyWhenRouted(chain: seq<Members>)
    requires WellDeclared(chain)
    ensures AllDispatch(chain) <==> ChainRouted(chain)
  {
    hide Dispatches, Routed, AllRouted, Load, AllDispatch, Good;
    if chain == [] {
      NoClassDispatches(chain);
    } else {
      var n := |chain| - 1;
      hide ChainRouted;
      DispatchExactlyWhenRouted(chain[..n]);
      LastApart(chain);
      assert chain == chain[..n] + [chain[n]];
      if ChainRouted(chain[..n]) {
        ChainIsGood(chain[..n]);
        RoutedStep(chain[..n], chain[n]);
      }
    }
  }

  lemma NoClassDispatches(chain: seq<Members>)
    requires chain == []
    ensures AllDispatch(chain)
  {
  }

  /** What a caller sees: an index resolved for a virtual name in any class up the chain leads, in the
      table of the last class, to the nearest definition of that name. */
  lemma ResolvedIndexDispatches(chain: seq<Members>, k: nat, x: Name, d: nat, index: nat)
    requires WellDeclared(chain) && ChainRouted(chain) && k <= |chain|
    requires Nearest(Load(chain).exports[..k], x) == Some((d, index))
    requires d < |chain| && Declared(chain[d], x).Some?
    ensures LeadsTo(chain, Load(chain).vmt, index, x)
  {
    hide Load, Introduced, NearestDefinition, ChainRouted, Nearest, LeadsTo;
    var p := Load(chain);
    ChainIsGood(chain);
    GoodDispatches(chain);
    NearestAnswers(p.exports[..k], x);
    DeclaredAnswers(chain[d], x);
    var j := Declared(chain[d], x).value;
    assert p.exports[d][j] in p.exports[d];
    LookupAnswers(p.exports[d], x, p.exports[d][j]);
    assert RecordedIndex(chain, d, j) == index;
  }

  /** A guard the loader could check: the nearest export of every virtual name, where there is one,
      is itself a virtual method; and the table fits export entries. */
  ghost predicate Unclashing(chain: seq<Members>, p: Loaded, own: Members)
    requires |p.exports| == |chain|
  {
    && |p.vmt| + Fresh(p, own, |own|) <= INDEX_LIMIT
    && forall i :: 0 <= i < |own| && IsVirtual(own[i]) && Nearest(p.exports, own[i].name).Some? ==>
         var (d, index) := Nearest(p.exports, own[i].name).value; d < |chain| && Declared(chain[d], own[i].name).Some?
  }

  lemma {:induction false} FreshGrows(p: Loaded, own: Members, i: nat, k: nat)
    requires i <= k <= |own|
    ensures Fresh(p, own, i) <= Fresh(p, own, k)
    decreases k
  {
    if i < k { FreshGrows(p, own, i, k - 1); }
  }

  lemma UnclashingIsRouted(chain: seq<Members>, own: Members)
    requires WellDeclared(chain) && Good(chain, Load(chain)) && DistinctMembers(own)
    requires Unclashing(chain, Load(chain), own)
    ensures AllRouted(chain, Load(chain), own)
  {
    hide Load, Introduced, NearestDefinition, Nearest, LeadsTo;
    var p := Load(chain);
    forall i | 0 <= i < |own| && IsVirtual(own[i]) ensures Routed(chain, p, own, i) {
      var x := own[i].name;
      if Nearest(p.exports, x).Some? {
        NearestAnswers(p.exports, x);
        NearestBounded(chain, p, x);
        var (d, index) := Nearest(p.exports, x).value;
        DeclaredAnswers(chain[d], x);
        var j := Declared(chain[d], x).value;
        assert p.exports[d][j] in p.exports[d];
        LookupAnswers(p.exports[d], x, p.exports[d][j]);
        assert Names(Introduced(chain), p.exports[d][j].index, x);
      } else {
        FreshGrows(p, own, i + 1, |own|);
      }
    }
  }

  lemma LoadUnfolds(chain: seq<Members>)
    requires chain != []
    ensures Load(chain) == Extend(Load(chain[..|chain| - 1]), chain[|chain| - 1])
  {
  }
}
