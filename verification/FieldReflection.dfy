/** Fields through export tables: what the loader records for the fields of a class, what reflection finds of
    it, and where that leads in an object of any subclass (classloader/classloader_impl.cpp, classes/class.cpp). */
module FieldReflection {
  import opened Prelude
  import opened Layout
  import opened ClassHeaders
  import opened Exports
  import opened Dispatch

  datatype FieldDecl = FieldDecl(name: Name, kind: Datatype)
  datatype MethodDecl = MethodDecl(name: Name, code: nat, metadata: bv8)

  /** What a class file declares, in the order the loader exports it. */
  datatype ClassDecl = ClassDecl(statics: seq<FieldDecl>, fields: seq<FieldDecl>, methods: seq<MethodDecl>)

  function Kinds(fields: seq<FieldDecl>): seq<Datatype> {
    seq(|fields|, j requires 0 <= j < |fields| => fields[j].kind)
  }

  /** The instance fields of a chain of classes. */
  function Lineage(files: seq<ClassDecl>): seq<seq<Datatype>> {
    seq(|files|, k requires 0 <= k < |files| => Kinds(files[k].fields))
  }

  /** A static is exported with its place in the static area, an instance field with its index. */
  function StaticMembers(statics: seq<FieldDecl>): Members {
    seq(|statics|, j requires 0 <= j < |statics| =>
      Field(statics[j].name, Place(Kinds(statics), j), statics[j].kind as bv8))
  }

  function FieldMembers(files: seq<ClassDecl>, k: nat): Members
    requires k < |files|
  {
    var fields := files[k].fields;
    seq(|fields|, j requires 0 <= j < |fields| =>
      Field(fields[j].name, FieldIndex(Lineage(files), k, j), fields[j].kind as bv8))
  }

  function MethodMembers(methods: seq<MethodDecl>): Members {
    seq(|methods|, j requires 0 <= j < |methods| => Method(methods[j].name, methods[j].code, methods[j].metadata))
  }

  function MembersOf(files: seq<ClassDecl>, k: nat): Members
    requires k < |files|
  {
    StaticMembers(files[k].statics) + FieldMembers(files, k) + MethodMembers(files[k].methods)
  }

  function ChainOf(files: seq<ClassDecl>): seq<Members> {
    seq(|files|, k requires 0 <= k < |files| => MembersOf(files, k))
  }

  // ---- What reflection finds ------------------------------------------------------------------

  /** The sorted table of class k answers for a member that is not virtual with the low 24 bits of what was
      recorded for it. */
  lemma MemberFound(chain: seq<Members>, k: nat, i: nat)
    requires k < |chain| && i < |chain[k]| && DistinctMembers(chain[k]) && !IsVirtual(chain[k][i])
    ensures Lookup(Table(Load(chain).exports[k]), chain[k][i].name) == Some(chain[k][i].data % INDEX_LIMIT)
  {
    hide Load, Table, SlotOf;
    ExportsMatch(chain, k);
    var p, own := Load(chain[..k]), chain[k];
    var exports := OwnExports(p, own);
    assert exports[i] in exports;
    LookupUnordered(exports, own[i].name);
    LookupAnswers(exports, own[i].name, exports[i]);
  }

  /** A field of a superclass, looked up by name in that class's sorted table, is reached through the header
      of any subclass in the place it has there, if and only if its index fits the 24 bits of an entry. */
  lemma FieldReached(files: seq<ClassDecl>, k: nat, j: nat)
    requires k < |files| && j < |files[k].fields| && DistinctMembers(ChainOf(files)[k])
    requires FitsIn32Bits(Lineage(files))
    ensures
      var lineage, t := Lineage(files), files[k].fields[j].kind;
      var found := Lookup(Table(Load(ChainOf(files)).exports[k]), files[k].fields[j].name);
      && found.Some? && Position(lineage, k, j) < |Flatten(lineage)|
      && (InstanceOffset(HeaderOf(lineage), found.value, t) == Place(Flatten(lineage), Position(lineage, k, j)) <==>
            FieldIndex(lineage, k, j) < INDEX_LIMIT)
  {
    hide Load, Table, HeaderOf, FieldIndex, Flatten, FitsIn32Bits, InstanceOffset, Place, Lookup;
    var lineage := Lineage(files);
    FieldRecorded(files, k, j);
    MemberFound(ChainOf(files), k, |files[k].statics| + j);
    hide MembersOf, DistinctMembers;
    IndexKeepsMeaning(lineage, k, j);
    IndexReaches(lineage, k, j, FieldIndex(lineage, k, j));
    IndexReaches(lineage, k, j, FieldIndex(lineage, k, j) % INDEX_LIMIT);
    hide Start, IsVirtual;
    SmallerApart(FieldIndex(lineage, k, j) % INDEX_LIMIT, FieldIndex(lineage, k, j), Size(lineage[k][j]));
  }

  lemma FieldRecorded(files: seq<ClassDecl>, k: nat, j: nat)
    requires k < |files| && j < |files[k].fields|
    ensures
      var own, i := MembersOf(files, k), |files[k].statics| + j;
      && i < |own| && own[i] == FieldMembers(files, k)[j] && !IsVirtual(own[i])
  {
    hide FieldIndex, Place;
  }

  lemma SmallerApart(x: nat, y: nat, size: nat)
    requires size > 0 && x <= y
    ensures x * size == y * size <==> x == y
  {
    if x < y { MulMonotone(x + 1, y, size); }
  }

  /** Up to the field's own, an index leads that many fields into the section. */
  lemma IndexReaches(lineage: seq<seq<Datatype>>, k: nat, j: nat, index: nat)
    requires k < |lineage| && j < |lineage[k]| && FitsIn32Bits(lineage) && index <= FieldIndex(lineage, k, j)
    ensures InstanceOffset(HeaderOf(lineage), index, lineage[k][j]) ==
              Start(Totals(Flatten(lineage)), lineage[k][j]) + index * Size(lineage[k][j])
  {
    hide HeaderOf, FieldIndex, Flatten, Start;
    var t, all := lineage[k][j], Flatten(lineage);
    IndexIsSlot(lineage, k, j);
    PositionFacts(lineage, k, j);
    HeaderCountsEveryField(lineage);
    FittingSection(Totals(all), t);
    FieldInBounds(all, Position(lineage, k, j));
    MulMonotone(index, FieldIndex(lineage, k, j), Size(t));
    hide Slot, Totals, LayoutOf, SectionTable.Offset;
    FitsUnwrapped(Start(Totals(all), t) + index * Size(t));
    hide Wrap;
  }

  /** A static is found in its place if and only if that fits the 24 bits of an entry. */
  lemma StaticFound(files: seq<ClassDecl>, k: nat, j: nat)
    requires k < |files| && j < |files[k].statics| && DistinctMembers(ChainOf(files)[k])
    ensures
      var place := Place(Kinds(files[k].statics), j);
      Lookup(Table(Load(ChainOf(files)).exports[k]), files[k].statics[j].name) == Some(place) <==> place < INDEX_LIMIT
  {
    hide Load, Table, FieldIndex, Place, Lookup;
    StaticRecorded(files, k, j);
    MemberFound(ChainOf(files), k, j);
    hide MembersOf, DistinctMembers, IsVirtual;
  }

  lemma StaticRecorded(files: seq<ClassDecl>, k: nat, j: nat)
    requires k < |files| && j < |files[k].statics|
    ensures j < |MembersOf(files, k)| && MembersOf(files, k)[j] == StaticMembers(files[k].statics)[j]
    ensures !IsVirtual(MembersOf(files, k)[j])
  {
    hide FieldIndex, Place;
  }

  // ---- A field that hides a virtual method ----------------------------------------------------

  // Virtual f and g in the root, a reference field g below it, which gets index 0, the slot of f, and a
  // virtual g below that.
  const CLASH := [
    ClassDecl([], [], [MethodDecl("f", 0, 1), MethodDecl("g", 8, 1)]),
    ClassDecl([], [FieldDecl("g", OBJECT)], []),
    ClassDecl([], [], [MethodDecl("g", 0, 1)])]
  const ROOT: Members := [Method("f", 0, 1), Method("g", 8, 1)]
  const MIDDLE: Members := [Field("g", 0, 6)]
  const LAST: Members := [Method("g", 0, 1)]
  const ROOT_LOADED := Loaded([Some(Code(0, 0)), Some(Code(0, 1))], [[Export("f", 0, 1), Export("g", 1, 1)]])
  const MIDDLE_LOADED := Loaded(ROOT_LOADED.vmt, ROOT_LOADED.exports + [[Export("g", 0, 6)]])

  lemma ClashMembers()
    ensures ChainOf(CLASH) == [ROOT, MIDDLE, LAST]
  {
    ClashIndex();
    hide FieldIndex, Place;
    assert MembersOf(CLASH, 0) == ROOT;
    assert MembersOf(CLASH, 1) == MIDDLE;
    assert MembersOf(CLASH, 2) == LAST;
  }

  lemma ClashIndex()
    ensures FieldIndex(Lineage(CLASH), 1, 0) == 0
  {
    var lineage := Lineage(CLASH);
    assert lineage[..0] == [] && lineage[0] == [] && lineage[1] != [];
    NoHeader();
    hide HeaderOf, FieldIndex, LayoutOf;
    assert Totals([]) == NoFields();
    InheritsNothing(lineage, 0);
    InheritsNothing(lineage, 1);
  }

  lemma RootLoads()
    ensures Load([ROOT]) == ROOT_LOADED
  {
    var p := Load([]);
    assert [ROOT][..0] == [];
    assert Nearest(p.exports, "f") == None && Nearest(p.exports, "g") == None;
    assert Fresh(p, ROOT, 0) == 0 && Fresh(p, ROOT, 1) == 1 && Fresh(p, ROOT, 2) == 2;
    assert OwnExports(p, ROOT) == [ExportOf(p, ROOT, 0), ExportOf(p, ROOT, 1)];
    assert VmtAfter(p, ROOT, 0, 1) == [Some(Code(0, 0)), None];
    assert VmtAfter(p, ROOT, 0, 2) == ROOT_LOADED.vmt;
  }

  lemma MiddleLoads()
    ensures Load([ROOT, MIDDLE]) == MIDDLE_LOADED
  {
    RootLoads();
    hide Nearest, Lookup;
    assert [ROOT, MIDDLE][..1] == [ROOT];
    assert Fresh(ROOT_LOADED, MIDDLE, 0) == 0 && Fresh(ROOT_LOADED, MIDDLE, 1) == 0;
    assert VmtAfter(ROOT_LOADED, MIDDLE, 1, 0) == ROOT_LOADED.vmt;
    assert OwnExports(ROOT_LOADED, MIDDLE) == [Export("g", 0, 6)];
  }

  /** The last class's g lands in the slot of f ... */
  lemma LastLoads()
    ensures Load(ChainOf(CLASH)).vmt == [Some(Code(2, 0)), Some(Code(0, 1))]
  {
    ClashMembers();
    MiddleLoads();
    hide Load, ChainOf;
    assert [ROOT, MIDDLE, LAST][..2] == [ROOT, MIDDLE];
    LoadUnfolds([ROOT, MIDDLE, LAST]);
    var p := MIDDLE_LOADED;
    LookupAt(p.exports[1], "g", 0);
    assert Nearest(p.exports, "g") == Some((1, 0));
    assert Fresh(p, LAST, 0) == 0 && Fresh(p, LAST, 1) == 0;
    assert VmtAfter(p, LAST, 2, 0) == p.vmt;
  }

  /** ... so calls of f run it. */
  lemma NameClashMisroutes()
    ensures WellDeclared(ChainOf(CLASH)) && !Dispatches(ChainOf(CLASH))
  {
    var chain := ChainOf(CLASH);
    ClashMembers();
    LastLoads();
    RootLoads();
    hide Load, ChainOf;
    ExportsMatch(chain, 0);
    assert chain[..0] == [] && [ROOT][..0] == [];
    LoadUnfolds([ROOT]);
    assert RecordedIndex(chain, 0, 0) == 0;
    DefinitionNamed(chain, "f");
    assert IsVirtual(chain[0][0]) && chain[2][0].name != "f";
    assert !LeadsTo(chain, Load(chain).vmt, RecordedIndex(chain, 0, 0), chain[0][0].name);
  }
}
