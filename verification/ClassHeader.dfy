/** The part of a loaded class block that records field layout, and the loops of the loader that
    fill it (classloader/class_writer.cpp, classes/class.cpp, classloader/classloader_impl.cpp). */
module ClassHeaders {
  import opened Prelude
  import opened Layout

  /** The superclass pointer, the static and the instance half of the layout, and eight more 32-bit fields. */
  const HEADER_SIZE := 8 + 4 * 7 + 4 * 7 + 4 * 8

  // ---- What the loops compute -----------------------------------------------------------------

  function NoFields(): Counts { [0, 0, 0, 0, 0, 0, 0] }

  function AddOwn(inherited: Counts, own: seq<Datatype>): Counts {
    seq(7, t requires 0 <= t < 7 => inherited[t] + Count(own, t))
  }

  /** The header a class ends up with when its primary ancestors, root first, declare the fields
      of `lineage`: each class reads its counts back from its primary superclass's header. */
  function HeaderOf(lineage: seq<seq<Datatype>>): SectionTable {
    if lineage == [] then LayoutOf(NoFields())
    else
      var n := |lineage| - 1;
      LayoutOf(AddOwn(CountsOf(HeaderOf(lineage[..n])), lineage[n]))
  }

  /** The index recorded for field j of class k when that class is loaded. */
  function FieldIndex(lineage: seq<seq<Datatype>>, k: nat, j: nat): nat
    requires k < |lineage| && j < |lineage[k]|
  {
    CountsOf(HeaderOf(lineage[..k]))[lineage[k][j]] + Count(lineage[k][..j], lineage[k][j])
  }

  /** Offset of a field in an object whose class has header `header`. */
  function InstanceOffset(header: SectionTable, index: nat, t: Datatype): nat {
    Wrap(header.Offset(t) + index * Size(t))
  }

  /** Bytes [from, from + size) in the payload of an object. */
  datatype Range = Range(from: nat, size: nat) {
    predicate Apart(other: Range) { from + size <= other.from || other.from + other.size <= from }

    predicate Has(b: nat) { from <= b < from + size }
  }

  /** Where field j of class k lies in an object of the last class of the lineage. */
  function RangeOf(lineage: seq<seq<Datatype>>, k: nat, j: nat): Range
    requires k < |lineage| && j < |lineage[k]|
  {
    Range(InstanceOffset(HeaderOf(lineage), FieldIndex(lineage, k, j), lineage[k][j]), Size(lineage[k][j]))
  }

  // ---- Instance layout under inheritance ------------------------------------------------------

  /** Every field of the lineage together needs less than 2^32 bytes. */
  predicate FitsIn32Bits(lineage: seq<seq<Datatype>>) { Total(Totals(Flatten(lineage))) < WORD }

  lemma FittingSection(counts: Counts, t: Datatype)
    requires Total(counts) < WORD
    ensures counts[t] * Size(t) < WORD && End(counts, t) < WORD
    ensures LayoutOf(counts).Offset(t) == Start(counts, t)
    ensures LayoutOf(counts).Limit(t) == End(counts, t)
  {
    if t != BYTE { SectionsInOrder(counts, t, BYTE); }
    LayoutSections(counts, t);
    FitsUnwrapped(Start(counts, t));
    FitsUnwrapped(End(counts, t));
  }

  lemma CountsOfFitting(counts: Counts)
    requires Total(counts) < WORD
    ensures CountsOf(LayoutOf(counts)) == counts
  {
    forall t: Datatype ensures counts[t] * Size(t) < WORD { FittingSection(counts, t); }
    CountsRoundTrip(counts);
  }

  lemma OwnFieldsAdd(before: seq<Datatype>, own: seq<Datatype>)
    ensures AddOwn(Totals(before), own) == Totals(before + own)
  {
    forall t: Datatype ensures Count(before + own, t) == Count(before, t) + Count(own, t) {
      CountSplit(before, own, t);
    }
  }

  lemma {:induction false} TotalGrows(a: seq<Datatype>, b: seq<Datatype>, t: Datatype)
    ensures Start(Totals(a), t) <= Start(Totals(a + b), t)
    ensures End(Totals(a), t) <= End(Totals(a + b), t)
    decreases 6 - t
  {
    if t < OBJECT { TotalGrows(a, b, t + 1); }
    CountSplit(a, b, t);
    MulMonotone(Count(a, t), Count(a + b, t), Size(t));
  }

  /** Reading counts back from superclass headers loses nothing: the header is the one computed
      from all inherited and own fields at once. */
  lemma {:induction false} HeaderCountsEveryField(lineage: seq<seq<Datatype>>)
    requires FitsIn32Bits(lineage)
    ensures HeaderOf(lineage) == LayoutOf(Totals(Flatten(lineage)))
    ensures CountsOf(HeaderOf(lineage)) == Totals(Flatten(lineage))
  {
    var all := Flatten(lineage);
    if lineage == [] {
      assert Totals(all) == NoFields();
    } else {
      var n := |lineage| - 1;
      var before := Flatten(lineage[..n]);
      TotalGrows(before, lineage[n], BYTE);
      HeaderCountsEveryField(lineage[..n]);
      OwnFieldsAdd(before, lineage[n]);
    }
    CountsOfFitting(Totals(all));
  }

  /** Position of field j of class k among all fields of the lineage. */
  function Position(lineage: seq<seq<Datatype>>, k: nat, j: nat): nat
    requires k < |lineage|
  {
    |Flatten(lineage[..k])| + j
  }

  lemma {:induction false} AncestorFits(lineage: seq<seq<Datatype>>, k: nat)
    requires k <= |lineage| && FitsIn32Bits(lineage)
    ensures FitsIn32Bits(lineage[..k])
  {
    if k < |lineage| {
      FlattenRow(lineage, k);
      var a := |Flatten(lineage[..k])|;
      var all := Flatten(lineage);
      assert all == all[..a] + all[a..];
      TotalGrows(all[..a], all[a..], BYTE);
    } else {
      assert lineage[..k] == lineage;
    }
  }

  lemma {:induction false} PositionFacts(lineage: seq<seq<Datatype>>, k: nat, j: nat)
    requires k < |lineage| && j < |lineage[k]|
    ensures Position(lineage, k, j) < |Flatten(lineage)|
    ensures Flatten(lineage)[Position(lineage, k, j)] == lineage[k][j]
    ensures Flatten(lineage)[..Position(lineage, k, j)] == Flatten(lineage[..k]) + lineage[k][..j]
  {
    FlattenRow(lineage, k);
    var all, before := Flatten(lineage), Flatten(lineage[..k]);
    var row := all[|before|..|before| + |lineage[k]|];
    assert all[Position(lineage, k, j)] == row[j];
    assert all[..Position(lineage, k, j)] == all[..|before|] + row[..j];
  }

  /** The index fixed when an ancestor was loaded is the field's slot among all fields of any descendant. */
  lemma {:induction false} IndexIsSlot(lineage: seq<seq<Datatype>>, k: nat, j: nat)
    requires k < |lineage| && j < |lineage[k]| && FitsIn32Bits(lineage)
    ensures Position(lineage, k, j) < |Flatten(lineage)|
    ensures FieldIndex(lineage, k, j) == Slot(Flatten(lineage), Position(lineage, k, j))
  {
    PositionFacts(lineage, k, j);
    AncestorFits(lineage, k);
    HeaderCountsEveryField(lineage[..k]);
    CountSplit(Flatten(lineage[..k]), lineage[k][..j], lineage[k][j]);
  }

  /** So through any descendant's header it finds the place that field has in the descendant. */
  lemma {:induction false} IndexKeepsMeaning(lineage: seq<seq<Datatype>>, k: nat, j: nat)
    requires k < |lineage| && j < |lineage[k]| && FitsIn32Bits(lineage)
    ensures Position(lineage, k, j) < |Flatten(lineage)|
    ensures Flatten(lineage)[Position(lineage, k, j)] == lineage[k][j]
    ensures RangeOf(lineage, k, j) == Range(Place(Flatten(lineage), Position(lineage, k, j)), Size(lineage[k][j]))
  {
    PositionFacts(lineage, k, j);
    IndexIsSlot(lineage, k, j);
    HeaderCountsEveryField(lineage);
    OffsetIsPlace(Flatten(lineage), Position(lineage, k, j));
  }

  lemma OffsetIsPlace(fields: seq<Datatype>, f: nat)
    requires f < |fields| && Total(Totals(fields)) < WORD
    ensures InstanceOffset(LayoutOf(Totals(fields)), Slot(fields, f), fields[f]) == Place(fields, f)
  {
    FittingSection(Totals(fields), fields[f]);
    FieldInBounds(fields, f);
    FitsUnwrapped(Place(fields, f));
  }

  lemma FitsUnwrapped(x: nat)
    requires x < WORD
    ensures Wrap(x) == x
  {
  }

  /** Two different fields of an object, whichever classes declared them, share no byte; each is
      naturally aligned and inside [0, object_size). */
  lemma {:induction false} InheritedFieldsApart(lineage: seq<seq<Datatype>>, k: nat, j: nat, k': nat, j': nat)
    requires FitsIn32Bits(lineage)
    requires k < |lineage| && j < |lineage[k]| && k' < |lineage| && j' < |lineage[k']|
    requires (k, j) != (k', j')
    ensures RangeOf(lineage, k, j).Apart(RangeOf(lineage, k', j'))
    ensures RangeOf(lineage, k, j).from % Size(lineage[k][j]) == 0
    ensures RangeOf(lineage, k, j).from + Size(lineage[k][j]) <= HeaderOf(lineage).totalSize
  {
    IndexKeepsMeaning(lineage, k, j);
    IndexKeepsMeaning(lineage, k', j');
    var all := Flatten(lineage);
    PositionsDiffer(lineage, k, j, k', j');
    FieldsDisjoint(all, Position(lineage, k, j), Position(lineage, k', j'));
    FieldInBounds(all, Position(lineage, k, j));
    HeaderCountsEveryField(lineage);
    FittingSection(Totals(all), BYTE);
  }

  lemma {:induction false} PositionsDiffer(lineage: seq<seq<Datatype>>, k: nat, j: nat, k': nat, j': nat)
    requires k < |lineage| && j < |lineage[k]| && k' < |lineage| && j' < |lineage[k']|
    requires (k, j) != (k', j')
    ensures Position(lineage, k, j) != Position(lineage, k', j')
  {
    if k' < k {
      PositionsDiffer(lineage, k', j', k, j);
    } else if k < k' {
      assert lineage[..k'][..k] == lineage[..k];
      FlattenRow(lineage[..k'], k);
    }
  }

  /** And nothing is wasted: every byte of the object below its size belongs to a field. */
  lemma {:induction false} ObjectIsFilled(lineage: seq<seq<Datatype>>, b: nat) returns (f: nat)
    requires FitsIn32Bits(lineage) && b < HeaderOf(lineage).totalSize
    ensures f < |Flatten(lineage)|
    ensures Place(Flatten(lineage), f) <= b < Place(Flatten(lineage), f) + Size(Flatten(lineage)[f])
  {
    HeaderCountsEveryField(lineage);
    FittingSection(Totals(Flatten(lineage)), BYTE);
    f := FieldsFill(Flatten(lineage), b);
  }

  // ---- Exactly when the layout holds ----------------------------------------------------------

  /** All fields of an object lie apart and inside it. */
  ghost predicate LaidOut(lineage: seq<seq<Datatype>>) {
    && (forall k, j, k', j' ::
          0 <= k < |lineage| && 0 <= j < |lineage[k]| && 0 <= k' < |lineage| && 0 <= j' < |lineage[k']| &&
            (k, j) != (k', j') ==>
            RangeOf(lineage, k, j).Apart(RangeOf(lineage, k', j')))
    && (forall k, j :: 0 <= k < |lineage| && 0 <= j < |lineage[k]| ==> InObject(lineage, RangeOf(lineage, k, j)))
  }

  ghost predicate InObject(lineage: seq<seq<Datatype>>, r: Range) { r.from + r.size <= HeaderOf(lineage).totalSize }

  function RangeSize(): Range -> nat { (r: Range) => r.size }
  function FieldSize(): Datatype -> nat { (t: Datatype) => Size(t) }

  ghost function Bytes(r: Range): set<nat> { set b: nat | b < r.from + r.size && r.Has(b) }

  ghost function BytesOf(ranges: seq<Range>): set<nat> {
    if ranges == [] then {} else BytesOf(ranges[..|ranges| - 1]) + Bytes(ranges[|ranges| - 1])
  }

  lemma {:induction false} BytesCount(r: Range)
    ensures |Bytes(r)| == r.size
    decreases r.size
  {
    if r.size == 0 {
      assert Bytes(r) == {};
    } else {
      var shorter := Range(r.from, r.size - 1);
      BytesCount(shorter);
      assert Bytes(r) == Bytes(shorter) + {r.from + r.size - 1};
    }
  }

  lemma {:induction false} InSomeRange(ranges: seq<Range>, b: nat)
    ensures b in BytesOf(ranges) ==> exists i :: 0 <= i < |ranges| && b in Bytes(ranges[i])
  {
    if ranges != [] {
      InSomeRange(ranges[..|ranges| - 1], b);
      if b in BytesOf(ranges[..|ranges| - 1]) {
        var i :| 0 <= i < |ranges| - 1 && b in Bytes(ranges[..|ranges| - 1][i]);
        assert b in Bytes(ranges[i]);
      }
    }
  }

  /** Ranges that lie apart cover as many bytes as their sizes add up to. */
  lemma {:induction false} ApartCount(ranges: seq<Range>)
    requires forall i, j :: 0 <= i < j < |ranges| ==> ranges[i].Apart(ranges[j])
    ensures |BytesOf(ranges)| == Sum(ranges, RangeSize())
  {
    if ranges != [] {
      var n := |ranges| - 1;
      ApartCount(ranges[..n]);
      BytesCount(ranges[n]);
      LastRangeApart(ranges);
      UnionCount(BytesOf(ranges[..n]), Bytes(ranges[n]));
      hide Bytes;
    }
  }

  lemma LastRangeApart(ranges: seq<Range>)
    requires ranges != [] && forall i, j :: 0 <= i < j < |ranges| ==> ranges[i].Apart(ranges[j])
    ensures BytesOf(ranges[..|ranges| - 1]) !! Bytes(ranges[|ranges| - 1])
  {
    var n := |ranges| - 1;
    forall b | b in BytesOf(ranges[..n]) ensures b !in Bytes(ranges[n]) {
      InSomeRange(ranges[..n], b);
      var i :| 0 <= i < n && b in Bytes(ranges[..n][i]);
      assert ranges[i].Apart(ranges[n]);
    }
  }

  lemma UnionCount(xs: set<nat>, ys: set<nat>)
    requires xs !! ys
    ensures |xs + ys| == |xs| + |ys|
  {
  }

  /** So below a limit they have no more room than the limit. */
  lemma ApartFit(ranges: seq<Range>, limit: nat)
    requires forall i, j :: 0 <= i < j < |ranges| ==> ranges[i].Apart(ranges[j])
    requires forall i :: 0 <= i < |ranges| ==> ranges[i].from + ranges[i].size <= limit
    ensures Sum(ranges, RangeSize()) <= limit
  {
    ApartCount(ranges);
    var all := Bytes(Range(0, limit));
    BytesCount(Range(0, limit));
    forall b | b in BytesOf(ranges) ensures b in all {
      InSomeRange(ranges, b);
      var i :| 0 <= i < |ranges| && b in Bytes(ranges[i]);
    }
    assert all == BytesOf(ranges) + (all - BytesOf(ranges));
  }

  /** The ranges of the fields of the first n classes. */
  function AllRanges(lineage: seq<seq<Datatype>>, n: nat): seq<Range>
    requires n <= |lineage|
  {
    if n == 0 then []
    else AllRanges(lineage, n - 1) + RowRanges(lineage, n - 1)
  }

  function RowRanges(lineage: seq<seq<Datatype>>, k: nat): (row: seq<Range>)
    requires k < |lineage|
    ensures |row| == |lineage[k]|
  {
    seq(|lineage[k]|, j requires 0 <= j < |lineage[k]| => RangeOf(lineage, k, j))
  }

  lemma {:induction false} RangeAt(lineage: seq<seq<Datatype>>, n: nat, p: nat) returns (k: nat, j: nat)
    requires n <= |lineage| && p < |AllRanges(lineage, n)|
    ensures k < n && j < |lineage[k]| && p == |AllRanges(lineage, k)| + j
    ensures AllRanges(lineage, n)[p] == RangeOf(lineage, k, j)
  {
    if p < |AllRanges(lineage, n - 1)| {
      k, j := RangeAt(lineage, n - 1, p);
    } else {
      k, j := n - 1, p - |AllRanges(lineage, n - 1)|;
    }
  }

  lemma {:induction false} RowSizes(lineage: seq<seq<Datatype>>, k: nat, j: nat)
    requires k < |lineage| && j <= |lineage[k]|
    ensures Sum(RowRanges(lineage, k)[..j], RangeSize()) == Sum(lineage[k][..j], FieldSize())
  {
    hide InstanceOffset, FieldIndex, HeaderOf;
    if j > 0 {
      RowSizes(lineage, k, j - 1);
      var row := RowRanges(lineage, k);
      assert row[..j][..j - 1] == row[..j - 1] && lineage[k][..j][..j - 1] == lineage[k][..j - 1];
    }
  }

  lemma WholeRowSizes(lineage: seq<seq<Datatype>>, k: nat)
    requires k < |lineage|
    ensures Sum(RowRanges(lineage, k), RangeSize()) == Sum(lineage[k], FieldSize())
  {
    hide RowRanges, Sum;
    RowSizes(lineage, k, |lineage[k]|);
    assert RowRanges(lineage, k)[..|lineage[k]|] == RowRanges(lineage, k) && lineage[k][..|lineage[k]|] == lineage[k];
  }

  lemma {:induction false} AllSizes(lineage: seq<seq<Datatype>>, n: nat)
    requires n <= |lineage|
    ensures Sum(AllRanges(lineage, n), RangeSize()) == Sum(Flatten(lineage[..n]), FieldSize())
  {
    hide RowRanges, Flatten;
    if n == 0 {
      NothingFlat(lineage[..n]);
    } else {
      AllSizes(lineage, n - 1);
      WholeRowSizes(lineage, n - 1);
      SumAppend(AllRanges(lineage, n - 1), RowRanges(lineage, n - 1), RangeSize());
      assert lineage[..n] == lineage[..n - 1] + [lineage[n - 1]];
      FlattenAppend(lineage[..n - 1], lineage[n - 1]);
      SumAppend(Flatten(lineage[..n - 1]), lineage[n - 1], FieldSize());
      hide Sum;
    }
  }

  lemma NothingFlat(lineage: seq<seq<Datatype>>)
    requires lineage == []
    ensures Flatten(lineage) == []
  {
  }

  lemma {:induction false} OneMoreStart(fields: seq<Datatype>, t: Datatype)
    requires fields != []
    ensures
      var n := |fields| - 1;
      Start(Totals(fields), t) == Start(Totals(fields[..n]), t) + if fields[n] > t then Size(fields[n]) else 0
    decreases 6 - t
  {
    if t < OBJECT {
      OneMoreStart(fields, t + 1);
      var n := |fields| - 1;
      Grown(Count(fields[..n], t + 1), if fields[n] == t + 1 then 1 else 0, Size(t + 1));
    }
  }

  lemma Grown(count: nat, more: nat, z: nat)
    ensures (count + more) * z == count * z + more * z
  {
  }

  /** The sections are as long as the fields are together. */
  lemma {:induction false} TotalIsSum(fields: seq<Datatype>)
    ensures Total(Totals(fields)) == Sum(fields, FieldSize())
  {
    if fields == [] {
      NothingTotals();
    } else {
      var n := |fields| - 1;
      TotalIsSum(fields[..n]);
      OneMoreStart(fields, BYTE);
    }
  }

  lemma NothingTotals()
    ensures Total(Totals([])) == 0
  {
    assert Totals([]) == NoFields();
  }

  /** Every object of a class is laid out, all inherited and own fields apart and inside it, if and
      only if the fields need less than 2^32 bytes. */
  lemma LaidOutExactlyWhenFitting(lineage: seq<seq<Datatype>>)
    ensures LaidOut(lineage) <==> FitsIn32Bits(lineage)
  {
    if FitsIn32Bits(lineage) { FittingIsLaidOut(lineage); }
    if LaidOut(lineage) { LaidOutFits(lineage); }
  }

  lemma FittingIsLaidOut(lineage: seq<seq<Datatype>>)
    requires FitsIn32Bits(lineage)
    ensures LaidOut(lineage)
  {
    hide RangeOf, FitsIn32Bits, HeaderOf;
    forall k, j, k', j' | 0 <= k < |lineage| && 0 <= j < |lineage[k]| && 0 <= k' < |lineage| &&
      0 <= j' < |lineage[k']| && (k, j) != (k', j')
      ensures RangeOf(lineage, k, j).Apart(RangeOf(lineage, k', j'))
    {
      InheritedFieldsApart(lineage, k, j, k', j');
    }
    forall k, j | 0 <= k < |lineage| && 0 <= j < |lineage[k]| ensures InObject(lineage, RangeOf(lineage, k, j)) {
      FieldInside(lineage, k, j);
    }
  }

  lemma FieldInside(lineage: seq<seq<Datatype>>, k: nat, j: nat)
    requires FitsIn32Bits(lineage) && k < |lineage| && j < |lineage[k]|
    ensures InObject(lineage, RangeOf(lineage, k, j))
  {
    IndexKeepsMeaning(lineage, k, j);
    FieldInBounds(Flatten(lineage), Position(lineage, k, j));
    HeaderCountsEveryField(lineage);
    FittingSection(Totals(Flatten(lineage)), BYTE);
  }

  lemma LaidOutFits(lineage: seq<seq<Datatype>>)
    requires LaidOut(lineage)
    ensures FitsIn32Bits(lineage)
  {
    hide RangeOf, HeaderOf, Total, Totals;
    var ranges := AllRanges(lineage, |lineage|);
    forall i, j | 0 <= i < j < |ranges| ensures ranges[i].Apart(ranges[j]) {
      var k, f := RangeAt(lineage, |lineage|, i);
      var k', f' := RangeAt(lineage, |lineage|, j);
    }
    forall i | 0 <= i < |ranges| ensures ranges[i].from + ranges[i].size <= HeaderOf(lineage).totalSize {
      var k, f := RangeAt(lineage, |lineage|, i);
      assert InObject(lineage, RangeOf(lineage, k, f));
    }
    ApartFit(ranges, HeaderOf(lineage).totalSize);
    AllSizes(lineage, |lineage|);
    assert lineage[..|lineage|] == lineage;
    TotalIsSum(Flatten(lineage));
    HeaderIsWord(lineage);
  }

  lemma HeaderIsWord(lineage: seq<seq<Datatype>>)
    ensures HeaderOf(lineage).totalSize < WORD
  {
  }

  lemma {:induction false} CountReferences(n: nat)
    ensures Totals(seq(n, _ => OBJECT)) == [0, 0, 0, 0, 0, 0, n]
  {
    var fields := seq(n, _ => OBJECT);
    if n > 0 {
      CountReferences(n - 1);
      assert fields[..n - 1] == seq(n - 1, _ => OBJECT);
      forall t: Datatype ensures Count(fields, t) == Totals(fields[..n - 1])[t] + if t == OBJECT then 1 else 0 {}
    }
  }

  lemma NothingCounted()
    ensures CountsOf(LayoutOf(NoFields())) == NoFields()
  {
    CountsOfFitting(NoFields());
  }

  lemma HeaderUnfolds(lineage: seq<seq<Datatype>>, k: nat)
    requires k < |lineage|
    ensures HeaderOf(lineage[..k + 1]) == LayoutOf(AddOwn(CountsOf(HeaderOf(lineage[..k])), lineage[k]))
  {
    hide CountsOf, LayoutOf, AddOwn;
    assert lineage[..k + 1][..k] == lineage[..k];
  }

  lemma OnlyOwn(own: seq<Datatype>)
    ensures AddOwn(NoFields(), own) == Totals(own)
  {
  }

  /** A class that inherits nothing measures its own fields only. */
  lemma InheritsNothing(lineage: seq<seq<Datatype>>, k: nat)
    requires k < |lineage| && HeaderOf(lineage[..k]) == LayoutOf(NoFields())
    ensures HeaderOf(lineage[..k + 1]) == LayoutOf(Totals(lineage[k]))
    ensures lineage[k] != [] ==> FieldIndex(lineage, k, 0) == 0
  {
    hide HeaderOf, CountsOf, LayoutOf, AddOwn, Totals;
    NothingCounted();
    HeaderUnfolds(lineage, k);
    OnlyOwn(lineage[k]);
    if lineage[k] != [] { assert lineage[k][..0] == []; }
  }

  /** For one: with 2^29 references in a class and a byte in its subclass, the byte lies on the first
      reference. */
  lemma OverflowOverlaps(lineage: seq<seq<Datatype>>)
    requires lineage == [seq(0x2000_0000, _ => OBJECT), [BYTE]]
    ensures !FitsIn32Bits(lineage) && !RangeOf(lineage, 0, 0).Apart(RangeOf(lineage, 1, 0))
  {
    hide *;
    HeadersOfOverflow(lineage);
    AtStart(lineage, 0);
    AtStart(lineage, 1);
    RangesOverlap(lineage);
    LaidOutExactlyWhenFitting(lineage);
    NotLaidOut(lineage, 0, 0, 1, 0);
  }

  lemma RangesOverlap(lineage: seq<seq<Datatype>>)
    requires |lineage| == 2 && lineage[0] != [] && lineage[1] != []
    requires forall k :: 0 <= k < 2 ==> RangeOf(lineage, k, 0) == Range(0, Size(lineage[k][0]))
    ensures !RangeOf(lineage, 0, 0).Apart(RangeOf(lineage, 1, 0))
  {
    hide RangeOf;
  }

  lemma HeadersOfOverflow(lineage: seq<seq<Datatype>>)
    requires lineage == [seq(0x2000_0000, _ => OBJECT), [BYTE]]
    ensures FieldIndex(lineage, 0, 0) == 0 && FieldIndex(lineage, 1, 0) == 0
    ensures HeaderOf(lineage).Offset(OBJECT) == HeaderOf(lineage).Offset(BYTE) == 0
    ensures lineage[0][0] == OBJECT && lineage[1] == [BYTE] && |lineage| == 2
  {
    assert lineage[..0] == [] && lineage[..2] == lineage;
    NoHeader();
    hide HeaderOf, FieldIndex, LayoutOf, Totals, SectionTable.Offset;
    InheritsNothing(lineage, 0);
    CountReferences(0x2000_0000);
    FullWordVanishes();
    InheritsNothing(lineage, 1);
    ByteStarts();
  }

  lemma NoHeader()
    ensures HeaderOf([]) == LayoutOf(NoFields())
  {
    hide LayoutOf;
  }

  lemma AtStart(lineage: seq<seq<Datatype>>, k: nat)
    requires k < |lineage| && lineage[k] != [] && FieldIndex(lineage, k, 0) == 0
    requires HeaderOf(lineage).Offset(lineage[k][0]) == 0
    ensures RangeOf(lineage, k, 0) == Range(0, Size(lineage[k][0]))
  {
    hide HeaderOf, FieldIndex, SectionTable.Offset;
    FitsUnwrapped(0);
    hide Wrap;
  }

  lemma NotLaidOut(lineage: seq<seq<Datatype>>, k: nat, j: nat, k': nat, j': nat)
    requires k < |lineage| && j < |lineage[k]| && k' < |lineage| && j' < |lineage[k']| && (k, j) != (k', j')
    requires !RangeOf(lineage, k, j).Apart(RangeOf(lineage, k', j'))
    ensures !LaidOut(lineage)
  {
    hide RangeOf;
  }

  lemma ByteStarts()
    ensures LayoutOf(Totals([BYTE])).Offset(OBJECT) == LayoutOf(Totals([BYTE])).Offset(BYTE) == 0
  {
    assert [BYTE][..0] == [];
    assert forall t: Datatype :: t > BYTE ==> Count([BYTE], t) == 0;
    hide Count;
    NothingWider(Totals([BYTE]), BYTE);
    hide Start;
    FitsUnwrapped(0);
    LayoutSections(Totals([BYTE]), BYTE);
    hide LayoutOf;
  }

  lemma FullWordVanishes()
    ensures LayoutOf([0, 0, 0, 0, 0, 0, 0x2000_0000]) == LayoutOf(NoFields())
  {
    var counts: Counts := [0, 0, 0, 0, 0, 0, 0x2000_0000];
    forall t: Datatype ensures Wrap(Start(counts, t)) == 0 && Start(NoFields(), t) == 0 {
      NothingWider(NoFields(), t);
      StartBelow(counts, t);
    }
    assert Total(counts) == WORD && Total(NoFields()) == 0;
    hide Start;
  }

  lemma {:induction false} StartBelow(counts: Counts, t: Datatype)
    requires counts == [0, 0, 0, 0, 0, 0, 0x2000_0000]
    ensures Start(counts, t) == if t == OBJECT then 0 else WORD
    decreases 6 - t
  {
    if t < OBJECT { StartBelow(counts, t + 1); }
  }

  // ---- Statics --------------------------------------------------------------------------------

  /** The start offsets as written take only the neighbouring section's size; the loop below
      accumulates. With one field in each of OBJECT, DOUBLE and LONG the last two collide. */
  function StartAsWritten(counts: Counts, t: Datatype): nat {
    if t == OBJECT then 0 else counts[t + 1] * Size(t + 1)
  }

  lemma StartsAsWrittenCollide(counts: Counts)
    requires counts == [0, 0, 0, 0, 1, 1, 1]
    ensures StartAsWritten(counts, LONG) == StartAsWritten(counts, DOUBLE)
    ensures Start(counts, LONG) == Start(counts, DOUBLE) + Size(DOUBLE)
  {
  }

  lemma {:induction false} NothingWider(counts: Counts, t: Datatype)
    ensures Start(counts, t) == 0 <==> forall u: Datatype :: u > t ==> counts[u] == 0
    decreases 6 - t
  {
    if t < OBJECT {
      NothingWider(counts, t + 1);
      assert counts[t + 1] * Size(t + 1) == 0 <==> counts[t + 1] == 0;
    }
  }

  /** As written the starts are right if and only if no static is wider than SHORT. */
  lemma StartsAsWrittenRight(counts: Counts)
    ensures (forall t: Datatype :: StartAsWritten(counts, t) == Start(counts, t)) <==>
        forall t: Datatype :: t > SHORT ==> counts[t] == 0
  {
    NothingWider(counts, SHORT);
    if forall t: Datatype :: t > SHORT ==> counts[t] == 0 {
      forall t: Datatype ensures StartAsWritten(counts, t) == Start(counts, t) {
        if t > BYTE { NothingWider(counts, t); }
      }
    }
    assert StartAsWritten(counts, BYTE) == counts[SHORT] * Size(SHORT);
  }

  /** The reference statics are exactly the fields below the double offset. */
  lemma {:induction false} ReferencesComeFirst(fields: seq<Datatype>, f: nat)
    requires f < |fields|
    ensures Place(fields, f) < Start(Totals(fields), DOUBLE) <==> fields[f] == OBJECT
  {
    FieldInBounds(fields, f);
    if fields[f] < DOUBLE { SectionsInOrder(Totals(fields), DOUBLE, fields[f]); }
  }

  /** The offsets the static pointer walk visits are exactly the places of the reference fields. */
  lemma {:induction false} WalkFindsReferences(fields: seq<Datatype>, o: nat)
    ensures (exists i :: 0 <= i < Count(fields, OBJECT) && o == 8 * i)
       <==> (exists f :: 0 <= f < |fields| && fields[f] == OBJECT && Place(fields, f) == o)
  {
    if i :| 0 <= i < Count(fields, OBJECT) && o == 8 * i {
      var f := FieldWithSlot(fields, OBJECT, i);
      assert Place(fields, f) == o;
    }
    if f :| 0 <= f < |fields| && fields[f] == OBJECT && Place(fields, f) == o {
      assert fields[..|fields|] == fields;
      SlotsGrow(fields, f, |fields|);
      assert o == 8 * Slot(fields, f);
    }
  }

  /** As written the walk's end is the double offset less the header size: never the double offset. */
  lemma WalkEndAsWritten(doubleOffset: nat)
    requires doubleOffset < WORD
    ensures Wrap(doubleOffset - HEADER_SIZE) != doubleOffset
  {
  }

  // ---- The class block being written ----------------------------------------------------------

  class ClassHeader {
    var instanceTotalSize: nat
    var instanceDoubleOffset: nat
    var instanceLongOffset: nat
    var instanceFloatOffset: nat
    var instanceIntOffset: nat
    var instanceShortOffset: nat
    var instanceByteOffset: nat
    var staticTotalSize: nat
    var staticDoubleOffset: nat
    var staticLongOffset: nat
    var staticFloatOffset: nat
    var staticIntOffset: nat
    var staticShortOffset: nat
    var staticByteOffset: nat

    function Instance(): SectionTable reads this {
      SectionTable(instanceTotalSize, instanceDoubleOffset, instanceLongOffset, instanceFloatOffset,
                   instanceIntOffset, instanceShortOffset, instanceByteOffset)
    }

    function Statics(): SectionTable reads this {
      SectionTable(staticTotalSize, staticDoubleOffset, staticLongOffset, staticFloatOffset,
                   staticIntOffset, staticShortOffset, staticByteOffset)
    }

    method SetInstanceVariableCounts(counts: Counts)
      modifies this
      ensures Instance() == LayoutOf(counts) && Statics() == old(Statics())
    {
      FirstSection(counts);
      hide Start, End, Wrap, Size;
      var current := 0;
      current := AddSection(counts, OBJECT, current);
      instanceDoubleOffset := current;
      current := AddSection(counts, DOUBLE, current);
      instanceLongOffset := current;
      current := AddSection(counts, LONG, current);
      instanceFloatOffset := current;
      current := AddSection(counts, FLOAT, current);
      instanceIntOffset := current;
      current := AddSection(counts, INT, current);
      instanceShortOffset := current;
      current := AddSection(counts, SHORT, current);
      instanceByteOffset := current;
      current := AddSection(counts, BYTE, current);
      instanceTotalSize := current;
    }

    static lemma FirstSection(counts: Counts)
      ensures Wrap(Start(counts, OBJECT)) == 0
      ensures End(counts, BYTE) == Total(counts)
    {
    }

    /** One 32-bit addition of that method. */
    static method AddSection(counts: Counts, t: Datatype, current: nat) returns (next: nat)
      requires current == Wrap(Start(counts, t))
      ensures next == Wrap(End(counts, t))
      ensures t > 0 ==> next == Wrap(Start(counts, t - 1))
    {
      next := Wrap(current + counts[t] * Size(t));
      WrapAdd(Start(counts, t), counts[t] * Size(t));
    }

    method InheritedVariableCounts() returns (counts: Counts)
      ensures counts == CountsOf(Instance())
    {
      counts := [
        Wrap(instanceTotalSize - instanceByteOffset) / Size(BYTE),
        Wrap(instanceByteOffset - instanceShortOffset) / Size(SHORT),
        Wrap(instanceShortOffset - instanceIntOffset) / Size(INT),
        Wrap(instanceIntOffset - instanceFloatOffset) / Size(FLOAT),
        Wrap(instanceFloatOffset - instanceLongOffset) / Size(LONG),
        Wrap(instanceLongOffset - instanceDoubleOffset) / Size(DOUBLE),
        Wrap(instanceDoubleOffset) / Size(OBJECT)];
    }

    /** The loader's instance pass: inherited counts, then one index per own field in file order. */
    method AssignInstanceFields(primary: ClassHeader?, own: seq<Datatype>, ghost ancestors: seq<seq<Datatype>>)
      returns (indices: seq<nat>)
      requires primary != null ==> primary.Instance() == HeaderOf(ancestors)
      requires primary == null ==> ancestors == []
      requires primary != this
      modifies this
      ensures Instance() == HeaderOf(ancestors + [own]) && Statics() == old(Statics())
      ensures |indices| == |own|
      ensures forall j :: 0 <= j < |own| ==> indices[j] == FieldIndex(ancestors + [own], |ancestors|, j)
    {
      var counts := NoFields();
      if primary != null {
        counts := primary.InheritedVariableCounts();
      } else {
        CountsOfFitting(NoFields());
      }
      ghost var inherited := counts;
      indices, counts := NumberFields(counts, own);
      ghost var lineage := ancestors + [own];
      assert lineage[..|ancestors|] == ancestors;
      SetInstanceVariableCounts(counts);
    }

    /** Takes the next index of the field's type for each field in turn. */
    static method NumberFields(inherited: Counts, own: seq<Datatype>) returns (indices: seq<nat>, counts: Counts)
      ensures |indices| == |own| && counts == AddOwn(inherited, own)
      ensures forall j :: 0 <= j < |own| ==> indices[j] == inherited[own[j]] + Count(own[..j], own[j])
    {
      hide Count, Size;
      counts, indices := inherited, [];
      assert forall t: Datatype :: Count(own[..0], t) == 0 by { forall t: Datatype { NoFieldsCount(own, t); } }
      for i := 0 to |own|
        invariant |indices| == i
        invariant forall t: Datatype :: counts[t] == inherited[t] + Count(own[..i], t)
        invariant forall j :: 0 <= j < i ==> indices[j] == inherited[own[j]] + Count(own[..j], own[j])
      {
        ghost var before := counts;
        indices := indices + [counts[own[i]]];
        counts := counts[own[i] := counts[own[i]] + 1];
        forall t: Datatype ensures counts[t] == inherited[t] + Count(own[..i + 1], t) {
          OneMoreField(own, i, t);
          assert before[t] == inherited[t] + Count(own[..i], t);
        }
      }
      assert own[..|own|] == own;
    }

    static lemma NoFieldsCount(fields: seq<Datatype>, t: Datatype)
      ensures Count(fields[..0], t) == 0
    {
    }

    static lemma OneMoreField(fields: seq<Datatype>, i: nat, t: Datatype)
      requires i < |fields|
      ensures Count(fields[..i + 1], t) == Count(fields[..i], t) + if t == fields[i] then 1 else 0
    {
      assert fields[..i + 1][..i] == fields[..i];
    }

    /** The loader's static pass. `places` are the offsets recorded in the static field exports. */
    method AssignStaticFields(fields: seq<Datatype>) returns (places: seq<nat>)
      requires Total(Totals(fields)) < WORD
      modifies this
      ensures Statics() == LayoutOf(Totals(fields)) && Instance() == old(Instance())
      ensures |places| == |fields|
      ensures forall f :: 0 <= f < |fields| ==> places[f] == Place(fields, f)
    {
      var counts := CountFields(fields);
      var offsets := StaticStarts(counts);
      places, offsets := PlaceStatics(fields, offsets);
      SetStaticVariableOffsets(offsets, counts);
    }

    /** Gives each static the next offset of its section; the offsets end as section ends. */
    static method PlaceStatics(fields: seq<Datatype>, starts: seq<nat>) returns (places: seq<nat>, offsets: seq<nat>)
      requires |starts| == 7 && forall t: Datatype :: starts[t] == Start(Totals(fields), t)
      ensures |offsets| == 7 && forall t: Datatype :: offsets[t] == End(Totals(fields), t)
      ensures |places| == |fields|
      ensures forall f :: 0 <= f < |fields| ==> places[f] == Place(fields, f)
    {
      places, offsets := [], starts;
      for i := 0 to |fields|
        invariant |places| == i && |offsets| == 7
        invariant forall t: Datatype :: offsets[t] == starts[t] + Count(fields[..i], t) * Size(t)
        invariant forall f :: 0 <= f < i ==> places[f] == Place(fields, f)
      {
        ghost var before := offsets;
        places := places + [offsets[fields[i]]];
        offsets := offsets[fields[i] := offsets[fields[i]] + Size(fields[i])];
        forall t: Datatype ensures offsets[t] == starts[t] + Count(fields[..i + 1], t) * Size(t) {
          OneMore(fields, i, t);
          assert before[t] == starts[t] + Count(fields[..i], t) * Size(t);
        }
      }
      assert fields[..|fields|] == fields;
    }

    static lemma OneMore(fields: seq<Datatype>, i: nat, t: Datatype)
      requires i < |fields|
      ensures Count(fields[..i + 1], t) * Size(t)
           == Count(fields[..i], t) * Size(t) + if t == fields[i] then Size(t) else 0
    {
      assert fields[..i + 1][..i] == fields[..i];
    }

    static method CountFields(fields: seq<Datatype>) returns (counts: Counts)
      ensures counts == Totals(fields)
    {
      counts := NoFields();
      for i := 0 to |fields|
        invariant forall t: Datatype :: counts[t] == Count(fields[..i], t)
      {
        assert fields[..i + 1][..i] == fields[..i];
        counts := counts[fields[i] := counts[fields[i]] + 1];
      }
      assert fields[..|fields|] == fields;
    }

    /** Cumulative start offsets, OBJECT first. */
    static method StaticStarts(counts: Counts) returns (offsets: seq<nat>)
      ensures |offsets| == 7 && forall t: Datatype :: offsets[t] == Start(counts, t)
    {
      offsets := NoFields();
      var i := 6;
      while i > 0
        invariant 0 <= i <= 6 && |offsets| == 7
        invariant forall t: Datatype :: t >= i ==> offsets[t] == Start(counts, t)
      {
        i := i - 1;
        offsets := offsets[i := offsets[i + 1] + counts[i + 1] * Size(i + 1)];
      }
    }

    /** Shifts the final end offsets down by one type; each end is the next section's start. */
    method SetStaticVariableOffsets(ends: seq<nat>, ghost counts: Counts)
      requires |ends| == 7 && Total(counts) < WORD
      requires forall t: Datatype :: ends[t] == End(counts, t)
      modifies this
      ensures Statics() == LayoutOf(counts) && Instance() == old(Instance())
    {
      var totalSize := ends[BYTE];
      var offsets := ends;
      for i := 1 to 7
        invariant |offsets| == 7
        invariant offsets == ends[1..i] + ends[i - 1..]
      {
        offsets := offsets[i - 1 := offsets[i]];
      }
      offsets := offsets[6 := totalSize];
      forall t: Datatype | t < OBJECT ensures offsets[t] == Start(counts, t) {
        assert offsets[t] == ends[t + 1];
      }
      FirstSection(counts);
      hide Start, End, Wrap, Size;
      staticByteOffset := Wrap(offsets[BYTE]);
      staticShortOffset := Wrap(offsets[SHORT]);
      staticIntOffset := Wrap(offsets[INT]);
      staticFloatOffset := Wrap(offsets[FLOAT]);
      staticLongOffset := Wrap(offsets[LONG]);
      staticDoubleOffset := Wrap(offsets[DOUBLE]);
      staticTotalSize := Wrap(offsets[OBJECT]);
    }

    /** Offsets of the reference statics, in the order the collector's iterator visits them. */
    method StaticPointers(ghost fields: seq<Datatype>) returns (visited: seq<nat>)
      requires Total(Totals(fields)) < WORD && Statics() == LayoutOf(Totals(fields))
      ensures |visited| == Count(fields, OBJECT)
      ensures forall i :: 0 <= i < |visited| ==> visited[i] == 8 * i
    {
      assert staticDoubleOffset == 8 * Count(fields, OBJECT) by {
        FittingSection(Totals(fields), DOUBLE);
        assert Statics().Offset(DOUBLE) == staticDoubleOffset;
        assert Start(Totals(fields), DOUBLE) == Totals(fields)[OBJECT] * 8;
      }
      hide LayoutOf, Total, Totals, Count;
      visited := [];
      var index := 0;
      while index != staticDoubleOffset
        invariant index == 8 * |visited| && index <= staticDoubleOffset
        invariant forall i :: 0 <= i < |visited| ==> visited[i] == 8 * i
        decreases staticDoubleOffset - index
      {
        visited := visited + [index];
        index := index + 8;
      }
    }
  }
}
