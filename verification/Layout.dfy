/** Field layout: per-type sections, shared by instances and statics
    (classes/datatypes.h, classes/class.cpp, classloader/class_writer.cpp). */
module Layout {
  /** The enumeration of classes/datatypes.h:11, kept as numbers because the sources index arrays by it. */
  type Datatype = t: nat | t < 7
  const BYTE: Datatype := 0
  const SHORT: Datatype := 1
  const INT: Datatype := 2
  const FLOAT: Datatype := 3
  const LONG: Datatype := 4
  const DOUBLE: Datatype := 5
  const OBJECT: Datatype := 6

  function Size(t: Datatype): nat {
    if t == BYTE then 1 else if t == SHORT then 2 else if t <= FLOAT then 4 else 8
  }

  type Counts = s: seq<nat> | |s| == 7 witness [0, 0, 0, 0, 0, 0, 0]

  const WORD := 0x1_0000_0000

  /** Every header field is a 32-bit unsigned integer. */
  function Wrap(x: int): nat { x % WORD }

  // ---- Sections -------------------------------------------------------------------------------

  /** Sections run from OBJECT down to BYTE; this is where the section of `t` begins. */
  function Start(counts: Counts, t: Datatype): nat
    decreases 6 - t
  {
    if t == OBJECT then 0 else Start(counts, t + 1) + counts[t + 1] * Size(t + 1)
  }

  function End(counts: Counts, t: Datatype): nat { Start(counts, t) + counts[t] * Size(t) }

  function Total(counts: Counts): nat { End(counts, BYTE) }

  /** How many of `fields` have type `t`. */
  function Count(fields: seq<Datatype>, t: Datatype): nat {
    if fields == [] then 0
    else Count(fields[..|fields| - 1], t) + if fields[|fields| - 1] == t then 1 else 0
  }

  function Totals(fields: seq<Datatype>): Counts { seq(7, t requires 0 <= t < 7 => Count(fields, t)) }

  /** The index a field gets within the section of its type. */
  function Slot(fields: seq<Datatype>, f: nat): nat
    requires f < |fields|
  {
    Count(fields[..f], fields[f])
  }

  /** Where field f lies when the sections are sized for all of `fields`. */
  function Place(fields: seq<Datatype>, f: nat): nat
    requires f < |fields|
  {
    Start(Totals(fields), fields[f]) + Slot(fields, f) * Size(fields[f])
  }

  lemma {:induction false} SectionsInOrder(counts: Counts, hi: Datatype, lo: Datatype)
    requires lo < hi
    ensures End(counts, hi) <= Start(counts, lo)
    decreases hi - lo
  {
    if lo + 1 < hi { SectionsInOrder(counts, hi, lo + 1); }
  }

  lemma {:induction false} SectionAligned(counts: Counts, t: Datatype)
    ensures Start(counts, t) % Size(t) == 0
    decreases 6 - t
  {
    if t < OBJECT {
      SectionAligned(counts, t + 1);
      AlignedSum(Start(counts, t + 1), counts[t + 1], Size(t + 1), Size(t));
    }
  }

  lemma AlignedSum(a: nat, c: nat, u: nat, v: nat)
    requires u in {2, 4, 8} && (v == u || 2 * v == u) && a % u == 0
    ensures (a + c * u) % v == 0
  {
    WholeFields(a, u);
    var k := if v == u then a / u + c else 2 * (a / u + c);
    assert a + c * u == k * v by { SumFactors(a, a / u, c, u, v); }
    MultipleOf(k, v);
  }

  lemma SumFactors(a: nat, q: nat, c: nat, u: nat, v: nat)
    requires a == q * u
    ensures v == u ==> a + c * u == (q + c) * v
    ensures 2 * v == u ==> a + c * u == 2 * (q + c) * v
  {
  }

  lemma MultipleOf(k: nat, d: nat)
    requires d in {1, 2, 4, 8}
    ensures (k * d) % d == 0
  {
    if d == 1 {
    } else if d == 2 {
      assert (k * 2) % 2 == 0;
    } else if d == 4 {
      assert (k * 4) % 4 == 0;
    } else {
      assert (k * 8) % 8 == 0;
    }
  }

  lemma {:induction false} CountSplit(a: seq<Datatype>, b: seq<Datatype>, t: Datatype)
    ensures Count(a + b, t) == Count(a, t) + Count(b, t)
  {
    if b == [] {
      assert a + b == a;
    } else {
      CountSplit(a, b[..|b| - 1], t);
      assert (a + b)[..|a + b| - 1] == a + b[..|b| - 1];
    }
  }

  /** A field's slot is below the section's count, and later fields of the type get larger slots. */
  lemma {:induction false} SlotsGrow(fields: seq<Datatype>, f: nat, g: nat)
    requires f < g <= |fields|
    ensures Slot(fields, f) + 1 <= Count(fields[..g], fields[f])
  {
    var a, b := fields[..f], fields[f + 1..g];
    assert fields[..g] == (a + [fields[f]]) + b;
    CountSplit(a + [fields[f]], b, fields[f]);
    assert (a + [fields[f]])[..|a|] == a;
  }

  /** A field lies inside the section of its type, aligned for its size, inside the whole block. */
  lemma {:induction false} FieldInBounds(fields: seq<Datatype>, f: nat)
    requires f < |fields|
    ensures Start(Totals(fields), fields[f]) <= Place(fields, f)
    ensures Place(fields, f) + Size(fields[f]) <= End(Totals(fields), fields[f]) <= Total(Totals(fields))
    ensures Place(fields, f) % Size(fields[f]) == 0
  {
    var t, c := fields[f], Totals(fields);
    assert fields[..|fields|] == fields;
    SlotsGrow(fields, f, |fields|);
    SectionAligned(c, t);
    if t != BYTE { SectionsInOrder(c, t, BYTE); }
    hide Start, Count;
    PlaceInSection(Start(c, t), Slot(fields, f), c[t], Size(t));
  }

  lemma PlaceInSection(start: nat, slot: nat, count: nat, z: nat)
    requires z in {1, 2, 4, 8} && start % z == 0 && slot + 1 <= count
    ensures start + slot * z + z <= start + count * z && (start + slot * z) % z == 0
  {
    MulMonotone(slot + 1, count, z);
    assert (slot + 1) * z == slot * z + z;
    assert start + slot * z == (start / z + slot) * z;
    MultipleOf(start / z + slot, z);
  }

  /** No two fields share a byte. */
  lemma {:induction false} FieldsDisjoint(fields: seq<Datatype>, f: nat, g: nat)
    requires f < |fields| && g < |fields| && f != g
    ensures Place(fields, f) + Size(fields[f]) <= Place(fields, g)
         || Place(fields, g) + Size(fields[g]) <= Place(fields, f)
  {
    if g < f {
      FieldsDisjoint(fields, g, f);
    } else {
      var t, u, c := fields[f], fields[g], Totals(fields);
      FieldInBounds(fields, f);
      FieldInBounds(fields, g);
      if t < u {
        SectionsInOrder(c, u, t);
      } else if u < t {
        SectionsInOrder(c, t, u);
      } else {
        SlotsGrow(fields, f, g);
        var a, b := Slot(fields, f), Slot(fields, g);
        assert (a + 1) * Size(t) <= b * Size(t);
        assert (a + 1) * Size(t) == a * Size(t) + Size(t);
      }
    }
  }

  lemma Below(q: nat, c: nat, z: nat, d: nat)
    requires q * z <= d < c * z
    ensures q < c
  {
    if q >= c { MulMonotone(c, q, z); }
  }

  lemma MulMonotone(a: nat, b: nat, z: nat)
    requires a <= b
    ensures a * z <= b * z
  {
  }

  lemma {:induction false} FieldWithSlot(fields: seq<Datatype>, t: Datatype, slot: nat) returns (f: nat)
    requires slot < Count(fields, t)
    ensures f < |fields| && fields[f] == t && Slot(fields, f) == slot
  {
    var n := |fields| - 1;
    if fields[n] == t && Count(fields[..n], t) == slot {
      f := n;
    } else {
      f := FieldWithSlot(fields[..n], t, slot);
      assert fields[..n][..f] == fields[..f];
    }
  }

  lemma {:induction false} SectionOf(counts: Counts, b: nat, from: Datatype) returns (t: Datatype)
    requires b < End(counts, from)
    ensures from <= t && Start(counts, t) <= b < End(counts, t)
    decreases 6 - from
  {
    t := from;
    if b < Start(counts, from) { t := SectionOf(counts, b, from + 1); }
  }

  /** The fields fill the block: every byte below the total belongs to some field. */
  lemma {:induction false} FieldsFill(fields: seq<Datatype>, b: nat) returns (f: nat)
    requires b < Total(Totals(fields))
    ensures f < |fields| && Place(fields, f) <= b < Place(fields, f) + Size(fields[f])
  {
    var c := Totals(fields);
    var t := SectionOf(c, b, BYTE);
    var d, z := b - Start(c, t), Size(t);
    var q := d / z;
    assert d == q * z + d % z;
    assert q < c[t] by { Below(q, c[t], z, d); }
    f := FieldWithSlot(fields, t, q);
  }

  // ---- The header fields that record a set of sections ----------------------------------------

  datatype SectionTable = SectionTable(
    totalSize: nat, doubleOffset: nat, longOffset: nat, floatOffset: nat,
    intOffset: nat, shortOffset: nat, byteOffset: nat)
  {
    function Offset(t: Datatype): nat {
      if t == OBJECT then 0
      else if t == DOUBLE then doubleOffset
      else if t == LONG then longOffset
      else if t == FLOAT then floatOffset
      else if t == INT then intOffset
      else if t == SHORT then shortOffset
      else byteOffset
    }

    /** Where the section of `t` ends: the offset of the next section. */
    function Limit(t: Datatype): nat { if t == BYTE then totalSize else Offset(t - 1) }

    predicate Fits32() { forall t: Datatype :: Limit(t) < WORD }
  }

  /** Offsets for given counts, as the header stores them. */
  function LayoutOf(counts: Counts): SectionTable {
    SectionTable(Wrap(Total(counts)), Wrap(Start(counts, DOUBLE)), Wrap(Start(counts, LONG)),
                 Wrap(Start(counts, FLOAT)), Wrap(Start(counts, INT)), Wrap(Start(counts, SHORT)),
                 Wrap(Start(counts, BYTE)))
  }

  /** Counts recovered from stored offsets, with 32-bit subtraction. */
  function CountsOf(layout: SectionTable): Counts {
    seq(7, t requires 0 <= t < 7 => Wrap(layout.Limit(t) - layout.Offset(t)) / Size(t))
  }

  lemma WrapAdd(x: nat, y: nat)
    ensures Wrap(Wrap(x) + y) == Wrap(x + y)
    ensures Wrap(Wrap(x + y) - Wrap(x)) == Wrap(y)
  {
    ModUnique(x + y, x / WORD + (Wrap(x) + y) / WORD, Wrap(Wrap(x) + y));
    ModUnique(y, (x + y) / WORD - x / WORD + (Wrap(x + y) - Wrap(x)) / WORD, Wrap(Wrap(x + y) - Wrap(x)));
  }

  lemma ModUnique(x: int, q: int, r: int)
    requires x == q * WORD + r && 0 <= r < WORD
    ensures Wrap(x) == r
  {
  }

  lemma LayoutSections(counts: Counts, t: Datatype)
    ensures LayoutOf(counts).Offset(t) == Wrap(Start(counts, t))
    ensures LayoutOf(counts).Limit(t) == Wrap(End(counts, t))
  {
    if t != BYTE { assert End(counts, t) == Start(counts, t - 1); }
  }

  /** A section of c fields is measured back exactly when its bytes fit 32 bits. */
  lemma SectionMeasured(c: nat, z: nat)
    requires z in {1, 2, 4, 8}
    ensures Wrap(c * z) / z == c <==> c * z < WORD
  {
  }

  lemma SectionRead(counts: Counts, t: Datatype)
    ensures CountsOf(LayoutOf(counts))[t] == counts[t] <==> counts[t] * Size(t) < WORD
  {
    LayoutSections(counts, t);
    CountRead(LayoutOf(counts), t);
    hide Start, LayoutOf, CountsOf, Wrap;
    WrapAdd(Start(counts, t), counts[t] * Size(t));
    SectionMeasured(counts[t], Size(t));
  }

  lemma CountRead(layout: SectionTable, t: Datatype)
    ensures CountsOf(layout)[t] == Wrap(layout.Limit(t) - layout.Offset(t)) / Size(t)
  {
    hide Wrap;
  }

  /** Offsets to counts undoes counts to offsets exactly when every single section fits 32 bits. */
  lemma CountsRoundTrip(counts: Counts)
    ensures CountsOf(LayoutOf(counts)) == counts <==> forall t: Datatype :: counts[t] * Size(t) < WORD
  {
    var back := CountsOf(LayoutOf(counts));
    forall t: Datatype ensures back[t] == counts[t] <==> counts[t] * Size(t) < WORD {
      SectionRead(counts, t);
    }
    assert back == counts <==> forall t: Datatype :: back[t] == counts[t];
  }

  lemma WrapSpan(a: nat, b: nat)
    requires a < WORD && b < WORD
    ensures Wrap(a + Wrap(b - a)) == b
  {
  }

  lemma WholeFields(d: nat, z: nat)
    requires z in {1, 2, 4, 8}
    ensures d % z == 0 <==> d / z * z == d
  {
  }

  /** The stored section of `t` holds whole fields. */
  predicate WholeSection(layout: SectionTable, t: Datatype) {
    Wrap(layout.Limit(t) - layout.Offset(t)) % Size(t) == 0
  }

  /** Counts to offsets undoes offsets to counts exactly when every stored section holds whole fields. */
  lemma OffsetsRoundTrip(layout: SectionTable)
    requires layout.Fits32()
    ensures LayoutOf(CountsOf(layout)) == layout <==> forall t: Datatype :: WholeSection(layout, t)
  {
    var c := CountsOf(layout);
    if forall t: Datatype :: WholeSection(layout, t) {
      forall t: Datatype ensures LayoutOf(c).Offset(t) == layout.Offset(t) && LayoutOf(c).Limit(t) == layout.Limit(t) {
        OffsetsRestored(layout, t);
        LayoutSections(c, t);
      }
      SameTable(LayoutOf(c), layout);
    }
    if LayoutOf(c) == layout {
      forall t: Datatype ensures WholeSection(layout, t) { RestoredIsWhole(layout, t); }
    }
  }

  lemma RestoredIsWhole(layout: SectionTable, t: Datatype)
    requires layout.Fits32() && LayoutOf(CountsOf(layout)) == layout
    ensures WholeSection(layout, t)
  {
    hide Start, LayoutOf;
    var c := CountsOf(layout);
    LayoutSections(c, t);
    RestoredSpan(Start(c, t), c[t] * Size(t), layout.Offset(t), layout.Limit(t), Size(t));
  }

  lemma RestoredSpan(start: nat, bytes: nat, a: nat, b: nat, z: nat)
    requires z in {1, 2, 4, 8} && Wrap(start) == a && Wrap(start + bytes) == b
    requires bytes == Wrap(b - a) / z * z
    ensures Wrap(b - a) % z == 0
  {
    WrapAdd(start, bytes);
    FloorIsWhole(Wrap(b - a), z, bytes);
  }

  lemma FloorIsWhole(d: nat, z: nat, bytes: nat)
    requires z in {1, 2, 4, 8} && d < WORD && bytes == d / z * z && Wrap(bytes) == d
    ensures d % z == 0
  {
  }

  lemma SameTable(a: SectionTable, b: SectionTable)
    requires forall t: Datatype :: a.Offset(t) == b.Offset(t) && a.Limit(t) == b.Limit(t)
    ensures a == b
  {
    assert a.Limit(BYTE) == b.Limit(BYTE);
    assert a.Offset(BYTE) == b.Offset(BYTE) && a.Offset(SHORT) == b.Offset(SHORT) && a.Offset(INT) == b.Offset(INT);
    assert a.Offset(FLOAT) == b.Offset(FLOAT) && a.Offset(LONG) == b.Offset(LONG) &&
      a.Offset(DOUBLE) == b.Offset(DOUBLE);
  }

  lemma {:induction false} OffsetsRestored(layout: SectionTable, t: Datatype)
    requires layout.Fits32()
    requires forall u: Datatype :: WholeSection(layout, u)
    ensures Wrap(Start(CountsOf(layout), t)) == layout.Offset(t)
    ensures Wrap(End(CountsOf(layout), t)) == layout.Limit(t)
    decreases 6 - t
  {
    hide CountsOf, WholeSection;
    var c := CountsOf(layout);
    if t < OBJECT {
      OffsetsRestored(layout, t + 1);
      assert layout.Limit(t + 1) == layout.Offset(t);
    }
    SectionWhole(layout, t);
    SpanStep(Start(c, t), c[t] * Size(t), layout.Offset(t), layout.Limit(t));
  }

  lemma SectionWhole(layout: SectionTable, t: Datatype)
    requires WholeSection(layout, t)
    ensures CountsOf(layout)[t] * Size(t) == Wrap(layout.Limit(t) - layout.Offset(t))
  {
    WholeFields(Wrap(layout.Limit(t) - layout.Offset(t)), Size(t));
  }

  lemma SpanStep(start: nat, bytes: nat, a: nat, b: nat)
    requires Wrap(start) == a < WORD && b < WORD && bytes == Wrap(b - a)
    ensures Wrap(start + bytes) == b
  {
    WrapAdd(start, bytes);
    WrapSpan(a, b);
  }
}
