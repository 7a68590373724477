/** Values of the seven types as bytes, and what a field or an element of an array holds
    (classes/datatypes.h, classes/object.h, memory/byteblock.h). */
module Values {
  import opened Prelude
  import opened Layout
  import opened ClassHeaders

  // ---- Numbers as bytes -----------------------------------------------------------------------

  /** How many numbers n bytes hold. */
  function Capacity(n: nat): (c: nat)
    ensures c > 0
  {
    if n == 0 then 1 else 0x100 * Capacity(n - 1)
  }

  /** The low n bytes of a number, the lowest first. */
  function Unpack(x: nat, n: nat): (bytes: seq<Byte>)
    ensures |bytes| == n
  {
    if n == 0 then [] else [x % 0x100] + Unpack(x / 0x100, n - 1)
  }

  function Join(bytes: seq<Byte>): nat {
    if bytes == [] then 0 else bytes[0] + 0x100 * Join(bytes[1..])
  }

  lemma {:induction false} JoinUnpack(x: nat, n: nat)
    requires x < Capacity(n)
    ensures Join(Unpack(x, n)) == x
  {
    if n > 0 {
      JoinUnpack(x / 0x100, n - 1);
      assert Unpack(x, n)[1..] == Unpack(x / 0x100, n - 1);
    }
  }

  lemma {:induction false} UnpackJoin(bytes: seq<Byte>)
    ensures Join(bytes) < Capacity(|bytes|) && Unpack(Join(bytes), |bytes|) == bytes
  {
    if bytes != [] {
      UnpackJoin(bytes[1..]);
      assert bytes == [bytes[0]] + bytes[1..];
    }
  }

  // ---- Values ---------------------------------------------------------------------------------

  /** The range of each type: signed integers, the bits of floating-point numbers, and addresses. */
  predicate IsValue(t: Datatype, v: int) {
    if t == BYTE then -0x80 <= v < 0x80
    else if t == SHORT then -0x8000 <= v < 0x8000
    else if t == INT then -0x8000_0000 <= v < 0x8000_0000
    else if t == FLOAT then 0 <= v < 0x1_0000_0000
    else if t == LONG then -0x8000_0000_0000_0000 <= v < 0x8000_0000_0000_0000
    else 0 <= v < ADDRESS_LIMIT
  }

  predicate IsSigned(t: Datatype) { t in {BYTE, SHORT, INT, LONG} }

  /** A value as it lies in memory: two's complement, the lowest byte first. */
  function Encode(t: Datatype, v: int): (bytes: seq<Byte>)
    ensures |bytes| == Size(t)
  {
    Unpack(v % Capacity(Size(t)), Size(t))
  }

  function Decode(t: Datatype, bytes: seq<Byte>): int {
    var x := Join(bytes);
    if IsSigned(t) && 2 * x >= Capacity(|bytes|) then x - Capacity(|bytes|) else x
  }

  lemma Capacities()
    ensures Capacity(1) == 0x100 && Capacity(2) == 0x1_0000 && Capacity(4) == 0x1_0000_0000
    ensures Capacity(8) == ADDRESS_LIMIT
  {
    assert Capacity(3) == 0x100_0000 && Capacity(5) == 0x100_0000_0000;
    assert Capacity(6) == 0x1_0000_0000_0000 && Capacity(7) == 0x100_0000_0000_0000;
  }

  lemma WrapsNegative(v: int, c: int)
    requires 0 < c && -c <= v < c
    ensures v % c == if v < 0 then v + c else v
  {
  }

  /** Every value of a type is read back from the bytes that the type's size gives it ... */
  lemma DecodeEncode(t: Datatype, v: int)
    requires IsValue(t, v)
    ensures Decode(t, Encode(t, v)) == v
  {
    Capacities();
    WrapsNegative(v, Capacity(Size(t)));
    JoinUnpack(v % Capacity(Size(t)), Size(t));
    hide Capacity, Unpack, Join;
  }

  /** ... and none of them is to spare: whatever those bytes hold is a value of the type. */
  lemma EncodeDecode(t: Datatype, bytes: seq<Byte>)
    requires |bytes| == Size(t)
    ensures IsValue(t, Decode(t, bytes)) && Encode(t, Decode(t, bytes)) == bytes
  {
    Capacities();
    UnpackJoin(bytes);
    WrapsNegative(Decode(t, bytes), Capacity(Size(t)));
    hide Capacity, Unpack, Join;
  }

  // ---- Values in memory -----------------------------------------------------------------------

  /** Bytes written over those at i. */
  function Overwrite(data: seq<Byte>, i: nat, value: seq<Byte>): (r: seq<Byte>)
    requires i + |value| <= |data|
    ensures |r| == |data| && r[i..i + |value|] == value
    ensures forall k :: 0 <= k < |data| && !(i <= k < i + |value|) ==> r[k] == data[k]
  {
    data[..i] + value + data[i + |value|..]
  }

  /** What a write leaves of bytes that lie apart from it. */
  lemma ApartUnchanged(data: seq<Byte>, i: nat, value: seq<Byte>, j: nat, n: nat)
    requires i + |value| <= |data| && j + n <= |data| && Range(i, |value|).Apart(Range(j, n))
    ensures Overwrite(data, i, value)[j..j + n] == data[j..j + n]
  {
  }

  function ReadValue(payload: seq<Byte>, t: Datatype, offset: nat): int
    requires offset + Size(t) <= |payload|
  {
    Decode(t, payload[offset..offset + Size(t)])
  }

  function WriteValue(payload: seq<Byte>, t: Datatype, offset: nat, v: int): (after: seq<Byte>)
    requires offset + Size(t) <= |payload|
    ensures |after| == |payload|
  {
    Overwrite(payload, offset, Encode(t, v))
  }

  lemma ValueReadBack(payload: seq<Byte>, t: Datatype, i: nat, v: int, u: Datatype, j: nat)
    requires IsValue(t, v) && i + Size(t) <= |payload| && j + Size(u) <= |payload|
    ensures ReadValue(WriteValue(payload, t, i, v), t, i) == v
    ensures Range(i, Size(t)).Apart(Range(j, Size(u))) ==>
        ReadValue(WriteValue(payload, t, i, v), u, j) == ReadValue(payload, u, j)
  {
    DecodeEncode(t, v);
    if Range(i, Size(t)).Apart(Range(j, Size(u))) {
      ApartUnchanged(payload, i, Encode(t, v), j, Size(u));
    }
    hide Decode, Encode, Size;
  }

  /** A value written to a field of an object is read back from it, whatever is written to another field
      afterwards; and the field holds any value of its type. */
  lemma FieldsReadBack(lineage: seq<seq<Datatype>>, payload: seq<Byte>, k: nat, j: nat, v: int, k': nat, j': nat,
                       v': int)
    requires FitsIn32Bits(lineage) && |payload| == HeaderOf(lineage).totalSize
    requires k < |lineage| && j < |lineage[k]| && k' < |lineage| && j' < |lineage[k']| && (k, j) != (k', j')
    requires IsValue(lineage[k][j], v) && IsValue(lineage[k'][j'], v')
    ensures
      var t, i := lineage[k][j], RangeOf(lineage, k, j).from;
      var u, i' := lineage[k'][j'], RangeOf(lineage, k', j').from;
      && i + Size(t) <= |payload| && i' + Size(u) <= |payload|
      && ReadValue(WriteValue(WriteValue(payload, t, i, v), u, i', v'), t, i) == v
      && ReadValue(WriteValue(WriteValue(payload, t, i, v), u, i', v'), u, i') == v'
  {
    InheritedFieldsApart(lineage, k, j, k', j');
    InheritedFieldsApart(lineage, k', j', k, j);
    var t, i := lineage[k][j], RangeOf(lineage, k, j).from;
    var u, i' := lineage[k'][j'], RangeOf(lineage, k', j').from;
    var once := WriteValue(payload, t, i, v);
    assert Range(i, Size(t)) == RangeOf(lineage, k, j) && Range(i', Size(u)) == RangeOf(lineage, k', j');
    hide RangeOf, HeaderOf, FitsIn32Bits, WriteValue, ReadValue;
    ValueReadBack(payload, t, i, v, u, i');
    ValueReadBack(once, u, i', v', t, i);
  }

  /** The same for static fields in the static area of their class. */
  lemma StaticsReadBack(fields: seq<Datatype>, area: seq<Byte>, f: nat, v: int, g: nat, v': int)
    requires |area| == Total(Totals(fields)) && f < |fields| && g < |fields| && f != g
    requires IsValue(fields[f], v) && IsValue(fields[g], v')
    ensures
      var i, i' := Place(fields, f), Place(fields, g);
      && i + Size(fields[f]) <= |area| && i' + Size(fields[g]) <= |area|
      && ReadValue(WriteValue(WriteValue(area, fields[f], i, v), fields[g], i', v'), fields[f], i) == v
      && ReadValue(WriteValue(WriteValue(area, fields[f], i, v), fields[g], i', v'), fields[g], i') == v'
  {
    FieldInBounds(fields, f);
    FieldInBounds(fields, g);
    FieldsDisjoint(fields, f, g);
    var i, i' := Place(fields, f), Place(fields, g);
    var once := WriteValue(area, fields[f], i, v);
    hide Place, Total, Totals, WriteValue, ReadValue;
    ValueReadBack(area, fields[f], i, v, fields[g], i');
    ValueReadBack(once, fields[g], i', v', fields[f], i);
  }

  // ---- Elements of an array -------------------------------------------------------------------

  /** Element e of an array lies behind the ones before it. */
  function ElementOffset(t: Datatype, e: nat): nat { e * Size(t) }

  lemma ElementsApart(t: Datatype, length: nat, e: nat, e': nat)
    requires e < length && e' < length
    ensures ElementOffset(t, e) + Size(t) <= ElementOffset(t, length)
    ensures e != e' ==> Range(ElementOffset(t, e), Size(t)).Apart(Range(ElementOffset(t, e'), Size(t)))
  {
    MulMonotone(e + 1, length, Size(t));
    if e < e' { MulMonotone(e + 1, e', Size(t)); }
    if e' < e { MulMonotone(e' + 1, e, Size(t)); }
  }

  /** An array of a length has room for that many values of its type and no more, and each is read back
      whatever is written to another one afterwards. */
  lemma ElementsReadBack(t: Datatype, length: nat, payload: seq<Byte>, e: nat, v: int, e': nat, v': int)
    requires |payload| == ElementOffset(t, length) && e < length && e' < length && e != e'
    requires IsValue(t, v) && IsValue(t, v')
    ensures
      var i, i' := ElementOffset(t, e), ElementOffset(t, e');
      && i + Size(t) <= |payload| && i' + Size(t) <= |payload|
      && ReadValue(WriteValue(WriteValue(payload, t, i, v), t, i', v'), t, i) == v
      && ReadValue(WriteValue(WriteValue(payload, t, i, v), t, i', v'), t, i') == v'
  {
    ElementsApart(t, length, e, e');
    ElementsApart(t, length, e', e);
    var i, i' := ElementOffset(t, e), ElementOffset(t, e');
    var once := WriteValue(payload, t, i, v);
    hide WriteValue, ReadValue, ElementOffset;
    ValueReadBack(payload, t, i, v, t, i');
    ValueReadBack(once, t, i', v', t, i);
  }
}
