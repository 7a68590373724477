/** The call stack: a contiguous chain of typed frames with argument copying, walked as collection
    roots (memory/ostack.cpp, memory/ostack.h, methods/method.h, gc/stack_iterators.h). */
module CallStacks {
  import opened Prelude
  import Layout

  /** Stack memory is counted in words of four bytes, from the root of the stack. */
  const WORD_LIMIT := 0x1_0000_0000
  type Word = w: nat | w < WORD_LIMIT

  // ---- Methods --------------------------------------------------------------------------------

  /** Argument type codes, in the order of the sections of a frame. Codes from 5 up name no type. */
  type TypeCode = t: nat | t < 8
  const ARG_OBJECT: TypeCode := 0
  const ARG_DOUBLE: TypeCode := 1
  const ARG_LONG: TypeCode := 2
  const ARG_FLOAT: TypeCode := 3
  const ARG_INT: TypeCode := 4
  const TYPES := 5

  /** The words that n values of a type take. */
  function Span(t: TypeCode, n: nat): nat { if t <= ARG_LONG then 2 * n else n }

  /** The type a code names. */
  function TypeOf(code: TypeCode): Layout.Datatype
    requires code < TYPES
  {
    if code == ARG_OBJECT then Layout.OBJECT
    else if code == ARG_DOUBLE then Layout.DOUBLE
    else if code == ARG_LONG then Layout.LONG
    else if code == ARG_FLOAT then Layout.FLOAT
    else Layout.INT
  }

  /** An argument's words hold the values of its type. */
  lemma SpanIsSize(code: TypeCode, n: nat)
    requires code < TYPES
    ensures 4 * Span(code, n) == n * Layout.Size(TypeOf(code))
  {
  }

  function CountOfType(types: seq<TypeCode>, t: TypeCode): nat { multiset(types)[t] }

  /** Argument types are packed two to a byte, the first in the low half; three bits count. */
  function TypeAt(packed: seq<Byte>, i: nat): TypeCode
    requires i / 2 < |packed|
  {
    (if i % 2 == 1 then packed[i / 2] / 16 else packed[i / 2]) % 8
  }

  function Pack(types: seq<TypeCode>): (packed: seq<Byte>) {
    if types == [] then []
    else if |types| == 1 then [types[0] as Byte]
    else [(types[0] as int + 16 * types[1] as int) as Byte] + Pack(types[2..])
  }

  lemma {:induction false} PackRoundTrip(types: seq<TypeCode>, i: nat)
    requires i < |types|
    ensures |Pack(types)| == (|types| + 1) / 2 && TypeAt(Pack(types), i) == types[i]
    ensures types[i] == if i % 2 == 0 then Pack(types)[i / 2] % 16 else Pack(types)[i / 2] / 16
  {
    if |types| > 2 {
      PackRoundTrip(types[2..], if i < 2 then 0 else i - 2);
    }
  }

  /** What a method's header says of its frames: size and section starts in words, and arguments. */
  datatype Method = Method(frameSize: nat, doubleOffset: nat, longOffset: nat, floatOffset: nat, intOffset: nat,
                           argCount: nat, packedTypes: seq<Byte>)
  {
    function Bound(t: nat): nat {
      if t == ARG_OBJECT then 0
      else if t == ARG_DOUBLE then doubleOffset
      else if t == ARG_LONG then longOffset
      else if t == ARG_FLOAT then floatOffset
      else if t == ARG_INT then intOffset
      else frameSize
    }

    predicate Decodable() { argCount <= 2 * |packedTypes| }

    function Types(): seq<TypeCode>
      requires Decodable()
    {
      seq(argCount, i requires 0 <= i < argCount => TypeAt(packedTypes, i))
    }

    /** Sections come in order, hold whole pointers, and have room for the arguments. */
    predicate WellLaid() {
      && Decodable() && doubleOffset % 2 == 0 && frameSize < 0x1_0000
      && forall t: TypeCode :: t < TYPES ==> Bound(t) + Span(t, CountOfType(Types(), t)) <= Bound(t + 1)
    }
  }

  /** Where argument i goes: after the earlier arguments of its type in that type's section. */
  function ArgumentSlot(m: Method, i: nat): nat
    requires m.Decodable() && i < m.argCount
  {
    var t := m.Types()[i];
    m.Bound(t) + Span(t, CountOfType(m.Types()[..i], t))
  }

  lemma {:induction false} BoundsOrdered(m: Method, t: nat, u: nat)
    requires m.WellLaid() && t <= u <= TYPES
    ensures m.Bound(t) <= m.Bound(u)
    decreases u
  {
    if t < u { BoundsOrdered(m, t, u - 1); }
  }

  lemma EarlierCount(types: seq<TypeCode>, i: nat, j: nat)
    requires i < j <= |types|
    ensures CountOfType(types[..i], types[i]) + 1 <= CountOfType(types[..j], types[i])
  {
    assert types[..j] == types[..i] + [types[i]] + types[i + 1..j];
  }

  /** An argument lies inside the section of its type. */
  lemma SlotInSection(m: Method, i: nat)
    requires m.WellLaid() && i < m.argCount && m.Types()[i] < TYPES
    ensures m.Bound(m.Types()[i]) <= ArgumentSlot(m, i) &&
        ArgumentSlot(m, i) + Span(m.Types()[i], 1) <= m.Bound(m.Types()[i] + 1) <= m.frameSize
  {
    var types := m.Types();
    BoundsOrdered(m, types[i] + 1, TYPES);
    EarlierCount(types, i, |types|);
    hide CountOfType;
    assert types[..|types|] == types;
  }

  lemma NextCount(types: seq<TypeCode>, n: nat, t: TypeCode)
    requires n < |types|
    ensures CountOfType(types[..n + 1], t) == CountOfType(types[..n], t) + if types[n] == t then 1 else 0
  {
    assert types[..n + 1] == types[..n] + [types[n]];
  }

  /** No two arguments share a word. */
  lemma SlotsApart(m: Method, i: nat, j: nat)
    requires m.WellLaid() && i < j < m.argCount && m.Types()[i] < TYPES && m.Types()[j] < TYPES
    ensures ArgumentSlot(m, i) + Span(m.Types()[i], 1) <= ArgumentSlot(m, j) ||
        ArgumentSlot(m, j) + Span(m.Types()[j], 1) <= ArgumentSlot(m, i)
  {
    hide CountOfType;
    var types := m.Types();
    SlotInSection(m, i);
    SlotInSection(m, j);
    if types[i] < types[j] {
      BoundsOrdered(m, types[i] + 1, types[j]);
    } else if types[j] < types[i] {
      BoundsOrdered(m, types[j] + 1, types[i]);
    } else {
      EarlierCount(types, i, j);
    }
  }

  /** In a section, the first argument of the type comes first and each of the others right behind the one
      before it. */
  lemma SlotsConsecutive(m: Method, i: nat, j: nat)
    requires m.Decodable() && i < j < m.argCount && m.Types()[i] == m.Types()[j]
    requires forall k :: i < k < j ==> m.Types()[k] != m.Types()[i]
    ensures ArgumentSlot(m, j) == ArgumentSlot(m, i) + Span(m.Types()[i], 1)
  {
    var types := m.Types();
    NextCount(types, i, types[i]);
    NoneBetween(types, i + 1, j, types[i]);
    hide CountOfType;
  }

  lemma {:induction false} NoneBetween(types: seq<TypeCode>, i: nat, j: nat, t: TypeCode)
    requires i <= j <= |types| && forall k :: i <= k < j ==> types[k] != t
    ensures CountOfType(types[..j], t) == CountOfType(types[..i], t)
    decreases j
  {
    hide CountOfType;
    if i < j {
      NoneBetween(types, i, j - 1, t);
      NextCount(types, j - 1, t);
    }
  }

  lemma FirstSlot(m: Method, i: nat)
    requires m.Decodable() && i < m.argCount && forall k :: 0 <= k < i ==> m.Types()[k] != m.Types()[i]
    ensures ArgumentSlot(m, i) == m.Bound(m.Types()[i])
  {
    var types := m.Types();
    NoneBetween(types, 0, i, types[i]);
    assert types[..0] == [];
  }

  // ---- Frames in memory -----------------------------------------------------------------------

  /** Words of a frame header: the previous frame, the context class and the executing method take
      two each, the return address and offset share one, the total size in bytes is the last. */
  const HEADER := 8

  type Half = h: nat | h < 0x1_0000

  function Low(p: nat): Word { p % WORD_LIMIT }
  function High(p: nat): Word { p / WORD_LIMIT % WORD_LIMIT }

  type DoubleWord = p: nat | p < ADDRESS_LIMIT

  lemma PairRoundTrip(p: DoubleWord)
    ensures Low(p) + WORD_LIMIT * High(p) == p
  {
  }

  type Memory = seq<Word>

  function Pointer(mem: Memory, at: nat): DoubleWord
    requires at + 2 <= |mem|
  {
    mem[at] + WORD_LIMIT * mem[at + 1]
  }

  predicate HasHeader(mem: Memory, f: nat) { f + HEADER <= |mem| }

  function Previous(mem: Memory, f: nat): DoubleWord requires HasHeader(mem, f) { Pointer(mem, f) }
  function Context(mem: Memory, f: nat): DoubleWord requires HasHeader(mem, f) { Pointer(mem, f + 2) }
  function Executing(mem: Memory, f: nat): DoubleWord requires HasHeader(mem, f) { Pointer(mem, f + 4) }
  function ReturnAddress(mem: Memory, f: nat): Half requires HasHeader(mem, f) { mem[f + 6] % 0x1_0000 }
  function ReturnOffset(mem: Memory, f: nat): Half requires HasHeader(mem, f) { mem[f + 6] / 0x1_0000 }
  function TotalSize(mem: Memory, f: nat): nat requires HasHeader(mem, f) { mem[f + 7] }
  function FrameEnd(mem: Memory, f: nat): nat requires HasHeader(mem, f) { f + TotalSize(mem, f) / 4 }

  /** The words of a header are its six fields in this order, without a gap. */
  lemma HeaderWords(mem: Memory, f: nat)
    requires HasHeader(mem, f)
    ensures mem[f..f + HEADER] == [
      Low(Previous(mem, f)), High(Previous(mem, f)), Low(Context(mem, f)), High(Context(mem, f)),
      Low(Executing(mem, f)), High(Executing(mem, f)),
      ReturnAddress(mem, f) + 0x1_0000 * ReturnOffset(mem, f), TotalSize(mem, f)]
  {
    HalvesOf(mem, f);
    HalvesOf(mem, f + 2);
    HalvesOf(mem, f + 4);
  }

  lemma HalvesOf(mem: Memory, at: nat)
    requires at + 2 <= |mem|
    ensures mem[at] == Low(Pointer(mem, at)) && mem[at + 1] == High(Pointer(mem, at))
  {
  }

  /** The frames of a stack, root first: the root is a bare header, every other frame begins where
      the one before ends, points back to it, and has the size its method asks for. */
  ghost predicate FrameHolds(methods: map<DoubleWord, Method>, mem: Memory, frames: seq<nat>, i: nat)
    requires i < |frames|
  {
    var f := frames[i];
    && HasHeader(mem, f) && FrameEnd(mem, f) <= |mem|
    && (i == 0 ==> f == 0 && TotalSize(mem, f) == 4 * HEADER)
    && (i > 0 ==>
          && HasHeader(mem, frames[i - 1]) && f == FrameEnd(mem, frames[i - 1]) && Previous(mem, f) == frames[i - 1]
          && Executing(mem, f) in methods && methods[Executing(mem, f)].WellLaid()
          && TotalSize(mem, f) == 4 * (HEADER + methods[Executing(mem, f)].frameSize))
  }

  ghost predicate Chain(methods: map<DoubleWord, Method>, mem: Memory, frames: seq<nat>) {
    frames != [] && forall i :: 0 <= i < |frames| ==> FrameHolds(methods, mem, frames, i)
  }

  /** Frames lie one behind the other, so none is met twice. */
  lemma {:induction false} FramesAscend(methods: map<DoubleWord, Method>, mem: Memory, frames: seq<nat>, i: nat, j: nat)
    requires Chain(methods, mem, frames) && i < j < |frames|
    ensures HasHeader(mem, frames[i]) && frames[i] + HEADER <= FrameEnd(mem, frames[i]) <= frames[j]
    decreases j
  {
    assert FrameHolds(methods, mem, frames, i) && FrameHolds(methods, mem, frames, j);
    if i < j - 1 { FramesAscend(methods, mem, frames, i, j - 1); assert FrameHolds(methods, mem, frames, j - 1); }
  }

  lemma OnlyRootAtZero(methods: map<DoubleWord, Method>, mem: Memory, frames: seq<nat>, i: nat)
    requires Chain(methods, mem, frames) && i < |frames|
    ensures frames[i] == 0 <==> i == 0
  {
    assert FrameHolds(methods, mem, frames, 0);
    if i > 0 { FramesAscend(methods, mem, frames, 0, i); }
  }

  /** Memory and the current frame determine the chain. */
  lemma {:induction false} ChainDetermined(methods: map<DoubleWord, Method>, mem: Memory, a: seq<nat>, b: seq<nat>)
    requires Chain(methods, mem, a) && Chain(methods, mem, b) && a[|a| - 1] == b[|b| - 1]
    ensures a == b
    decreases |a|
  {
    var m, n := |a| - 1, |b| - 1;
    assert FrameHolds(methods, mem, a, m) && FrameHolds(methods, mem, b, n);
    if m > 0 && n > 0 {
      ChainShortens(methods, mem, a);
      ChainShortens(methods, mem, b);
      ChainDetermined(methods, mem, a[..m], b[..n]);
      assert a == a[..m] + [a[m]] && b == b[..n] + [b[n]];
    } else if m > 0 {
      FramesAscend(methods, mem, a, 0, m);
    } else if n > 0 {
      FramesAscend(methods, mem, b, 0, n);
    }
  }

  lemma ChainShortens(methods: map<DoubleWord, Method>, mem: Memory, frames: seq<nat>)
    requires Chain(methods, mem, frames) && |frames| > 1
    ensures Chain(methods, mem, frames[..|frames| - 1])
  {
    var shorter := frames[..|frames| - 1];
    forall i | 0 <= i < |shorter|
      ensures FrameHolds(methods, mem, shorter, i)
    {
      assert FrameHolds(methods, mem, frames, i);
    }
  }

  /** Only header words matter to the chain. */
  ghost predicate SameHeaders(mem: Memory, mem': Memory, frames: seq<nat>) {
    && |mem| == |mem'|
    && forall i, k :: 0 <= i < |frames| && frames[i] <= k < frames[i] + HEADER && k < |mem| ==> mem'[k] == mem[k]
  }

  lemma ChainKept(methods: map<DoubleWord, Method>, mem: Memory, mem': Memory, frames: seq<nat>)
    requires Chain(methods, mem, frames) && SameHeaders(mem, mem', frames)
    ensures Chain(methods, mem', frames)
  {
    forall i | 0 <= i < |frames| ensures FrameHolds(methods, mem', frames, i) {
      HeaderKept(methods, mem, mem', frames, i);
      assert FrameHolds(methods, mem, frames, i);
      if i > 0 { HeaderKept(methods, mem, mem', frames, i - 1); }
    }
  }

  lemma HeaderKept(methods: map<DoubleWord, Method>, mem: Memory, mem': Memory, frames: seq<nat>, i: nat)
    requires Chain(methods, mem, frames) && SameHeaders(mem, mem', frames) && i < |frames|
    ensures HasHeader(mem, frames[i]) && HasHeader(mem', frames[i])
    ensures forall k :: frames[i] <= k < frames[i] + HEADER ==> mem'[k] == mem[k]
  {
    assert FrameHolds(methods, mem, frames, i);
  }

  /** Memory outside [from, to) is the same. */
  ghost predicate SameOutside(mem: Memory, mem': Memory, from: nat, to: nat) {
    |mem'| == |mem| && forall k :: 0 <= k < |mem| && !(from <= k < to) ==> mem'[k] == mem[k]
  }

  /** Writing behind the last frame's header, as slot writes and pushes do, keeps the chain. */
  lemma WritesKeepChain(methods: map<DoubleWord, Method>, mem: Memory, mem': Memory, frames: seq<nat>, from: nat,
                        to: nat)
    requires Chain(methods, mem, frames) && SameOutside(mem, mem', from, to)
    requires frames[|frames| - 1] + HEADER <= from
    ensures Chain(methods, mem', frames)
  {
    forall i, k | 0 <= i < |frames| && frames[i] <= k < frames[i] + HEADER && k < |mem| ensures mem'[k] == mem[k] {
      if i < |frames| - 1 { FramesAscend(methods, mem, frames, i, |frames| - 1); }
    }
    ChainKept(methods, mem, mem', frames);
  }

  /** The new frame's header, written last. */
  ghost predicate HeaderWritten(mem: Memory, f: nat, previous: nat, context: nat, method_: DoubleWord,
                                returnOffset: nat, returnAddress: nat, size: nat) {
    && HasHeader(mem, f) && Previous(mem, f) == previous && Context(mem, f) == context && Executing(mem, f) == method_
    && ReturnOffset(mem, f) == returnOffset && ReturnAddress(mem, f) == returnAddress && TotalSize(mem, f) == size
  }

  lemma ChainExtends(methods: map<DoubleWord, Method>, mem: Memory, frames: seq<nat>, f: nat, method_: DoubleWord)
    requires Chain(methods, mem, frames) && HasHeader(mem, f) && method_ in methods && methods[method_].WellLaid()
    requires HasHeader(mem, frames[|frames| - 1]) && f == FrameEnd(mem, frames[|frames| - 1]) &&
        Previous(mem, f) == frames[|frames| - 1]
    requires Executing(mem, f) == method_ && TotalSize(mem, f) == 4 * (HEADER + methods[method_].frameSize)
    requires FrameEnd(mem, f) <= |mem|
    ensures Chain(methods, mem, frames + [f])
  {
    var longer := frames + [f];
    forall i | 0 <= i < |longer| ensures FrameHolds(methods, mem, longer, i) {
      if i < |frames| { assert FrameHolds(methods, mem, frames, i); }
    }
  }

  // ---- Arguments ------------------------------------------------------------------------------

  /** The words at a slot are those given. */
  ghost predicate WordsAt(mem: Memory, at: nat,
                          value: seq<Word>) { at + |value| <= |mem| && mem[at..at + |value|] == value }

  /** The first n arguments sit at their slots. */
  ghost predicate ArgumentsAt(mem: Memory, body: nat, m: Method, values: seq<seq<Word>>, n: nat)
    requires m.Decodable() && n <= m.argCount && n <= |values|
  {
    forall i :: 0 <= i < n && m.Types()[i] < TYPES ==> WordsAt(mem, body + ArgumentSlot(m, i), values[i])
  }

  /** Pointer slots past those of the first n arguments are null. */
  ghost predicate OtherPointersNull(mem: Memory, body: nat, m: Method, n: nat)
    requires m.Decodable() && n <= m.argCount
  {
    body + m.doubleOffset <= |mem| &&
      forall k :: body + Span(ARG_OBJECT, CountOfType(m.Types()[..n], ARG_OBJECT)) <= k < body + m.doubleOffset ==>
        mem[k] == 0
  }

  /** What a copied argument looks like. */
  ghost predicate ValuesFit(m: Method, values: seq<seq<Word>>, n: nat)
    requires m.Decodable() && n <= m.argCount
  {
    n <= |values| && forall i :: 0 <= i < n && m.Types()[i] < TYPES ==> |values[i]| == Span(m.Types()[i], 1)
  }

  /** Copying argument n disturbs none of the earlier ones. */
  lemma ArgumentCopied(mem: Memory, mem': Memory, body: nat, m: Method, values: seq<seq<Word>>, n: nat)
    requires m.WellLaid() && n < m.argCount && ValuesFit(m, values, n + 1) && m.Types()[n] < TYPES
    requires ArgumentsAt(mem, body, m, values, n)
    requires SameOutside(mem, mem', body + ArgumentSlot(m, n), body + ArgumentSlot(m, n) + Span(m.Types()[n], 1))
    requires WordsAt(mem', body + ArgumentSlot(m, n), values[n])
    ensures ArgumentsAt(mem', body, m, values, n + 1)
  {
    hide WordsAt, SameOutside, ArgumentSlot, CountOfType, Span;
    forall i | 0 <= i < n && m.Types()[i] < TYPES ensures WordsAt(mem', body + ArgumentSlot(m, i), values[i]) {
      SlotsApart(m, i, n);
      assert |values[i]| == Span(m.Types()[i], 1);
      WordsStay(mem, mem', body + ArgumentSlot(m, i), values[i], body + ArgumentSlot(m, n),
                body + ArgumentSlot(m, n) + Span(m.Types()[n], 1));
    }
  }

  lemma WordsStay(mem: Memory, mem': Memory, at: nat, value: seq<Word>, from: nat, to: nat)
    requires WordsAt(mem, at, value) && SameOutside(mem, mem', from, to) && (at + |value| <= from || to <= at)
    ensures WordsAt(mem', at, value)
  {
    assert mem'[at..at + |value|] == mem[at..at + |value|];
  }

  lemma NullsKept(mem: Memory, mem': Memory, body: nat, m: Method, n: nat)
    requires m.WellLaid() && n < m.argCount && m.Types()[n] < TYPES
    requires OtherPointersNull(mem, body, m, n)
    requires SameOutside(mem, mem', body + ArgumentSlot(m, n), body + ArgumentSlot(m, n) + Span(m.Types()[n], 1))
    ensures OtherPointersNull(mem', body, m, n + 1)
  {
    hide CountOfType;
    NextCount(m.Types(), n, ARG_OBJECT);
    SlotInSection(m, n);
    if m.Types()[n] != ARG_OBJECT { BoundsOrdered(m, ARG_DOUBLE, m.Types()[n]); }
  }

  lemma TypelessSkipped(mem: Memory, body: nat, m: Method, values: seq<seq<Word>>, n: nat)
    requires m.Decodable() && n < m.argCount && n < |values| && m.Types()[n] >= TYPES
    ensures ArgumentsAt(mem, body, m, values, n) ==> ArgumentsAt(mem, body, m, values, n + 1)
    ensures OtherPointersNull(mem, body, m, n) ==> OtherPointersNull(mem, body, m, n + 1)
  {
    hide CountOfType, ArgumentSlot;
    NextCount(m.Types(), n, ARG_OBJECT);
  }

  /** A frame under construction at f: nothing outside it has changed, n arguments are in place and
      the other pointer slots are null. */
  ghost predicate Filling(before: Memory, mem: Memory, f: nat, m: Method, values: seq<seq<Word>>, n: nat)
    requires m.Decodable()
  {
    && n <= m.argCount && ValuesFit(m, values, n)
    && HasHeader(mem, f) && f + HEADER + m.frameSize <= |mem| && TotalSize(mem, f) == 4 * (HEADER + m.frameSize)
    && SameOutside(before, mem, f, f + HEADER + m.frameSize)
    && ArgumentsAt(mem, f + HEADER, m, values, n) && OtherPointersNull(mem, f + HEADER, m, n)
  }

  lemma FillingStep(before: Memory, mem: Memory, mem': Memory, f: nat, m: Method, values: seq<seq<Word>>, n: nat)
    requires m.WellLaid() && n < m.argCount && Filling(before, mem, f, m, values, n) && ValuesFit(m, values, n + 1)
    requires m.Types()[n] < TYPES
    requires SameOutside(mem, mem', f + HEADER + ArgumentSlot(m, n), f + HEADER + ArgumentSlot(m, n) +
        Span(m.Types()[n], 1))
    requires WordsAt(mem', f + HEADER + ArgumentSlot(m, n), values[n])
    ensures Filling(before, mem', f, m, values, n + 1)
  {
    hide ArgumentsAt, OtherPointersNull, ValuesFit, WordsAt;
    SlotInSection(m, n);
    ArgumentCopied(mem, mem', f + HEADER, m, values, n);
    NullsKept(mem, mem', f + HEADER, m, n);
    hide ArgumentSlot, Span, m.WellLaid;
  }

  lemma FillingSkips(before: Memory, mem: Memory, f: nat, m: Method, values: seq<seq<Word>>, n: nat)
    requires m.WellLaid() && n < m.argCount && Filling(before, mem, f, m, values, n) && n < |values|
    requires m.Types()[n] >= TYPES
    ensures Filling(before, mem, f, m, values, n + 1)
  {
    hide ArgumentsAt, OtherPointersNull, WordsAt;
    TypelessSkipped(mem, f + HEADER, m, values, n);
  }

  /** Writing the rest of the header disturbs no slot. */
  lemma FillingHeader(before: Memory, mem: Memory, mem': Memory, f: nat, m: Method, values: seq<seq<Word>>, n: nat)
    requires m.WellLaid() && Filling(before, mem, f, m, values, n) && SameOutside(mem, mem', f, f + HEADER - 1)
    ensures Filling(before, mem', f, m, values, n)
  {
    hide ArgumentSlot, CountOfType;
    forall i | 0 <= i < n && m.Types()[i] < TYPES ensures WordsAt(mem', f + HEADER + ArgumentSlot(m, i), values[i]) {
      var at := f + HEADER + ArgumentSlot(m, i);
      assert WordsAt(mem, at, values[i]);
      assert mem'[at..at + |values[i]|] == mem[at..at + |values[i]|];
    }
  }

  /** The next free word of each section. */
  ghost predicate CountsAt(counts: seq<nat>, m: Method, n: nat)
    requires m.Decodable() && n <= m.argCount
  {
    |counts| == TYPES && forall t: TypeCode :: t < TYPES ==>
      counts[t] == m.Bound(t) + Span(t, CountOfType(m.Types()[..n], t))
  }

  lemma CountsStep(counts: seq<nat>, m: Method, n: nat)
    requires m.Decodable() && n < m.argCount && CountsAt(counts, m, n)
    ensures m.Types()[n] < TYPES ==>
              && counts[m.Types()[n]] == ArgumentSlot(m, n)
              && CountsAt(counts[m.Types()[n] := counts[m.Types()[n]] + Span(m.Types()[n], 1)], m, n + 1)
    ensures m.Types()[n] >= TYPES ==> CountsAt(counts, m, n + 1)
  {
    hide CountOfType;
    forall t: TypeCode
      ensures CountOfType(m.Types()[..n + 1], t) == CountOfType(m.Types()[..n], t) + if m.Types()[n] == t then 1 else 0
    {
      NextCount(m.Types(), n, t);
    }
  }

  lemma NoCounts(m: Method)
    requires m.Decodable()
    ensures CountsAt([m.Bound(ARG_OBJECT), m.Bound(ARG_DOUBLE), m.Bound(ARG_LONG), m.Bound(ARG_FLOAT),
        m.Bound(ARG_INT)], m, 0)
  {
  }

  // ---- The stack ------------------------------------------------------------------------------

  /** The words of the caller's frame that the arguments name. */
  ghost function CallerValues(mem: Memory, body: nat, m: Method, args: seq<Byte>): seq<seq<Word>>
    requires m.Decodable() && |args| <= m.argCount && ArgumentsInFrame(body, |mem|, m, args)
  {
    seq(|args|, i requires 0 <= i < |args| =>
      if m.Types()[i] < TYPES then mem[body + args[i]..body + args[i] + Span(m.Types()[i], 1)] else [])
  }

  /** Every argument of a known type names words that lie in the caller's frame. */
  ghost predicate ArgumentsInFrame(body: nat, end: nat, m: Method, args: seq<Byte>)
    requires m.Decodable() && |args| <= m.argCount
  {
    forall i :: 0 <= i < |args| && m.Types()[i] < TYPES ==> body + args[i] + Span(m.Types()[i], 1) <= end
  }

  class Stack {
    const memory: array<Word>
    const methods: map<DoubleWord, Method>
    var current: nat
    ghost var frames: seq<nat>

    ghost predicate Valid()
      reads this, memory
    {
      && Chain(methods, memory[..], frames) && current == frames[|frames| - 1]
      && memory.Length < ADDRESS_LIMIT
    }

    constructor (words: nat, methods: map<DoubleWord, Method>)
      requires HEADER <= words < ADDRESS_LIMIT
      ensures Valid() && frames == [0] && fresh(memory) && memory.Length == words && this.methods == methods
    {
      memory := new Word[words](_ => 0);
      this.methods := methods;
      current := 0;
      frames := [0];
      new;
      memory[7] := 4 * HEADER;
      assert FrameHolds(this.methods, memory[..], frames, 0);
    }

    method WritePointerAt(at: nat, p: DoubleWord)
      requires at + 2 <= memory.Length
      modifies memory
      ensures SameOutside(old(memory[..]), memory[..], at, at + 2) && Pointer(memory[..], at) == p
    {
      memory[at], memory[at + 1] := Low(p), High(p);
      PairRoundTrip(p);
    }

    method CheckedWrite(at: nat, value: seq<Word>)
      requires 1 <= |value| <= 2 && at + |value| <= memory.Length
      modifies memory
      ensures SameOutside(old(memory[..]), memory[..], at, at + |value|) && WordsAt(memory[..], at, value)
    {
      memory[at] := value[0];
      if |value| == 2 {
        memory[at + 1] := value[1];
      }
    }

    /** Claims `size` bytes behind the current frame, if the stack has room for them. */
    method AdvanceFrame(size: Word) returns (ok: bool)
      requires HasHeader(memory[..], current) && size % 4 == 0 && size >= 4 * HEADER
      modifies this`current, memory
      ensures ok <==> old(FrameEnd(memory[..], current)) + size / 4 <= memory.Length
      ensures !ok ==> current == old(current) && memory[..] == old(memory[..])
      ensures ok ==> current == old(FrameEnd(memory[..], current)) && HasHeader(memory[..], current)
      ensures ok ==>
          && TotalSize(memory[..], current) == size
          && SameOutside(old(memory[..]), memory[..], current, current + size / 4)
    {
      var end := 4 * current + memory[current + 7] / 4 * 4;
      if end + size <= 4 * memory.Length {
        current := end / 4;
        memory[current + 7] := size;
        return true;
      }
      return false;
    }

    /** Nulls the pointer slots, before any argument is copied. */
    method NullPointers(m: Method)
      requires m.WellLaid() && current + HEADER + m.frameSize <= memory.Length
      modifies memory
      ensures SameOutside(old(memory[..]), memory[..], current + HEADER, current + HEADER + m.doubleOffset)
      ensures forall k :: current + HEADER <= k < current + HEADER + m.doubleOffset && k < memory.Length ==>
          memory[k] == 0
    {
      BoundsOrdered(m, ARG_DOUBLE, TYPES);
      var i := 0;
      while i < m.doubleOffset
        invariant i % 2 == 0 && i <= m.doubleOffset
        invariant SameOutside(old(memory[..]), memory[..], current + HEADER, current + HEADER + i)
        invariant forall k :: current + HEADER <= k < current + HEADER + i ==> memory[k] == 0
      {
        memory[current + HEADER + i], memory[current + HEADER + i + 1] := 0, 0;
        i := i + 2;
      }
    }

    method WriteHeader(previous: DoubleWord, context: DoubleWord, executing: DoubleWord, returnOffset: Half,
                       returnAddress: Half)
      requires HasHeader(memory[..], current)
      modifies memory
      ensures SameOutside(old(memory[..]), memory[..], current, current + HEADER - 1)
      ensures Previous(memory[..], current) == previous && Context(memory[..], current) == context
      ensures Executing(memory[..], current) == executing
      ensures ReturnOffset(memory[..], current) == returnOffset && ReturnAddress(memory[..], current) == returnAddress
    {
      memory[current + 6] := returnAddress as int + 0x1_0000 * (returnOffset as int);
      assert memory[current + 6] % 0x1_0000 == returnAddress && memory[current + 6] / 0x1_0000 == returnOffset;
      WritePointerAt(current, previous);
      WritePointerAt(current + 2, context);
      WritePointerAt(current + 4, executing);
    }
  
    /** One round of the argument loop: copies a value of a known type to its section's next free
        words, and passes over any other. */
    method CopyArgument(ghost before: Memory, m: Method, counts: seq<nat>, ghost values: seq<seq<Word>>, n: nat,
                        value: seq<Word>)
      returns (next: seq<nat>)
      requires m.WellLaid() && n < m.argCount && Filling(before, memory[..], current, m, values, n)
      requires ValuesFit(m, values, n + 1) && CountsAt(counts, m, n)
      requires m.Types()[n] < TYPES ==> value == values[n]
      modifies memory
      ensures Filling(before, memory[..], current, m, values, n + 1) && CountsAt(next, m, n + 1)
    {
      hide Filling, WordsAt, ArgumentsAt, OtherPointersNull, CountOfType, ArgumentSlot;
      next := counts;
      var t := m.Types()[n];
      ghost var mem := memory[..];
      CountsStep(counts, m, n);
      if t < TYPES {
        assert |value| == Span(t, 1);
        FillingBounds(before, mem, current, m, values, n);
        CheckedWrite(current + HEADER + counts[t], value);
        next := counts[t := counts[t] + Span(t, 1)];
        FillingStep(before, mem, memory[..], current, m, values, n);
      } else {
        FillingSkips(before, mem, current, m, values, n);
      }
    }

    /** Claims the frame and nulls its pointers. */
    method StartFrame(m: Method, ghost values: seq<seq<Word>>) returns (ok: bool)
      requires HasHeader(memory[..], current) && m.WellLaid()
      modifies this`current, memory
      ensures ok <==> old(FrameEnd(memory[..], current)) + HEADER + m.frameSize <= memory.Length
      ensures !ok ==> current == old(current) && memory[..] == old(memory[..])
      ensures ok ==>
          && current == old(FrameEnd(memory[..], current))
          && Filling(old(memory[..]), memory[..], current, m, values, 0)
    {
      hide Filling, CountOfType, m.WellLaid;
      FrameSizeFits(m);
      ok := AdvanceFrame(4 * (HEADER + m.frameSize));
      if ok {
        ghost var claimed := memory[..];
        NullPointers(m);
        FillingStarts(old(memory[..]), claimed, memory[..], current, m, values);
      }
    }

    /** Pushes a frame for a call from the current frame: arguments are named by their slots there. */
    method TryPushFrame(context: DoubleWord, executing: DoubleWord, args: seq<Byte>, returnOffset: Half,
                        returnAddress: Half) returns (ok: bool)
      requires Valid() && executing in methods && methods[executing].WellLaid()
      requires |args| <= methods[executing].argCount
      requires ArgumentsInFrame(current + HEADER, TopOf(memory[..], current), methods[executing], args)
      modifies this, memory
      ensures Valid()
      ensures ok <==> old(TopOf(memory[..], current)) + HEADER + methods[executing].frameSize <= memory.Length
      ensures !ok ==> current == old(current) && frames == old(frames) && memory[..] == old(memory[..])
      ensures ok ==> frames == old(frames) + [current]
      ensures ok ==> Pushed(old(memory[..]), memory[..], old(current), current, context, executing, methods[executing],
                            CallerValues(old(memory[..]), old(current) + HEADER, methods[executing],
                              args), |args|, returnOffset, returnAddress)
      ensures ok ==> Arrived(old(memory[..]), memory[..], old(current) + HEADER, current, methods[executing], args)
    {
      hide Filling, CountOfType, Chain, CallerValues, ArgumentsInFrame, HeaderWritten, Arrived, ArgumentsAt;
      var m := methods[executing];
      var previous := current;
      ghost var before := memory[..];
      LastFrame(methods, before, frames);
      ArgumentsBelow(previous + HEADER, TopOf(before, previous), |before|, m, args);
      ghost var values := CallerValues(before, previous + HEADER, m, args);
      ok := StartFrame(m, values);
      if !ok {
        return;
      }
      NoCounts(m);
      var counts := [m.Bound(ARG_OBJECT), m.Bound(ARG_DOUBLE), m.Bound(ARG_LONG), m.Bound(ARG_FLOAT), m.Bound(ARG_INT)];
      for i := 0 to |args|
        invariant Filling(before, memory[..], current, m, values, i) && CountsAt(counts, m, i)
        invariant current == TopOf(before, previous) && frames == old(frames)
      {
        var value: seq<Word> := [];
        var t := m.Types()[i];
        if t < TYPES {
          FillingLocal(before, memory[..], current, m, values, i);
          ArgumentRead(before, memory[..], previous, current, m, args, i);
          var from := previous + HEADER + args[i];
          value := memory[from..from + Span(t, 1)];
        }
        CallerValuesFit(before, previous + HEADER, m, args, i + 1);
        counts := CopyArgument(before, m, counts, values, i, value);
      }
      FinishFrame(before, m, values, |args|, previous, context, executing, returnOffset, returnAddress);
      PushedChain(methods, before, memory[..], frames, current, context, executing, values, |args|, returnOffset,
                  returnAddress);
      PushedArguments(before, memory[..], previous, current, context, executing, m, values, |args|, returnOffset,
                      returnAddress);
      CallerArrived(before, memory[..], previous + HEADER, current, m, args);
      frames := frames + [current];
    }

    /** Pushes a frame for a call from native code: values come in eight-byte cells, and an object
        cell points to a handle that holds the object. */
    method TryPushNativeFrame(context: DoubleWord, executing: DoubleWord, args: seq<DoubleWord>,
                              handles: map<DoubleWord, DoubleWord>) returns (ok: bool)
      requires Valid() && executing in methods && methods[executing].WellLaid()
      requires |args| <= methods[executing].argCount && HandlesKnown(methods[executing], args, handles)
      modifies this, memory
      ensures Valid()
      ensures ok <==> old(TopOf(memory[..], current)) + HEADER + methods[executing].frameSize <= memory.Length
      ensures !ok ==> current == old(current) && frames == old(frames) && memory[..] == old(memory[..])
      ensures ok ==> frames == old(frames) + [current]
      ensures ok ==> Pushed(old(memory[..]), memory[..], old(current), current, context, executing, methods[executing],
                            NativeValues(methods[executing], args, handles), |args|, 0, 0)
      ensures ok ==> NativeArrived(memory[..], current, methods[executing], args, handles)
    {
      hide Filling, CountOfType, Chain, NativeValues, HandlesKnown, HeaderWritten, NativeArrived, ArgumentsAt;
      var m := methods[executing];
      var previous := current;
      ghost var before := memory[..];
      LastFrame(methods, before, frames);
      ghost var values := NativeValues(m, args, handles);
      ok := StartFrame(m, values);
      if !ok {
        return;
      }
      NoCounts(m);
      var counts := [m.Bound(ARG_OBJECT), m.Bound(ARG_DOUBLE), m.Bound(ARG_LONG), m.Bound(ARG_FLOAT), m.Bound(ARG_INT)];
      for i := 0 to |args|
        invariant Filling(before, memory[..], current, m, values, i) && CountsAt(counts, m, i)
        invariant current == TopOf(before, previous) && frames == old(frames)
      {
        var value: seq<Word> := [];
        var t := m.Types()[i];
        NativeValueRead(m, args, handles, i);
        if t == ARG_OBJECT {
          value := [Low(handles[args[i]]), High(handles[args[i]])];
        } else if t <= ARG_LONG {
          value := [Low(args[i]), High(args[i])];
        } else if t < TYPES {
          value := [Low(args[i])];
        }
        counts := CopyArgument(before, m, counts, values, i, value);
      }
      FinishFrame(before, m, values, |args|, previous, context, executing, 0, 0);
      PushedChain(methods, before, memory[..], frames, current, context, executing, values, |args|, 0, 0);
      PushedArguments(before, memory[..], previous, current, context, executing, m, values, |args|, 0, 0);
      CellsArrived(memory[..], current, m, args, handles);
      frames := frames + [current];
    }

    /** Goes back to the previous frame; memory is left as it is. */
    method PopFrame()
      requires Valid() && |frames| > 1
      modifies this
      ensures Valid() && frames == old(frames)[..|old(frames)| - 1]
    {
      assert FrameHolds(methods, memory[..], frames, |frames| - 1);
      ChainShortens(methods, memory[..], frames);
      current := Previous(memory[..], current);
      frames := frames[..|frames| - 1];
    }

    /** Writes a slot of the current frame. */
    method WriteSlot(slot: nat, value: seq<Word>)
      requires Valid() && 1 <= |value| <= 2 && current + HEADER + slot + |value| <= TopOf(memory[..], current)
      modifies memory
      ensures Valid() && frames == old(frames) && WordsAt(memory[..], current + HEADER + slot, value)
      ensures SameOutside(old(memory[..]), memory[..], current + HEADER + slot, current + HEADER + slot + |value|)
    {
      hide Chain, WordsAt;
      ghost var before := memory[..];
      LastFrame(methods, before, frames);
      CheckedWrite(current + HEADER + slot, value);
      WritesKeepChain(methods, before, memory[..], frames, current + HEADER + slot, current + HEADER + slot + |value|);
    }

    // ---- The walks of the collector -----------------------------------------------------------

    /** From the current frame back to the root: every pushed frame once, the last pushed first. */
    method WalkFrames() returns (visited: seq<nat>)
      requires Valid()
      ensures |visited| == |frames| - 1 && forall i :: 0 <= i < |visited| ==> visited[i] == frames[|frames| - 1 - i]
      ensures Distinct(visited)
    {
      var f := current;
      visited := [];
      assert FrameHolds(methods, memory[..], frames, 0) && FrameHolds(methods, memory[..], frames, |frames| - 1);
      while f != 0
        invariant |visited| < |frames| && f == frames[|frames| - 1 - |visited|]
        invariant forall i :: 0 <= i < |visited| ==> visited[i] == frames[|frames| - 1 - i]
        decreases |frames| - |visited|
      {
        assert FrameHolds(methods, memory[..], frames, |frames| - 1 - |visited|);
        OnlyRootAtZero(methods, memory[..], frames, |frames| - 1 - |visited|);
        visited := visited + [f];
        f := Previous(memory[..], f);
      }
      OnlyRootAtZero(methods, memory[..], frames, |frames| - 1 - |visited|);
      forall i, j | 0 <= i < j < |visited| ensures visited[i] != visited[j] {
        FramesAscend(methods, memory[..], frames, |frames| - 1 - j, |frames| - 1 - i);
      }
    }

    /** The slots of the frame at f that hold pointers, one after the other. */
    method WalkPointerSlots(f: nat) returns (visited: seq<nat>)
      requires Valid() && f in frames[1..]
      ensures TopOf(memory[..], f) <= memory.Length && HasHeader(memory[..], f) && Executing(memory[..], f) in methods
      ensures forall s :: s in visited <==> IsPointerSlot(methods[Executing(memory[..], f)], s)
      ensures Distinct(visited)
    {
      ghost var i :| 0 <= i < |frames[1..]| && frames[1..][i] == f;
      assert FrameHolds(methods, memory[..], frames, i + 1);
      var m := methods[Executing(memory[..], f)];
      visited := [];
      var slot := 0;
      while slot != m.doubleOffset
        invariant slot == 2 * |visited| && slot <= m.doubleOffset
        invariant forall k :: 0 <= k < |visited| ==> visited[k] == 2 * k
        decreases m.doubleOffset - slot
      {
        visited := visited + [slot];
        slot := slot + 2;
      }
      forall s | IsPointerSlot(m, s) ensures s in visited { assert visited[s / 2] == s; }
    }

    /** What the collector does through the walk: it redirects one pointer slot, and every other
        pointer slot of every frame keeps its pointer. */
    method RedirectSlot(f: nat, slot: nat, p: DoubleWord)
      requires Valid() && PointerSlot(methods, memory[..], frames, f, slot)
      modifies memory
      ensures Valid() && Pointer(memory[..], f + HEADER + slot) == p
      ensures SameOutside(old(memory[..]), memory[..], f + HEADER + slot, f + HEADER + slot + 2)
      ensures forall g: nat, s: nat :: PointerSlot(methods, old(memory[..]), frames, g, s) && (g, s) != (f, slot) ==>
                PointerSlot(methods, memory[..], frames, g, s)
                && Pointer(memory[..], g + HEADER + s) == Pointer(old(memory[..]), g + HEADER + s)
    {
      ghost var before := memory[..];
      SlotInside(methods, before, frames, f, slot);
      WritePointerAt(f + HEADER + slot, p);
      SlotWriteKeepsChain(methods, before, memory[..], frames, f, slot);
      forall g: nat, s: nat | PointerSlot(methods, before, frames, g, s) && (g, s) != (f, slot)
        ensures PointerSlot(methods, memory[..], frames, g, s)
             && Pointer(memory[..], g + HEADER + s) == Pointer(before, g + HEADER + s)
      {
        OtherSlotKept(methods, before, memory[..], frames, f, slot, g, s);
      }
    }

    /** Writes the rest of the header. */
    method FinishFrame(ghost before: Memory, ghost m: Method, ghost values: seq<seq<Word>>, ghost n: nat,
                       previous: DoubleWord, context: DoubleWord, executing: DoubleWord,
                       returnOffset: Half, returnAddress: Half)
      requires m.WellLaid() && Filling(before, memory[..], current, m, values, n)
      requires HasHeader(before, previous) && current == FrameEnd(before, previous)
      modifies memory
      ensures Pushed(before, memory[..], previous, current, context, executing, m, values, n, returnOffset,
          returnAddress)
    {
      ghost var mem := memory[..];
      WriteHeader(previous, context, executing, returnOffset, returnAddress);
      FillingHeader(before, mem, memory[..], current, m, values, n);
    }
  }

  lemma FillingBounds(before: Memory, mem: Memory, f: nat, m: Method, values: seq<seq<Word>>, n: nat)
    requires m.WellLaid() && n < m.argCount && Filling(before, mem, f, m, values, n) && m.Types()[n] < TYPES
    ensures f + HEADER + ArgumentSlot(m, n) + Span(m.Types()[n], 1) <= |mem|
  {
    SlotInSection(m, n);
  }

  lemma FillingStarts(before: Memory, claimed: Memory, mem: Memory, f: nat, m: Method, values: seq<seq<Word>>)
    requires m.WellLaid() && HasHeader(claimed, f) && f + HEADER + m.frameSize <= |claimed|
    requires TotalSize(claimed, f) == 4 * (HEADER + m.frameSize) &&
        SameOutside(before, claimed, f, f + HEADER + m.frameSize)
    requires SameOutside(claimed, mem, f + HEADER, f + HEADER + m.doubleOffset)
    requires forall k :: f + HEADER <= k < f + HEADER + m.doubleOffset && k < |mem| ==> mem[k] == 0
    ensures Filling(before, mem, f, m, values, 0)
  {
    BoundsOrdered(m, ARG_DOUBLE, TYPES);
  }

  /** What a successful push leaves: every argument at its place in the callee's frame, the other
      pointer slots null, the header filled in, and nothing else in memory changed. */
  ghost predicate Pushed(before: Memory, mem: Memory, previous: nat, f: nat, context: DoubleWord,
                         executing: DoubleWord, m: Method,
                         values: seq<seq<Word>>, n: nat, returnOffset: Half, returnAddress: Half)
    requires m.Decodable()
  {
    && HasHeader(before, previous) && f == FrameEnd(before, previous)
    && Filling(before, mem, f, m, values, n)
    && HeaderWritten(mem, f, previous, context, executing, returnOffset, returnAddress, 4 * (HEADER + m.frameSize))
  }

  lemma EndKept(mem: Memory, mem': Memory, f: nat, from: nat, to: nat)
    requires HasHeader(mem, f) && f + HEADER <= from && SameOutside(mem, mem', from, to)
    ensures HasHeader(mem', f) && FrameEnd(mem', f) == FrameEnd(mem, f) && |mem'| == |mem|
  {
  }

  lemma PushedChain(methods: map<DoubleWord, Method>, before: Memory, mem: Memory, frames: seq<nat>, f: nat,
                    context: DoubleWord, executing: DoubleWord,
                    values: seq<seq<Word>>, n: nat, returnOffset: Half, returnAddress: Half)
    requires Chain(methods, before, frames) && executing in methods && methods[executing].WellLaid()
    requires Pushed(before, mem, frames[|frames| - 1], f, context, executing, methods[executing], values, n,
        returnOffset, returnAddress)
    ensures Chain(methods, mem, frames + [f])
  {
    var last, m := frames[|frames| - 1], methods[executing];
    hide Chain, Filling, m.WellLaid, SameOutside, Pointer;
    LastFrame(methods, before, frames);
    FillingLocal(before, mem, f, m, values, n);
    WritesKeepChain(methods, before, mem, frames, f, f + HEADER + m.frameSize);
    EndKept(before, mem, last, f, f + HEADER + m.frameSize);
    ChainExtends(methods, mem, frames, f, executing);
  }

  lemma FrameBelow(methods: map<DoubleWord, Method>, mem: Memory, frames: seq<nat>, i: nat)
    requires Chain(methods, mem, frames) && i < |frames|
    ensures
      var last := frames[|frames| - 1];
      HasHeader(mem, frames[i]) && HasHeader(mem, last) &&
        frames[i] <= FrameEnd(mem, frames[i]) <= FrameEnd(mem, last) <= |mem|
  {
    LastFrame(methods, mem, frames);
    if i < |frames| - 1 { FramesAscend(methods, mem, frames, i, |frames| - 1); }
  }

  /** Every earlier frame is unchanged, header and slots: popping the new frame gives them back. */
  lemma EarlierFramesKept(methods: map<DoubleWord, Method>, before: Memory, mem: Memory, frames: seq<nat>, f: nat,
                          context: DoubleWord,
                          executing: DoubleWord, values: seq<seq<Word>>, n: nat,
                          returnOffset: Half, returnAddress: Half, i: nat)
    requires Chain(methods, before, frames) && executing in methods && methods[executing].WellLaid() && i < |frames|
    requires Pushed(before, mem, frames[|frames| - 1], f, context, executing, methods[executing], values, n,
        returnOffset, returnAddress)
    ensures HasHeader(before, frames[i]) && FrameEnd(before, frames[i]) <= |mem|
    ensures mem[frames[i]..FrameEnd(before, frames[i])] == before[frames[i]..FrameEnd(before, frames[i])]
  {
    var from := frames[i];
    hide Filling, Method.WellLaid, HeaderWritten, Chain;
    FrameBelow(methods, before, frames, i);
    FillingLocal(before, mem, f, methods[executing], values, n);
    assert mem[from..FrameEnd(before, from)] == before[from..FrameEnd(before, from)];
  }

  lemma LastFrame(methods: map<DoubleWord, Method>, mem: Memory, frames: seq<nat>)
    requires Chain(methods, mem, frames)
    ensures
      var f := frames[|frames| - 1];
      HasHeader(mem, f) && f + HEADER <= FrameEnd(mem, f) <= |mem|
  {
    assert FrameHolds(methods, mem, frames, |frames| - 1);
  }

  lemma FrameSizeFits(m: Method)
    requires m.WellLaid()
    ensures 4 * (HEADER + m.frameSize) < WORD_LIMIT
  {
  }

  /** Where the frame at f ends. */
  ghost function TopOf(mem: Memory, f: nat): nat { if HasHeader(mem, f) then FrameEnd(mem, f) else 0 }

  lemma ArgumentsBelow(body: nat, end: nat, top: nat, m: Method, args: seq<Byte>)
    requires m.Decodable() && |args| <= m.argCount && ArgumentsInFrame(body, end, m, args) && end <= top
    ensures ArgumentsInFrame(body, top, m, args)
  {
  }

  lemma FillingLocal(before: Memory, mem: Memory, f: nat, m: Method, values: seq<seq<Word>>, n: nat)
    requires m.Decodable() && Filling(before, mem, f, m, values, n)
    ensures SameOutside(before, mem, f, f + HEADER + m.frameSize) && f + HEADER + m.frameSize <= |before|
  {
  }

  lemma CallerValuesFit(mem: Memory, body: nat, m: Method, args: seq<Byte>, n: nat)
    requires m.Decodable() && |args| <= m.argCount && ArgumentsInFrame(body, |mem|, m, args) && n <= |args|
    ensures ValuesFit(m, CallerValues(mem, body, m, args), n)
  {
  }

  /** The caller's frame lies below the one being filled, so it still holds the argument. */
  lemma ArgumentRead(before: Memory, mem: Memory, previous: nat, f: nat, m: Method, args: seq<Byte>, i: nat)
    requires m.Decodable() && |args| <= m.argCount && i < |args| && m.Types()[i] < TYPES
    requires HasHeader(before, previous) && f == FrameEnd(before, previous) && f <= |before|
    requires ArgumentsInFrame(previous + HEADER, |before|, m, args) && ArgumentsInFrame(previous + HEADER, f, m, args)
    requires SameOutside(before, mem, f, f + HEADER + m.frameSize)
    ensures previous + HEADER + args[i] + Span(m.Types()[i], 1) <= |mem|
    ensures
      var from := previous + HEADER + args[i];
      mem[from..from + Span(m.Types()[i], 1)] == CallerValues(before, previous + HEADER, m, args)[i]
  {
    var from := previous + HEADER + args[i];
    assert mem[from..from + Span(m.Types()[i], 1)] == before[from..from + Span(m.Types()[i], 1)];
  }

  predicate WordMoved(before: Memory, from: nat, mem: Memory, to: nat) {
    from < |before| && to < |mem| && mem[to] == before[from]
  }

  /** Argument i in the frame at f is the word the caller named, at `body` and behind, or two words of it. */
  predicate ArgumentMoved(before: Memory, mem: Memory, body: nat, f: nat, m: Method, args: seq<Byte>, i: nat)
    requires m.Decodable() && i < |args| <= m.argCount
  {
    var from, to := body + args[i], f + HEADER + ArgumentSlot(m, i);
    && WordMoved(before, from, mem, to)
    && (m.Types()[i] in {ARG_OBJECT, ARG_DOUBLE, ARG_LONG} ==> WordMoved(before, from + 1, mem, to + 1))
  }

  ghost predicate Arrived(before: Memory, mem: Memory, body: nat, f: nat, m: Method, args: seq<Byte>)
    requires m.Decodable() && |args| <= m.argCount
  {
    forall i :: 0 <= i < |args| && m.Types()[i] < TYPES ==> ArgumentMoved(before, mem, body, f, m, args, i)
  }

  lemma CallerArrived(before: Memory, mem: Memory, body: nat, f: nat, m: Method, args: seq<Byte>)
    requires m.Decodable() && |args| <= m.argCount && ArgumentsInFrame(body, |before|, m, args)
    requires ArgumentsAt(mem, f + HEADER, m, CallerValues(before, body, m, args), |args|)
    ensures Arrived(before, mem, body, f, m, args)
  {
    hide CountOfType, ArgumentSlot;
    forall i | 0 <= i < |args| && m.Types()[i] < TYPES
      ensures ArgumentMoved(before, mem, body, f, m, args, i)
    {
      var at, value := f + HEADER + ArgumentSlot(m, i), CallerValues(before, body, m, args)[i];
      assert WordsAt(mem, at, value);
      assert mem[at] == mem[at..at + |value|][0];
      if |value| == 2 { assert mem[at + 1] == mem[at..at + |value|][1]; }
    }
  }

  /** Each argument in the frame at f reads as its cell, or as what its handle holds. */
  ghost predicate NativeArrived(mem: Memory, f: nat, m: Method, args: seq<DoubleWord>,
                                handles: map<DoubleWord, DoubleWord>)
    requires m.Decodable() && |args| <= m.argCount && HandlesKnown(m, args, handles)
  {
    forall i :: 0 <= i < |args| && m.Types()[i] < TYPES ==>
      var t, at := m.Types()[i], f + HEADER + ArgumentSlot(m, i);
      if t == ARG_OBJECT then at + 2 <= |mem| && Pointer(mem, at) == handles[args[i]]
      else if t == ARG_DOUBLE || t == ARG_LONG then at + 2 <= |mem| && Pointer(mem, at) == args[i]
      else at < |mem| && mem[at] == args[i] % 0x1_0000_0000
  }

  lemma CellsArrived(mem: Memory, f: nat, m: Method, args: seq<DoubleWord>, handles: map<DoubleWord, DoubleWord>)
    requires m.Decodable() && |args| <= m.argCount && HandlesKnown(m, args, handles)
    requires ArgumentsAt(mem, f + HEADER, m, NativeValues(m, args, handles), |args|)
    ensures NativeArrived(mem, f, m, args, handles)
  {
    hide CountOfType, ArgumentSlot;
    forall i | 0 <= i < |args| && m.Types()[i] < TYPES
      ensures
        var t, at := m.Types()[i], f + HEADER + ArgumentSlot(m, i);
        if t == ARG_OBJECT then at + 2 <= |mem| && Pointer(mem, at) == handles[args[i]]
        else if t == ARG_DOUBLE || t == ARG_LONG then at + 2 <= |mem| && Pointer(mem, at) == args[i]
        else at < |mem| && mem[at] == args[i] % 0x1_0000_0000
    {
      var at, value := f + HEADER + ArgumentSlot(m, i), NativeValues(m, args, handles)[i];
      assert WordsAt(mem, at, value);
      assert mem[at] == mem[at..at + |value|][0];
      if |value| == 2 {
        assert mem[at + 1] == mem[at..at + |value|][1];
        PairRoundTrip(if m.Types()[i] == ARG_OBJECT then handles[args[i]] else args[i]);
      }
    }
  }

  lemma PushedArguments(before: Memory, mem: Memory, previous: nat, f: nat, context: DoubleWord,
                        executing: DoubleWord, m: Method, values: seq<seq<Word>>, n: nat, returnOffset: Half,
                        returnAddress: Half)
    requires m.Decodable()
    requires Pushed(before, mem, previous, f, context, executing, m, values, n, returnOffset, returnAddress)
    ensures n <= m.argCount && n <= |values| && ArgumentsAt(mem, f + HEADER, m, values, n)
  {
    hide ArgumentsAt;
  }

  /** The eight-byte cells of object arguments point to known handles. */
  ghost predicate HandlesKnown(m: Method, args: seq<DoubleWord>, handles: map<DoubleWord, DoubleWord>)
    requires m.Decodable() && |args| <= m.argCount
  {
    forall i :: 0 <= i < |args| && m.Types()[i] == ARG_OBJECT ==> args[i] in handles
  }

  ghost function NativeValues(m: Method, args: seq<DoubleWord>, handles: map<DoubleWord, DoubleWord>): seq<seq<Word>>
    requires m.Decodable() && |args| <= m.argCount && HandlesKnown(m, args, handles)
  {
    seq(|args|, i requires 0 <= i < |args| =>
      if m.Types()[i] == ARG_OBJECT then [Low(handles[args[i]]), High(handles[args[i]])]
      else if m.Types()[i] <= ARG_LONG then [Low(args[i]), High(args[i])]
      else if m.Types()[i] < TYPES then [Low(args[i])] else [])
  }

  lemma NativeValueRead(m: Method, args: seq<DoubleWord>, handles: map<DoubleWord, DoubleWord>, i: nat)
    requires m.Decodable() && |args| <= m.argCount && HandlesKnown(m, args, handles) && i < |args|
    ensures m.Types()[i] == ARG_OBJECT ==>
              args[i] in handles && NativeValues(m, args, handles)[i] == [Low(handles[args[i]]), High(handles[args[i]])]
    ensures m.Types()[i] in {ARG_DOUBLE, ARG_LONG} ==>
        NativeValues(m, args, handles)[i] == [Low(args[i]), High(args[i])]
    ensures ARG_LONG < m.Types()[i] < TYPES ==> NativeValues(m, args, handles)[i] == [Low(args[i])]
    ensures |NativeValues(m, args, handles)| == |args| && ValuesFit(m, NativeValues(m, args, handles), i + 1)
  {
  }

  // ---- Pointer slots --------------------------------------------------------------------------

  predicate IsPointerSlot(m: Method, s: nat) { s % 2 == 0 && s < m.doubleOffset }

  /** The frame at f has been pushed, and s is a pointer slot of its method. */
  ghost predicate PointerSlot(methods: map<DoubleWord, Method>, mem: Memory, frames: seq<nat>, f: nat, s: nat)
  {
    && f in frames && f != 0 && HasHeader(mem, f) && Executing(mem, f) in methods
    && IsPointerSlot(methods[Executing(mem, f)], s) && f + HEADER + s + 2 <= |mem|
  }

  lemma SlotInside(methods: map<DoubleWord, Method>, mem: Memory, frames: seq<nat>, f: nat, s: nat)
    requires Chain(methods, mem, frames) && PointerSlot(methods, mem, frames, f, s)
    ensures f + HEADER + s + 2 <= FrameEnd(mem, f) <= |mem|
  {
    var i :| 0 <= i < |frames| && frames[i] == f;
    assert FrameHolds(methods, mem, frames, i);
    BoundsOrdered(methods[Executing(mem, f)], ARG_DOUBLE, TYPES);
  }

  /** A slot of one frame is no header word of any. */
  lemma SlotWriteKeepsChain(methods: map<DoubleWord, Method>, mem: Memory, mem': Memory, frames: seq<nat>, f: nat,
                            s: nat)
    requires Chain(methods, mem, frames) && PointerSlot(methods, mem, frames, f, s)
    requires SameOutside(mem, mem', f + HEADER + s, f + HEADER + s + 2)
    ensures Chain(methods, mem', frames) && SameHeaders(mem, mem', frames)
  {
    SlotInside(methods, mem, frames, f, s);
    var i :| 0 <= i < |frames| && frames[i] == f;
    forall j, k | 0 <= j < |frames| && frames[j] <= k < frames[j] + HEADER && k < |mem| ensures mem'[k] == mem[k] {
      if j < i {
        FramesAscend(methods, mem, frames, j, i);
      } else if i < j {
        FramesAscend(methods, mem, frames, i, j);
      }
    }
    ChainKept(methods, mem, mem', frames);
  }

  lemma OtherSlotKept(methods: map<DoubleWord, Method>, mem: Memory, mem': Memory, frames: seq<nat>, f: nat, s: nat,
                      g: nat, r: nat)
    requires Chain(methods, mem, frames) && PointerSlot(methods, mem, frames, f, s) &&
        PointerSlot(methods, mem, frames, g, r)
    requires SameOutside(mem, mem', f + HEADER + s, f + HEADER + s + 2) && (f, s) != (g, r)
    ensures PointerSlot(methods, mem', frames, g, r) && g + HEADER + r + 2 <= |mem'|
    ensures Pointer(mem', g + HEADER + r) == Pointer(mem, g + HEADER + r)
  {
    SlotInside(methods, mem, frames, f, s);
    SlotInside(methods, mem, frames, g, r);
    SlotWriteKeepsChain(methods, mem, mem', frames, f, s);
    var i :| 0 <= i < |frames| && frames[i] == f;
    var j :| 0 <= j < |frames| && frames[j] == g;
    HeaderKept(methods, mem, mem', frames, j);
    if i < j {
      FramesAscend(methods, mem, frames, i, j);
    } else if j < i {
      FramesAscend(methods, mem, frames, j, i);
    }
  }

  /** The pointers of a frame, slot by slot: what it contributes to the roots of a collection. */
  function FramePointers(mem: Memory, f: nat, m: Method): (pointers: seq<DoubleWord>)
    requires f + HEADER + m.doubleOffset <= |mem|
    ensures |pointers| == m.doubleOffset / 2
  {
    seq(m.doubleOffset / 2, k requires 0 <= k < m.doubleOffset / 2 => Pointer(mem, f + HEADER + 2 * k))
  }

  lemma RootOfArgument(before: Memory, mem: Memory, f: nat, m: Method, values: seq<seq<Word>>, n: nat, i: nat)
    requires m.WellLaid() && Filling(before, mem, f, m, values, n) && f + HEADER + m.doubleOffset <= |mem|
    requires i < n && m.Types()[i] == ARG_OBJECT
    ensures |values[i]| == 2
    ensures
      var k := CountOfType(m.Types()[..i], ARG_OBJECT);
      k < m.doubleOffset / 2 && FramePointers(mem, f, m)[k] == values[i][0] + WORD_LIMIT * values[i][1]
  {
    hide WordsAt, Filling, CountOfType;
    FilledWords(before, mem, f, m, values, n, i);
    SlotInSection(m, i);
    hide Method.WellLaid;
    PointerOfWords(mem, f + HEADER + ArgumentSlot(m, i), values[i]);
  }

  lemma FilledWords(before: Memory, mem: Memory, f: nat, m: Method, values: seq<seq<Word>>, n: nat, i: nat)
    requires m.Decodable() && Filling(before, mem, f, m, values, n) && i < n && m.Types()[i] < TYPES
    ensures n <= m.argCount && n <= |values| && |values[i]| == Span(m.Types()[i], 1)
    ensures WordsAt(mem, f + HEADER + ArgumentSlot(m, i), values[i])
  {
    hide SameOutside, OtherPointersNull, ArgumentSlot, TotalSize;
  }

  lemma PointerOfWords(mem: Memory, at: nat, value: seq<Word>)
    requires |value| == 2 && WordsAt(mem, at, value)
    ensures at + 2 <= |mem| && Pointer(mem, at) == value[0] + WORD_LIMIT * value[1]
  {
    assert mem[at..at + 2][0] == mem[at] && mem[at..at + 2][1] == mem[at + 1];
  }

  /** A new frame's roots are the object arguments in order, then nulls. */
  lemma NewFrameRoots(before: Memory, mem: Memory, f: nat, m: Method, values: seq<seq<Word>>, n: nat)
    requires m.WellLaid() && Filling(before, mem, f, m, values, n) && f + HEADER + m.doubleOffset <= |mem|
    ensures forall i :: 0 <= i < n && m.Types()[i] == ARG_OBJECT ==>
              var k := CountOfType(m.Types()[..i], ARG_OBJECT);
              && k < m.doubleOffset / 2 && |values[i]| == 2
              && FramePointers(mem, f, m)[k] == values[i][0] + WORD_LIMIT * values[i][1]
    ensures forall k :: CountOfType(m.Types()[..n], ARG_OBJECT) <= k < m.doubleOffset / 2 ==>
        FramePointers(mem, f, m)[k] == 0
  {
    hide CountOfType;
    forall i | 0 <= i < n && m.Types()[i] == ARG_OBJECT
      ensures var k := CountOfType(m.Types()[..i], ARG_OBJECT);
              && k < m.doubleOffset / 2 && |values[i]| == 2
              && FramePointers(mem, f, m)[k] == values[i][0] + WORD_LIMIT * values[i][1]
    {
      RootOfArgument(before, mem, f, m, values, n, i);
    }
    forall k | CountOfType(m.Types()[..n], ARG_OBJECT) <= k < m.doubleOffset / 2
      ensures FramePointers(mem, f, m)[k] == 0
    {
      var at := f + HEADER + 2 * k;
      assert mem[at] == 0 && mem[at + 1] == 0;
    }
  }

  // ---- The steps as written -------------------------------------------------------------------

  /** As written the walk steps by eight where a pointer takes two words. It ends and meets every
      pointer slot only when there is none. */
  lemma WalkAsWritten(m: Method)
    requires m.WellLaid()
    ensures (exists k: nat :: 8 * k % WORD_LIMIT == m.doubleOffset) && (forall s :: IsPointerSlot(m, s) ==> s % 8 == 0)
       <==> m.doubleOffset == 0
  {
    if m.doubleOffset == 0 {
      assert 8 * 0 % WORD_LIMIT == m.doubleOffset;
    } else if k: nat :| 8 * k % WORD_LIMIT == m.doubleOffset {
      assert m.doubleOffset % 8 == 0;
      assert IsPointerSlot(m, 2);
    }
  }

  /** As written the pointer slots are nulled after the arguments have been copied, in the wrong unit. */
  function NullsAsWritten(mem: Memory, body: nat, doubleOffset: nat, i: nat): (mem': Memory)
    ensures |mem'| == |mem|
    decreases 4 * doubleOffset - i
  {
    if i >= 4 * doubleOffset || body + i + 2 > |mem| then mem
    else NullsAsWritten(mem[body + i := 0][body + i + 1 := 0], body, doubleOffset, i + 8)
  }

  lemma {:induction false} NullsKeepBelow(mem: Memory, body: nat, doubleOffset: nat, i: nat, k: nat)
    requires k < |mem| && k < body + i
    ensures NullsAsWritten(mem, body, doubleOffset, i)[k] == mem[k]
    decreases 4 * doubleOffset - i
  {
    if i < 4 * doubleOffset && body + i + 2 <= |mem| {
      NullsKeepBelow(mem[body + i := 0][body + i + 1 := 0], body, doubleOffset, i + 8, k);
    }
  }

  /** So the first object argument survives a push exactly when it is null. */
  lemma FirstObjectLost(mem: Memory, body: nat, m: Method)
    requires m.WellLaid() && m.doubleOffset > 0 && body + 2 <= |mem|
    ensures Pointer(NullsAsWritten(mem, body, m.doubleOffset, 0), body) == Pointer(mem, body) <==>
        Pointer(mem, body) == 0
  {
    var first := mem[body := 0][body + 1 := 0];
    NullsKeepBelow(first, body, m.doubleOffset, 8, body);
    NullsKeepBelow(first, body, m.doubleOffset, 8, body + 1);
  }
}
