/** The allocator of the two spaces (memory/bump_allocator.cpp, gc/semispace_allocator.cpp). A
    collection records how much it copied, giving memory back lowers the committed bound, and growth
    is bounded by what remains of the reservation. */
module Semispaces {
  import opened Prelude
  import opened Objects

  // ---- Resizing policy ------------------------------------------------------------------------

  datatype Policy = Policy(minHeapSize: nat, minSaturation: real, maxSaturation: real, page: nat) {
    predicate Valid() { 0.0 < maxSaturation <= 1.0 && minSaturation <= maxSaturation && page > 0 }

    /** The saturation tests; with nothing committed the quotient is not a number and both fail. */
    predicate TooFull(used: nat, committed: nat) {
      committed > 0 && used as real / committed as real > maxSaturation
    }

    predicate TooEmpty(used: nat, committed: nat) {
      committed > 0 && used as real / committed as real < minSaturation
    }

    /** A space of this size is saturated by the used bytes no more than the policy allows. */
    ghost predicate Allows(used: nat, committed: int) {
      used as real <= maxSaturation * committed as real
    }

    /** What a space that is too empty is to keep before rounding. */
    function Target(used: nat): nat
      requires Valid() && minSaturation > 0.0
    {
      QuotientNonNegative(used, minSaturation);
      Max(Ceiling(used as real / minSaturation), minHeapSize)
    }

    /** The committed size the policy asks for after a collection left `used` bytes. */
    function Wanted(used: nat, committed: nat): int
      requires Valid()
    {
      if TooFull(used, committed) then
        GrowthIsPositive(this, used, committed);
        committed + RoundForCommit(page, Ceiling(used as real / maxSaturation) - committed)
      else if TooEmpty(used, committed) then
        EmptySaturationPositive(this, used, committed);
        Min(committed, RoundForCommit(page, Target(used)))
      else
        committed
    }

    /** The committed size a collection leaves in a reservation of `room` bytes: what the policy wants
        as far as the reservation goes, unless growth is wanted and not granted. */
    function Resized(used: nat, committed: nat, room: nat, granted: bool): int
      requires Valid()
    {
      if TooFull(used, committed) && !granted then committed else Min(Wanted(used, committed), room)
    }
  }

  function Max(a: int, b: int): int { if a < b then b else a }

  function Min(a: int, b: int): int { if a < b then a else b }

  function Ceiling(x: real): (c: int)
    ensures c as real - 1.0 < x <= c as real
  {
    -((-x).Floor)
  }

  /** The least multiple of the page size that is at least `amount`. */
  function RoundForCommit(page: nat, amount: nat): (r: nat)
    requires page > 0
    ensures r % page == 0 && amount <= r < amount + page
  {
    var scaled := amount + page - 1;
    RoundedDown(scaled, page);
    scaled - scaled % page
  }

  lemma RoundedDown(x: nat, page: nat)
    requires page > 0
    ensures (x - x % page) % page == 0 && x % page <= x
  {
    var q := x / page;
    assert x - x % page == q * page;
    MultipleHasNoRemainder(q, page);
  }

  lemma MultipleHasNoRemainder(q: nat, page: nat)
    requires page > 0
    ensures q * page % page == 0
  {
    var x := q * page;
    var k := q - x / page;
    assert k * page == x % page;
    if k >= 1 { AtLeast(k, page); }
    if k <= -1 { AtLeast(-k, page); }
  }

  lemma AtLeast(k: int, page: nat)
    requires k >= 1
    ensures k * page >= page
  {
  }

  lemma QuotientNonNegative(used: nat, saturation: real)
    requires saturation > 0.0
    ensures used as real / saturation >= 0.0
  {
  }

  lemma QuotientAbove(used: nat, committed: nat, saturation: real)
    requires committed > 0 && saturation > 0.0
    ensures used as real / committed as real > saturation <==> used as real / saturation > committed as real
    ensures used as real / committed as real < saturation <==> used as real / saturation < committed as real
  {
    var u, c := used as real, committed as real;
    Quotient(u, c);
    Quotient(u, saturation);
    var x, y := u / c, u / saturation;
    assert x * c == y * saturation;
    if x > saturation { Scale(saturation, x, c); if y <= c { ScaleLe(y, c, saturation); } }
    if x < saturation { Scale(x, saturation, c); if y >= c { ScaleLe(c, y, saturation); } }
    if y > c { Scale(c, y, saturation); if x <= saturation { ScaleLe(x, saturation, c); } }
    if y < c { Scale(y, c, saturation); if x >= saturation { ScaleLe(saturation, x, c); } }
  }

  lemma Quotient(u: real, d: real)
    requires d > 0.0
    ensures u / d * d == u
  {
  }

  lemma Scale(a: real, b: real, k: real)
    requires a < b && k > 0.0
    ensures a * k < b * k
  {
  }

  lemma ScaleLe(a: real, b: real, k: real)
    requires a <= b && k > 0.0
    ensures a * k <= b * k
  {
  }

  lemma GrowthIsPositive(p: Policy, used: nat, committed: nat)
    requires p.Valid() && p.TooFull(used, committed)
    ensures Ceiling(used as real / p.maxSaturation) > committed
  {
    QuotientAbove(used, committed, p.maxSaturation);
  }

  lemma EmptySaturationPositive(p: Policy, used: nat, committed: nat)
    requires p.TooEmpty(used, committed)
    ensures p.minSaturation > 0.0
  {
    QuotientNonNegative(used, committed as real);
  }

  /** A saturation of at most one never asks for less than what is used. */
  lemma CeilingHolds(used: nat, saturation: real, c: int)
    requires 0.0 < saturation <= 1.0 && c >= Ceiling(used as real / saturation)
    ensures used <= c && used as real <= saturation * c as real
  {
    CeilingAbove(used as real / saturation, c);
    Quotient(used as real, saturation);
    QuotientNonNegative(used, saturation);
    hide Ceiling;
    Saturated(used as real / saturation, saturation, c as real);
  }

  lemma CeilingAbove(x: real, c: int)
    requires c >= Ceiling(x)
    ensures c as real >= x
  {
  }

  lemma Share(q: real, saturation: real)
    requires saturation <= 1.0 && q >= 0.0
    ensures q * saturation <= q
  {
  }

  lemma Saturated(q: real, saturation: real, c: real)
    requires 0.0 < saturation <= 1.0 && 0.0 <= q <= c
    ensures q * saturation <= c && q * saturation <= saturation * c
  {
    ScaleLe(q, c, saturation);
    Share(q, saturation);
  }

  /** Resizing keeps every live byte, and what it asks for is saturated no more than allowed. */
  lemma WantedKeepsLive(p: Policy, used: nat, committed: nat)
    requires p.Valid() && used <= committed
    ensures used <= p.Wanted(used, committed)
    ensures committed > 0 ==> used as real <= p.maxSaturation * p.Wanted(used, committed) as real
  {
    hide RoundForCommit, Ceiling;
    if p.TooFull(used, committed) {
      GrowthIsPositive(p, used, committed);
      CeilingHolds(used, p.maxSaturation, p.Wanted(used, committed));
    } else if p.TooEmpty(used, committed) {
      ShrinkKeepsLive(p, used, committed);
    } else if committed > 0 {
      NotTooFull(p, used, committed);
    }
  }

  lemma ShrinkTarget(p: Policy, used: nat, committed: nat)
    requires p.Valid() && p.TooEmpty(used, committed) && !p.TooFull(used, committed)
    ensures committed > 0 && 0.0 < p.minSaturation <= p.maxSaturation <= 1.0
    ensures p.Wanted(used, committed) == committed ||
        p.Wanted(used, committed) >= Ceiling(used as real / p.minSaturation)
  {
    EmptySaturationPositive(p, used, committed);
    hide Ceiling;
  }

  lemma ShrinkKeepsLive(p: Policy, used: nat, committed: nat)
    requires p.Valid() && used <= committed && p.TooEmpty(used, committed) && !p.TooFull(used, committed)
    ensures used <= p.Wanted(used, committed)
    ensures used as real <= p.maxSaturation * p.Wanted(used, committed) as real
  {
    ShrinkTarget(p, used, committed);
    hide Ceiling, Policy.Wanted, Policy.TooFull, Policy.TooEmpty;
    if p.Wanted(used, committed) == committed {
      NotTooFull(p, used, committed);
    } else {
      LessSaturated(used, p.minSaturation, p.maxSaturation, p.Wanted(used, committed));
    }
  }

  lemma LessSaturated(used: nat, lo: real, hi: real, c: int)
    requires 0.0 < lo <= hi && lo <= 1.0 && c >= Ceiling(used as real / lo)
    ensures used <= c && used as real <= hi * c as real
  {
    CeilingHolds(used, lo, c);
    hide Ceiling;
    if c > 0 { ScaleLe(lo, hi, c as real); }
  }

  lemma NotTooFull(p: Policy, used: nat, committed: nat)
    requires committed > 0 && !p.TooFull(used, committed)
    ensures used as real <= p.maxSaturation * committed as real
  {
    Quotient(used as real, committed as real);
    ScaleLe(used as real / committed as real, p.maxSaturation, committed as real);
  }

  /** Shrinking stops less than one page above its target and never grows the space; growing
      overshoots what the saturation needs by less than one page. */
  lemma WantedIsTight(p: Policy, used: nat, committed: nat)
    requires p.Valid()
    ensures p.TooEmpty(used, committed) ==>
      && p.minSaturation > 0.0
      && p.Wanted(used, committed) <= committed
      && p.Wanted(used, committed) < p.Target(used) + p.page
    ensures p.TooFull(used, committed) ==>
      && p.Wanted(used, committed) > committed
      && p.Wanted(used, committed) < Ceiling(used as real / p.maxSaturation) + p.page
  {
    if p.TooFull(used, committed) {
      GrowthIsPositive(p, used, committed);
      QuotientAbove(used, committed, p.maxSaturation);
      assert !p.TooEmpty(used, committed);
    } else if p.TooEmpty(used, committed) {
      EmptySaturationPositive(p, used, committed);
    }
  }

  /** After a resize the space is saturated no more than allowed, unless the reservation is used up or
      growth was refused. */
  lemma ResizedSaturation(p: Policy, used: nat, committed: nat, room: nat, granted: bool)
    requires p.Valid() && used <= committed <= room
    ensures
      var size := p.Resized(used, committed, room, granted);
      || p.Allows(used, size) || size == room
      || (p.TooFull(used, committed) && !granted && size == committed)
  {
    hide Policy.Wanted, Policy.TooFull;
    WantedKeepsLive(p, used, committed);
    if committed == 0 { NothingCommittedStays(p); }
  }

  // ---- The policy in numbers ------------------------------------------------------------------

  /** The least multiple of the page size that `used` bytes saturate no more than the minimum, and that is
      no less than the minimum heap. */
  ghost predicate LeastShrunk(p: Policy, used: nat, size: int) {
    && p.page > 0 && size % p.page == 0 && size >= p.minHeapSize
    && p.minSaturation * size as real >= used as real
    && (size - p.page < p.minHeapSize || p.minSaturation * (size - p.page) as real < used as real)
  }

  /** The least number of pages more that `used` bytes saturate no more than the maximum. */
  ghost predicate LeastGrown(p: Policy, used: nat, committed: nat, size: int) {
    && p.page > 0 && size > committed && (size - committed) % p.page == 0
    && p.maxSaturation * size as real >= used as real && p.maxSaturation * (size - p.page) as real < used as real
  }

  /** What a resize leaves: above the maximum saturation the space grows, as far as its reservation goes and
      unless that is refused; below the minimum it shrinks; in between it stays. */
  ghost predicate Sized(p: Policy, used: nat, committed: nat, room: nat, granted: bool, size: int) {
    var u, c := used as real, committed as real;
    && (u > p.maxSaturation * c && !granted ==> size == committed)
    && (u > p.maxSaturation * c && granted ==>
          (exists grown :: LeastGrown(p, used, committed, grown) && size == Min(grown, room)))
    && (u < p.minSaturation * c ==>
          (exists shrunk :: LeastShrunk(p, used, shrunk) && size == Min(shrunk, committed)))
    && (p.minSaturation * c <= u <= p.maxSaturation * c ==> size == committed)
    && size >= Min(committed, p.minHeapSize)
  }

  lemma TestsInNumbers(p: Policy, used: nat, committed: nat)
    requires p.Valid() && used <= committed
    ensures p.TooFull(used, committed) <==> used as real > p.maxSaturation * committed as real
    ensures p.TooEmpty(used, committed) <==> used as real < p.minSaturation * committed as real
  {
    if committed > 0 {
      QuotientCompares(used as real, committed as real, p.maxSaturation);
      QuotientCompares(used as real, committed as real, p.minSaturation);
    }
  }

  lemma QuotientCompares(u: real, c: real, s: real)
    requires c > 0.0
    ensures u / c > s <==> u > s * c
    ensures u / c < s <==> u < s * c
  {
    Quotient(u, c);
    var q := u / c;
    if q > s { Scale(s, q, c); } else { ScaleLe(q, s, c); }
    if q < s { Scale(q, s, c); } else { ScaleLe(s, q, c); }
  }

  lemma CeilingReached(u: real, saturation: real, size: int)
    requires saturation > 0.0
    ensures size >= Ceiling(u / saturation) <==> saturation * size as real >= u
  {
    QuotientCompares(u, saturation, size as real);
    assert size >= Ceiling(u / saturation) <==> size as real >= u / saturation;
  }

  lemma ShrunkInNumbers(p: Policy, used: nat)
    requires p.Valid() && p.minSaturation > 0.0
    ensures LeastShrunk(p, used, RoundForCommit(p.page, p.Target(used)))
  {
    var size := RoundForCommit(p.page, p.Target(used));
    CeilingReached(used as real, p.minSaturation, size);
    CeilingReached(used as real, p.minSaturation, size - p.page);
    hide Ceiling, RoundForCommit;
  }

  lemma GrownInNumbers(p: Policy, used: nat, committed: nat)
    requires p.Valid() && p.TooFull(used, committed)
    ensures LeastGrown(p, used, committed, p.Wanted(used, committed))
  {
    GrowthIsPositive(p, used, committed);
    var size := p.Wanted(used, committed);
    CeilingReached(used as real, p.maxSaturation, size);
    CeilingReached(used as real, p.maxSaturation, size - p.page);
    hide Ceiling, RoundForCommit;
  }

  lemma ByTests(p: Policy, used: nat, committed: nat, room: nat, granted: bool, size: int, full: bool, empty: bool)
    requires full <==> used as real > p.maxSaturation * committed as real
    requires empty <==> used as real < p.minSaturation * committed as real
    requires (full && !granted) || (!full && !empty) ==> size == committed
    requires full && granted ==> (exists grown :: LeastGrown(p, used, committed, grown) && size == Min(grown, room))
    requires empty ==> !full && exists shrunk :: LeastShrunk(p, used, shrunk) && size == Min(shrunk, committed)
    requires size >= Min(committed, p.minHeapSize)
    ensures Sized(p, used, committed, room, granted, size)
  {
    hide LeastGrown, LeastShrunk;
  }

  lemma ResizedInNumbers(p: Policy, used: nat, committed: nat, room: nat, granted: bool)
    requires p.Valid() && used <= committed <= room
    ensures Sized(p, used, committed, room, granted, p.Resized(used, committed, room, granted))
  {
    TestsInNumbers(p, used, committed);
    hide LeastGrown, LeastShrunk, Sized, Ceiling, RoundForCommit;
    if p.TooFull(used, committed) {
      GrownInNumbers(p, used, committed);
      NotBoth(p, used, committed);
      GrownIsMore(p, used, committed, p.Wanted(used, committed));
    } else if p.TooEmpty(used, committed) {
      EmptySaturationPositive(p, used, committed);
      ShrunkInNumbers(p, used);
      ShrunkIsEnough(p, used, RoundForCommit(p.page, p.Target(used)));
    }
    hide Policy.TooFull, Policy.TooEmpty;
    ByTests(p, used, committed, room, granted, p.Resized(used, committed, room, granted),
            p.TooFull(used, committed), p.TooEmpty(used, committed));
  }

  lemma NotBoth(p: Policy, used: nat, committed: nat)
    requires p.Valid() && p.TooFull(used, committed)
    ensures !p.TooEmpty(used, committed)
  {
  }

  lemma GrownIsMore(p: Policy, used: nat, committed: nat, size: int)
    requires LeastGrown(p, used, committed, size)
    ensures size > committed
  {
  }

  lemma ShrunkIsEnough(p: Policy, used: nat, size: int)
    requires LeastShrunk(p, used, size)
    ensures size >= p.minHeapSize
  {
  }

  /** With nothing live a resize never grows the space. */
  lemma EmptyNeverGrows(p: Policy, committed: nat, room: nat, granted: bool)
    requires p.Valid()
    ensures p.Resized(0, committed, room, granted) <= committed
  {
    if committed > 0 { assert 0 as real / committed as real == 0.0; }
  }

  /** The start-up code commits nothing, and nothing committed stays nothing. */
  lemma NothingCommittedStays(p: Policy)
    requires p.Valid()
    ensures p.Wanted(0, 0) == 0
  {
  }

  /** What growth as written asks to commit: it is bounded by the whole reservation instead of what
      remains of it. */
  function GrowthAsWritten(base: Address, cap: Address, amount: nat): int { Min(amount, cap - base) }

  /** As written, the commit of that growth is refused outright exactly when something is committed
      and the amount exceeds what remains, be there room left or not. */
  lemma GrowthAsWrittenRefused(base: Address, committed: Address, cap: Address, amount: nat)
    requires base <= committed <= cap
    ensures committed + GrowthAsWritten(base, cap, amount) > cap <==> base < committed && amount > cap - committed
  {
  }

  /** What the platform answers when an allocation collects: whether it commits memory for the
      copies, and whether it commits more afterwards. */
  datatype Grants = Grants(copying: bool, growing: bool)

  // ---- One space ------------------------------------------------------------------------------

  class BumpAllocator {
    const base: Address
    const cap: Address
    var used: Address
    var committed: Address

    predicate Valid()
      reads this
    {
      0 < base <= used <= committed <= cap
    }

    function CommittedMemory(): nat
      requires Valid()
      reads this
    {
      committed - base
    }

    constructor (base: Address, maxSize: nat)
      requires base > 0
      ensures Valid() && this.base == base && cap == base + maxSize && used == base && committed == base
    {
      this.base := base;
      this.cap := base + maxSize;
      this.used := base;
      this.committed := base;
    }

    method Allocate(amount: nat) returns (r: Option<Address>)
      requires Valid()
      modifies this`used
      ensures Valid()
      ensures r.Some? <==> old(used) + amount <= committed
      ensures r.Some? ==> r.value == old(used) && used == old(used) + amount
      ensures r.None? ==> used == old(used)
    {
      var location := used;
      if location + amount > committed {
        return None;
      }
      used := location + amount;
      return Some(location);
    }

    /** All or nothing; `granted` is what the platform answers. */
    method Commit(amount: nat, granted: bool) returns (ok: bool)
      requires Valid()
      modifies this`committed
      ensures Valid()
      ensures ok <==> granted && old(committed) + amount <= cap
      ensures committed == if ok then old(committed) + amount else old(committed)
    {
      var start := committed;
      if start + amount > cap {
        return false;
      }
      if granted {
        committed := start + amount;
      }
      return granted;
    }

    /** Takes what remains of the reservation where the amount is more than that. */
    method CommitToMax(amount: nat, granted: bool) returns (ok: bool)
      requires Valid()
      modifies this`committed
      ensures Valid() && ok == granted
      ensures committed == if granted then Min(old(committed) + amount, cap) else old(committed)
    {
      ok := Commit(Min(amount, cap - committed), granted);
    }

    method Decommit(newAmount: nat)
      requires Valid() && used <= base + newAmount <= committed
      modifies this`committed
      ensures Valid() && committed == base + newAmount
    {
      committed := base + newAmount;
    }

    method DecommitAll()
      requires Valid()
      modifies this
      ensures Valid() && used == base && committed == base
    {
      committed := base;
      used := base;
    }

    /** Records the end of what a collection copied here. */
    method SetUsed(end: Address)
      requires Valid() && base <= end <= committed
      modifies this`used
      ensures Valid() && used == end
    {
      used := end;
    }
  }

  // ---- Both spaces ----------------------------------------------------------------------------

  class Semispace {
    const regions: Regions
    const policy: Policy
    const first: BumpAllocator
    const second: BumpAllocator
    var useSecondSpace: bool

    function Active(): BumpAllocator reads this { if useSecondSpace then second else first }

    function Idle(): BumpAllocator reads this { if useSecondSpace then first else second }

    /** Between collections the idle space is fully given back. */
    ghost predicate Valid()
      reads this, first, second
    {
      && ValidSpaces()
      && Idle().used == Idle().base && Idle().committed == Idle().base
    }

    ghost predicate ValidSpaces()
      reads this, first, second
    {
      && first != second && first.Valid() && second.Valid() && policy.Valid() && regions.Valid()
      && first.base == regions.base0 && first.cap == regions.cap0
      && second.base == regions.base1 && second.cap == regions.cap1
    }

    constructor (regions: Regions, policy: Policy)
      requires regions.Valid() && policy.Valid()
      ensures Valid() && fresh(first) && fresh(second)
      ensures this.regions == regions && this.policy == policy && !useSecondSpace
      ensures Active().used == Active().base && Active().committed == Active().base
    {
      this.regions := regions;
      this.policy := policy;
      this.useSecondSpace := false;
      this.first := new BumpAllocator(regions.base0, regions.cap0 - regions.base0);
      this.second := new BumpAllocator(regions.base1, regions.cap1 - regions.base1);
    }

    /** Whether a collection can start: the idle space has room for what the active space has
        committed, and the platform grants it. */
    predicate Copyable(granted: bool)
      reads this, first, second
    {
      granted && Idle().base + (Active().committed - Active().base) <= Idle().cap
    }

    /** Commits as much in the idle space as the active space has, or reports failure. */
    method GcPrologue(granted: bool) returns (r: Option<Address>)
      requires Valid()
      modifies first, second
      ensures ValidSpaces() && Active().used == old(Active().used) && Active().committed == old(Active().committed)
      ensures r.Some? <==> old(Copyable(granted))
      ensures r.None? ==> Valid()
      ensures r.Some? ==> r.value == Idle().base && Idle().used == Idle().base
                          && Idle().CommittedMemory() == Active().CommittedMemory()
    {
      var ok := Idle().Commit(Active().CommittedMemory(), granted);
      return if ok then Some(Idle().base) else None;
    }

    /** Resizes the space copied into, gives the other back, and exchanges their roles. */
    method GcEpilogue(end: Address, granted: bool)
      requires ValidSpaces() && Idle().base <= end <= Idle().committed
      modifies this, first, second
      ensures Valid() && Active() == old(Idle()) && Idle() == old(Active())
      ensures Active().used == end
      ensures var used, before := end - Active().base, old(Idle().CommittedMemory());
              Active().CommittedMemory() == policy.Resized(used, before, Active().cap - Active().base, granted)
      ensures var used, before := end - Active().base, old(Idle().CommittedMemory());
              || policy.Allows(used, Active().CommittedMemory())
              || Active().committed == Active().cap
              || (policy.TooFull(used, before) && !granted && Active().CommittedMemory() == before)
      ensures Sized(policy, end - Active().base, old(Idle().CommittedMemory()), Active().cap - Active().base, granted,
                    Active().CommittedMemory())
    {
      hide Policy.Resized, Policy.Allows, Policy.TooFull, Sized;
      var space := Idle();
      ghost var before := space.CommittedMemory();
      ResizedSaturation(policy, end - space.base, before, space.cap - space.base, granted);
      space.SetUsed(end);
      Resize(policy, space, granted);
      Active().DecommitAll();
      useSecondSpace := !useSecondSpace;
    }

    /** The resize of the epilogue: grows a space that is too full, shrinks one that is too empty. */
    static method Resize(policy: Policy, space: BumpAllocator, granted: bool)
      requires policy.Valid() && space.Valid()
      modifies space`committed
      ensures space.Valid()
      ensures space.CommittedMemory() ==
          policy.Resized(space.used - space.base, old(space.CommittedMemory()), space.cap - space.base, granted)
      ensures Sized(policy, space.used - space.base, old(space.CommittedMemory()), space.cap - space.base, granted,
                    space.CommittedMemory())
    {
      ghost var before := space.CommittedMemory();
      ResizedInNumbers(policy, space.used - space.base, before, space.cap - space.base, granted);
      hide RoundForCommit, Ceiling, Sized;
      var amountUsed := space.used - space.base;
      var amountCommitted := space.CommittedMemory();
      WantedKeepsLive(policy, amountUsed, amountCommitted);
      if policy.TooFull(amountUsed, amountCommitted) {
        GrowthIsPositive(policy, amountUsed, amountCommitted);
        var needed := Ceiling(amountUsed as real / policy.maxSaturation) - amountCommitted;
        var _ := space.CommitToMax(RoundForCommit(policy.page, needed), granted);
      } else if policy.TooEmpty(amountUsed, amountCommitted) {
        EmptySaturationPositive(policy, amountUsed, amountCommitted);
        var paged := RoundForCommit(policy.page, policy.Target(amountUsed));
        if paged < amountCommitted {
          space.Decommit(paged);
        }
      }
    }

    method Allocate(amount: nat) returns (r: Option<Address>)
      requires Valid()
      modifies Active()`used
      ensures Valid()
      ensures r.Some? <==> old(Active().used) + amount <= Active().committed
      ensures r.Some? ==> r.value == old(Active().used) && Active().used == old(Active().used) + amount
      ensures r.None? ==> Active().used == old(Active().used)
    {
      r := Active().Allocate(amount);
    }
  }
}
