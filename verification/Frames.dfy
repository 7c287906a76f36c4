/**
  The physical block allocator: single blocks taken and given back. Block numbers become 32-bit addresses,
  and the 64-bit counters are moved by 32-bit increments, as in the kernel; what that costs is stated exactly.
 */
module Frames {
  import opened Common
  import opened FrameBitmap

  const TWO32 := 0x1_0000_0000
  const TWO64 := 0x1_0000_0000_0000_0000

  /** The address given for a block, computed in 32 bits. */
  function AddressOf(block: nat): nat { block * 0x1000 % 0x1_0000_0000 }

  /** The block an address is freed as. */
  function BlockOf(addr: nat): nat { addr % 0x1_0000_0000 / 0x1000 }

  lemma ScaleMod(block: nat)
    ensures AddressOf(block) == block % 0x10_0000 * 0x1000
  {
    var k, r := block / 0x10_0000, block % 0x10_0000;
    assert block * 0x1000 == 0x1_0000_0000 * k + r * 0x1000;
  }

  lemma BlockOfAddress(block: nat)
    ensures BlockOf(AddressOf(block)) == block % 0x10_0000
  {
    ScaleMod(block);
  }

  /** Main result: an address leads back to its block exactly below 2^20 blocks (4 GiB). */
  lemma AddressRoundTrip(block: nat)
    ensures BlockOf(AddressOf(block)) == block <==> block < 0x10_0000
  {
    BlockOfAddress(block);
  }

  /** Two blocks share an address exactly if they agree modulo 2^20. */
  lemma AddressesCollide(b: nat, c: nat)
    ensures AddressOf(b) == AddressOf(c) <==> b % 0x10_0000 == c % 0x10_0000
  {
    ScaleMod(b);
    ScaleMod(c);
  }

  // ----- The allocator's state ---------------------------------------------------------------------

  datatype State = State(words: Words, totalBlocks: nat, used: nat, usable: nat)

  /** The blocks the search looks at: whole words only. */
  function Limit(s: State): nat { 32 * (s.totalBlocks / 32) }

  ghost predicate Fits(s: State) {
    Limit(s) <= 32 * |s.words| && s.used < TWO64 && s.usable < TWO64
  }

  /** A block the search can find. */
  ghost predicate Clear(s: State, b: nat) { b < Limit(s) <= 32 * |s.words| && !Bit(s.words, b) }

  /** Every block the search can find has an address of its own, below 4 GiB. */
  ghost predicate Low(s: State) { forall b: nat | Clear(s, b) :: b < 0x10_0000 }

  function Bumped(x: nat, inc: nat): nat { Wrapped(x + inc) }

  function Dropped(x: nat, inc: nat): nat
    requires inc < TWO32
  {
    Wrapped(x - inc)
  }

  ghost predicate AllocFails(s: State)
    requires Fits(s)
  {
    s.used >= s.usable || forall c: nat | c < Limit(s) :: Bit(s.words, c)
  }

  ghost function Taken(s: State, block: nat): State
    requires Fits(s) && block < Limit(s)
  {
    s.(words := SetBit(s.words, block), used := Bumped(s.used, 1), usable := Dropped(s.usable, 1))
  }

  ghost function Given(s: State, addr: nat): State
    requires Fits(s) && BlockOf(addr) < 32 * |s.words|
  {
    s.(words := ClearBit(s.words, BlockOf(addr)), used := Bumped(s.used, 0xffff_ffff),
      usable := Dropped(s.usable, 0xffff_ffff))
  }

  datatype Answer = OutOfMemory | Address(addr: nat)

  class PhysicalMemory {
    var words: array<bv32>
    var totalBlocks: nat
    var used: nat
    var usable: nat

    ghost function Value(): State
      reads this, words
    {
      State(words[..], totalBlocks, used, usable)
    }

    /** Bit numbers are C ints, so there are at most 2^31 of them. */
    ghost predicate Valid()
      reads this, words
    {
      Fits(Value()) && 32 * words.Length <= 0x8000_0000
    }

    method MapSet(bit: nat)
      requires bit < 32 * words.Length
      modifies words
      ensures words[..] == SetBit(old(words[..]), bit)
    {
      words[bit / 32] := With(words[bit / 32], bit % 32);
    }

    method MapUnset(bit: nat)
      requires bit < 32 * words.Length
      modifies words
      ensures words[..] == ClearBit(old(words[..]), bit)
    {
      words[bit / 32] := Without(words[bit / 32], bit % 32);
    }

    method UpdateBlocks(inc: nat)
      requires inc < TWO32
      modifies this`used, this`usable
      ensures used == Bumped(old(used), inc) && usable == Dropped(old(usable), inc)
    {
      used := Wrapped(used + inc);
      usable := Wrapped(usable - inc);
    }

    method FirstFree() returns (r: int)
      requires Valid()
      ensures IsFirstFree(words[..], 0, Limit(Value()), r)
    {
      r := FirstFreeStartingFrom(words, totalBlocks, 0);
      if r != -1 { return r; }
      return -1;
    }

    /** pmm_alloc. The kernel stops where this answers `OutOfMemory`. */
    method Alloc() returns (r: Answer, ghost block: int)
      requires Valid()
      modifies this`used, this`usable, words
      ensures Valid()
      ensures r.OutOfMemory? <==> old(AllocFails(Value()))
      ensures r.OutOfMemory? ==> Value() == old(Value())
      ensures r.Address? ==>
        && IsFirstFree(old(words[..]), 0, old(Limit(Value())), block) && block >= 0
        && r.addr == AddressOf(block) && Value() == Taken(old(Value()), block)
    {
      block := -1;
      if used >= usable { return OutOfMemory, -1; }
      var b := FirstFree();
      if b == -1 { return OutOfMemory, -1; }
      block := b;
      assert !Bit(words[..], b);
      MapSet(b);
      UpdateBlocks(1);
      r := Address(b * 0x1000 % 0x1_0000_0000);
    }

    /** pmm_free. */
    method FreeBlock(addr: nat)
      requires Valid() && BlockOf(addr) < 32 * words.Length
      modifies this`used, this`usable, words
      ensures Valid() && Value() == Given(old(Value()), addr)
    {
      var p := addr % 0x1_0000_0000;
      MapUnset(p / 0x1000);
      UpdateBlocks(0xffff_ffff);
    }
  }

  // ----- Runs --------------------------------------------------------------------------------------

  /** The allocator with what its callers hold. */
  datatype System = System(s: State, live: set<nat>, allocs: nat, frees: nat)

  datatype Event = Take(block: nat) | Give(addr: nat)

  /** A caller gives back only what it holds. */
  ghost predicate Step(a: System, e: Event, b: System) {
    && Fits(a.s)
    && match e
       case Take(block) =>
         && block < Limit(a.s) && !AllocFails(a.s) && IsFirstFree(a.s.words, 0, Limit(a.s), block)
         && b == System(Taken(a.s, block), a.live + {AddressOf(block)}, a.allocs + 1, a.frees)
       case Give(addr) =>
         && addr in a.live && BlockOf(addr) < 32 * |a.s.words|
         && b == System(Given(a.s, addr), a.live - {addr}, a.allocs, a.frees + 1)
  }

  ghost predicate StepAt(ss: seq<System>, es: seq<Event>, n: nat)
    requires |ss| == |es| + 1
  {
    n < |es| ==> Step(ss[n], es[n], ss[n + 1])
  }

  ghost predicate IsRun(ss: seq<System>, es: seq<Event>) {
    |ss| == |es| + 1 && forall n: nat :: StepAt(ss, es, n)
  }

  ghost function Blocks(live: set<nat>): set<nat> { set a | a in live :: a / 0x1000 }

  /** A live address names a block that is used now and was not at the start. */
  ghost predicate LiveOk(s: State, base: set<nat>, a: nat) {
    a % 0x1000 == 0 && a < 0x1_0000_0000 && a / 0x1000 < Limit(s) && a / 0x1000 !in base
  }

  ghost predicate MapInv(s0: State, s: State, live: set<nat>) {
    && Fits(s) && |s.words| == |s0.words| && s.totalBlocks == s0.totalBlocks
    && (forall a | a in live :: LiveOk(s, Used(s0.words), a))
    && Used(s.words) == Used(s0.words) + Blocks(live)
  }

  /** The counters have moved by `d`. */
  ghost predicate Counted(s0: State, s: State, d: nat) {
    UsedIs(s.used, s0.used, d) && SumIs(s.used, s.usable, s0.used, s0.usable)
  }

  ghost predicate UsedIs(used: nat, used0: nat, d: nat) { used == Wrapped(used0 + d) }

  ghost predicate SumIs(used: nat, usable: nat, used0: nat, usable0: nat) {
    Wrapped(used + usable) == Wrapped(used0 + usable0)
  }

  /** How far the counters have moved: one for each block taken, 2^32 - 1 for each given back. */
  function Moved(allocs: nat, frees: nat): nat { allocs + frees * 0xffff_ffff }

  ghost predicate CountInv(s0: State, x: System) { Counted(s0, x.s, Moved(x.allocs, x.frees)) }

  ghost predicate Inv(s0: State, x: System) {
    MapInv(s0, x.s, x.live) && CountInv(s0, x) && |x.live| == x.allocs - x.frees
  }

  lemma UsedMoves(used: nat, used0: nat, d: nat, inc: nat)
    requires UsedIs(used, used0, d)
    ensures UsedIs(Bumped(used, inc), used0, d + inc)
  {
    AddWrapped(used0 + d, inc);
  }

  lemma SumMoves(used: nat, usable: nat, used0: nat, usable0: nat, inc: nat)
    requires SumIs(used, usable, used0, usable0) && inc < TWO32
    ensures SumIs(Bumped(used, inc), Dropped(usable, inc), used0, usable0)
  {
    AddWrapped(used + inc, Dropped(usable, inc));
    AddWrapped(usable - inc, used + inc);
  }

  lemma TakeBlocks(live: set<nat>, block: nat)
    requires block < 0x10_0000
    ensures Blocks(live + {AddressOf(block)}) == Blocks(live) + {block}
  {
    ScaleMod(block);
    var l := live + {AddressOf(block)};
    assert AddressOf(block) in l && AddressOf(block) / 0x1000 == block;
    forall b | b in Blocks(live) + {block} ensures b in Blocks(l) {
      if b != block {
        var a :| a in live && a / 0x1000 == b;
        assert a in l;
      }
    }
  }

  lemma GiveBlocks(live: set<nat>, addr: nat)
    requires addr in live && forall a | a in live :: a % 0x1000 == 0
    ensures Blocks(live - {addr}) == Blocks(live) - {addr / 0x1000}
  {
    forall b | b in Blocks(live) - {addr / 0x1000} ensures b in Blocks(live - {addr}) {
      var a :| a in live && a / 0x1000 == b;
      assert a in live - {addr};
    }
    forall b | b in Blocks(live - {addr}) ensures b != addr / 0x1000 {
      var a :| a in live - {addr} && a / 0x1000 == b;
    }
  }

  lemma SmallAddress(block: nat, addr: nat)
    requires block < 0x10_0000 && addr == AddressOf(block)
    ensures addr % 0x1000 == 0 && addr / 0x1000 == block && addr < 0x1_0000_0000
  {
    ScaleMod(block);
  }

  lemma HeldIsUsed(s0: State, s: State, live: set<nat>, addr: nat)
    requires MapInv(s0, s, live)
    ensures addr in live ==> addr / 0x1000 in Used(s.words)
  {
    if addr in live { assert addr / 0x1000 in Blocks(live); }
  }

  lemma TakeIsNew(s0: State, s: State, live: set<nat>, block: nat, addr: nat)
    requires MapInv(s0, s, live) && block < Limit(s) && !Bit(s.words, block) && Low(s0)
    requires addr == AddressOf(block)
    ensures addr !in live && LiveOk(s, Used(s0.words), addr) && block < 0x10_0000
  {
    assert block !in Used(s.words) && Clear(s0, block);
    SmallAddress(block, addr);
    HeldIsUsed(s0, s, live, addr);
  }

  lemma TakeKeepsMap(s0: State, s: State, live: set<nat>, block: nat, addr: nat, s': State)
    requires MapInv(s0, s, live) && block < Limit(s) && !Bit(s.words, block) && Low(s0)
    requires addr == AddressOf(block) && s' == Taken(s, block)
    ensures MapInv(s0, s', live + {addr}) && |live + {addr}| == |live| + 1
  {
    TakeIsNew(s0, s, live, block, addr);
    SetBitAdds(s.words, block);
    TakeBlocks(live, block);
  }

  lemma CountsMove(s0: State, s: State, s': State, d: nat, inc: nat)
    requires Counted(s0, s, d) && inc < TWO32 && s'.used == Bumped(s.used, inc) && s'.usable == Dropped(s.usable, inc)
    ensures Counted(s0, s', d + inc)
  {
    UsedMoves(s.used, s0.used, d, inc);
    SumMoves(s.used, s.usable, s0.used, s0.usable, inc);
  }

  lemma StepCounts(s0: State, a: System, e: Event, b: System)
    requires CountInv(s0, a) && Step(a, e, b)
    ensures CountInv(s0, b)
  {
    CountsMove(s0, a.s, b.s, Moved(a.allocs, a.frees), if e.Take? then 1 else 0xffff_ffff);
  }

  lemma TakeStepMap(s0: State, a: System, block: nat, b: System)
    requires MapInv(s0, a.s, a.live) && Step(a, Take(block), b) && Low(s0)
    ensures MapInv(s0, b.s, b.live) && |b.live| == |a.live| + 1 && AddressOf(block) !in a.live
  {
    TakeIsNew(s0, a.s, a.live, block, AddressOf(block));
    TakeKeepsMap(s0, a.s, a.live, block, AddressOf(block), b.s);
  }

  lemma TakeKeepsInv(s0: State, a: System, block: nat, b: System)
    requires Inv(s0, a) && Step(a, Take(block), b) && Low(s0)
    ensures Inv(s0, b) && AddressOf(block) !in a.live
  {
    TakeStepMap(s0, a, block, b);
    StepCounts(s0, a, Take(block), b);
  }

  lemma GiveKeepsMap(s0: State, s: State, live: set<nat>, addr: nat)
    requires MapInv(s0, s, live) && addr in live && BlockOf(addr) < 32 * |s.words|
    ensures MapInv(s0, Given(s, addr), live - {addr})
  {
    assert LiveOk(s, Used(s0.words), addr);
    assert addr == addr / 0x1000 * 0x1000;
    assert BlockOf(addr) == addr / 0x1000;
    ClearBitRemoves(s.words, BlockOf(addr));
    GiveBlocks(live, addr);
  }

  lemma GiveKeepsInv(s0: State, a: System, addr: nat, b: System)
    requires Inv(s0, a) && Step(a, Give(addr), b)
    ensures Inv(s0, b)
  {
    GiveKeepsMap(s0, a.s, a.live, addr);
    StepCounts(s0, a, Give(addr), b);
  }

  /** Main result: over every run on memory whose free blocks are below 2^20, the live addresses are those of
      pairwise different blocks, none of them used at the start; the used blocks are exactly those and the
      ones used at the start; and the two counters keep their sum. */
  lemma {:induction false} RunKeepsInv(ss: seq<System>, es: seq<Event>, n: nat)
    requires IsRun(ss, es) && n < |ss| && Fits(ss[0].s) && Low(ss[0].s)
    requires ss[0] == System(ss[0].s, {}, 0, 0)
    ensures Inv(ss[0].s, ss[n])
  {
    if n > 0 {
      RunKeepsInv(ss, es, n - 1);
      assert StepAt(ss, es, n - 1);
      match es[n - 1] {
        case Take(block) => TakeKeepsInv(ss[0].s, ss[n - 1], block, ss[n]);
        case Give(addr) => GiveKeepsInv(ss[0].s, ss[n - 1], addr, ss[n]);
      }
    }
  }

  /** Main result: no address is handed out while it is held. */
  lemma TakenIsNew(ss: seq<System>, es: seq<Event>, n: nat)
    requires IsRun(ss, es) && n < |es| && Fits(ss[0].s) && Low(ss[0].s)
    requires ss[0] == System(ss[0].s, {}, 0, 0) && es[n].Take?
    ensures AddressOf(es[n].block) !in ss[n].live
    ensures |ss[n + 1].live| == |ss[n].live| + 1
  {
    RunKeepsInv(ss, es, n);
    assert StepAt(ss, es, n);
    TakeKeepsInv(ss[0].s, ss[n], es[n].block, ss[n + 1]);
  }

  /** Main result: when everything has been given back, the map is as it was at the start. */
  lemma AllGivenBack(ss: seq<System>, es: seq<Event>, n: nat)
    requires IsRun(ss, es) && n < |ss| && Fits(ss[0].s) && Low(ss[0].s)
    requires ss[0] == System(ss[0].s, {}, 0, 0) && ss[n].live == {}
    ensures Used(ss[n].s.words) == Used(ss[0].s.words)
  {
    RunKeepsInv(ss, es, n);
    assert Blocks({}) == {};
  }

  ghost predicate CountsHeld(used: nat, held: nat, frees: nat) {
    && used % 0x1_0000_0000 == held % 0x1_0000_0000
    && (used == held <==> frees % 0x1_0000_0000 == 0)
  }

  /** Main result: a free adds 2^32 - 1 to the used count. So modulo 2^32 the count is the number of blocks
      held, and as a 64-bit number it is exactly if the number of frees is a multiple of 2^32. */
  lemma UsedCountIff(s0: State, x: System)
    requires UsedIs(x.s.used, s0.used, Moved(x.allocs, x.frees)) && |x.live| == x.allocs - x.frees
    requires s0.used + |x.live| < TWO64
    ensures CountsHeld(x.s.used, s0.used + |x.live|, x.frees)
  {
    MovedCount(s0.used, x.s.used, |x.live|, x.allocs, x.frees);
  }

  lemma MovedCount(used0: nat, used: nat, live: nat, allocs: nat, frees: nat)
    requires UsedIs(used, used0, Moved(allocs, frees)) && live == allocs - frees && used0 + live < TWO64
    ensures CountsHeld(used, used0 + live, frees)
  {
    assert used0 + Moved(allocs, frees) == used0 + live + frees * 0x1_0000_0000;
    UsedCount(used0 + live, frees, used);
  }

  lemma UsedCount(held: nat, frees: nat, used: nat)
    requires held < TWO64 && used == Wrapped(held + frees * 0x1_0000_0000)
    ensures CountsHeld(used, held, frees)
  {
    var k := (held + frees * 0x1_0000_0000) / 0x1_0000_0000_0000_0000;
    assert used == held + (frees - k * 0x1_0000_0000) * 0x1_0000_0000;
    var d := frees - k * 0x1_0000_0000;
    LowWord(held, d);
    if frees % 0x1_0000_0000 == 0 {
      var f := frees / 0x1_0000_0000;
      assert frees * 0x1_0000_0000 == f * 0x1_0000_0000_0000_0000;
      WrapShift(held, f);
    }
    if used == held { LowWord(0, k); }
  }

  lemma LowWord(x: int, d: int)
    ensures (x + d * 0x1_0000_0000) % 0x1_0000_0000 == x % 0x1_0000_0000
  {
    var q := x / 0x1_0000_0000;
    assert x + d * 0x1_0000_0000 == (q + d) * 0x1_0000_0000 + x % 0x1_0000_0000;
  }
}
