/**
  Runs of the physical allocator for any number of blocks: exactly when none hands out an address that is
  still held, or memory that is in use, and exactly when a request is refused.
 */
module FrameRuns {
  import opened Common
  import opened FrameBitmap
  import opened Frames

  /** Free blocks have different addresses. */
  ghost predicate Spread(s: State) {
    forall b: nat, c: nat | Clear(s, b) && Clear(s, c) && AddressOf(b) == AddressOf(c) :: b == c
  }

  ghost predicate HeldOk(s: State, a: nat) {
    a % 0x1000 == 0 && a < 0x1_0000_0000 && forall b: nat | Clear(s, b) :: AddressOf(b) != a
  }

  ghost predicate Safe(x: System) { Fits(x.s) && Spread(x.s) && forall a | a in x.live :: HeldOk(x.s, a) }

  lemma AddressIsAligned(block: nat)
    ensures AddressOf(block) % 0x1000 == 0 && AddressOf(block) < 0x1_0000_0000
  {
    ScaleMod(block);
  }

  lemma AddressOfBlockOf(a: nat)
    requires a % 0x1000 == 0 && a < 0x1_0000_0000
    ensures AddressOf(BlockOf(a)) == a
  {
    ScaleMod(BlockOf(a));
  }

  lemma TakenClear(s: State, block: nat, s': State, b: nat)
    requires Fits(s) && block < Limit(s) && s' == Taken(s, block)
    ensures Clear(s', b) <==> Clear(s, b) && b != block
  {
    if b < Limit(s) { SetBitSets(s.words, block, b); }
  }

  lemma GivenClear(s: State, addr: nat, s': State, b: nat)
    requires Fits(s) && BlockOf(addr) < 32 * |s.words| && s' == Given(s, addr)
    ensures Clear(s', b) <==> Clear(s, b) || (b == BlockOf(addr) && b < Limit(s))
  {
    if b < Limit(s) { ClearBitClears(s.words, BlockOf(addr), b); }
  }

  lemma TakeStaysSafe(x: System, block: nat, y: System)
    requires Safe(x) && Step(x, Take(block), y)
    ensures Safe(y) && AddressOf(block) !in x.live
  {
    assert Clear(x.s, block);
    forall b: nat ensures Clear(y.s, b) <==> Clear(x.s, b) && b != block { TakenClear(x.s, block, y.s, b); }
    AddressIsAligned(block);
    forall a | a in y.live ensures HeldOk(y.s, a) {
      if a in x.live { assert HeldOk(x.s, a); }
    }
    assert forall a | a in x.live :: HeldOk(x.s, a);
  }

  lemma GiveStaysSafe(x: System, addr: nat, y: System)
    requires Safe(x) && Step(x, Give(addr), y)
    ensures Safe(y)
  {
    assert HeldOk(x.s, addr);
    AddressOfBlockOf(addr);
    var d := BlockOf(addr);
    forall b: nat ensures Clear(y.s, b) <==> Clear(x.s, b) || (b == d && b < Limit(x.s)) {
      GivenClear(x.s, addr, y.s, b);
    }
    forall a | a in y.live ensures HeldOk(y.s, a) { assert HeldOk(x.s, a); }
  }

  lemma {:induction false} RunStaysSafe(ss: seq<System>, es: seq<Event>, n: nat)
    requires IsRun(ss, es) && n < |ss| && Safe(ss[0])
    ensures Safe(ss[n])
  {
    if n > 0 {
      RunStaysSafe(ss, es, n - 1);
      assert StepAt(ss, es, n - 1);
      match es[n - 1] {
        case Take(block) => TakeStaysSafe(ss[n - 1], block, ss[n]);
        case Give(addr) => GiveStaysSafe(ss[n - 1], addr, ss[n]);
      }
    }
  }

  /** Event `n` hands out an address that is held. */
  ghost predicate Repeats(ss: seq<System>, es: seq<Event>, n: nat) {
    |ss| == |es| + 1 && n < |es| && es[n].Take? && AddressOf(es[n].block) in ss[n].live
  }

  ghost predicate Start(ss: seq<System>, s: State) { ss != [] && ss[0] == System(s, {}, 0, 0) }

  lemma SpreadIsEnough(s: State, ss: seq<System>, es: seq<Event>, n: nat)
    requires Fits(s) && Spread(s) && IsRun(ss, es) && Start(ss, s)
    ensures !Repeats(ss, es, n)
  {
    if n < |es| && es[n].Take? {
      RunStaysSafe(ss, es, n);
      assert StepAt(ss, es, n);
      TakeStaysSafe(ss[n], es[n].block, ss[n + 1]);
    }
  }

  // ----- A run that repeats an address -------------------------------------------------------------

  /** The first free block from `lo` on, when there is one at `c`. */
  lemma {:induction false} FirstClear(m: Words, lo: nat, c: nat, hi: nat) returns (f: nat)
    requires lo <= c < hi <= 32 * |m| && !Bit(m, c)
    ensures lo <= f <= c && IsFirstFree(m, lo, hi, f)
    decreases c - lo
  {
    if !Bit(m, lo) {
      f := lo;
    } else {
      f := FirstClear(m, lo + 1, c, hi);
    }
  }

  /** Enough is left on the counters to take `k` more blocks. */
  ghost predicate Credit(s: State, k: int) { Fits(s) && s.used + 2 * k < s.usable }

  lemma TakeCosts(s: State, f: nat, k: int, s': State)
    requires Credit(s, k) && k >= 1 && f < Limit(s) && s' == Taken(s, f)
    ensures Credit(s', k - 1) && Limit(s') == Limit(s) && |s'.words| == |s.words|
  {
  }

  ghost predicate Filled(s: State, lo: nat) { forall b: nat | b < lo :: !Clear(s, b) }

  lemma Consed(x: System, e: Event, ss: seq<System>, es: seq<Event>)
    requires IsRun(ss, es) && Step(x, e, ss[0])
    ensures IsRun([x] + ss, [e] + es)
  {
    var ss', es' := [x] + ss, [e] + es;
    forall n: nat ensures StepAt(ss', es', n) {
      if n > 0 { assert StepAt(ss, es, n - 1); }
    }
  }

  lemma FilledFirst(s: State, lo: nat, f: nat)
    requires Fits(s) && lo <= Limit(s) && Filled(s, lo) && IsFirstFree(s.words, lo, Limit(s), f)
    ensures IsFirstFree(s.words, 0, Limit(s), f)
  {
    forall c: nat | c < f ensures Bit(s.words, c) {
      if c < lo { assert !Clear(s, c); }
    }
  }

  lemma FilledOn(s: State, f: nat, s': State)
    requires Fits(s) && f < Limit(s) && IsFirstFree(s.words, 0, Limit(s), f) && s' == Taken(s, f)
    ensures Filled(s', f + 1)
  {
    forall b: nat | b < f + 1 ensures !Clear(s', b) {
      TakenClear(s, f, s', b);
    }
  }

  /** Taking blocks one after another reaches block `c`, with every free block before it held. */
  lemma {:induction false} TakesUpTo(x: System, lo: nat, c: nat) returns (ss: seq<System>, es: seq<Event>)
    requires Clear(x.s, c) && lo <= c && Filled(x.s, lo) && Credit(x.s, c - lo)
    ensures IsRun(ss, es) && ss[0] == x
    ensures var z := ss[|es|];
      && Fits(z.s) && Limit(z.s) == Limit(x.s) && |z.s.words| == |x.s.words| && z.s.used < z.s.usable
      && Clear(z.s, c) && IsFirstFree(z.s.words, 0, Limit(z.s), c) && x.live <= z.live
      && forall b: nat | b < c && Clear(x.s, b) :: AddressOf(b) in z.live
    decreases c - lo
  {
    var f := FirstClear(x.s.words, lo, c, Limit(x.s));
    FilledFirst(x.s, lo, f);
    if f == c {
      ss, es := [x], [];
    } else {
      var y := System(Taken(x.s, f), x.live + {AddressOf(f)}, x.allocs + 1, x.frees);
      TakeCosts(x.s, f, c - lo, y.s);
      FilledOn(x.s, f, y.s);
      TakenClear(x.s, f, y.s, c);
      var ss', es' := TakesUpTo(y, f + 1, c);
      Consed(x, Take(f), ss', es');
      ss, es := [x] + ss', [Take(f)] + es';
      forall b: nat | b < c && Clear(x.s, b) ensures AddressOf(b) in ss[|es|].live {
        TakenClear(x.s, f, y.s, b);
        assert AddressOf(f) in y.live;
      }
    }
  }

  lemma Snoced(ss: seq<System>, es: seq<Event>, e: Event, y: System)
    requires IsRun(ss, es) && Step(ss[|es|], e, y)
    ensures IsRun(ss + [y], es + [e])
  {
    var ss', es' := ss + [y], es + [e];
    forall n: nat ensures StepAt(ss', es', n) {
      if n < |es| { assert StepAt(ss, es, n); }
    }
  }

  /** From a state with credit, a run that hands out free block `c` when every free block before it is held. */
  lemma RunTo(x: System, c: nat) returns (ss: seq<System>, es: seq<Event>, n: nat)
    requires Credit(x.s, Limit(x.s)) && Clear(x.s, c)
    ensures IsRun(ss, es) && ss[0] == x && n < |es| && es[n] == Take(c)
    ensures forall b: nat | b < c && Clear(x.s, b) :: AddressOf(b) in ss[n].live
  {
    var ss', es' := TakesUpTo(x, 0, c);
    var z := ss'[|es'|];
    var y := System(Taken(z.s, c), z.live + {AddressOf(c)}, z.allocs + 1, z.frees);
    assert Step(z, Take(c), y);
    Snoced(ss', es', Take(c), y);
    ss, es, n := ss' + [y], es' + [Take(c)], |es'|;
  }

  // ----- Getting credit ----------------------------------------------------------------------------

  /** The counters of real memory: fewer than 2^32 blocks, 16 TiB; and bit numbers are C ints. */
  ghost predicate RealCounts(s: State) {
    Fits(s) && s.used < 0x1_0000_0000 && s.usable < 0x1_0000_0000 && Limit(s) <= 0x8000_0000
  }

  /** Taking one block and giving it back wraps the usable counter. */
  lemma WarmCounts(s: State, s1: State, s2: State)
    requires RealCounts(s) && s.used < s.usable
    requires s1.used == Bumped(s.used, 1) && s1.usable == Dropped(s.usable, 1)
    requires s2.used == Bumped(s1.used, 0xffff_ffff) && s2.usable == Dropped(s1.usable, 0xffff_ffff)
    ensures s2.used + 2 * Limit(s) < s2.usable
  {
    SmallWrapped(s.used + 1);
    SmallWrapped(s.usable - 1);
    SmallWrapped(s1.used + 0xffff_ffff);
    BelowZero(s1.usable - 0xffff_ffff);
  }

  lemma BelowZero(x: int)
    requires -TWO64 <= x < 0
    ensures Wrapped(x) == x + TWO64
  {
  }

  lemma WarmSteps(s: State, f: nat, a: nat, x1: System, x2: System)
    requires RealCounts(s) && s.used < s.usable && f < Limit(s) && IsFirstFree(s.words, 0, Limit(s), f)
    requires a == AddressOf(f) && x1 == System(Taken(s, f), {a}, 1, 0)
    requires BlockOf(a) < 32 * |s.words| && x2 == System(Given(x1.s, a), {}, 1, 1)
    ensures Step(System(s, {}, 0, 0), Take(f), x1) && Step(x1, Give(a), x2)
    ensures Credit(x2.s, Limit(x2.s))
  {
    WarmCounts(s, x1.s, x2.s);
    assert {} + {a} == {a} && {a} - {a} == {};
  }

  lemma WarmClear(s: State, f: nat, a: nat, s1: State, s2: State, g: nat)
    requires Fits(s) && f < Limit(s) && s1 == Taken(s, f) && g == BlockOf(a) <= f && s2 == Given(s1, a)
    ensures forall b: nat :: Clear(s2, b) <==> (Clear(s, b) && b != f) || b == g
  {
    forall b: nat ensures Clear(s2, b) <==> (Clear(s, b) && b != f) || b == g {
      TakenClear(s, f, s1, b);
      GivenClear(s1, a, s2, b);
    }
  }

  /** The run of those two calls; `g` is the block that the address of `f` is freed as. */
  lemma WarmUp(s: State, f: nat, a: nat, g: nat) returns (x2: System, ss: seq<System>, es: seq<Event>)
    requires RealCounts(s) && s.used < s.usable && f < Limit(s) && IsFirstFree(s.words, 0, Limit(s), f)
    requires a == AddressOf(f) && g == BlockOf(a) <= f
    ensures IsRun(ss, es) && Start(ss, s) && ss[|es|] == x2 && Credit(x2.s, Limit(x2.s))
    ensures forall b: nat :: Clear(x2.s, b) <==> (Clear(s, b) && b != f) || b == g
  {
    var x, x1 := System(s, {}, 0, 0), System(Taken(s, f), {a}, 1, 0);
    x2 := System(Given(x1.s, a), {}, 1, 1);
    WarmSteps(s, f, a, x1, x2);
    WarmClear(s, f, a, x1.s, x2.s, g);
    TwoSteps(x, Take(f), x1, Give(a), x2);
    ss, es := [x, x1, x2], [Take(f), Give(a)];
  }

  lemma TwoSteps(x: System, e: Event, x1: System, e1: Event, x2: System)
    requires Step(x, e, x1) && Step(x1, e1, x2)
    ensures IsRun([x, x1, x2], [e, e1])
  {
  }

  /** For any free block, the first one, and the state after it has been taken and given back. */
  lemma Warmed(s: State, c: nat) returns (f: nat, x2: System, ss: seq<System>, es: seq<Event>)
    requires RealCounts(s) && s.used < s.usable && Clear(s, c)
    ensures f <= c && IsFirstFree(s.words, 0, Limit(s), f) && Clear(s, f)
    ensures IsRun(ss, es) && Start(ss, s) && ss[|es|] == x2 && Credit(x2.s, Limit(x2.s))
    ensures forall b: nat :: Clear(x2.s, b) <==> (Clear(s, b) && b != f) || b == f % 0x10_0000
  {
    f := FirstClear(s.words, 0, c, Limit(s));
    BlockOfAddress(f);
    x2, ss, es := WarmUp(s, f, AddressOf(f), f % 0x10_0000);
  }

  lemma Joined(ss: seq<System>, es: seq<Event>, ss': seq<System>, es': seq<Event>)
    requires IsRun(ss, es) && IsRun(ss', es') && ss[|es|] == ss'[0]
    ensures IsRun(ss[..|es|] + ss', es + es')
  {
    var xs, us := ss[..|es|] + ss', es + es';
    forall n: nat ensures StepAt(xs, us, n) {
      if n < |es| {
        assert StepAt(ss, es, n);
      } else if n < |us| {
        assert StepAt(ss', es', n - |es|);
      }
    }
  }

  /** A run from the start that first gets credit and then hands out block `c`. */
  lemma WarmRun(s: State, x2: System, ss0: seq<System>, es0: seq<Event>, c: nat)
    returns (ss: seq<System>, es: seq<Event>, n: nat)
    requires IsRun(ss0, es0) && Start(ss0, s) && ss0[|es0|] == x2 && Credit(x2.s, Limit(x2.s)) && Clear(x2.s, c)
    ensures IsRun(ss, es) && Start(ss, s) && n < |es| && es[n] == Take(c)
    ensures forall b: nat | b < c && Clear(x2.s, b) :: AddressOf(b) in ss[n].live
  {
    var ss', es', n' := RunTo(x2, c);
    Joined(ss0, es0, ss', es');
    ss, es, n := ss0[..|es0|] + ss', es0 + es', |es0| + n';
  }

  /** Without credit nothing happens at all. */
  lemma Stuck(s: State, ss: seq<System>, es: seq<Event>)
    requires IsRun(ss, es) && Start(ss, s) && s.used >= s.usable
    ensures es == []
  {
    assert StepAt(ss, es, 0);
  }

  // ----- Addresses handed out twice ----------------------------------------------------------------

  /** The block that has the address of `b` after the first block `f` has been taken and given back. */
  lemma Twin(f: nat, b: nat) returns (twin: nat)
    ensures twin <= b && AddressOf(twin) == AddressOf(b) && twin == if b == f then f % 0x10_0000 else b
  {
    twin := if b == f then f % 0x10_0000 else b;
    AddressesCollide(twin, b);
  }

  /** From two free blocks with one address, a run that hands it out twice. */
  lemma RepeatingRun(s: State, b: nat, c: nat) returns (ss: seq<System>, es: seq<Event>, n: nat)
    requires RealCounts(s) && s.used < s.usable
    requires Clear(s, b) && Clear(s, c) && b < c && AddressOf(b) == AddressOf(c)
    ensures IsRun(ss, es) && Start(ss, s) && Repeats(ss, es, n)
  {
    var f, x2, ss0, es0 := Warmed(s, b);
    var twin := Twin(f, b);
    assert Clear(x2.s, twin) && Clear(x2.s, c);
    ss, es, n := WarmRun(s, x2, ss0, es0, c);
    assert AddressOf(twin) in ss[n].live;
  }

  ghost predicate RunRepeats(s: State, ss: seq<System>, es: seq<Event>, n: nat) {
    IsRun(ss, es) && Start(ss, s) && Repeats(ss, es, n)
  }

  /** No two free blocks agree modulo 2^20. */
  ghost predicate NoTwins(s: State) {
    forall b: nat, c: nat | Clear(s, b) && Clear(s, c) && b < c :: b % 0x10_0000 != c % 0x10_0000
  }

  lemma NoTwinsIsSpread(s: State)
    ensures NoTwins(s) <==> Spread(s)
  {
    forall b: nat, c: nat ensures AddressOf(b) == AddressOf(c) <==> b % 0x10_0000 == c % 0x10_0000 {
      AddressesCollide(b, c);
    }
  }

  /** Main result: with the counters of real memory, no run ever hands out an address that is held if and only
      if no two free blocks agree modulo 2^20, or the counters refuse everything from the start. */
  lemma NeverRepeatsIff(s: State)
    requires RealCounts(s)
    ensures (forall ss, es, n :: !RunRepeats(s, ss, es, n)) <==> NoTwins(s) || s.used >= s.usable
  {
    NoTwinsIsSpread(s);
    if s.used >= s.usable {
      forall ss, es, n ensures !RunRepeats(s, ss, es, n) {
        if IsRun(ss, es) && Start(ss, s) { Stuck(s, ss, es); }
      }
    } else if Spread(s) {
      forall ss, es, n ensures !RunRepeats(s, ss, es, n) {
        if IsRun(ss, es) && Start(ss, s) { SpreadIsEnough(s, ss, es, n); }
      }
    } else {
      var b: nat, c: nat :| Clear(s, b) && Clear(s, c) && AddressOf(b) == AddressOf(c) && b != c;
      var ss, es, n := RepeatingRun(s, if b < c then b else c, if b < c then c else b);
      assert RunRepeats(s, ss, es, n);
    }
  }

  // ----- Memory handed out that is in use ----------------------------------------------------------

  /** Event `n` hands out an address whose own block is marked as used, by whoever holds or reserved it. */
  ghost predicate Overlaps(ss: seq<System>, es: seq<Event>, n: nat) {
    && |ss| == |es| + 1 && n < |es| && es[n].Take?
    && BlockOf(AddressOf(es[n].block)) in Used(ss[n].s.words)
  }

  ghost predicate RunOverlaps(s: State, ss: seq<System>, es: seq<Event>, n: nat) {
    IsRun(ss, es) && Start(ss, s) && Overlaps(ss, es, n)
  }

  /** One step hands out memory in use exactly if its block is not below 2^20. */
  lemma OverlapsIff(ss: seq<System>, es: seq<Event>, n: nat)
    requires IsRun(ss, es) && n < |es| && es[n].Take?
    ensures Overlaps(ss, es, n) <==> es[n].block >= 0x10_0000
  {
    assert StepAt(ss, es, n);
    BlockOfAddress(es[n].block);
  }

  lemma {:induction false} RunStaysLow(ss: seq<System>, es: seq<Event>, n: nat)
    requires IsRun(ss, es) && n < |ss| && Low(ss[0].s)
    ensures Low(ss[n].s)
  {
    if n > 0 {
      RunStaysLow(ss, es, n - 1);
      assert StepAt(ss, es, n - 1);
      forall b: nat | Clear(ss[n].s, b) ensures b < 0x10_0000 {
        if es[n - 1].Take? {
          TakenClear(ss[n - 1].s, es[n - 1].block, ss[n].s, b);
        } else {
          GivenClear(ss[n - 1].s, es[n - 1].addr, ss[n].s, b);
        }
      }
    }
  }

  lemma LowIsEnough(s: State, ss: seq<System>, es: seq<Event>, n: nat)
    requires IsRun(ss, es) && Start(ss, s) && Low(s)
    ensures !Overlaps(ss, es, n)
  {
    if n < |es| && es[n].Take? {
      RunStaysLow(ss, es, n);
      assert StepAt(ss, es, n);
      assert Clear(ss[n].s, es[n].block);
      OverlapsIff(ss, es, n);
    }
  }

  lemma OneTake(s: State, f: nat) returns (ss: seq<System>, es: seq<Event>, n: nat)
    requires Fits(s) && s.used < s.usable && f < Limit(s) && IsFirstFree(s.words, 0, Limit(s), f)
    ensures IsRun(ss, es) && Start(ss, s) && n < |es| && es[n] == Take(f)
  {
    var x, y := System(s, {}, 0, 0), System(Taken(s, f), {} + {AddressOf(f)}, 1, 0);
    assert IsRun([y], []);
    Consed(x, Take(f), [y], []);
    ss, es, n := [x] + [y], [Take(f)] + [], 0;
  }

  /** From a free block above 2^20, a run that hands out memory in use. */
  lemma OverlappingRun(s: State, c: nat) returns (ss: seq<System>, es: seq<Event>, n: nat)
    requires RealCounts(s) && s.used < s.usable && Clear(s, c) && c >= 0x10_0000
    ensures IsRun(ss, es) && Start(ss, s) && Overlaps(ss, es, n)
  {
    var f, x2, ss0, es0 := Warmed(s, c);
    if f == c {
      ss, es, n := OneTake(s, c);
    } else {
      ss, es, n := WarmRun(s, x2, ss0, es0, c);
    }
    OverlapsIff(ss, es, n);
  }

  /** Main result: with the counters of real memory, no run ever hands out memory that is in use if and only if
      every free block is below 2^20, or the counters refuse everything from the start. */
  lemma NeverOverlapsIff(s: State)
    requires RealCounts(s)
    ensures (forall ss, es, n :: !RunOverlaps(s, ss, es, n)) <==> Low(s) || s.used >= s.usable
  {
    if s.used >= s.usable {
      forall ss, es, n ensures !RunOverlaps(s, ss, es, n) {
        if IsRun(ss, es) && Start(ss, s) { Stuck(s, ss, es); }
      }
    } else if Low(s) {
      forall ss, es, n ensures !RunOverlaps(s, ss, es, n) {
        if IsRun(ss, es) && Start(ss, s) { LowIsEnough(s, ss, es, n); }
      }
    } else {
      var c: nat :| Clear(s, c) && c >= 0x10_0000;
      var ss, es, n := OverlappingRun(s, c);
      assert RunOverlaps(s, ss, es, n);
    }
  }

  lemma Apart(b: nat, c: nat)
    requires b < c <= b + 0x10_0000
    ensures b % 0x10_0000 == c % 0x10_0000 <==> c == b + 0x10_0000
  {
  }

  lemma TwinsIn(s: State, lo: nat, hi: nat)
    requires Fits(s) && lo < hi == Limit(s) && forall b: nat | b < hi :: Clear(s, b) <==> lo <= b
    ensures NoTwins(s) <==> hi - lo <= 0x10_0000
  {
    if hi - lo > 0x10_0000 {
      Apart(lo, lo + 0x10_0000);
      assert Clear(s, lo) && Clear(s, lo + 0x10_0000);
    } else {
      forall b: nat, c: nat | Clear(s, b) && Clear(s, c) && b < c ensures b % 0x10_0000 != c % 0x10_0000 {
        Apart(b, c);
      }
    }
  }

  /** Main result: memory whose first `lo` blocks are reserved and whose others are free. No address is handed
      out twice exactly up to 2^20 free blocks, and no memory in use exactly up to 2^20 blocks in all. */
  lemma FreeMemoryIff(s: State, lo: nat)
    requires RealCounts(s) && s.used < s.usable && lo < Limit(s)
    requires forall b: nat | b < Limit(s) :: Clear(s, b) <==> lo <= b
    ensures (forall ss, es, n :: !RunRepeats(s, ss, es, n)) <==> Limit(s) - lo <= 0x10_0000
    ensures (forall ss, es, n :: !RunOverlaps(s, ss, es, n)) <==> Limit(s) <= 0x10_0000
  {
    NeverRepeatsIff(s);
    NeverOverlapsIff(s);
    TwinsIn(s, lo, Limit(s));
    assert Clear(s, Limit(s) - 1);
  }

  // ----- When an allocation is refused -------------------------------------------------------------

  lemma {:induction false} RunCounts(ss: seq<System>, es: seq<Event>, n: nat)
    requires IsRun(ss, es) && n < |ss| && Fits(ss[0].s) && ss[0].allocs == 0 && ss[0].frees == 0
    ensures Fits(ss[n].s) && CountInv(ss[0].s, ss[n])
  {
    if n > 0 {
      RunCounts(ss, es, n - 1);
      assert StepAt(ss, es, n - 1);
      StepCounts(ss[0].s, ss[n - 1], es[n - 1], ss[n]);
    }
  }

  /** By how much the counters have moved in a run. */
  function Drift(x: System): nat { Moved(x.allocs, x.frees) }

  ghost predicate UsableIs(usable: nat, usable0: nat, d: nat) { usable == Wrapped(usable0 - d) }

  lemma Remaining(used: nat, usable: nat, used0: nat, usable0: nat, d: nat)
    requires usable < 0x1_0000_0000_0000_0000
    requires UsedIs(used, used0, d) && SumIs(used, usable, used0, usable0)
    ensures UsableIs(usable, usable0, d)
  {
    AddWrapped(used + usable, 0 - used);
    AddWrapped(used0 + usable0, 0 - used);
    AddWrapped(used0 + d, 0 - used0 - usable0);
    Opposite(used - used0 - usable0, d - usable0);
    SmallWrapped(usable);
  }

  /** Numbers that agree modulo 2^64 have opposites that do. */
  lemma Opposite(x: int, y: int)
    requires Wrapped(x) == Wrapped(y)
    ensures Wrapped(-x) == Wrapped(-y)
  {
    var m := 0x1_0000_0000_0000_0000;
    var k := x / m - y / m;
    assert -y == -x + k * m;
    WrapShift(-x, k);
  }

  lemma RunCounters(ss: seq<System>, es: seq<Event>, n: nat)
    requires IsRun(ss, es) && n < |ss| && Fits(ss[0].s) && ss[0].allocs == 0 && ss[0].frees == 0
    ensures Fits(ss[n].s) && UsedIs(ss[n].s.used, ss[0].s.used, Drift(ss[n]))
    ensures UsableIs(ss[n].s.usable, ss[0].s.usable, Drift(ss[n]))
  {
    RunCounts(ss, es, n);
    Remaining(ss[n].s.used, ss[n].s.usable, ss[0].s.used, ss[0].s.usable, Drift(ss[n]));
  }

  lemma FailsIff(s: State, b: nat)
    requires Fits(s) && Clear(s, b)
    ensures AllocFails(s) <==> s.used >= s.usable
  {
  }

  /** Main result: in any run, with a free block to be found, an allocation is refused exactly if the two
      counters, moved by what the run took and gave, have met. */
  lemma RefusesIff(ss: seq<System>, es: seq<Event>, n: nat, b: nat)
    requires IsRun(ss, es) && n < |ss| && Fits(ss[0].s) && ss[0].allocs == 0 && ss[0].frees == 0 && Clear(ss[n].s, b)
    ensures Fits(ss[n].s)
    ensures AllocFails(ss[n].s) <==> Wrapped(ss[0].s.used + Drift(ss[n])) >= Wrapped(ss[0].s.usable - Drift(ss[n]))
  {
    RunCounters(ss, es, n);
    FailsIff(ss[n].s, b);
  }

  lemma Halfway(used: nat, usable: nat, d: nat)
    requires d <= usable < 0x1_0000_0000_0000_0000 && used + d < 0x1_0000_0000_0000_0000
    ensures Wrapped(used + d) >= Wrapped(usable - d) <==> used + 2 * d >= usable
  {
    SmallWrapped(used + d);
    SmallWrapped(usable - d);
  }

  lemma PastZero(used: nat, usable: nat, d: nat)
    requires usable < d && used + d < 0x8000_0000_0000_0000
    ensures Wrapped(used + d) < Wrapped(usable - d)
  {
    SmallWrapped(used + d);
    WrapShift(usable - d, 1);
    SmallWrapped(usable - d + 0x1_0000_0000_0000_0000);
  }

  /** Without frees it is refused once half of what was left at the start is taken. */
  lemma RefusesAtHalf(ss: seq<System>, es: seq<Event>, n: nat, b: nat)
    requires IsRun(ss, es) && n < |ss| && Fits(ss[0].s) && ss[0].allocs == 0 && ss[0].frees == 0 && Clear(ss[n].s, b)
    requires ss[n].frees == 0 && ss[n].allocs <= ss[0].s.usable && ss[0].s.used + ss[n].allocs < 0x1_0000_0000_0000_0000
    ensures Fits(ss[n].s) && (AllocFails(ss[n].s) <==> ss[0].s.used + 2 * ss[n].allocs >= ss[0].s.usable)
  {
    RefusesIff(ss, es, n, b);
    Halfway(ss[0].s.used, ss[0].s.usable, ss[n].allocs);
  }

  /** Once they have moved by more than was usable, as with real memory they have after one free, the usable
      counter has wrapped and nothing is refused. */
  lemma NotRefusedAfterFree(ss: seq<System>, es: seq<Event>, n: nat, b: nat)
    requires IsRun(ss, es) && n < |ss| && Fits(ss[0].s) && ss[0].allocs == 0 && ss[0].frees == 0 && Clear(ss[n].s, b)
    requires ss[0].s.usable < Drift(ss[n]) && ss[0].s.used + Drift(ss[n]) < 0x8000_0000_0000_0000
    ensures Fits(ss[n].s) && !AllocFails(ss[n].s)
  {
    RefusesIff(ss, es, n, b);
    PastZero(ss[0].s.used, ss[0].s.usable, Drift(ss[n]));
  }
}
