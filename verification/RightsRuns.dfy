/**
  Access rights over runs of mapping and unmapping calls. An entry that leads to a table keeps the properties
  it was made with for as long as the table exists, so what the hardware allows for a page depends on which
  call made each table on its way.
 */
module RightsRuns {
  import opened Common
  import opened PagingBits
  import opened PageTables
  import opened PageRights
  import opened PageProps
  import opened PageRuns

  // ----- Runs --------------------------------------------------------------------------------------

  /** What one call leaves of the properties `o` at the place `(r, p)`, if the entry is still present. */
  ghost function Next(op: Op, r: int, p: seq<int>, o: Option<PageProperties>): Option<PageProperties> {
    if op.root == r && op.page == p then (if op.MapOp? then Some(op.prop) else None)
    else if |p| == 4 || o.Some? then o
    else if op.MapOp? then Some(Upper(op.prop))
    else None
  }

  lemma PropStep(s: Vm, op: Op, s': Vm, r: int, p: seq<int>)
    requires NoEmptyTable(s) && Legal(s, op) && s' == Apply(s, op) && IsRoot(s.own, r) && 1 <= |p| <= 4 && UserPath(p)
    ensures |p| == 4 || PropAt(s'.mem, r, p).Some? ==> PropAt(s'.mem, r, p) == Next(op, r, p, PropAt(s.mem, r, p))
  {
    var u := s.(frames := op.frames);
    assert NoEmptyTable(u);
    if op.MapOp? {
      MapProps(u, op.root, op.page, op.frame, op.prop, r, p);
    } else {
      UnmapProps(u, op.root, op.page, s', r, p);
      if |p| == 4 && !(op.root == r && op.page == p) { UnmapKeepsPages(u, op.root, op.page, s', r, p); }
    }
  }

  /** A page that should be mapped lies below `p`. */
  ghost predicate AnyBelow(m: Memory, ops: seq<Op>, r: int, p: seq<int>) { exists q :: ExpectedBelow(m, ops, r, p, q) }

  /** The properties a run should leave at a place: a page has those of the last call about it; a table has
      those it was made with, by the first call for a page below it since there was none. */
  ghost function ExpectedProp(m: Memory, ops: seq<Op>, r: int, p: seq<int>): Option<PageProperties>
    requires p != []
  {
    if ops == [] then PropAt(m, r, p)
    else if |p| < 4 && !AnyBelow(m, ops, r, p) then None
    else Next(ops[|ops| - 1], r, p, ExpectedProp(m, ops[..|ops| - 1], r, p))
  }

  lemma TableThere(s: Vm, r: int, p: seq<int>)
    requires Sound(s) && IsRoot(s.own, r) && UserPath(p) && 1 <= |p| <= 3
    ensures PropAt(s.mem, r, p).Some? <==> exists f :: f in s.own && s.own[f] == Place(r, p)
  {
    PropFollowsWalk(s.mem, r, p);
    if TableAt(s.mem, r, p).Some? { WalkOwned(s.mem, s.own, r, p); }
    if f :| f in s.own && s.own[f] == Place(r, p) { assert TableOk(s.mem, s.own, f); }
  }

  lemma RunTablesThere(ss: seq<Vm>, ops: seq<Op>, n: nat, r: int, p: seq<int>)
    requires IsRun(ss, ops) && n < |ss| && IsRoot(ss[0].own, r) && UserPath(p) && 1 <= |p| <= 3
    ensures PropAt(ss[n].mem, r, p).Some? <==> AnyBelow(ss[0].mem, ops[..n], r, p)
  {
    RunTranslates(ss, ops, n);
    assert IsRoot(ss[n].own, r);
    TableThere(ss[n], r, p);
    RunTables(ss, ops, n, r, p);
  }

  lemma ExpectedPropStep(m: Memory, ops: seq<Op>, k: nat, r: int, p: seq<int>)
    requires p != [] && k < |ops|
    ensures ExpectedProp(m, ops[..k + 1], r, p) ==
      if |p| < 4 && !AnyBelow(m, ops[..k + 1], r, p) then None
      else Next(ops[k], r, p, ExpectedProp(m, ops[..k], r, p))
  {
    assert ops[..k + 1][..k] == ops[..k];
  }

  lemma RunPropStep(ss: seq<Vm>, ops: seq<Op>, k: nat, r: int, p: seq<int>)
    requires IsRun(ss, ops) && k < |ops| && IsRoot(ss[0].own, r) && UserPath(p) && 1 <= |p| <= 4
    ensures |p| == 4 || PropAt(ss[k + 1].mem, r, p).Some? ==>
      PropAt(ss[k + 1].mem, r, p) == Next(ops[k], r, p, PropAt(ss[k].mem, r, p))
  {
    RunTranslates(ss, ops, k);
    assert IsRoot(ss[k].own, r);
    assert StepAt(ss, ops, k);
    PropStep(ss[k], ops[k], ss[k + 1], r, p);
  }

  /** Main result: after any run every entry on the way to a page has the properties it should have. */
  lemma {:induction false} RunProps(ss: seq<Vm>, ops: seq<Op>, n: nat, r: int, p: seq<int>)
    requires IsRun(ss, ops) && n < |ss| && IsRoot(ss[0].own, r) && UserPath(p) && 1 <= |p| <= 4
    ensures PropAt(ss[n].mem, r, p) == ExpectedProp(ss[0].mem, ops[..n], r, p)
  {
    if n > 0 {
      RunProps(ss, ops, n - 1, r, p);
      RunPropStep(ss, ops, n - 1, r, p);
      ExpectedPropStep(ss[0].mem, ops, n - 1, r, p);
      if |p| < 4 { RunTablesThere(ss, ops, n, r, p); }
    }
  }

  /** Main result: after any run the hardware allows an access to a page if and only if the last call about it
      mapped it for that access, and each table on its way was made for a page mapped for that access. (For
      writing the second half always holds of tables made in the run.) */
  lemma RunAllowsIff(ss: seq<Vm>, ops: seq<Op>, n: nat, r: int, q: seq<int>, w: Right)
    requires IsRun(ss, ops) && n < |ss| && IsRoot(ss[0].own, r) && IsPage(q)
    ensures Allowed(ss[n].mem, r, q, w) <==>
      && Grant(ExpectedProp(ss[0].mem, ops[..n], r, q[..1]), w)
      && Grant(ExpectedProp(ss[0].mem, ops[..n], r, q[..2]), w)
      && Grant(ExpectedProp(ss[0].mem, ops[..n], r, q[..3]), w)
      && Grant(ExpectedProp(ss[0].mem, ops[..n], r, q), w)
  {
    AllowedByProps(ss[n].mem, r, q, w);
    UserPrefix(q, 1);
    UserPrefix(q, 2);
    UserPrefix(q, 3);
    RunProps(ss, ops, n, r, q[..1]);
    RunProps(ss, ops, n, r, q[..2]);
    RunProps(ss, ops, n, r, q[..3]);
    RunProps(ss, ops, n, r, q);
  }

  // ----- Where it fails ----------------------------------------------------------------------------

  lemma KernelFirst(s: Vm, r: int, q: seq<int>, q': seq<int>, f: int, s1: Vm)
    requires Callable(s, r, q) && !s.mem(Cell(r, q[0])).present && IsPage(q') && q'[..3] == q[..3]
    requires s1 == Map(s, r, q, f, PageKernelWrite)
    ensures Callable(s1, r, q') && PropAt(s1.mem, r, [q[0]]) == Some(PageKernelWrite)
  {
    MapIsPointwise(s, r, q, f, PageKernelWrite);
    MapHasAll(s, r, q, f, PageKernelWrite);
    SharedUpper(s1, r, q, q');
    var p := [q[0]];
    assert p <= q && p[..0] == [];
    MapProps(s, r, q, f, PageKernelWrite, r, p);
  }

  lemma UserSecond(s1: Vm, r: int, q: seq<int>, f: int, s2: Vm)
    requires Callable(s1, r, q) && PropAt(s1.mem, r, [q[0]]) == Some(PageKernelWrite)
    requires s2 == Map(s1, r, q, f, PageUserWrite)
    ensures PropAt(s2.mem, r, q) == Some(PageUserWrite) && !Allowed(s2.mem, r, q, UserMode)
  {
    MapProps(s1, r, q, f, PageUserWrite, r, [q[0]]);
    MapProps(s1, r, q, f, PageUserWrite, r, q);
    AllowedByProps(s2.mem, r, q, UserMode);
    assert q[..1] == [q[0]];
  }

  /** Main result: a page mapped for user mode whose tables were made for a kernel page is mapped, with the user
      bit in its own entry, and not open to user mode. */
  lemma KernelThenUser(s: Vm, r: int, q: seq<int>, q': seq<int>, f: int, f': int, s1: Vm, s2: Vm)
    requires Callable(s, r, q) && !s.mem(Cell(r, q[0])).present && IsPage(q') && q'[..3] == q[..3]
    requires s1 == Map(s, r, q, f, PageKernelWrite) && s2 == Map(s1, r, q', f', PageUserWrite)
    ensures TableAt(s2.mem, r, q') == Some(f') && PropAt(s2.mem, r, q') == Some(PageUserWrite)
    ensures !Allowed(s2.mem, r, q', UserMode)
  {
    KernelFirst(s, r, q, q', f, s1);
    assert q'[0] == q'[..3][0] == q[..3][0];
    UserSecond(s1, r, q', f', s2);
    MapIsPointwise(s1, r, q', f', PageUserWrite);
  }

  lemma SharedUpper(s: Vm, r: int, q: seq<int>, q': seq<int>)
    requires |q| == 4 && |q'| == 4 && q'[..3] == q[..3]
    ensures Missing(s.mem, r, q') == Missing(s.mem, r, q)
  {
    assert q'[0] == q'[..3][0] && q'[1] == q'[..3][1] && q'[2] == q'[..3][2];
  }
}
