/**
  Runs of mapping and unmapping calls, on any roots and pages. Before each call the physical allocator may
  have any frames to give that no table uses, those freed by earlier calls among them.
 */
module PageRuns {
  import opened Common
  import opened PagingBits
  import opened PageTables

  datatype Op =
    | MapOp(root: int, page: seq<int>, frames: seq<int>, frame: int, prop: PageProperties)
    | UnmapOp(root: int, page: seq<int>, frames: seq<int>)

  ghost predicate Legal(s: Vm, op: Op) { Callable(s.(frames := op.frames), op.root, op.page) }

  ghost function Apply(s: Vm, op: Op): Vm
    requires |op.page| == 4
  {
    match op
    case MapOp(root, page, frames, frame, prop) => Map(s.(frames := frames), root, page, frame, prop)
    case UnmapOp(root, page, frames) => Unmap(s.(frames := frames), root, page)
  }

  ghost predicate StepAt(ss: seq<Vm>, ops: seq<Op>, n: nat)
    requires |ss| == |ops| + 1
  {
    n < |ops| ==> Legal(ss[n], ops[n]) && ss[n + 1] == Apply(ss[n], ops[n])
  }

  ghost predicate IsRun(ss: seq<Vm>, ops: seq<Op>) {
    |ss| == |ops| + 1 && Sound(ss[0]) && NoEmptyTable(ss[0]) && forall n: nat :: StepAt(ss, ops, n)
  }

  /** What a page should translate to: what the last call about it said, else what it did at the start. */
  ghost function Expected(m: Memory, ops: seq<Op>, r: int, q: seq<int>): Option<int> {
    if ops == [] then TableAt(m, r, q)
    else var op := ops[|ops| - 1];
      if op.root == r && op.page == q then (if op.MapOp? then Some(op.frame) else None)
      else Expected(m, ops[..|ops| - 1], r, q)
  }

  ghost predicate TranslatesAt(s: Vm, m: Memory, ops: seq<Op>, r: int, q: seq<int>) {
    IsRoot(s.own, r) && IsPage(q) ==> TableAt(s.mem, r, q) == Expected(m, ops, r, q)
  }

  ghost predicate SameRoots(s: Vm, s': Vm) { forall r :: IsRoot(s.own, r) <==> IsRoot(s'.own, r) }

  lemma ApplyKeeps(s: Vm, op: Op, s': Vm)
    requires NoEmptyTable(s) && Legal(s, op) && s' == Apply(s, op)
    ensures Sound(s') && NoEmptyTable(s')
    ensures Updates(s, s', op.root, op.page, if op.MapOp? then Some(op.frame) else None)
  {
    var u := s.(frames := op.frames);
    assert NoEmptyTable(u);
    match op
    case MapOp(root, page, frames, frame, prop) =>
      MapIsPointwise(u, root, page, frame, prop);
      MapFills(u, root, page, frame, prop);
      assert Updates(u, s', root, page, Some(frame));
    case UnmapOp(root, page, frames) =>
      UnmapIsPointwise(u, root, page);
      assert Updates(u, s', root, page, None);
  }

  lemma ExpectedStep(m: Memory, ops: seq<Op>, n: nat, r: int, q: seq<int>)
    requires n < |ops|
    ensures Expected(m, ops[..n + 1], r, q) ==
      if ops[n].root == r && ops[n].page == q then (if ops[n].MapOp? then Some(ops[n].frame) else None)
      else Expected(m, ops[..n], r, q)
  {
    assert ops[..n + 1][..n] == ops[..n];
  }

  /** Main result: after any run every page of every root translates as the last call about it said; the
      tables form a tree, none of them empty. */
  lemma {:induction false} RunTranslates(ss: seq<Vm>, ops: seq<Op>, n: nat)
    requires IsRun(ss, ops) && n < |ss|
    ensures Sound(ss[n]) && NoEmptyTable(ss[n]) && SameRoots(ss[0], ss[n])
    ensures forall r, q :: TranslatesAt(ss[n], ss[0].mem, ops[..n], r, q)
  {
    if n > 0 {
      RunTranslates(ss, ops, n - 1);
      assert StepAt(ss, ops, n - 1);
      ApplyKeeps(ss[n - 1], ops[n - 1], ss[n]);
      forall r, q ensures TranslatesAt(ss[n], ss[0].mem, ops[..n], r, q) {
        ExpectedStep(ss[0].mem, ops, n - 1, r, q);
        assert TranslatesAt(ss[n - 1], ss[0].mem, ops[..n - 1], r, q);
        assert IsRoot(ss[n - 1].own, r) <==> IsRoot(ss[n].own, r);
      }
    }
  }

  ghost predicate ExpectedBelow(m: Memory, ops: seq<Op>, r: int, p: seq<int>, q: seq<int>) {
    IsPage(q) && p <= q && Expected(m, ops, r, q).Some?
  }

  /** Main result: after any run there is a table at a place exactly if a page that should be mapped lies
      below it. Calls about other pages leave no trace in the set of tables. */
  lemma RunTables(ss: seq<Vm>, ops: seq<Op>, n: nat, r: int, p: seq<int>)
    requires IsRun(ss, ops) && n < |ss| && IsRoot(ss[0].own, r) && UserPath(p) && 1 <= |p| <= 3
    ensures (exists f :: f in ss[n].own && ss[n].own[f] == Place(r, p)) <==>
            (exists q :: ExpectedBelow(ss[0].mem, ops[..n], r, p, q))
  {
    RunTranslates(ss, ops, n);
    var s, m, done := ss[n], ss[0].mem, ops[..n];
    assert IsRoot(s.own, r);
    TablesFollowPages(s, r, p);
    if q :| Leads(s.mem, r, p, q) {
      assert TranslatesAt(s, m, done, r, q);
      assert ExpectedBelow(m, done, r, p, q);
    }
    if q :| ExpectedBelow(m, done, r, p, q) {
      assert TranslatesAt(s, m, done, r, q);
      assert Leads(s.mem, r, p, q);
    }
  }
}
