/**
  Access rights of user pages. The hardware lets an access through only if every entry on the walk allows
  it; the manager makes each new table writable and gives it the user bit of the page it is made for.
 */
module PageRights {
  import opened PagingBits
  import opened PageTables

  /** What the hardware requires of each entry: to be writable, or to be open to user mode. */
  datatype Right = Writing | UserMode

  predicate Grants(e: Pte, w: Right) {
    e.present && match w case Writing => e.prop.writable case UserMode => e.prop.user
  }

  predicate Gives(prop: PageProperties, w: Right) {
    match w case Writing => prop.writable case UserMode => prop.user
  }

  /** The hardware check: every entry on the walk grants the access. */
  ghost predicate Allowed(m: Memory, r: int, p: seq<int>, w: Right)
    decreases |p|
  {
    p == [] || (
      var n := |p| - 1;
      && Allowed(m, r, p[..n], w) && TableAt(m, r, p[..n]).Some?
      && Grants(m(Cell(TableAt(m, r, p[..n]).value, p[n])), w))
  }

  lemma AllowedAlong(s: Vm, r: int, q: seq<int>, pdpt: int, pd: int, pt: int, w: Right)
    requires WF(s.mem, s.own) && Chain(s, r, q, pdpt, pd, pt)
    ensures Allowed(s.mem, r, q, w) <==>
      && Grants(s.mem(Cell(r, q[0])), w) && Grants(s.mem(Cell(pdpt, q[1])), w)
      && Grants(s.mem(Cell(pd, q[2])), w) && Grants(s.mem(Cell(pt, q[3])), w)
  {
    assert TableOk(s.mem, s.own, pdpt) && TableOk(s.mem, s.own, pd) && TableOk(s.mem, s.own, pt);
    assert q[..3] == [q[0], q[1], q[2]] && q[..3][..2] == [q[0], q[1]] && [q[0], q[1]][..1] == [q[0]]
      && [q[0]][..0] == [];
    assert Allowed(s.mem, r, [q[0]], w) <==> Grants(s.mem(Cell(r, q[0])), w);
    assert Allowed(s.mem, r, [q[0], q[1]], w) <==>
      Grants(s.mem(Cell(r, q[0])), w) && Grants(s.mem(Cell(pdpt, q[1])), w);
  }

  /** Every table already on the way to page `q` grants the access. */
  ghost predicate SoFar(m: Memory, r: int, q: seq<int>, w: Right)
    requires |q| == 4
  {
    m(Cell(r, q[0])).present ==> Grants(m(Cell(r, q[0])), w) && SoFarBelow(m, m(Cell(r, q[0])).frame, q, w)
  }

  ghost predicate SoFarBelow(m: Memory, pdpt: int, q: seq<int>, w: Right)
    requires |q| == 4
  {
    m(Cell(pdpt, q[1])).present ==>
      Grants(m(Cell(pdpt, q[1])), w) && SoFarLast(m(Cell(m(Cell(pdpt, q[1])).frame, q[2])), w)
  }

  ghost predicate SoFarLast(e: Pte, w: Right) { e.present ==> Grants(e, w) }

  /** A step of the nesting: what is granted after it, when new tables grant the access. */
  lemma StepGrants(s: Vm, f: int, i: int, prop: PageProperties, w: Right)
    requires FramesOk(s) && f in s.own && (s.mem(Cell(f, i)).present || s.frames != [])
    requires Gives(prop, w)
    ensures Grants(GetOrCreate(s, f, i, prop).mem(Cell(f, i)), w) <==>
      (s.mem(Cell(f, i)).present ==> Grants(s.mem(Cell(f, i)), w))
  {
  }

  lemma NestGrantsBelow(s1: Vm, r: int, q: seq<int>, prop: PageProperties, w: Right, pdpt: int, s2: Vm, pd: int, s3: Vm)
    requires Callable(s1, r, q) && Gives(prop, w)
    requires s1.mem(Cell(r, q[0])).present && pdpt == Child(s1, r, q[0]) && pdpt in s1.own
    requires s1.own[pdpt] == Place(r, [q[0]])
    requires s2 == GetOrCreate(s1, pdpt, q[1], prop) && pd == Child(s2, pdpt, q[1])
    requires s3 == GetOrCreate(s2, pd, q[2], prop)
    ensures s3.mem(Cell(r, q[0])) == s1.mem(Cell(r, q[0])) && Child(s3, pdpt, q[1]) == pd
    ensures Grants(s3.mem(Cell(pdpt, q[1])), w) && Grants(s3.mem(Cell(pd, q[2])), w) <==> SoFarBelow(s1.mem, pdpt, q, w)
  {
    Nest2Keeps(s1, r, q, prop);
    StepGrants(s1, pdpt, q[1], prop, w);
    Nest3Keeps(s2, r, q, prop, pdpt, pd);
    StepGrants(s2, pd, q[2], prop, w);
    CellKept(s2, pd, q[2], prop, Cell(r, q[0]));
    CellKept(s2, pd, q[2], prop, Cell(pdpt, q[1]));
    if !s1.mem(Cell(pdpt, q[1])).present { NewIsEmpty(s1, pdpt, q[1], prop, q[2]); }
  }

  lemma NestGrants(s: Vm, r: int, q: seq<int>, prop: PageProperties, w: Right)
    requires Callable(s, r, q) && Gives(prop, w)
    ensures var s3 := Nest(s, r, q, prop); var pdpt := Child(s3, r, q[0]); var pd := Child(s3, pdpt, q[1]);
      Grants(s3.mem(Cell(r, q[0])), w) && Grants(s3.mem(Cell(pdpt, q[1])), w) && Grants(s3.mem(Cell(pd, q[2])), w)
      <==> SoFar(s.mem, r, q, w)
  {
    var s1, s2, s3 := Nest1(s, r, q, prop), Nest2(s, r, q, prop), Nest(s, r, q, prop);
    Nest1Keeps(s, r, q, prop);
    StepGrants(s, r, q[0], prop, w);
    var pdpt := Child(s1, r, q[0]);
    Nest2Keeps(s1, r, q, prop);
    NestGrantsBelow(s1, r, q, prop, w, pdpt, s2, Child(s2, pdpt, q[1]), s3);
    if !s.mem(Cell(r, q[0])).present { NewIsEmpty(s, r, q[0], prop, q[1]); }
  }

  lemma LeafAllows(s3: Vm, s': Vm, r: int, q: seq<int>, pdpt: int, pd: int, pt: int, e: Pte, w: Right)
    requires Chain(s3, r, q, pdpt, pd, pt) && WF(s'.mem, s'.own) && s' == s3.(mem := Write(s3.mem, Cell(pt, q[3]), e))
    ensures Allowed(s'.mem, r, q, w) <==>
      && Grants(s3.mem(Cell(r, q[0])), w) && Grants(s3.mem(Cell(pdpt, q[1])), w)
      && Grants(s3.mem(Cell(pd, q[2])), w) && Grants(e, w)
  {
    assert s3.own[pt].prefix != s3.own[pd].prefix && s3.own[pt].prefix != s3.own[pdpt].prefix;
    AllowedAlong(s', r, q, pdpt, pd, pt, w);
  }

  lemma MapLeaf(s: Vm, r: int, q: seq<int>, page: int, prop: PageProperties, w: Right, s3: Vm, pdpt: int, pd: int)
    requires Callable(s, r, q) && s3 == Nest(s, r, q, Upper(prop)) && pdpt == Child(s3, r, q[0])
    requires pd == Child(s3, pdpt, q[1])
    ensures Allowed(Map(s, r, q, page, prop).mem, r, q, w) <==>
        && Grants(s3.mem(Cell(r, q[0])), w) && Grants(s3.mem(Cell(pdpt, q[1])), w)
        && Grants(s3.mem(Cell(pd, q[2])), w) && Gives(prop, w)
  {
    NestKeeps(s, r, q, Upper(prop));
    MapIsPointwise(s, r, q, page, prop);
    LeafAllows(s3, Map(s, r, q, page, prop), r, q, pdpt, pd, Leaf(s3, r, q), Pte(true, page, prop), w);
  }

  /** Main result: a page mapped for an access allows it exactly if the tables that were already on its way
      do; a page mapped without it never does. */
  lemma MapAllows(s: Vm, r: int, q: seq<int>, page: int, prop: PageProperties, w: Right)
    requires Callable(s, r, q)
    ensures Allowed(Map(s, r, q, page, prop).mem, r, q, w) <==> Gives(prop, w) && SoFar(s.mem, r, q, w)
  {
    var s3 := Nest(s, r, q, Upper(prop));
    MapLeaf(s, r, q, page, prop, w, s3, Child(s3, r, q[0]), Child(s3, Child(s3, r, q[0]), q[1]));
    if Gives(prop, w) { NestGrants(s, r, q, Upper(prop), w); }
  }

  // ----- Tables are always writable ----------------------------------------------------------------

  ghost predicate OpenAt(s: Vm, f: int, i: int) {
    f in s.own && |s.own[f].prefix| < 3 && UserPath(s.own[f].prefix + [i]) && s.mem(Cell(f, i)).present ==>
      s.mem(Cell(f, i)).prop.writable
  }

  ghost predicate TablesWritable(s: Vm) { forall f, i :: OpenAt(s, f, i) }

  lemma CreateKeepsWritable(s: Vm, f: int, i: int, prop: PageProperties)
    requires FramesOk(s) && TablesWritable(s) && prop.writable
    ensures TablesWritable(GetOrCreate(s, f, i, prop))
  {
    var s' := GetOrCreate(s, f, i, prop);
    forall a, j ensures OpenAt(s', a, j) {
      assert OpenAt(s, a, j);
    }
  }

  lemma NestKeepsWritable(s: Vm, r: int, q: seq<int>, prop: PageProperties)
    requires Callable(s, r, q) && TablesWritable(s) && prop.writable
    ensures TablesWritable(Nest(s, r, q, prop))
  {
    var s1, s2 := Nest1(s, r, q, prop), Nest2(s, r, q, prop);
    Nest1Keeps(s, r, q, prop);
    CreateKeepsWritable(s, r, q[0], prop);
    Nest2Keeps(s1, r, q, prop);
    CreateKeepsWritable(s1, Child(s1, r, q[0]), q[1], prop);
    CreateKeepsWritable(s2, Child(s2, Child(s2, r, q[0]), q[1]), q[2], prop);
  }

  lemma WriteKeepsWritable(s: Vm, f: int, i: int, e: Pte)
    requires TablesWritable(s)
    requires f in s.own && (|s.own[f].prefix| == 3 || !e.present)
    ensures TablesWritable(s.(mem := Write(s.mem, Cell(f, i), e)))
  {
    forall a, j ensures OpenAt(s.(mem := Write(s.mem, Cell(f, i), e)), a, j) {
      assert OpenAt(s, a, j);
    }
  }

  lemma PruneKeepsWritable(s: Vm, f: int, i: int)
    requires TablesWritable(s) && f in s.own
    ensures TablesWritable(Prune(s, f, i))
  {
    var s' := Prune(s, f, i);
    forall a, j ensures OpenAt(s', a, j) {
      assert OpenAt(s, a, j);
    }
  }

  /** Mapping and unmapping keep every table writable. */
  lemma MapKeepsWritable(s: Vm, r: int, q: seq<int>, page: int, prop: PageProperties)
    requires Callable(s, r, q) && TablesWritable(s)
    ensures TablesWritable(Map(s, r, q, page, prop))
  {
    var s3 := Nest(s, r, q, Upper(prop));
    NestKeeps(s, r, q, Upper(prop));
    NestKeepsWritable(s, r, q, Upper(prop));
    WriteKeepsWritable(s3, Leaf(s3, r, q), q[3], Pte(true, page, prop));
  }

  lemma PruneAllKeepsWritable(s4: Vm, r: int, q: seq<int>, pdpt: int, pd: int, pt: int)
    requires Sound(s4) && Chain(s4, r, q, pdpt, pd, pt) && TablesWritable(s4)
    ensures TablesWritable(PruneAll(s4, r, q))
  {
    PathParts(q);
    var s5 := Prune(s4, pd, q[2]);
    PruneKeepsWritable(s4, pd, q[2]);
    PruneKeeps(s4, pd, q[2]);
    assert s5.mem(Cell(pdpt, q[1])) == s4.mem(Cell(pdpt, q[1]));
    PruneKeepsWritable(s5, pdpt, q[1]);
    PruneKeeps(s5, pdpt, q[1]);
    PruneKeepsWritable(Prune(s5, pdpt, q[1]), r, q[0]);
  }

  lemma UnmapKeepsWritable(s: Vm, r: int, q: seq<int>)
    requires Callable(s, r, q) && TablesWritable(s)
    ensures TablesWritable(Unmap(s, r, q))
  {
    var s3, s4 := Nest(s, r, q, PageKernelWrite), Cleared(s, r, q);
    NestKeeps(s, r, q, PageKernelWrite);
    NestKeepsWritable(s, r, q, PageKernelWrite);
    WriteKeepsWritable(s3, Leaf(s3, r, q), q[3], s3.mem(Cell(Leaf(s3, r, q), q[3])).(present := false));
    ClearedKeeps(s, r, q);
    PruneAllKeepsWritable(s4, r, q, Child(s4, r, q[0]), Child(s4, Child(s4, r, q[0]), q[1]), Leaf(s4, r, q));
  }

  /** Main result: where every table is writable, a page can be written exactly if its own entry says so. */
  lemma WritesFollowPage(s: Vm, r: int, q: seq<int>, page: int, prop: PageProperties)
    requires Callable(s, r, q) && TablesWritable(s)
    ensures Allowed(Map(s, r, q, page, prop).mem, r, q, Writing) <==> prop.writable
  {
    MapAllows(s, r, q, page, prop, Writing);
    PathParts(q);
    assert OpenAt(s, r, q[0]) && EntryOk(s.mem, s.own, r, q[0]);
    var pdpt := Child(s, r, q[0]);
    assert OpenAt(s, pdpt, q[1]) && EntryOk(s.mem, s.own, pdpt, q[1]);
    assert OpenAt(s, Child(s, pdpt, q[1]), q[2]);
  }
}
