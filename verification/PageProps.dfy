/**
  The properties of the entries on a walk, and what mapping and unmapping do to them: an entry that leads to a
  table keeps the properties it was made with for as long as the table exists.
 */
module PageProps {
  import opened Common
  import opened PagingBits
  import opened PageTables
  import opened PageRights

  /** The properties in the last entry of the walk along `p`, if that entry is present. */
  ghost function PropAt(m: Memory, r: int, p: seq<int>): Option<PageProperties>
    requires p != []
  {
    match TableAt(m, r, p[..|p| - 1])
    case None => None
    case Some(t) =>
      var e := m(Cell(t, p[|p| - 1]));
      if e.present then Some(e.prop) else None
  }

  lemma PropFollowsWalk(m: Memory, r: int, p: seq<int>)
    requires p != []
    ensures PropAt(m, r, p).Some? <==> TableAt(m, r, p).Some?
  {
  }

  ghost predicate Grant(o: Option<PageProperties>, w: Right) { o.Some? && Gives(o.value, w) }

  /** The hardware's check, entry by entry. */
  lemma AllowedByProps(m: Memory, r: int, q: seq<int>, w: Right)
    requires |q| == 4
    ensures Allowed(m, r, q, w) <==>
      && Grant(PropAt(m, r, q[..1]), w) && Grant(PropAt(m, r, q[..2]), w)
      && Grant(PropAt(m, r, q[..3]), w) && Grant(PropAt(m, r, q), w)
  {
    assert q[..4] == q;
    AllowedStep(m, r, q[..4], w);
    AllowedStep(m, r, q[..3], w);
    AllowedStep(m, r, q[..2], w);
    AllowedStep(m, r, q[..1], w);
    assert q[..4][..3] == q[..3] && q[..3][..2] == q[..2] && q[..2][..1] == q[..1] && q[..1][..0] == [];
  }

  lemma AllowedStep(m: Memory, r: int, p: seq<int>, w: Right)
    requires p != []
    ensures Allowed(m, r, p, w) <==> Allowed(m, r, p[..|p| - 1], w) && Grant(PropAt(m, r, p), w)
  {
  }

  // ----- What a call does to the properties --------------------------------------------------------

  lemma CreateProps(m: Memory, own: Owners, f: int, i: int, g: int, prop: PageProperties, r: int, p: seq<int>)
    requires CanCreate(m, own, f, i, g) && IsRoot(own, r) && 1 <= |p| <= 4 && UserPath(p)
    ensures PropAt(Create(m, f, i, g, prop), r, p)
         == if r == own[f].root && p == own[f].prefix + [i] then Some(prop) else PropAt(m, r, p)
  {
    var n := |p| - 1;
    var m' := Create(m, f, i, g, prop);
    UserPrefix(p, n);
    assert p[..n] + [p[n]] == p;
    CreateWalks(m, own, f, i, g, prop, r, p[..n]);
    assert TableOk(m, own, f);
    if TableAt(m, r, p[..n]).Some? {
      WalkOwned(m, own, r, p[..n]);
    }
  }

  lemma FollowProps(s: Vm, r: int, p: seq<int>, f: int, i: int, prop: PageProperties, r': int, p': seq<int>)
    requires Ready(s, r, p, f, i) && IsRoot(s.own, r') && 1 <= |p'| <= 4 && UserPath(p')
    ensures PropAt(GetOrCreate(s, f, i, prop).mem, r', p')
         == if r' == r && p' == p + [i] && PropAt(s.mem, r', p').None? then Some(prop) else PropAt(s.mem, r', p')
  {
    assert TableOk(s.mem, s.own, f);
    if p' == p + [i] { assert p'[..|p'| - 1] == p; }
    if !s.mem(Cell(f, i)).present { CreateProps(s.mem, s.own, f, i, s.frames[0], prop, r', p'); }
  }

  /** What following or making the tables to page `q` leaves at `(r', p')`. */
  ghost function Made(o: Option<PageProperties>, prop: PageProperties, there: bool): Option<PageProperties> {
    if there && o.None? then Some(prop) else o
  }

  lemma NestProps(s: Vm, r: int, q: seq<int>, prop: PageProperties, r': int, p': seq<int>)
    requires Callable(s, r, q) && IsRoot(s.own, r') && 1 <= |p'| <= 4 && UserPath(p')
    ensures PropAt(Nest(s, r, q, prop).mem, r', p') == Made(PropAt(s.mem, r', p'), prop, r' == r && |p'| < 4 && p' <= q)
  {
    var s1, s2 := Nest1(s, r, q, prop), Nest2(s, r, q, prop);
    PathParts(q);
    Nest1Keeps(s, r, q, prop);
    FollowProps(s, r, [], r, q[0], prop, r', p');
    var pdpt := Child(s1, r, q[0]);
    Nest2Keeps(s1, r, q, prop);
    FollowProps(s1, r, [q[0]], pdpt, q[1], prop, r', p');
    var pd := Child(s2, pdpt, q[1]);
    Nest3Keeps(s2, r, q, prop, pdpt, pd);
    FollowProps(s2, r, [q[0], q[1]], pd, q[2], prop, r', p');
    PrefixOf(p', q);
  }

  lemma PrefixOf(p: seq<int>, q: seq<int>)
    requires |q| == 4 && 1 <= |p| <= 4
    ensures |p| < 4 && p <= q <==> p == [q[0]] || p == [q[0], q[1]] || p == [q[0], q[1], q[2]]
  {
  }

  lemma LeafProps(m: Memory, own: Owners, f: int, i: int, e: Pte, r: int, p: seq<int>)
    requires WF(m, own) && f in own && |own[f].prefix| == 3 && IsRoot(own, r) && 1 <= |p| <= 4 && UserPath(p)
    ensures PropAt(Write(m, Cell(f, i), e), r, p)
         == if r == own[f].root && p == own[f].prefix + [i] then (if e.present then Some(e.prop) else None)
            else PropAt(m, r, p)
  {
    var n := |p| - 1;
    var m' := Write(m, Cell(f, i), e);
    UserPrefix(p, n);
    assert p[..n] + [p[n]] == p;
    WalkKept(m, m', own, r, p[..n], f, i);
    assert TableOk(m, own, f);
    if p == own[f].prefix + [i] { assert p[..n] == own[f].prefix; }
    if TableAt(m, r, p[..n]).Some? { WalkOwned(m, own, r, p[..n]); }
  }

  lemma LeafOfPage(s: Vm, r: int, q: seq<int>, prop: PageProperties)
    requires Callable(s, r, q)
    ensures var s3 := Nest(s, r, q, prop); var pt := Leaf(s3, r, q);
      WF(s3.mem, s3.own) && pt in s3.own && s3.own[pt].root == r && |s3.own[pt].prefix| == 3
        && s3.own[pt].prefix + [q[3]] == q
    ensures forall r' | IsRoot(s.own, r') :: IsRoot(Nest(s, r, q, prop).own, r')
  {
    NestKeeps(s, r, q, prop);
    PathParts(q);
  }

  /** Mapping: the page gets its properties, each table made on its way is writable and otherwise like it, and
      every other entry keeps what it had. */
  lemma MapProps(s: Vm, r: int, q: seq<int>, page: int, prop: PageProperties, r': int, p': seq<int>)
    requires Callable(s, r, q) && IsRoot(s.own, r') && 1 <= |p'| <= 4 && UserPath(p')
    ensures PropAt(Map(s, r, q, page, prop).mem, r', p')
         == if r' == r && p' == q then Some(prop)
            else Made(PropAt(s.mem, r', p'), Upper(prop), r' == r && |p'| < 4 && p' <= q)
  {
    var s3 := Nest(s, r, q, Upper(prop));
    NestProps(s, r, q, Upper(prop), r', p');
    LeafOfPage(s, r, q, Upper(prop));
    LeafProps(s3.mem, s3.own, Leaf(s3, r, q), q[3], Pte(true, page, prop), r', p');
  }

  lemma ClearedProps(s: Vm, r: int, q: seq<int>, r': int, p': seq<int>)
    requires Callable(s, r, q) && IsRoot(s.own, r') && 1 <= |p'| <= 4 && UserPath(p')
    ensures PropAt(Cleared(s, r, q).mem, r', p')
         == if r' == r && p' == q then None
            else Made(PropAt(s.mem, r', p'), PageKernelWrite, r' == r && |p'| < 4 && p' <= q)
  {
    var s3 := Nest(s, r, q, PageKernelWrite);
    var pt := Leaf(s3, r, q);
    NestProps(s, r, q, PageKernelWrite, r', p');
    LeafOfPage(s, r, q, PageKernelWrite);
    LeafProps(s3.mem, s3.own, pt, q[3], s3.mem(Cell(pt, q[3])).(present := false), r', p');
  }

  /** `o'` is `o`, or nothing. */
  ghost predicate Drops(o: Option<PageProperties>, o': Option<PageProperties>) { o'.None? || o' == o }

  lemma PruneProps(s: Vm, f: int, i: int, r: int, p: seq<int>)
    requires Sound(s) && f in s.own && |s.own[f].prefix| < 3 && UserPath(s.own[f].prefix + [i])
    requires s.mem(Cell(f, i)).present
    requires IsRoot(s.own, r) && 1 <= |p| <= 4 && UserPath(p)
    ensures Drops(PropAt(s.mem, r, p), PropAt(Prune(s, f, i).mem, r, p))
  {
    var g, n := Child(s, f, i), |p| - 1;
    if IsEmpty(s.mem, g) {
      UserPrefix(p, n);
      PruneWalks(s.mem, s.own, f, i, g, r, p[..n]);
    }
  }

  lemma PruneAllProps(s: Vm, r: int, q: seq<int>, pdpt: int, pd: int, pt: int, r': int, p': seq<int>)
    requires Sound(s) && Chain(s, r, q, pdpt, pd, pt) && IsRoot(s.own, r') && 1 <= |p'| <= 4 && UserPath(p')
    ensures Drops(PropAt(s.mem, r', p'), PropAt(PruneAll(s, r, q).mem, r', p'))
  {
    PathParts(q);
    var s5 := Prune(s, pd, q[2]);
    var s6 := Prune(s5, pdpt, q[1]);
    PruneKeeps(s, pd, q[2]);
    PruneProps(s, pd, q[2], r', p');
    assert s5.mem(Cell(pdpt, q[1])) == s.mem(Cell(pdpt, q[1])) && s5.mem(Cell(r, q[0])) == s.mem(Cell(r, q[0]));
    PruneKeeps(s5, pdpt, q[1]);
    PruneProps(s5, pdpt, q[1], r', p');
    assert s6.mem(Cell(r, q[0])) == s.mem(Cell(r, q[0]));
    PruneProps(s6, r, q[0], r', p');
  }

  /** Unmapping leaves no table where there was none. */
  lemma UnmapAddsNoTable(s: Vm, r: int, q: seq<int>, s': Vm, r': int, p': seq<int>)
    requires Callable(s, r, q) && NoEmptyTable(s) && s' == Unmap(s, r, q)
    requires IsRoot(s.own, r') && 1 <= |p'| <= 3 && UserPath(p')
    ensures TableAt(s'.mem, r', p').Some? ==> TableAt(s.mem, r', p').Some?
  {
    UnmapIsPointwise(s, r, q);
    if TableAt(s'.mem, r', p').Some? {
      assert IsRoot(s'.own, r');
      WalkOwned(s'.mem, s'.own, r', p');
      TableHasPage(s', TableAt(s'.mem, r', p').value);
      var q' :| Leads(s'.mem, r', p', q');
      assert Leads(s.mem, r', p', q');
      PageHasTables(s.mem, r', p', q');
    }
  }

  lemma UnmapProps(s: Vm, r: int, q: seq<int>, s': Vm, r': int, p': seq<int>)
    requires Callable(s, r, q) && NoEmptyTable(s) && s' == Unmap(s, r, q)
    requires IsRoot(s.own, r') && 1 <= |p'| <= 4 && UserPath(p')
    ensures r' == r && p' == q ==> PropAt(s'.mem, r', p').None?
    ensures Drops(PropAt(s.mem, r', p'), PropAt(s'.mem, r', p'))
  {
    var s4 := Cleared(s, r, q);
    ClearedKeeps(s, r, q);
    ClearedProps(s, r, q, r', p');
    assert IsRoot(s4.own, r');
    PruneAllProps(s4, r, q, Child(s4, r, q[0]), Child(s4, Child(s4, r, q[0]), q[1]), Leaf(s4, r, q), r', p');
    PropFollowsWalk(s.mem, r', p');
    PropFollowsWalk(s'.mem, r', p');
    if |p'| < 4 { UnmapAddsNoTable(s, r, q, s', r', p'); }
  }

  lemma UnmapKeepsPages(s: Vm, r: int, q: seq<int>, s': Vm, r': int, p': seq<int>)
    requires Callable(s, r, q) && NoEmptyTable(s) && s' == Unmap(s, r, q)
    requires IsRoot(s.own, r') && IsPage(p') && !(r' == r && p' == q)
    ensures PropAt(s'.mem, r', p') == PropAt(s.mem, r', p')
  {
    UnmapProps(s, r, q, s', r', p');
    UnmapIsPointwise(s, r, q);
    PropFollowsWalk(s.mem, r', p');
    PropFollowsWalk(s'.mem, r', p');
  }

  // ----- A call as a whole -------------------------------------------------------------------------

  /** A place of a user tree: a table's or a page's. */
  ghost predicate IsPlace(own: Owners, r: int, p: seq<int>) { IsRoot(own, r) && 1 <= |p| <= 4 && UserPath(p) }

  /** From `m` to `m'` the page `q` of root `r` got exactly the properties `prop`; each table that was missing on
      its way was made writable and otherwise like it; every other entry kept what it had. */
  ghost predicate MapsProps(m: Memory, own: Owners, r: int, q: seq<int>, prop: PageProperties, m': Memory) {
    forall r', p' | IsPlace(own, r', p') :: PropAt(m', r', p') ==
      if r' == r && p' == q then Some(prop)
      else if r' == r && |p'| < 4 && p' <= q && PropAt(m, r', p').None? then Some(prop.(writable := true))
      else PropAt(m, r', p')
  }

  /** The page `q` of root `r` is not mapped any more; every other page kept its properties, and so did every
      table that is still there. */
  ghost predicate UnmapsProps(m: Memory, own: Owners, r: int, q: seq<int>, m': Memory) {
    forall r', p' | IsPlace(own, r', p') ::
      if r' == r && p' == q then PropAt(m', r', p').None?
      else PropAt(m', r', p') == PropAt(m, r', p') || (|p'| < 4 && PropAt(m', r', p').None?)
  }

  lemma MapHasProps(s: Vm, r: int, q: seq<int>, page: int, prop: PageProperties)
    requires Callable(s, r, q)
    ensures MapsProps(s.mem, s.own, r, q, prop, Map(s, r, q, page, prop).mem)
  {
    var m' := Map(s, r, q, page, prop).mem;
    forall r', p' | IsPlace(s.own, r', p')
      ensures PropAt(m', r', p') == if r' == r && p' == q then Some(prop)
        else if r' == r && |p'| < 4 && p' <= q && PropAt(s.mem, r', p').None? then Some(prop.(writable := true))
        else PropAt(s.mem, r', p')
    {
      MapProps(s, r, q, page, prop, r', p');
    }
  }

  lemma UnmapHasProps(s: Vm, r: int, q: seq<int>, s': Vm)
    requires Callable(s, r, q) && NoEmptyTable(s) && s' == Unmap(s, r, q)
    ensures UnmapsProps(s.mem, s.own, r, q, s'.mem)
  {
    forall r', p' | IsPlace(s.own, r', p')
      ensures if r' == r && p' == q then PropAt(s'.mem, r', p').None?
        else PropAt(s'.mem, r', p') == PropAt(s.mem, r', p') || (|p'| < 4 && PropAt(s'.mem, r', p').None?)
    {
      UnmapProps(s, r, q, s', r', p');
      if |p'| == 4 && !(r' == r && p' == q) { UnmapKeepsPages(s, r, q, s', r', p'); }
    }
  }

  /** Every table already on the way to page `q` gives the access. */
  ghost predicate TablesGive(m: Memory, r: int, q: seq<int>, w: Right)
    requires |q| == 4
  {
    && (PropAt(m, r, q[..1]).Some? ==> Gives(PropAt(m, r, q[..1]).value, w))
    && (PropAt(m, r, q[..2]).Some? ==> Gives(PropAt(m, r, q[..2]).value, w))
    && (PropAt(m, r, q[..3]).Some? ==> Gives(PropAt(m, r, q[..3]).value, w))
  }

  /** Main result: so the hardware allows an access to the page exactly if it was mapped for it and the tables
      that were already there give it. */
  lemma MappedAllows(m: Memory, own: Owners, r: int, q: seq<int>, prop: PageProperties, m': Memory, w: Right)
    requires MapsProps(m, own, r, q, prop, m') && IsRoot(own, r) && IsPage(q)
    ensures Allowed(m', r, q, w) <==> Gives(prop, w) && TablesGive(m, r, q, w)
  {
    AllowedByProps(m', r, q, w);
    UserPrefix(q, 1);
    UserPrefix(q, 2);
    UserPrefix(q, 3);
    assert IsPlace(own, r, q[..1]) && IsPlace(own, r, q[..2]) && IsPlace(own, r, q[..3]) && IsPlace(own, r, q);
  }
}
