/**
  The search that `malloc` makes over the chunks: where it begins, in which order it looks at them, which one
  serves the request, and which one it remembers for the next time.
 */
module HeapSearch {
  import opened HeapLayout
  import opened HeapCells

  ghost function IndexOf(l: Layout, base: int): (i: int)
    requires exists i | 0 <= i < |l| :: l[i].base == base
    ensures 0 <= i < |l| && l[i].base == base
  {
    var i :| 0 <= i < |l| && l[i].base == base;
    i
  }

  /** The free bytes of the remembered chunk; none if none is remembered. */
  ghost function BetFree(l: Layout, bet: int): int
    requires BetOk(l, bet)
  {
    if bet == 0 then 0 else FreeBytes(l[IndexOf(l, bet)])
  }

  datatype Best = Best(bet: int, free: int)

  /** A request as it comes in: the layout, the remembered chunk, the size, the page allocator's answer. */
  datatype Asking = Asking(l: Layout, bet: int, req: int, grant: int) {
    ghost predicate Ok() {
      && LayoutOk(l) && NoEmptyChunk(l) && BetOk(l, bet)
      && Serveable(req) && GrantOk(l, grant, ChunkSize(BodySize(req)))
    }

    /** What is remembered before the search. */
    ghost function From(): Best
      requires BetOk(l, bet)
    {
      Best(bet, BetFree(l, bet))
    }

    /** The remembered chunk has more free bytes than the request needs: the search begins there. */
    ghost predicate FromBet()
      requires BetOk(l, bet)
    {
      bet != 0 && BetFree(l, bet) > Need(req)
    }

    ghost function Start(): (i: int)
      requires BetOk(l, bet)
      ensures 0 <= i <= |l|
    {
      if FromBet() then IndexOf(l, bet) else 0
    }

    ghost function Spot(): Spot
      requires BetOk(l, bet)
    {
      SpotFor(l, req, Start(), grant)
    }

    /** The chunks in the order they are looked at, as long as none serves the request. */
    ghost function Order(): Layout
      requires BetOk(l, bet)
    {
      (if FromBet() then l[Start()..] else []) + l
    }

    /** A new chunk is looked at before it is used, unless the last of the list was passed over for its free
        bytes alone. */
    ghost predicate DueLook() { l == [] || FreeBytes(l[|l| - 1]) >= Need(req) }

    /** All that is looked at. */
    ghost function Seen(): Layout
      requires BetOk(l, bet)
    {
      var n := FirstChunk(Order(), 0, Need(req));
      if n >= 0 then Order()[..n + 1]
      else Order() + if grant != 0 && DueLook() then [FreshChunk(req, grant)] else []
    }
  }

  /** What is remembered after the chunks `seen`: a chunk with more free bytes than any before it. */
  ghost function BestOf(from: Best, seen: Layout): Best {
    if seen == [] then from
    else
      var best, c := BestOf(from, seen[..|seen| - 1]), seen[|seen| - 1];
      if best.free < FreeBytes(c) then Best(c.base, FreeBytes(c)) else best
  }

  lemma BestStep(from: Best, seen: Layout, c: Chunk)
    ensures BestOf(from, seen + [c]) ==
      if BestOf(from, seen).free < FreeBytes(c) then Best(c.base, FreeBytes(c)) else BestOf(from, seen)
  {
    assert (seen + [c])[..|seen|] == seen;
  }

  /** What malloc promises: `l'` is the new layout, `p` the answer, `asked` whether the page allocator
      was asked, `bet'` the chunk now remembered. */
  ghost predicate Answered(q: Asking, l': Layout, p: int, asked: bool, bet': int) {
    exists best :: AnsweredWith(q, l', p, asked, bet', best)
  }

  ghost predicate AnsweredWith(q: Asking, l': Layout, p: int, asked: bool, bet': int, best: Best) {
    q.Ok() && Allocated(q, l', p, asked) && best == BestOf(q.From(), q.Seen()) && bet' == best.bet
  }

  ghost predicate Allocated(q: Asking, l': Layout, p: int, asked: bool)
    requires q.Ok()
  {
    && LayoutOk(l') && NoEmptyChunk(l')
    && l' == Alloc(q.l, q.req, q.Start(), q.grant)
    && (match q.Spot()
        case Nowhere => p == 0
        case Spot(i, k) => p != 0 && i < |l'| && k < |l'[i].blocks| && p == UserPtr(l'[i].blocks[k]))
    && (asked <==> forall i | 0 <= i < |q.l| :: !HasRoom(q.l[i], Need(q.req)))
  }

  // ----- Where the search stands -------------------------------------------------------------------

  /** The chunk looked at and its index, whether the list is still to be gone over from its start, the most free
      bytes seen and the index of that chunk, whether a fresh chunk was appended, what has been looked at, and
      whether the chunk is among it already. */
  datatype Cursor =
    Cursor(maj: int, i: int, startedBet: bool, best: int, b: int, asked: bool, seen: Layout, looked: bool)

  ghost predicate BestIs(m: Layout, bet: int, best: int, b: int) {
    if bet == 0 then best == 0 else 0 <= b < |m| && m[b].base == bet && best == FreeBytes(m[b])
  }

  /** None of the first `n` chunks of `order` has room. */
  ghost predicate Passed(order: Layout, n: int, req: int) {
    n <= |order| && forall j {:trigger HasRoom(order[j], Need(req))} | 0 <= j < n :: !HasRoom(order[j], Need(req))
  }

  /** The position of the chunk looked at in the order of the search. */
  ghost function Pos(q: Asking, c: Cursor): int
    requires BetOk(q.l, q.bet)
  {
    if c.startedBet then c.i - q.Start() else |q.Order()| - |q.l| + c.i
  }

  ghost predicate SeenTo(order: Layout, n: int, seen: Layout, looked: bool) {
    0 <= n < |order| && seen == order[..n + if looked then 1 else 0]
  }

  lemma SeenMore(order: Layout, n: int, seen: Layout, x: Chunk)
    requires SeenTo(order, n, seen, false) && order[n] == x
    ensures SeenTo(order, n, seen + [x], true)
  {
    assert order[..n] + [order[n]] == order[..n + 1];
  }

  /** What has been looked at, and found to be without room. */
  ghost predicate Standing(q: Asking, m: Layout, c: Cursor)
    requires q.Ok()
  {
    && 0 <= c.i < |m| && m[c.i].base == c.maj
    && (if c.asked then
          && !c.startedBet && q.grant != 0 && c.i == |q.l| && m == q.l + [FreshChunk(q.req, q.grant)]
          && Passed(q.Order(), |q.Order()|, q.req)
          && c.seen == q.Order() + if c.looked then [m[c.i]] else []
        else
          && m == q.l && (c.startedBet ==> q.FromBet() && q.Start() <= c.i)
          && Passed(q.Order(), Pos(q, c), q.req)
          && SeenTo(q.Order(), Pos(q, c), c.seen, c.looked))
  }

  /** What is remembered. */
  ghost predicate Keeping(q: Asking, bet: int, m: Layout, c: Cursor)
    requires q.Ok()
  {
    BestIs(m, bet, c.best, c.b) && BestOf(q.From(), c.seen) == Best(bet, c.best)
  }

  ghost predicate Searching(q: Asking, bet: int, m: Layout, c: Cursor) {
    exists order :: InOrder(q, order, bet, m, c)
  }

  ghost predicate InOrder(q: Asking, order: Layout, bet: int, m: Layout, c: Cursor) {
    q.Ok() && order == q.Order() && Standing(q, m, c) && Keeping(q, bet, m, c)
  }

  lemma OrderAt(q: Asking, c: Cursor)
    requires q.Ok() && 0 <= c.i < |q.l| && (c.startedBet ==> q.FromBet() && q.Start() <= c.i)
    ensures 0 <= Pos(q, c) < |q.Order()| && q.Order()[Pos(q, c)] == q.l[c.i]
  {
  }

  /** The search begins at the remembered chunk or at the first. */
  lemma Begins(q: Asking, m: Layout, c: Cursor)
    requires q.Ok() && c.seen == [] && !c.looked && 0 <= c.i < |m| && m[c.i].base == c.maj
    requires if c.asked then q.l == [] && q.grant != 0 && m == q.l + [FreshChunk(q.req, q.grant)] else m == q.l
    requires BestIs(m, q.bet, c.best, c.b) && c.best == BetFree(q.l, q.bet)
    requires c.startedBet == q.FromBet() && c.i == q.Start()
    ensures Searching(q, q.bet, m, c)
  {
    assert InOrder(q, q.Order(), q.bet, m, c);
  }

  /** The cursor once its chunk `x` has been looked at, and what is then remembered. */
  ghost function Seeing(c: Cursor, x: Chunk): Cursor {
    var c' := c.(seen := c.seen + [x], looked := true);
    if c.best < FreeBytes(x) then c'.(best := FreeBytes(x), b := c.i) else c'
  }

  ghost function BetSeeing(bet: int, c: Cursor, x: Chunk): int { if c.best < FreeBytes(x) then x.base else bet }

  lemma StandingLooked(q: Asking, m: Layout, c: Cursor, c': Cursor)
    requires q.Ok() && Standing(q, m, c) && !c.looked && c' == Seeing(c, m[c.i])
    ensures Standing(q, m, c')
  {
    if !c.asked {
      OrderAt(q, c);
      SeenMore(q.Order(), Pos(q, c), c.seen, m[c.i]);
    }
  }

  lemma KeepingLooked(q: Asking, bet: int, m: Layout, c: Cursor, x: Chunk)
    requires q.Ok() && Keeping(q, bet, m, c) && 0 <= c.i < |m| && m[c.i] == x && 0 < x.base
    ensures Keeping(q, BetSeeing(bet, c, x), m, Seeing(c, x))
  {
    BestStep(q.From(), c.seen, x);
  }

  /** Looking at a chunk: it is remembered if it has more free bytes than any before. */
  lemma Looked(q: Asking, bet: int, m: Layout, c: Cursor)
    requires Searching(q, bet, m, c) && !c.looked && LayoutOk(m)
    ensures Searching(q, BetSeeing(bet, c, m[c.i]), m, Seeing(c, m[c.i])) && BetOk(m, BetSeeing(bet, c, m[c.i]))
  {
    assert ChunkOk(m[c.i]);
    StandingLooked(q, m, c, Seeing(c, m[c.i]));
    KeepingLooked(q, bet, m, c, m[c.i]);
    assert InOrder(q, q.Order(), BetSeeing(bet, c, m[c.i]), m, Seeing(c, m[c.i]));
    assert c.best >= FreeBytes(m[c.i]) && bet != 0 ==> m[c.b].base == bet;
  }

  lemma PassedOne(order: Layout, n: int, req: int)
    requires Passed(order, n, req) && 0 <= n < |order| && !HasRoom(order[n], Need(req))
    ensures Passed(order, n + 1, req)
  {
  }

  lemma AskedHasRoom(q: Asking, bet: int, m: Layout, c: Cursor)
    requires Searching(q, bet, m, c)
    ensures c.asked ==> HasRoom(m[c.i], Need(q.req))
  {
    if c.asked {
      FreshKeepsLayout(q.l, q.req, q.grant);
      EmptyChunkHasRoom(m[c.i], Need(q.req));
    }
  }

  /** The cursor on the next chunk, on the first again, and on a fresh one. */
  ghost function Onward(c: Cursor, m: Layout): Cursor
    requires 0 <= c.i < |m| - 1
  {
    c.(maj := m[c.i + 1].base, i := c.i + 1, looked := false)
  }

  ghost function Restarted(c: Cursor, m: Layout): Cursor
    requires m != []
  {
    c.(maj := m[0].base, i := 0, startedBet := false, looked := false)
  }

  ghost function Grown(c: Cursor, q: Asking): Cursor { c.(maj := q.grant, i := |q.l|, asked := true, looked := false) }

  /** The chunk looked at has no room: what the search stands at next. */
  lemma StandingSkipped(q: Asking, m: Layout, c: Cursor)
    requires q.Ok() && Standing(q, m, c) && c.looked && !c.asked && !HasRoom(m[c.i], Need(q.req))
    ensures c.i + 1 < |m| ==> Standing(q, m, Onward(c, m))
    ensures c.i + 1 == |m| && c.startedBet ==> Standing(q, m, Restarted(c, m))
    ensures c.i + 1 == |m| && !c.startedBet ==> c.seen == q.Order() && Passed(q.Order(), |q.Order()|, q.req)
  {
    assert m[c.i] == q.Order()[Pos(q, c)] by { OrderAt(q, c); }
    PassedOne(q.Order(), Pos(q, c), q.req);
    NextPos(q, c);
    SeenAll(q.Order(), Pos(q, c), c.seen);
  }

  lemma NextPos(q: Asking, c: Cursor)
    requires q.Ok() && 0 <= c.i < |q.l| && (c.startedBet ==> q.FromBet() && q.Start() <= c.i)
    ensures c.i + 1 < |q.l| ==> Pos(q, Onward(c, q.l)) == Pos(q, c) + 1 < |q.Order()|
    ensures c.i + 1 == |q.l| && c.startedBet ==> Pos(q, Restarted(c, q.l)) == Pos(q, c) + 1 < |q.Order()|
    ensures c.i + 1 == |q.l| && !c.startedBet ==> Pos(q, c) + 1 == |q.Order()|
  {
  }

  lemma SeenAll(order: Layout, n: int, seen: Layout)
    requires SeenTo(order, n, seen, true)
    ensures if n + 1 < |order| then SeenTo(order, n + 1, seen, false) else seen == order
  {
  }

  /** What is known once the chunk looked at turned out to have no room. */
  lemma Skipped(q: Asking, bet: int, m: Layout, c: Cursor)
    requires Searching(q, bet, m, c) && c.looked && !HasRoom(m[c.i], Need(q.req))
    ensures !c.asked
    ensures c.i + 1 < |m| ==> Searching(q, bet, m, Onward(c, m))
    ensures c.i + 1 == |m| && c.startedBet ==> Searching(q, bet, m, Restarted(c, m))
    ensures c.i + 1 == |m| && !c.startedBet ==> c.seen == q.Order() && Passed(q.Order(), |q.Order()|, q.req)
  {
    AskedHasRoom(q, bet, m, c);
    StandingSkipped(q, m, c);
    if c.i + 1 < |m| { assert InOrder(q, q.Order(), bet, m, Onward(c, m)); }
    if c.i + 1 == |m| && c.startedBet { assert InOrder(q, q.Order(), bet, m, Restarted(c, m)); }
  }

  /** The page allocator granted a chunk. */
  lemma Extended(q: Asking, bet: int, c: Cursor)
    requires Searching(q, bet, q.l, c) && !c.startedBet && !c.asked && q.grant != 0
    requires c.seen == q.Order() && Passed(q.Order(), |q.Order()|, q.req)
    ensures Searching(q, bet, q.l + [FreshChunk(q.req, q.grant)], Grown(c, q))
  {
    assert InOrder(q, q.Order(), bet, q.l + [FreshChunk(q.req, q.grant)], Grown(c, q));
  }

  // ----- How it ends -------------------------------------------------------------------------------

  /** The layout, and the caller's pointer, when the request goes into the first gap of chunk `i` that
      has room. */
  ghost function PlaceFirstFit(l: Layout, i: int, req: int): Layout
    requires 0 <= i < |l| && HasRoom(l[i], Need(req))
  {
    Place(l, i, FirstGap(l[i], 0, Need(req)), req)
  }

  ghost function FirstFitPtr(c: Chunk, req: int): int
    requires HasRoom(c, Need(req))
  {
    UserPtr(NewBlock(c, FirstGap(c, 0, Need(req)), req))
  }

  /** The first chunk with room, in the order of the search, is the one the layout chooses. */
  lemma {:induction false} FirstInOrder(order: Layout, need: int, n: int, from: int)
    requires 0 <= from <= n < |order| && HasRoom(order[n], need) && forall j | 0 <= j < n :: !HasRoom(order[j], need)
    ensures FirstChunk(order, from, need) == n
  {
  }

  /** The part of the list from the starting point on, in the order of the search. */
  lemma OrderParts(q: Asking, j: int)
    requires q.Ok()
    ensures q.FromBet() && q.Start() <= j < |q.l| ==> j - q.Start() < |q.Order()| && q.Order()[j - q.Start()] == q.l[j]
    ensures 0 <= j < |q.l| ==> |q.Order()| - |q.l| + j >= 0 && q.Order()[|q.Order()| - |q.l| + j] == q.l[j]
    ensures |q.Order()| == |q.l| + if q.FromBet() then |q.l| - q.Start() else 0
  {
  }

  lemma ChosenAt(q: Asking, c: Cursor)
    requires q.Ok() && 0 <= c.i < |q.l| && (c.startedBet ==> q.FromBet() && q.Start() <= c.i)
    requires Passed(q.Order(), Pos(q, c), q.req) && HasRoom(q.l[c.i], Need(q.req))
    ensures Choose(q.l, q.Start(), Need(q.req)) == c.i
  {
    var need, first := Need(q.req), FirstChunk(q.l, q.Start(), Need(q.req));
    forall j | (if c.startedBet then q.Start() else 0) <= j < c.i ensures !HasRoom(q.l[j], need) {
      OrderParts(q, j);
    }
    if !c.startedBet && q.FromBet() {
      forall j | q.Start() <= j < |q.l| ensures !HasRoom(q.l[j], need) {
        OrderParts(q, j);
      }
    }
  }

  lemma NoneChosen(q: Asking)
    requires q.Ok() && Passed(q.Order(), |q.Order()|, q.req)
    ensures forall j | 0 <= j < |q.l| :: !HasRoom(q.l[j], Need(q.req))
    ensures Choose(q.l, q.Start(), Need(q.req)) == -1 && FirstChunk(q.Order(), 0, Need(q.req)) == -1
  {
    forall j | 0 <= j < |q.l| ensures !HasRoom(q.l[j], Need(q.req)) { OrderParts(q, j); }
  }

  lemma AnsweredInPlace(q: Asking, bet: int, c: Cursor)
    requires Searching(q, bet, q.l, c) && !c.asked && c.looked && HasRoom(q.l[c.i], Need(q.req))
    ensures Answered(q, PlaceFirstFit(q.l, c.i, q.req), FirstFitPtr(q.l[c.i], q.req), false, bet)
  {
    AnswerInPlace(q, bet, c, PlaceFirstFit(q.l, c.i, q.req), FirstFitPtr(q.l[c.i], q.req));
  }

  lemma AnswerInPlace(q: Asking, bet: int, c: Cursor, l': Layout, p: int)
    requires Searching(q, bet, q.l, c) && !c.asked && c.looked && HasRoom(q.l[c.i], Need(q.req))
    requires l' == PlaceFirstFit(q.l, c.i, q.req) && p == FirstFitPtr(q.l[c.i], q.req)
    ensures Answered(q, l', p, false, bet)
  {
    assert Allocated(q, l', p, false) by { LandsAt(q, c); }
    assert bet == BestOf(q.From(), q.Seen()).bet by { KeptInPlace(q, bet, c); }
    Answers(q, l', p, false, bet);
  }

  lemma Answers(q: Asking, l': Layout, p: int, asked: bool, bet': int)
    requires q.Ok() && Allocated(q, l', p, asked) && bet' == BestOf(q.From(), q.Seen()).bet
    ensures Answered(q, l', p, asked, bet')
  {
    assert AnsweredWith(q, l', p, asked, bet', BestOf(q.From(), q.Seen()));
  }

  lemma KeptInPlace(q: Asking, bet: int, c: Cursor)
    requires Searching(q, bet, q.l, c) && !c.asked && c.looked && HasRoom(q.l[c.i], Need(q.req))
    ensures bet == BestOf(q.From(), q.Seen()).bet
  {
    SeenUpTo(q, c);
  }

  lemma LandsAt(q: Asking, c: Cursor)
    requires q.Ok() && 0 <= c.i < |q.l| && (c.startedBet ==> q.FromBet() && q.Start() <= c.i)
    requires Passed(q.Order(), Pos(q, c), q.req) && HasRoom(q.l[c.i], Need(q.req))
    ensures Allocated(q, PlaceFirstFit(q.l, c.i, q.req), FirstFitPtr(q.l[c.i], q.req), false)
  {
    ChosenAt(q, c);
    AllocatedInPlace(q, c.i);
  }

  lemma SeenUpTo(q: Asking, c: Cursor)
    requires q.Ok() && 0 <= c.i < |q.l| && (c.startedBet ==> q.FromBet() && q.Start() <= c.i)
    requires Passed(q.Order(), Pos(q, c), q.req) && HasRoom(q.l[c.i], Need(q.req))
    ensures 0 <= Pos(q, c) < |q.Order()| && q.Seen() == q.Order()[..Pos(q, c) + 1]
  {
    OrderAt(q, c);
    FirstInOrder(q.Order(), Need(q.req), Pos(q, c), 0);
  }

  lemma AllocatedInPlace(q: Asking, i: int)
    requires q.Ok() && 0 <= i < |q.l| && Choose(q.l, q.Start(), Need(q.req)) == i
    ensures HasRoom(q.l[i], Need(q.req))
    ensures Allocated(q, PlaceFirstFit(q.l, i, q.req), FirstFitPtr(q.l[i], q.req), false)
  {
    var k := FirstGap(q.l[i], 0, Need(q.req));
    AllocKeepsLayout(q.l, q.req, q.Start(), q.grant);
    UserPtrPositive(q.l[i], k, q.req);
    InsertAt(q.l[i].blocks, k, NewBlock(q.l[i], k, q.req), k);
  }

  lemma AnsweredFresh(q: Asking, bet: int, m: Layout, c: Cursor)
    requires Searching(q, bet, m, c) && c.asked && (c.looked <==> q.DueLook())
    ensures HasRoom(m[c.i], Need(q.req))
    ensures Answered(q, PlaceFirstFit(m, c.i, q.req), FirstFitPtr(m[c.i], q.req), true, bet)
  {
    AskedHasRoom(q, bet, m, c);
    NoneChosen(q);
    AllocatedFresh(q, m);
    Answers(q, PlaceFirstFit(m, c.i, q.req), FirstFitPtr(m[c.i], q.req), true, bet);
  }

  lemma AllocatedFresh(q: Asking, m: Layout)
    requires q.Ok() && q.grant != 0 && m == q.l + [FreshChunk(q.req, q.grant)]
    requires Choose(q.l, q.Start(), Need(q.req)) == -1 && forall j | 0 <= j < |q.l| :: !HasRoom(q.l[j], Need(q.req))
    ensures HasRoom(m[|q.l|], Need(q.req))
    ensures Allocated(q, PlaceFirstFit(m, |q.l|, q.req), FirstFitPtr(m[|q.l|], q.req), true)
  {
    AllocKeepsLayout(q.l, q.req, q.Start(), q.grant);
    FreshKeepsLayout(q.l, q.req, q.grant);
    EmptyChunkHasRoom(m[|q.l|], Need(q.req));
    assert ChunkOk(m[|q.l|]);
    UserPtrPositive(m[|q.l|], 0, q.req);
  }

  lemma NotAnswered(q: Asking, bet: int)
    requires q.Ok() && q.grant == 0 && Passed(q.Order(), |q.Order()|, q.req)
    requires bet == BestOf(q.From(), q.Order()).bet
    ensures Answered(q, q.l, 0, true, bet)
  {
    NoneChosen(q);
    assert q.Order() + [] == q.Order();
    Answers(q, q.l, 0, true, bet);
  }

  /** What serving the request from the chunk looked at has given. */
  lemma Served(q: Asking, bet: int, m: Layout, c: Cursor, m': Layout, p: int)
    requires Searching(q, bet, m, c) && (if c.asked then c.looked <==> q.DueLook() else c.looked)
    requires p == 0 <==> !HasRoom(m[c.i], Need(q.req))
    requires p != 0 ==> m' == PlaceFirstFit(m, c.i, q.req) && p == FirstFitPtr(m[c.i], q.req)
    ensures if p == 0 then !c.asked else Answered(q, m', p, c.asked, bet)
  {
    AskedHasRoom(q, bet, m, c);
    if p != 0 {
      if c.asked { AnsweredFresh(q, bet, m, c); } else { AnsweredInPlace(q, bet, c); }
    }
  }

  // ----- What it means -----------------------------------------------------------------------------

  /** No gap of the chunk can hold `need` bytes. */
  ghost predicate Full(c: Chunk, need: int) { forall k | 0 <= k <= |c.blocks| :: Gap(c, k) < need }

  /** Gap `k` is the first of the chunk that can. */
  ghost predicate FitsFirst(c: Chunk, need: int, k: int) {
    0 <= k <= |c.blocks| && Gap(c, k) >= need && forall j | 0 <= j < k :: Gap(c, j) < need
  }

  /** Chunk `b` is the remembered one and has more free bytes than the request needs. */
  ghost predicate Preferred(l: Layout, bet: int, req: int, b: int) {
    0 <= b < |l| && bet != 0 && l[b].base == bet && FreeBytes(l[b]) > Need(req)
  }

  /** The order of the search: the list; but with a preferred chunk first the list from there on. */
  ghost predicate IsOrder(l: Layout, bet: int, req: int, order: Layout) {
    && (forall b | Preferred(l, bet, req, b) :: order == l[b..] + l)
    && ((forall b :: !Preferred(l, bet, req, b)) ==> order == l)
  }

  /** Chunk `n` of the order is the first one with a gap that can hold `need` bytes. */
  ghost predicate FirstFit(order: Layout, need: int, n: int) {
    0 <= n < |order| && !Full(order[n], need) && forall j | 0 <= j < n :: Full(order[j], need)
  }

  ghost predicate AllFull(l: Layout, need: int) { forall j | 0 <= j < |l| :: Full(l[j], need) }

  /** Chunk `i` with a block for `req` bytes in gap `k`, which begins where the block before it ends. */
  ghost predicate BlockAdded(l: Layout, i: int, k: int, req: int, l': Layout, p: int)
    requires 0 <= i < |l| && 0 <= k <= |l[i].blocks|
  {
    var b := Block(GapLo(l[i], k), req + ALIGNMENT + ALIGN_INFO, req);
    l' == l[i := l[i].(blocks := l[i].blocks[..k] + [b] + l[i].blocks[k..])] && p == AlignUp(b.addr + MINOR)
  }

  /** `bet'` is remembered after `seen`: the first with the most free bytes, if that is more than `free`, else the
      chunk remembered before. */
  ghost predicate BestSeen(bet: int, free: int, seen: Layout, bet': int) {
    || (bet' == bet && forall n | 0 <= n < |seen| :: FreeBytes(seen[n]) <= free)
    || exists n :: FreestOf(free, seen, n) && bet' == seen[n].base
  }

  ghost predicate FreestOf(free: int, seen: Layout, n: int) {
    && 0 <= n < |seen| && free < FreeBytes(seen[n])
    && (forall j | 0 <= j < n :: FreeBytes(seen[j]) < FreeBytes(seen[n]))
    && (forall j | n < j < |seen| :: FreeBytes(seen[j]) <= FreeBytes(seen[n]))
  }

  /** What the fold leaves: the start, with nothing freer seen, or the first of the freest. */
  ghost predicate BestFrom(from: Best, seen: Layout, best: Best) {
    || (best == from && forall n | 0 <= n < |seen| :: FreeBytes(seen[n]) <= from.free)
    || exists n :: FreestOf(from.free, seen, n) && best == Best(seen[n].base, FreeBytes(seen[n]))
  }

  lemma {:induction false} BestIsFrom(from: Best, seen: Layout)
    ensures BestFrom(from, seen, BestOf(from, seen))
  {
    if seen != [] {
      var m := |seen| - 1;
      BestIsFrom(from, seen[..m]);
      assert seen == seen[..m] + [seen[m]];
      BestFromStep(from, seen[..m], BestOf(from, seen[..m]), seen[m]);
    }
  }

  lemma BestFromStep(from: Best, seen: Layout, best: Best, c: Chunk)
    requires BestFrom(from, seen, best)
    ensures BestFrom(from, seen + [c], if best.free < FreeBytes(c) then Best(c.base, FreeBytes(c)) else best)
  {
    var seen' := seen + [c];
    assert forall j | 0 <= j < |seen| :: seen'[j] == seen[j];
    assert seen'[|seen|] == c;
    if best.free < FreeBytes(c) {
      NoneFreer(from, seen, best);
      assert FreestOf(from.free, seen', |seen|);
    } else if !(best == from && forall n | 0 <= n < |seen| :: FreeBytes(seen[n]) <= from.free) {
      var n :| FreestOf(from.free, seen, n) && best == Best(seen[n].base, FreeBytes(seen[n]));
      assert FreestOf(from.free, seen', n);
    }
  }

  lemma NoneFreer(from: Best, seen: Layout, best: Best)
    requires BestFrom(from, seen, best)
    ensures from.free <= best.free && forall n | 0 <= n < |seen| :: FreeBytes(seen[n]) <= best.free
  {
    if !(best == from && forall n | 0 <= n < |seen| :: FreeBytes(seen[n]) <= from.free) {
      var n :| FreestOf(from.free, seen, n) && best == Best(seen[n].base, FreeBytes(seen[n]));
    }
  }

  lemma BestIsSeen(from: Best, seen: Layout)
    ensures BestSeen(from.bet, from.free, seen, BestOf(from, seen).bet)
  {
    BestIsFrom(from, seen);
  }

  lemma RoomIffNotFull(c: Chunk, need: int)
    ensures HasRoom(c, need) <==> !Full(c, need)
    ensures forall k | FitsFirst(c, need, k) :: FirstGap(c, 0, need) == k
  {
  }

  lemma OrderIs(q: Asking, order: Layout)
    requires q.Ok() && IsOrder(q.l, q.bet, q.req, order)
    ensures order == q.Order()
  {
    if q.FromBet() {
      assert Preferred(q.l, q.bet, q.req, q.Start());
    } else {
      forall b ensures !Preferred(q.l, q.bet, q.req, b) {
        if Preferred(q.l, q.bet, q.req, b) { OnlyBase(q.l, b, IndexOf(q.l, q.bet)); }
      }
    }
  }

  lemma OnlyBase(l: Layout, i: int, j: int)
    requires LayoutOk(l) && 0 <= i < |l| && 0 <= j < |l| && l[i].base == l[j].base
    ensures i == j
  {
    if i != j { BasesDiffer(l, i, j); }
  }

  /** Main result: a request is served from the first chunk, in the order of the search, that has a gap for it,
      in the first such gap; and the freest chunk looked at is remembered. */
  lemma ServedInOrder(q: Asking, l': Layout, p: int, asked: bool, bet': int, order: Layout, n: int, i: int, k: int)
    requires Answered(q, l', p, asked, bet') && IsOrder(q.l, q.bet, q.req, order) && FirstFit(order, Need(q.req), n)
    requires 0 <= i < |q.l| && q.l[i] == order[n] && FitsFirst(q.l[i], Need(q.req), k)
    ensures !asked && BlockAdded(q.l, i, k, q.req, l', p)
    ensures BestSeen(q.bet, BetFree(q.l, q.bet), order[..n + 1], bet')
  {
    OrderIs(q, order);
    ServedFrom(q, l', p, asked, order, n, i, k);
    BestUpTo(q, order, n);
  }

  lemma ServedFrom(q: Asking, l': Layout, p: int, asked: bool, order: Layout, n: int, i: int, k: int)
    requires q.Ok() && Allocated(q, l', p, asked) && order == q.Order() && FirstFit(order, Need(q.req), n)
    requires 0 <= i < |q.l| && q.l[i] == order[n] && FitsFirst(q.l[i], Need(q.req), k)
    ensures !asked && BlockAdded(q.l, i, k, q.req, l', p)
  {
    var c := PlacedAt(q, order, n);
    OnlyBase(q.l, i, c.i);
    AllocatedBlock(q, l', p, asked, i, k);
  }

  lemma BestUpTo(q: Asking, order: Layout, n: int)
    requires q.Ok() && order == q.Order() && FirstFit(order, Need(q.req), n)
    ensures BestSeen(q.bet, BetFree(q.l, q.bet), order[..n + 1], BestOf(q.From(), q.Seen()).bet)
  {
    assert q.Seen() == order[..n + 1] by { SeenFirst(q, order, n); }
    BestIsSeen(q.From(), order[..n + 1]);
  }

  lemma SeenFirst(q: Asking, order: Layout, n: int)
    requires q.Ok() && order == q.Order() && FirstFit(order, Need(q.req), n)
    ensures q.Seen() == order[..n + 1]
  {
    var c := PlacedAt(q, order, n);
    SeenUpTo(q, c);
  }

  lemma AllocatedBlock(q: Asking, l': Layout, p: int, asked: bool, i: int, k: int)
    requires q.Ok() && Allocated(q, l', p, asked) && 0 <= i < |q.l| && Choose(q.l, q.Start(), Need(q.req)) == i
    requires FitsFirst(q.l[i], Need(q.req), k)
    ensures !asked && BlockAdded(q.l, i, k, q.req, l', p)
  {
    RoomIffNotFull(q.l[i], Need(q.req));
    BlockIsAdded(q.l, i, k, q.req, l');
  }

  lemma PlacedAt(q: Asking, order: Layout, n: int) returns (c: Cursor)
    requires q.Ok() && order == q.Order() && FirstFit(order, Need(q.req), n)
    ensures 0 <= c.i < |q.l| && (c.startedBet ==> q.FromBet() && q.Start() <= c.i) && Pos(q, c) == n
    ensures Passed(q.Order(), Pos(q, c), q.req) && HasRoom(q.l[c.i], Need(q.req)) && order[n] == q.l[c.i]
    ensures Choose(q.l, q.Start(), Need(q.req)) == c.i
  {
    c := CursorAt(q, n);
    forall j | 0 <= j <= n ensures HasRoom(order[j], Need(q.req)) <==> j == n { RoomIffNotFull(order[j], Need(q.req)); }
    ChosenAt(q, c);
  }

  lemma BlockIsAdded(l: Layout, i: int, k: int, req: int, l': Layout)
    requires 0 <= i < |l| && 0 <= k <= |l[i].blocks| && l' == Place(l, i, k, req)
    ensures i < |l'| && k < |l'[i].blocks| && BlockAdded(l, i, k, req, l', UserPtr(l'[i].blocks[k]))
  {
    InsertAt(l[i].blocks, k, NewBlock(l[i], k, req), k);
  }

  /** The cursor at a position of the order. */
  lemma CursorAt(q: Asking, n: int) returns (c: Cursor)
    requires q.Ok() && 0 <= n < |q.Order()|
    ensures 0 <= c.i < |q.l| && (c.startedBet ==> q.FromBet() && q.Start() <= c.i) && Pos(q, c) == n
    ensures q.Order()[n] == q.l[c.i]
  {
    var first := |q.Order()| - |q.l|;
    var started := n < first;
    c := Cursor(0, if started then q.Start() + n else n - first, started, 0, 0, false, [], false);
    OrderAt(q, c);
  }

  /** A chunk without blocks, as the page allocator grants it. */
  function NewChunk(req: int, grant: int): Chunk { Chunk(grant, ChunkSize(req + ALIGNMENT + ALIGN_INFO), []) }

  /** Main result: when no chunk has a gap for it, the page allocator is asked; its chunk is appended and holds
      the request in front, or, if there is none, nothing changes. */
  lemma ServedAfresh(q: Asking, l': Layout, p: int, asked: bool, bet': int, order: Layout)
    requires Answered(q, l', p, asked, bet') && IsOrder(q.l, q.bet, q.req, order) && AllFull(q.l, Need(q.req))
    ensures asked && (q.grant == 0 ==> l' == q.l && p == 0)
    ensures q.grant != 0 ==> BlockAdded(q.l + [NewChunk(q.req, q.grant)], |q.l|, 0, q.req, l', p)
    ensures var looks := q.grant != 0 && (q.l == [] || FreeBytes(q.l[|q.l| - 1]) >= Need(q.req));
      BestSeen(q.bet, BetFree(q.l, q.bet), order + if looks then [NewChunk(q.req, q.grant)] else [], bet')
  {
    OrderIs(q, order);
    FullIsPassed(q, order);
    FreshBlock(q, l', p, asked);
    BestOfAll(q, order);
  }

  lemma FreshBlock(q: Asking, l': Layout, p: int, asked: bool)
    requires q.Ok() && Allocated(q, l', p, asked) && Passed(q.Order(), |q.Order()|, q.req)
    ensures asked && (q.grant == 0 ==> l' == q.l && p == 0)
    ensures q.grant != 0 ==> BlockAdded(q.l + [NewChunk(q.req, q.grant)], |q.l|, 0, q.req, l', p)
  {
    NoneChosen(q);
    if q.grant != 0 { BlockIsAdded(q.l + [FreshChunk(q.req, q.grant)], |q.l|, 0, q.req, l'); }
  }

  lemma BestOfAll(q: Asking, order: Layout)
    requires q.Ok() && order == q.Order() && Passed(order, |order|, q.req)
    ensures var looks := q.grant != 0 && (q.l == [] || FreeBytes(q.l[|q.l| - 1]) >= Need(q.req));
      BestSeen(q.bet, BetFree(q.l, q.bet), order + if looks then [NewChunk(q.req, q.grant)] else [],
               BestOf(q.From(), q.Seen()).bet)
  {
    NoneChosen(q);
    SeenEverything(q, order);
    BestIsSeen(q.From(), q.Seen());
  }

  lemma SeenEverything(q: Asking, order: Layout)
    requires q.Ok() && order == q.Order() && FirstChunk(order, 0, Need(q.req)) == -1
    ensures var looks := q.grant != 0 && (q.l == [] || FreeBytes(q.l[|q.l| - 1]) >= Need(q.req));
      q.Seen() == order + if looks then [NewChunk(q.req, q.grant)] else []
  {
  }

  lemma FullIsPassed(q: Asking, order: Layout)
    requires q.Ok() && order == q.Order() && AllFull(q.l, Need(q.req))
    ensures Passed(order, |order|, q.req)
  {
    forall n | 0 <= n < |order| ensures !HasRoom(order[n], Need(q.req)) {
      var c := CursorAt(q, n);
      RoomIffNotFull(q.l[c.i], Need(q.req));
    }
  }

  /** Chunk `i`, the `n`-th in the order of the search, is the first with room, and `k` its first gap that fits. */
  ghost predicate LandsIn(q: Asking, order: Layout, n: int, i: int, k: int) {
    && IsOrder(q.l, q.bet, q.req, order) && FirstFit(order, Need(q.req), n)
    && 0 <= i < |q.l| && q.l[i] == order[n] && FitsFirst(q.l[i], Need(q.req), k)
  }

  ghost predicate ServesFirst(q: Asking, l': Layout, p: int, asked: bool, bet': int)
    requires BetOk(q.l, q.bet)
  {
    forall order, n, i, k | LandsIn(q, order, n, i, k) ::
      !asked && BlockAdded(q.l, i, k, q.req, l', p) && BestSeen(q.bet, BetFree(q.l, q.bet), order[..n + 1], bet')
  }

  ghost predicate ServesAfresh(q: Asking, l': Layout, p: int, asked: bool, bet': int)
    requires BetOk(q.l, q.bet)
  {
    AllFull(q.l, Need(q.req)) ==>
      && asked && (q.grant == 0 ==> l' == q.l && p == 0)
      && (q.grant != 0 ==> BlockAdded(q.l + [NewChunk(q.req, q.grant)], |q.l|, 0, q.req, l', p))
      && forall order | IsOrder(q.l, q.bet, q.req, order) ::
           var looks := q.grant != 0 && (q.l == [] || FreeBytes(q.l[|q.l| - 1]) >= Need(q.req));
           BestSeen(q.bet, BetFree(q.l, q.bet), order + if looks then [NewChunk(q.req, q.grant)] else [], bet')
  }

  /** Every request is of one of the two kinds. */
  lemma LandsOrAllFull(q: Asking) returns (order: Layout, n: int, i: int, k: int)
    requires q.Ok()
    ensures IsOrder(q.l, q.bet, q.req, order) && (AllFull(q.l, Need(q.req)) || LandsIn(q, order, n, i, k))
  {
    order, n, i, k := q.Order(), 0, 0, 0;
    SearchIsInOrder(q);
    if !AllFull(q.l, Need(q.req)) {
      n := FirstNotFull(q, order);
      var c := CursorAt(q, n);
      i := c.i;
      k := NotFullFits(q.l[i], Need(q.req));
    }
  }

  lemma SearchIsInOrder(q: Asking)
    requires q.Ok()
    ensures IsOrder(q.l, q.bet, q.req, q.Order())
  {
    forall b | Preferred(q.l, q.bet, q.req, b) ensures q.FromBet() && b == q.Start() {
      OnlyBase(q.l, b, IndexOf(q.l, q.bet));
    }
    if q.FromBet() { assert Preferred(q.l, q.bet, q.req, q.Start()); }
  }

  lemma NotFullFits(c: Chunk, need: int) returns (k: int)
    requires !Full(c, need)
    ensures FitsFirst(c, need, k)
  {
    RoomIffNotFull(c, need);
    k := FirstGap(c, 0, need);
  }

  lemma FirstNotFull(q: Asking, order: Layout) returns (n: int)
    requires q.Ok() && order == q.Order() && !AllFull(q.l, Need(q.req))
    ensures FirstFit(order, Need(q.req), n)
  {
    var j :| 0 <= j < |q.l| && !Full(q.l[j], Need(q.req));
    OrderParts(q, j);
    RoomIffNotFull(q.l[j], Need(q.req));
    n := FirstChunk(order, 0, Need(q.req));
    forall m | 0 <= m <= n ensures Full(order[m], Need(q.req)) <==> m != n { RoomIffNotFull(order[m], Need(q.req)); }
  }

  lemma AnsweredServes(q: Asking, l': Layout, p: int, asked: bool, bet': int)
    requires Answered(q, l', p, asked, bet')
    ensures ServesFirst(q, l', p, asked, bet') && ServesAfresh(q, l', p, asked, bet')
  {
    forall order, n, i, k | LandsIn(q, order, n, i, k)
      ensures !asked && BlockAdded(q.l, i, k, q.req, l', p)
      ensures BestSeen(q.bet, BetFree(q.l, q.bet), order[..n + 1], bet')
    {
      ServedInOrder(q, l', p, asked, bet', order, n, i, k);
    }
    if AllFull(q.l, Need(q.req)) {
      var order, n, i, k := LandsOrAllFull(q);
      ServedAfresh(q, l', p, asked, bet', order);
      forall order' | IsOrder(q.l, q.bet, q.req, order') ensures order' == order {
        OrderIs(q, order');
        OrderIs(q, order);
      }
    }
  }
}
