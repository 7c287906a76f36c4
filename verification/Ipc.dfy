/**
  Message passing between tasks, as steps of any number of them in any order. Each task owns one channel,
  and channel and task share an id. A send copies the payload into a package, takes the recipient's ring
  lock, tests for room, writes the slot, moves the head and releases the lock; a receive takes its own
  ring's lock, tests, reads, moves the tail, releases, copies out and frees the package.

  The last seven fields of the state are history: they record what happened and decide nothing.
 */
module Ipc {
  import opened Common
  import opened RingBuffer

  type Id = nat
  type Ptr = int
  type Bytes = seq<int>

  datatype Flags = Flags(canReceive: bool, canSend: bool)

  datatype Code = Done | Invalid | Unauthorized | Failure

  /** What a call gives back: its code, the bytes it copies out and the size it writes, `None` where it leaves
      the caller's own. */
  datatype Reply = Reply(code: Code, data: Option<Bytes>, size: Option<nat>)

  datatype Op = Send(dest: Id, pack: Ptr, msg: Bytes) | Receive | Peek

  /** Where a task is in its call. */
  datatype Pc =
    | Idle(reply: Reply)
    | Want(op: Op)                        // spinning on the lock
    | Locked(op: Op)                      // has it, has not tested yet
    | Going(op: Op)                       // there is room, or there is a package
    | Half(op: Op, p: Ptr)                // slot written or read, index not moved
    | Leaving(op: Op, ok: bool, p: Ptr)   // about to release the lock
    | After(op: Op, p: Ptr)               // released, has a package

  datatype Place = Held(t: Id) | InRing(c: Id)

  datatype Sys = Sys(
    names: seq<(string, Id)>,
    flags: map<Id, Flags>,
    rings: map<Id, Ring>,
    locks: map<Id, bool>,
    packs: map<Ptr, Bytes>,
    pcs: map<Id, Pc>,
    holder: map<Id, Option<Id>>,
    owner: map<Ptr, Place>,
    sent: map<Id, seq<Bytes>>,
    received: map<Id, seq<Bytes>>,
    delivered: map<Id, seq<Bytes>>,
    accepted: map<Id, multiset<Bytes>>)

  function Target(t: Id, op: Op): Id { if op.Send? then op.dest else t }

  // ----- Beginning a call --------------------------------------------------------------------------

  /** The first channel registered under a name. */
  function FindByName(names: seq<(string, Id)>, name: string): Option<Id> {
    if names == [] then None
    else if names[0].0 == name then Some(names[0].1)
    else FindByName(names[1..], name)
  }

  predicate Registered(names: seq<(string, Id)>, c: Id) {
    exists i | 0 <= i < |names| :: names[i].1 == c
  }

  datatype Request = Sending(name: string, payload: Option<Bytes>) | Receiving | Peeking | Unknown

  /** The code a call fails with before it asks for a lock, if it does. */
  function Refusal(s: Sys, t: Id, r: Request): Option<Code>
    requires t in s.flags
  {
    match r
    case Unknown => Some(Invalid)
    case Sending(name, payload) =>
      if payload.None? || payload.value == [] then Some(Invalid)
      else var dest := FindByName(s.names, name);
        if dest.None? then Some(Failure)
        else if !Registered(s.names, t) then Some(Failure)
        else if !s.flags[t].canSend then Some(Unauthorized)
        else if dest.value !in s.flags || !Registered(s.names, dest.value) then Some(Failure)
        else if !s.flags[dest.value].canReceive then Some(Unauthorized)
        else None
    case _ =>
      if !Registered(s.names, t) then Some(Failure)
      else if !s.flags[t].canReceive then Some(Unauthorized)
      else None
  }

  /** A send with a payload and a known recipient makes its package before any other test. */
  predicate MakesPackage(s: Sys, r: Request) {
    r.Sending? && r.payload.Some? && r.payload.value != [] && FindByName(s.names, r.name).Some?
  }

  /** Where a task that begins a call goes; a package of its would be at `p`. */
  function BeginPc(s: Sys, t: Id, r: Request, p: Ptr): Pc
    requires t in s.flags
  {
    var refusal := Refusal(s, t, r);
    if refusal.Some? then Idle(Reply(refusal.value, None, None))
    else if MakesPackage(s, r) then Want(Send(FindByName(s.names, r.name).value, p, r.payload.value))
    else if r.Receiving? then Want(Receive)
    else Want(Peek)
  }

  function BeginPacks(s: Sys, r: Request, p: Ptr): map<Ptr, Bytes> {
    if MakesPackage(s, r) then s.packs[p := r.payload.value] else s.packs
  }

  /** A task begins a call; a package goes to the free address `p`. The package of a refused send is never
      used again. */
  ghost predicate Begins(s: Sys, t: Id, r: Request, p: Ptr, s': Sys) {
    && t in s.pcs && t in s.flags && s.pcs[t].Idle? && p !in s.packs
    && s' == s.(packs := BeginPacks(s, r, p), owner := s.owner[p := Held(t)],
                pcs := s.pcs[t := BeginPc(s, t, r, p)])
  }

  // ----- One step of a call ------------------------------------------------------------------------

  /** Task `t` and its channel are there. */
  ghost predicate Has(s: Sys, t: Id) {
    && t in s.pcs && t in s.flags && t in s.rings && t in s.locks && t in s.holder
    && t in s.sent && t in s.received && t in s.delivered && t in s.accepted
  }

  ghost function StepWant(s: Sys, t: Id, op: Op): Sys
    requires Has(s, t) && Has(s, Target(t, op))
  {
    var c := Target(t, op);
    if s.locks[c] then s
    else s.(locks := s.locks[c := true], holder := s.holder[c := Some(t)], pcs := s.pcs[t := Locked(op)])
  }

  ghost function StepLocked(s: Sys, t: Id, op: Op): Sys
    requires Has(s, t) && Has(s, Target(t, op)) && Max(s.rings[Target(t, op)]) > 0
  {
    var r := s.rings[Target(t, op)];
    var blocked := if op.Send? then Full(r) else Empty(r);
    s.(pcs := s.pcs[t := if blocked then Leaving(op, false, 0) else Going(op)])
  }

  ghost function StepGoing(s: Sys, t: Id, op: Op): Sys
    requires Has(s, t) && Has(s, Target(t, op)) && RingOk(s.rings[Target(t, op)])
  {
    var c := Target(t, op);
    if op.Send? then s.(rings := s.rings[c := Stored(s.rings[c], op.pack)], pcs := s.pcs[t := Half(op, op.pack)])
    else s.(pcs := s.pcs[t := Half(op, s.rings[c].buf[s.rings[c].tail])])
  }

  ghost function StepHalf(s: Sys, t: Id, op: Op, p: Ptr): Sys
    requires Has(s, t) && Has(s, Target(t, op)) && RingOk(s.rings[Target(t, op)]) && p in s.packs
  {
    var c := Target(t, op);
    match op
    case Send(_, pack, msg) =>
      s.(rings := s.rings[c := Pushed(s.rings[c])], owner := s.owner[pack := InRing(c)],
         sent := s.sent[c := s.sent[c] + [msg]], pcs := s.pcs[t := Leaving(op, true, p)])
    case Receive =>
      s.(rings := s.rings[c := Popped(s.rings[c])], owner := s.owner[p := Held(t)],
         received := s.received[c := s.received[c] + [s.packs[p]]], pcs := s.pcs[t := Leaving(op, true, p)])
    case Peek => s.(pcs := s.pcs[t := Leaving(op, true, p)])
  }

  /** Where a task is once it has released the lock. */
  function LeftPc(op: Op, ok: bool, p: Ptr): Pc {
    if op.Send? then Idle(Reply(if ok then Done else Failure, None, None))
    else if ok then After(op, p)
    else Idle(Reply(Done, None, None))
  }

  /** The message of a send whose caller has just been told that it succeeded. */
  ghost function Reported(op: Op, pc: Pc): multiset<Bytes> {
    if op.Send? && pc.Idle? && pc.reply.code == Done then multiset{op.msg} else multiset{}
  }

  ghost function StepLeaving(s: Sys, t: Id, op: Op, ok: bool, p: Ptr): Sys
    requires Has(s, t) && Has(s, Target(t, op))
  {
    var c := Target(t, op);
    s.(locks := s.locks[c := false], holder := s.holder[c := None],
       accepted := s.accepted[c := s.accepted[c] + Reported(op, LeftPc(op, ok, p))],
       pcs := s.pcs[t := LeftPc(op, ok, p)])
  }

  ghost function StepAfter(s: Sys, t: Id, op: Op, p: Ptr): Sys
    requires Has(s, t) && p in s.packs
  {
    if op.Receive? then
      s.(delivered := s.delivered[t := s.delivered[t] + [s.packs[p]]], packs := s.packs - {p}, owner := s.owner - {p},
         pcs := s.pcs[t := Idle(Reply(Done, Some(s.packs[p]), Some(|s.packs[p]|)))])
    else s.(pcs := s.pcs[t := Idle(Reply(Done, None, Some(|s.packs[p]|)))])
  }

  // ----- The invariant -----------------------------------------------------------------------------

  predicate Critical(pc: Pc) { pc.Locked? || pc.Going? || pc.Half? || pc.Leaving? }

  ghost predicate At(s: Sys, p: Ptr, place: Place) { p in s.packs && p in s.owner && s.owner[p] == place }

  /** What a task that is still to send may count on. */
  ghost predicate CarriesOk(s: Sys, t: Id, op: Op) {
    op.Send? ==> At(s, op.pack, Held(t)) && s.packs[op.pack] == op.msg
  }

  ghost predicate TaskOk(s: Sys, t: Id)
    requires Has(s, t)
  {
    var pc := s.pcs[t];
    pc.Idle? || (
      var c := Target(t, pc.op);
      && Has(s, c) && RingOk(s.rings[c])
      && (Critical(pc) ==> s.holder[c] == Some(t))
      && match pc
         case Idle(_) => true
         case Want(op) => CarriesOk(s, t, op)
         case Locked(op) => CarriesOk(s, t, op)
         case Going(op) => CarriesOk(s, t, op) && (if op.Send? then !Full(s.rings[c]) else !Empty(s.rings[c]))
         case Half(op, p) =>
           if op.Send? then CarriesOk(s, t, op) && !Full(s.rings[c]) && s.rings[c].buf[s.rings[c].head] == op.pack
             && p == op.pack
           else !Empty(s.rings[c]) && s.rings[c].buf[s.rings[c].tail] == p
         case Leaving(op, ok, p) => ok ==> FoundOk(s, t, op, p)
         case After(op, p) => !op.Send? && FoundOk(s, t, op, p))
  }

  /** The package a receive or a peek found: the one it took out, or the oldest in its ring. */
  ghost predicate FoundOk(s: Sys, t: Id, op: Op, p: Ptr)
    requires Has(s, t)
  {
    match op
    case Send(_, _, _) => true
    case Receive => At(s, p, Held(t))
    case Peek => RingOk(s.rings[t]) && Queue(s.rings[t]) != [] && Queue(s.rings[t])[0] == p
  }

  ghost predicate PtrsOk(s: Sys, c: Id, q: seq<Ptr>) {
    && (forall i | 0 <= i < |q| :: At(s, q[i], InRing(c)))
    && (forall i, j | 0 <= i < j < |q| :: q[i] != q[j])
  }

  ghost function Texts(packs: map<Ptr, Bytes>, q: seq<Ptr>): seq<Bytes>
    requires forall i | 0 <= i < |q| :: q[i] in packs
  {
    seq(|q|, i requires 0 <= i < |q| => packs[q[i]])
  }

  /** The message a task has taken out of its ring and not yet delivered. */
  ghost function InFlight(s: Sys, pc: Pc): seq<Bytes> {
    if ((pc.Leaving? && pc.ok) || pc.After?) && pc.op.Receive? && pc.p in s.packs then [s.packs[pc.p]] else []
  }

  /** The message a task has put in ring `c` and not yet reported. */
  ghost function Unreported(pc: Pc): multiset<Bytes> {
    if pc.Leaving? && pc.ok && pc.op.Send? then multiset{pc.op.msg} else multiset{}
  }

  ghost predicate LockOk(s: Sys, c: Id)
    requires Has(s, c)
  {
    && (s.locks[c] <==> s.holder[c].Some?)
    && (s.holder[c].Some? ==>
         var t := s.holder[c].value;
         t in s.pcs && Critical(s.pcs[t]) && Target(t, s.pcs[t].op) == c)
  }

  ghost predicate ChanOk(s: Sys, c: Id)
    requires Has(s, c)
  {
    && RingOk(s.rings[c]) && LockOk(s, c) && PtrsOk(s, c, Queue(s.rings[c]))
    && s.sent[c] == s.received[c] + Texts(s.packs, Queue(s.rings[c]))
    && s.received[c] == s.delivered[c] + InFlight(s, s.pcs[c])
    && multiset(s.sent[c]) == s.accepted[c] +
         (if s.holder[c].Some? then Unreported(s.pcs[s.holder[c].value]) else multiset{})
  }

  ghost predicate OkAt(s: Sys, t: Id) { t in s.pcs ==> Has(s, t) && TaskOk(s, t) && ChanOk(s, t) }

  ghost predicate Inv(s: Sys) { forall t: Id :: OkAt(s, t) }

  // ----- What a step leaves alone ------------------------------------------------------------------

  ghost predicate PtrsKept(s: Sys, s': Sys, t: Id, c: Id) {
    forall p, place :: At(s, p, place) && place != Held(t) && place != InRing(c) ==>
      At(s', p, place) && s'.packs[p] == s.packs[p]
  }

  /** What a step of task `t` on channel `c` keeps of task and channel `x`. */
  ghost predicate KeptAt(s: Sys, s': Sys, t: Id, c: Id, x: Id) {
    && (x in s'.pcs <==> x in s.pcs)
    && (Has(s, x) ==>
      && Has(s', x)
      && (x != t ==> s'.pcs[x] == s.pcs[x])
      && (x != c ==> s'.rings[x] == s.rings[x] && s'.locks[x] == s.locks[x] && s'.holder[x] == s.holder[x]
                     && s'.sent[x] == s.sent[x] && s'.accepted[x] == s.accepted[x]
                     && s'.received[x] == s.received[x] && s'.delivered[x] == s.delivered[x]))
  }

  /** The oldest package of a ring stays where it is. */
  ghost predicate FrontKept(r: Ring, r': Ring) {
    RingOk(r) && RingOk(r') && (Queue(r) != [] ==> Queue(r') != [] && Queue(r')[0] == Queue(r)[0])
  }

  /** A step of task `t` on channel `c`, seen by everyone else. */
  ghost predicate Local(s: Sys, s': Sys, t: Id, c: Id) {
    && Inv(s) && Has(s, t) && Has(s, c) && Has(s', c) && PtrsKept(s, s', t, c)
    && (forall x: Id :: KeptAt(s, s', t, c, x))
    && RingOk(s'.rings[c])
    && ((s'.rings[c] == s.rings[c] && s'.holder[c] == s.holder[c]) || s.holder[c] == None || s.holder[c] == Some(t))
    && (c != t ==>
      Has(s', t) && FrontKept(s.rings[c], s'.rings[c]) && InFlight(s, s.pcs[t]) == InFlight(s', s'.pcs[t]) == [])
  }

  lemma TaskFacts(s: Sys, t: Id)
    requires Inv(s) && t in s.pcs
    ensures Has(s, t) && TaskOk(s, t)
  {
    assert OkAt(s, t);
  }

  lemma ChanFacts(s: Sys, c: Id)
    requires Inv(s) && c in s.pcs
    ensures Has(s, c) && ChanOk(s, c)
  {
    assert OkAt(s, c);
  }

  /** A task in its critical section holds the lock of its target. */
  lemma HoldsLock(s: Sys, t: Id, c: Id)
    requires Inv(s) && t in s.pcs && Critical(s.pcs[t]) && c == Target(t, s.pcs[t].op)
    ensures Has(s, t) && Has(s, c) && RingOk(s.rings[c]) && s.holder[c] == Some(t)
  {
    assert OkAt(s, t);
  }

  lemma CarriesKept(s: Sys, s': Sys, t: Id, c: Id, x: Id, op: Op)
    requires PtrsKept(s, s', t, c) && x != t
    ensures CarriesOk(s, x, op) ==> CarriesOk(s', x, op)
  {
  }

  lemma FoundKept(s: Sys, s': Sys, t: Id, c: Id, x: Id, op: Op, p: Ptr)
    requires PtrsKept(s, s', t, c) && x != t && Has(s, x) && Has(s', x)
    requires if x == c then FrontKept(s.rings[x], s'.rings[x]) else s'.rings[x] == s.rings[x]
    ensures FoundOk(s, x, op, p) ==> FoundOk(s', x, op, p)
  {
  }

  lemma TaskKept(s: Sys, s': Sys, t: Id, c: Id, x: Id)
    requires Local(s, s', t, c) && x in s.pcs && x != t
    ensures Has(s', x) && TaskOk(s', x)
  {
    TaskFacts(s, x);
    assert KeptAt(s, s', t, c, x);
    var pc := s.pcs[x];
    if !pc.Idle? {
      assert KeptAt(s, s', t, c, Target(x, pc.op));
      if pc.Leaving? || pc.After? {
        FoundKept(s, s', t, c, x, pc.op, pc.p);
      } else {
        CarriesKept(s, s', t, c, x, pc.op);
      }
    }
  }

  lemma FlightKept(s: Sys, s': Sys, t: Id, c: Id, x: Id)
    requires Local(s, s', t, c) && x in s.pcs && x != c
    ensures Has(s, x) && Has(s', x) && InFlight(s', s'.pcs[x]) == InFlight(s, s.pcs[x])
  {
    assert OkAt(s, x) && KeptAt(s, s', t, c, x);
    if x != t && InFlight(s, s.pcs[x]) != [] { assert At(s, s.pcs[x].p, Held(x)); }
    if x != t && InFlight(s', s'.pcs[x]) != [] { assert At(s, s.pcs[x].p, Held(x)); }
  }

  lemma LockKept(s: Sys, s': Sys, t: Id, c: Id, x: Id)
    requires Local(s, s', t, c) && x in s.pcs && x != c && (s.pcs[t].Idle? || Target(t, s.pcs[t].op) == c)
    ensures Has(s, x) && Has(s', x) && LockOk(s', x)
    ensures s.holder[x].Some? ==>
      s.holder[x].value in s.pcs && s.holder[x].value in s'.pcs && s'.pcs[s.holder[x].value] == s.pcs[s.holder[x].value]
  {
    assert OkAt(s, x) && KeptAt(s, s', t, c, x);
    if s.holder[x].Some? {
      var h := s.holder[x].value;
      assert OkAt(s, h) && KeptAt(s, s', t, c, h);
    }
  }

  lemma ChanKept(s: Sys, s': Sys, t: Id, c: Id, x: Id)
    requires Local(s, s', t, c) && x in s.pcs && x != c && (s.pcs[t].Idle? || Target(t, s.pcs[t].op) == c)
    ensures Has(s', x) && ChanOk(s', x)
  {
    assert OkAt(s, x) && KeptAt(s, s', t, c, x);
    FlightKept(s, s', t, c, x);
    LockKept(s, s', t, c, x);
    var q := Queue(s.rings[x]);
    assert PtrsOk(s', x, q);
    assert Texts(s'.packs, q) == Texts(s.packs, q);
  }

  lemma Conclude(s: Sys, s': Sys, t: Id, c: Id)
    requires Local(s, s', t, c) && (s.pcs[t].Idle? || Target(t, s.pcs[t].op) == c)
    requires Has(s', t) && TaskOk(s', t) && ChanOk(s', c)
    ensures Inv(s')
  {
    forall x: Id ensures OkAt(s', x) {
      assert KeptAt(s, s', t, c, x);
      if x in s.pcs {
        if x != t { TaskKept(s, s', t, c, x); }
        if x != c { ChanKept(s, s', t, c, x); }
      }
    }
  }

  // ----- Every step keeps it -----------------------------------------------------------------------

  lemma WantLocal(s: Sys, t: Id, op: Op, s': Sys, c: Id)
    requires Inv(s) && Has(s, t) && s.pcs[t] == Want(op) && c == Target(t, op) && Has(s, c) && !s.locks[c]
    requires s' == StepWant(s, t, op)
    ensures Local(s, s', t, c) && Has(s', t)
  {
    ChanFacts(s, c);
  }

  lemma WantKeeps(s: Sys, t: Id, op: Op, s': Sys)
    requires Inv(s) && Has(s, t) && s.pcs[t] == Want(op) && Has(s, Target(t, op)) && s' == StepWant(s, t, op)
    ensures Inv(s')
  {
    var c := Target(t, op);
    TaskFacts(s, t);
    ChanFacts(s, c);
    if !s.locks[c] {
      WantLocal(s, t, op, s', c);
      Conclude(s, s', t, c);
    }
  }

  lemma LockedLocal(s: Sys, t: Id, op: Op, s': Sys, c: Id)
    requires Inv(s) && Has(s, t) && s.pcs[t] == Locked(op) && c == Target(t, op) && Has(s, c) && RingOk(s.rings[c])
    requires s' == StepLocked(s, t, op)
    ensures Local(s, s', t, c) && Has(s', t)
  {
    HoldsLock(s, t, c);
  }

  lemma LockedKeeps(s: Sys, t: Id, op: Op, s': Sys)
    requires Inv(s) && Has(s, t) && s.pcs[t] == Locked(op) && Has(s, Target(t, op)) && RingOk(s.rings[Target(t, op)])
    requires s' == StepLocked(s, t, op)
    ensures Inv(s')
  {
    var c := Target(t, op);
    TaskFacts(s, t);
    ChanFacts(s, c);
    LockedLocal(s, t, op, s', c);
    Conclude(s, s', t, c);
  }

  lemma GoingLocal(s: Sys, t: Id, op: Op, s': Sys, c: Id)
    requires Inv(s) && Has(s, t) && s.pcs[t] == Going(op) && c == Target(t, op) && Has(s, c) && RingOk(s.rings[c])
    requires s' == StepGoing(s, t, op)
    ensures Local(s, s', t, c) && Has(s', t)
  {
    HoldsLock(s, t, c);
    if op.Send? { StoredKeeps(s.rings[c], op.pack); }
  }

  lemma GoingKeeps(s: Sys, t: Id, op: Op, s': Sys)
    requires Inv(s) && Has(s, t) && s.pcs[t] == Going(op) && Has(s, Target(t, op)) && RingOk(s.rings[Target(t, op)])
    requires s' == StepGoing(s, t, op)
    ensures Inv(s')
  {
    var c := Target(t, op);
    TaskFacts(s, t);
    ChanFacts(s, c);
    GoingLocal(s, t, op, s', c);
    if op.Send? { StoredKeeps(s.rings[c], op.pack); }
    Conclude(s, s', t, c);
  }

  lemma PeekLocal(s: Sys, t: Id, p: Ptr, s': Sys)
    requires Inv(s) && Has(s, t) && s.pcs[t] == Half(Peek, p) && RingOk(s.rings[t]) && p in s.packs
    requires s' == StepHalf(s, t, Peek, p)
    ensures Local(s, s', t, t) && Has(s', t)
  {
    HoldsLock(s, t, t);
  }

  lemma PeekBoth(s: Sys, t: Id, p: Ptr, s': Sys)
    requires Inv(s) && Has(s, t) && s.pcs[t] == Half(Peek, p) && RingOk(s.rings[t]) && p in s.packs
    requires s' == StepHalf(s, t, Peek, p)
    ensures Has(s', t) && TaskOk(s', t) && ChanOk(s', t)
  {
    TaskFacts(s, t);
    ChanFacts(s, t);
    PoppedRemoves(s.rings[t]);
    var q := Queue(s.rings[t]);
    assert PtrsOk(s', t, q) && Texts(s'.packs, q) == Texts(s.packs, q);
  }

  lemma PeekKeeps(s: Sys, t: Id, p: Ptr, s': Sys)
    requires Inv(s) && Has(s, t) && s.pcs[t] == Half(Peek, p) && RingOk(s.rings[t]) && p in s.packs
    requires s' == StepHalf(s, t, Peek, p)
    ensures Inv(s')
  {
    PeekLocal(s, t, p, s');
    PeekBoth(s, t, p, s');
    Conclude(s, s', t, t);
  }

  lemma SendLocal(s: Sys, t: Id, op: Op, p: Ptr, s': Sys, c: Id)
    requires Inv(s) && Has(s, t) && op.Send? && s.pcs[t] == Half(op, p) && c == op.dest && Has(s, c)
    requires RingOk(s.rings[c])
    requires p in s.packs && s' == StepHalf(s, t, op, p)
    ensures Local(s, s', t, c) && Has(s', t)
  {
    HoldsLock(s, t, c);
    TaskFacts(s, t);
    PushedAppends(s.rings[c]);
  }

  lemma LastText(s: Sys, s': Sys, c: Id, p: Ptr, q: seq<Ptr>)
    requires PtrsOk(s, c, q) && p in s.packs && p in s.owner && s.owner[p].Held?
    requires s'.packs == s.packs && s'.owner == s.owner[p := InRing(c)]
    ensures PtrsOk(s', c, q + [p]) && Texts(s'.packs, q + [p]) == Texts(s.packs, q) + [s.packs[p]]
  {
    var q' := q + [p];
    forall i | 0 <= i < |q'| ensures At(s', q'[i], InRing(c)) {
      if i < |q| { assert At(s, q[i], InRing(c)); }
    }
    forall i, j | 0 <= i < j < |q'| ensures q'[i] != q'[j] {
      if i < |q| { assert At(s, q[i], InRing(c)); }
    }
  }

  lemma SendChan(s: Sys, t: Id, op: Op, p: Ptr, s': Sys, c: Id)
    requires Inv(s) && Has(s, t) && op.Send? && s.pcs[t] == Half(op, p) && c == op.dest && Has(s, c)
    requires RingOk(s.rings[c])
    requires p in s.packs && s' == StepHalf(s, t, op, p)
    ensures Has(s', c) && ChanOk(s', c)
  {
    TaskFacts(s, t);
    ChanFacts(s, c);
    PushedAppends(s.rings[c]);
    LastText(s, s', c, p, Queue(s.rings[c]));
    SendFlight(s, t, op, p, s', c);
  }

  lemma SendFlight(s: Sys, t: Id, op: Op, p: Ptr, s': Sys, c: Id)
    requires Has(s, t) && op.Send? && s.pcs[t] == Half(op, p) && c == op.dest && Has(s, c) && RingOk(s.rings[c])
    requires p in s.packs && s' == StepHalf(s, t, op, p)
    ensures InFlight(s', s'.pcs[c]) == InFlight(s, s.pcs[c])
  {
  }

  lemma SendKeeps(s: Sys, t: Id, op: Op, p: Ptr, s': Sys)
    requires Inv(s) && Has(s, t) && op.Send? && s.pcs[t] == Half(op, p) && Has(s, op.dest) && RingOk(s.rings[op.dest])
    requires p in s.packs && s' == StepHalf(s, t, op, p)
    ensures Inv(s')
  {
    var c := op.dest;
    TaskFacts(s, t);
    ChanFacts(s, c);
    SendLocal(s, t, op, p, s', c);
    SendChan(s, t, op, p, s', c);
    Conclude(s, s', t, c);
  }

  lemma Oldest(s: Sys, t: Id, p: Ptr)
    requires Inv(s) && Has(s, t) && s.pcs[t].Half? && !s.pcs[t].op.Send? && s.pcs[t].p == p
    ensures RingOk(s.rings[t]) && RingOk(Popped(s.rings[t])) && Queue(s.rings[t]) == [p] + Queue(Popped(s.rings[t]))
    ensures At(s, p, InRing(t)) && PtrsOk(s, t, Queue(Popped(s.rings[t]))) && p !in Queue(Popped(s.rings[t]))
    ensures s.sent[t] == s.received[t] + [s.packs[p]] + Texts(s.packs, Queue(Popped(s.rings[t])))
  {
    TaskFacts(s, t);
    ChanFacts(s, t);
    PoppedRemoves(s.rings[t]);
    FirstText(s, t, p, Queue(Popped(s.rings[t])));
  }

  lemma FirstText(s: Sys, c: Id, p: Ptr, q: seq<Ptr>)
    requires PtrsOk(s, c, [p] + q)
    ensures At(s, p, InRing(c)) && PtrsOk(s, c, q) && p !in q
    ensures Texts(s.packs, [p] + q) == [s.packs[p]] + Texts(s.packs, q)
  {
    var q0 := [p] + q;
    assert q0[0] == p;
    forall i | 0 <= i < |q| ensures q[i] == q0[i + 1] && At(s, q[i], InRing(c)) && q[i] != p {
      assert At(s, q0[i + 1], InRing(c));
    }
    assert PtrsOk(s, c, q) by {
      forall i, j | 0 <= i < j < |q| ensures q[i] != q[j] { assert q0[i + 1] != q0[j + 1]; }
    }
  }

  lemma ReceiveLocal(s: Sys, t: Id, p: Ptr, s': Sys)
    requires Inv(s) && Has(s, t) && s.pcs[t] == Half(Receive, p) && RingOk(s.rings[t]) && p in s.packs
    requires s' == StepHalf(s, t, Receive, p)
    ensures Local(s, s', t, t) && Has(s', t)
  {
    HoldsLock(s, t, t);
    Oldest(s, t, p);
  }

  lemma ReceiveTask(s: Sys, t: Id, p: Ptr, s': Sys)
    requires Inv(s) && Has(s, t) && s.pcs[t] == Half(Receive, p) && RingOk(s.rings[t]) && p in s.packs
    requires s' == StepHalf(s, t, Receive, p)
    ensures Has(s', t) && TaskOk(s', t)
  {
    HoldsLock(s, t, t);
    Oldest(s, t, p);
  }

  lemma ReceiveChan(s: Sys, t: Id, p: Ptr, s': Sys)
    requires Inv(s) && Has(s, t) && s.pcs[t] == Half(Receive, p) && RingOk(s.rings[t]) && p in s.packs
    requires s' == StepHalf(s, t, Receive, p)
    ensures Has(s', t) && ChanOk(s', t)
  {
    HoldsLock(s, t, t);
    ChanFacts(s, t);
    Oldest(s, t, p);
    ReceivedPtrs(s, t, p, s', Queue(Popped(s.rings[t])));
  }

  lemma ReceivedPtrs(s: Sys, t: Id, p: Ptr, s': Sys, q: seq<Ptr>)
    requires PtrsOk(s, t, q) && p !in q && s'.packs == s.packs && s'.owner == s.owner[p := Held(t)]
    ensures PtrsOk(s', t, q) && Texts(s'.packs, q) == Texts(s.packs, q)
  {
    forall i | 0 <= i < |q| ensures At(s', q[i], InRing(t)) {
      assert At(s, q[i], InRing(t));
    }
  }

  lemma ReceiveKeeps(s: Sys, t: Id, p: Ptr, s': Sys)
    requires Inv(s) && Has(s, t) && s.pcs[t] == Half(Receive, p) && RingOk(s.rings[t]) && p in s.packs
    requires s' == StepHalf(s, t, Receive, p)
    ensures Inv(s')
  {
    ReceiveLocal(s, t, p, s');
    ReceiveTask(s, t, p, s');
    ReceiveChan(s, t, p, s');
    Conclude(s, s', t, t);
  }

  lemma LeavingLocal(s: Sys, t: Id, op: Op, ok: bool, p: Ptr, s': Sys, c: Id)
    requires Inv(s) && Has(s, t) && s.pcs[t] == Leaving(op, ok, p) && c == Target(t, op) && Has(s, c)
    requires s' == StepLeaving(s, t, op, ok, p)
    ensures Local(s, s', t, c) && Has(s', t)
  {
    HoldsLock(s, t, c);
  }

  lemma LeavingTask(s: Sys, t: Id, op: Op, ok: bool, p: Ptr, s': Sys, c: Id)
    requires Inv(s) && Has(s, t) && s.pcs[t] == Leaving(op, ok, p) && c == Target(t, op) && Has(s, c)
    requires s' == StepLeaving(s, t, op, ok, p)
    ensures Has(s', t) && TaskOk(s', t)
  {
    TaskFacts(s, t);
  }

  lemma LeavingChan(s: Sys, t: Id, op: Op, ok: bool, p: Ptr, s': Sys, c: Id)
    requires Inv(s) && Has(s, t) && s.pcs[t] == Leaving(op, ok, p) && c == Target(t, op) && Has(s, c)
    requires s' == StepLeaving(s, t, op, ok, p)
    ensures Has(s', c) && ChanOk(s', c)
  {
    HoldsLock(s, t, c);
    ChanFacts(s, c);
    LeavingCounts(s, t, op, ok, p, s', c);
    assert PtrsOk(s', c, Queue(s.rings[c]));
  }

  lemma LeavingCounts(s: Sys, t: Id, op: Op, ok: bool, p: Ptr, s': Sys, c: Id)
    requires Has(s, t) && s.pcs[t] == Leaving(op, ok, p) && c == Target(t, op) && Has(s, c) && s.holder[c] == Some(t)
    requires s' == StepLeaving(s, t, op, ok, p)
    ensures s'.accepted[c] == s.accepted[c] + Unreported(s.pcs[t]) && s'.holder[c] == None
    ensures InFlight(s', s'.pcs[c]) == InFlight(s, s.pcs[c])
  {
  }

  lemma LeavingKeeps(s: Sys, t: Id, op: Op, ok: bool, p: Ptr, s': Sys)
    requires Inv(s) && Has(s, t) && s.pcs[t] == Leaving(op, ok, p) && Has(s, Target(t, op))
    requires s' == StepLeaving(s, t, op, ok, p)
    ensures Inv(s')
  {
    var c := Target(t, op);
    LeavingLocal(s, t, op, ok, p, s', c);
    LeavingTask(s, t, op, ok, p, s', c);
    LeavingChan(s, t, op, ok, p, s', c);
    Conclude(s, s', t, c);
  }

  lemma AfterLocal(s: Sys, t: Id, op: Op, p: Ptr, s': Sys)
    requires Inv(s) && Has(s, t) && s.pcs[t] == After(op, p) && p in s.packs && s' == StepAfter(s, t, op, p)
    ensures Local(s, s', t, t) && Has(s', t)
  {
    TaskFacts(s, t);
  }

  lemma AfterPtrs(s: Sys, t: Id, p: Ptr, s': Sys, q: seq<Ptr>)
    requires PtrsOk(s, t, q) && At(s, p, Held(t)) && s'.packs == s.packs - {p} && s'.owner == s.owner - {p}
    ensures PtrsOk(s', t, q) && Texts(s'.packs, q) == Texts(s.packs, q)
  {
    forall i | 0 <= i < |q| ensures At(s', q[i], InRing(t)) && s'.packs[q[i]] == s.packs[q[i]] {
      assert At(s, q[i], InRing(t));
    }
  }

  lemma AfterChan(s: Sys, t: Id, op: Op, p: Ptr, s': Sys)
    requires Inv(s) && Has(s, t) && s.pcs[t] == After(op, p) && p in s.packs && s' == StepAfter(s, t, op, p)
    ensures Has(s', t) && ChanOk(s', t)
  {
    TaskFacts(s, t);
    ChanFacts(s, t);
    if op.Receive? { AfterPtrs(s, t, p, s', Queue(s.rings[t])); }
    else { assert PtrsOk(s', t, Queue(s.rings[t])); }
  }

  lemma AfterKeeps(s: Sys, t: Id, op: Op, p: Ptr, s': Sys)
    requires Inv(s) && Has(s, t) && s.pcs[t] == After(op, p) && p in s.packs && s' == StepAfter(s, t, op, p)
    ensures Inv(s')
  {
    TaskFacts(s, t);
    AfterLocal(s, t, op, p, s');
    AfterChan(s, t, op, p, s');
    Conclude(s, s', t, t);
  }

  ghost predicate NamesOk(s: Sys) { forall c: Id | Registered(s.names, c) :: c in s.pcs }

  /** Beginning a call changes the task, and adds at most one package. */
  ghost predicate Adds(s: Sys, t: Id, p: Ptr, pc: Pc, packs: map<Ptr, Bytes>, s': Sys) {
    && s' == s.(packs := packs, owner := s.owner[p := Held(t)], pcs := s.pcs[t := pc])
    && p !in s.packs && (forall x | x in s.packs :: x in packs && packs[x] == s.packs[x])
    && (pc.Idle? || pc.Want?)
  }

  lemma BeginLocal(s: Sys, t: Id, p: Ptr, pc: Pc, packs: map<Ptr, Bytes>, s': Sys)
    requires Inv(s) && t in s.pcs && s.pcs[t].Idle? && Adds(s, t, p, pc, packs, s')
    ensures Local(s, s', t, t) && Has(s', t)
  {
    ChanFacts(s, t);
  }

  lemma MorePtrs(s: Sys, s': Sys, t: Id, p: Ptr, q: seq<Ptr>)
    requires PtrsOk(s, t, q) && p !in s.packs && s'.owner == s.owner[p := Held(t)]
    requires forall x | x in s.packs :: x in s'.packs && s'.packs[x] == s.packs[x]
    ensures PtrsOk(s', t, q) && Texts(s'.packs, q) == Texts(s.packs, q)
  {
    forall i | 0 <= i < |q| ensures At(s', q[i], InRing(t)) && s'.packs[q[i]] == s.packs[q[i]] {
      assert At(s, q[i], InRing(t));
    }
  }

  lemma BeginLock(s: Sys, t: Id, p: Ptr, pc: Pc, packs: map<Ptr, Bytes>, s': Sys)
    requires Has(s, t) && LockOk(s, t) && s.pcs[t].Idle? && Adds(s, t, p, pc, packs, s')
    ensures Has(s', t) && LockOk(s', t) && s'.holder[t] == s.holder[t]
    ensures s.holder[t].Some? ==>
      s.holder[t].value in s.pcs && s.holder[t].value in s'.pcs && s'.pcs[s.holder[t].value] == s.pcs[s.holder[t].value]
  {
  }

  lemma BeginChan(s: Sys, t: Id, p: Ptr, pc: Pc, packs: map<Ptr, Bytes>, s': Sys)
    requires Inv(s) && t in s.pcs && s.pcs[t].Idle? && Adds(s, t, p, pc, packs, s')
    ensures Has(s', t) && ChanOk(s', t)
  {
    ChanFacts(s, t);
    BeginLock(s, t, p, pc, packs, s');
    MorePtrs(s, s', t, p, Queue(s.rings[t]));
  }

  lemma BeginTask(s: Sys, t: Id, r: Request, p: Ptr, s': Sys)
    requires Inv(s) && Begins(s, t, r, p, s') && NamesOk(s)
    ensures Has(s', t) && TaskOk(s', t)
  {
    ChanFacts(s, t);
    if Refusal(s, t, r).None? && r.Sending? { ChanFacts(s, FindByName(s.names, r.name).value); }
  }

  lemma BeginKeeps(s: Sys, t: Id, r: Request, p: Ptr, s': Sys)
    requires Inv(s) && Begins(s, t, r, p, s') && NamesOk(s)
    ensures Inv(s') && NamesOk(s')
  {
    BeginLocal(s, t, p, BeginPc(s, t, r, p), BeginPacks(s, r, p), s');
    BeginChan(s, t, p, BeginPc(s, t, r, p), BeginPacks(s, r, p), s');
    BeginTask(s, t, r, p, s');
    Conclude(s, s', t, t);
  }

  // ----- Runs --------------------------------------------------------------------------------------

  /** The next step of a task that is in a call. The guards are what the step dereferences. */
  ghost predicate Moves(s: Sys, t: Id, s': Sys) {
    && Has(s, t) && !s.pcs[t].Idle? && Has(s, Target(t, s.pcs[t].op)) && RingOk(s.rings[Target(t, s.pcs[t].op)])
    && match s.pcs[t]
       case Idle(_) => false
       case Want(op) => s' == StepWant(s, t, op)
       case Locked(op) => s' == StepLocked(s, t, op)
       case Going(op) => s' == StepGoing(s, t, op)
       case Half(op, p) => p in s.packs && s' == StepHalf(s, t, op, p)
       case Leaving(op, ok, p) => s' == StepLeaving(s, t, op, ok, p)
       case After(op, p) => p in s.packs && s' == StepAfter(s, t, op, p)
  }

  lemma HalfKeeps(s: Sys, t: Id, op: Op, p: Ptr, s': Sys)
    requires Inv(s) && Has(s, t) && s.pcs[t] == Half(op, p) && Has(s, Target(t, op)) && RingOk(s.rings[Target(t, op)])
    requires p in s.packs && s' == StepHalf(s, t, op, p)
    ensures Inv(s')
  {
    match op
    case Send(_, _, _) => SendKeeps(s, t, op, p, s');
    case Receive => ReceiveKeeps(s, t, p, s');
    case Peek => PeekKeeps(s, t, p, s');
  }

  lemma MoveKeeps(s: Sys, t: Id, s': Sys)
    requires Inv(s) && Moves(s, t, s')
    ensures Inv(s')
  {
    match s.pcs[t]
    case Want(op) => WantKeeps(s, t, op, s');
    case Locked(op) => LockedKeeps(s, t, op, s');
    case Going(op) => GoingKeeps(s, t, op, s');
    case Half(op, p) => HalfKeeps(s, t, op, p, s');
    case Leaving(op, ok, p) => LeavingKeeps(s, t, op, ok, p, s');
    case After(op, p) => AfterKeeps(s, t, op, p, s');
  }

  /** The registry and the tasks are those of `s`. */
  ghost predicate SameTasks(s: Sys, s': Sys) {
    s'.names == s.names && forall x: Id | x in s.pcs :: x in s'.pcs
  }

  lemma HalfKeepsTasks(s: Sys, t: Id, s': Sys)
    requires Moves(s, t, s') && s.pcs[t].Half?
    ensures SameTasks(s, s')
  {
  }

  lemma LateKeepsTasks(s: Sys, t: Id, s': Sys)
    requires Moves(s, t, s') && (s.pcs[t].Leaving? || s.pcs[t].After?)
    ensures SameTasks(s, s')
  {
  }

  lemma EarlyKeepsTasks(s: Sys, t: Id, s': Sys)
    requires Moves(s, t, s') && (s.pcs[t].Want? || s.pcs[t].Locked? || s.pcs[t].Going?)
    ensures SameTasks(s, s')
  {
  }

  lemma MoveKeepsTasks(s: Sys, t: Id, s': Sys)
    requires Moves(s, t, s')
    ensures SameTasks(s, s')
  {
    match s.pcs[t]
    case Half(_, _) => HalfKeepsTasks(s, t, s');
    case Leaving(_, _, _) => LateKeepsTasks(s, t, s');
    case After(_, _) => LateKeepsTasks(s, t, s');
    case _ => EarlyKeepsTasks(s, t, s');
  }

  /** Main result: no step ever meets a package that has been freed, or a channel that is not there: a task
      in a call can always take its next step. */
  lemma AlwaysMoves(s: Sys, t: Id)
    requires Inv(s) && t in s.pcs && !s.pcs[t].Idle?
    ensures exists s' :: Moves(s, t, s')
  {
    TaskFacts(s, t);
    match s.pcs[t]
    case Want(op) => assert Moves(s, t, StepWant(s, t, op));
    case Locked(op) => assert Moves(s, t, StepLocked(s, t, op));
    case Going(op) => assert Moves(s, t, StepGoing(s, t, op));
    case Half(op, p) =>
      if !op.Send? { Oldest(s, t, p); }
      assert Moves(s, t, StepHalf(s, t, op, p));
    case Leaving(op, ok, p) => assert Moves(s, t, StepLeaving(s, t, op, ok, p));
    case After(op, p) =>
      FoundIsThere(s, t, op, p);
      assert Moves(s, t, StepAfter(s, t, op, p));
  }

  lemma FoundIsThere(s: Sys, t: Id, op: Op, p: Ptr)
    requires Inv(s) && Has(s, t) && !op.Send? && FoundOk(s, t, op, p)
    ensures p in s.packs
  {
    ChanFacts(s, t);
    if op.Peek? { assert At(s, Queue(s.rings[t])[0], InRing(t)); }
  }

  datatype Event = Begin(t: Id, r: Request, p: Ptr) | Move(t: Id)

  ghost predicate StepAt(ss: seq<Sys>, es: seq<Event>, n: nat)
    requires |ss| == |es| + 1
  {
    n < |es| ==>
      match es[n]
      case Begin(t, r, p) => Begins(ss[n], t, r, p, ss[n + 1])
      case Move(t) => Moves(ss[n], t, ss[n + 1])
  }

  ghost predicate IsRun(ss: seq<Sys>, es: seq<Event>) {
    |ss| == |es| + 1 && forall n: nat :: StepAt(ss, es, n)
  }

  ghost predicate FreshAt(s: Sys, t: Id) {
    t in s.pcs ==>
      && Has(s, t) && s.pcs[t].Idle? && RingOk(s.rings[t]) && Empty(s.rings[t]) && !s.locks[t] && s.holder[t] == None
      && s.sent[t] == [] && s.received[t] == [] && s.delivered[t] == [] && s.accepted[t] == multiset{}
  }

  ghost predicate Initial(s: Sys) { NamesOk(s) && forall t: Id :: FreshAt(s, t) }

  /** Tasks with their channels just made, each ring's `max` being the number of its slots: all slots empty,
      no lock held. */
  ghost function Boot(names: seq<(string, Id)>, flags: map<Id, Flags>, slots: nat): Sys {
    Sys(names, flags,
        map t | t in flags :: Ring(seq(slots, _ => 0), 0, 0), map t | t in flags :: false, map[],
        map t | t in flags :: Idle(Reply(Done, None, None)), map t | t in flags :: None, map[],
        map t | t in flags :: [], map t | t in flags :: [], map t | t in flags :: [], map t | t in flags :: multiset{})
  }

  lemma BootIsInitial(names: seq<(string, Id)>, flags: map<Id, Flags>, slots: nat)
    requires slots > 0 && forall c: Id | Registered(names, c) :: c in flags
    ensures Initial(Boot(names, flags, slots))
  {
    forall t: Id ensures FreshAt(Boot(names, flags, slots), t) {
    }
  }

  /** Main result: the invariant holds in every reachable state. */
  lemma {:induction false} RunKeepsInv(ss: seq<Sys>, es: seq<Event>, n: nat)
    requires IsRun(ss, es) && Initial(ss[0]) && n < |ss|
    ensures Inv(ss[n]) && NamesOk(ss[n])
  {
    if n == 0 {
      forall t: Id ensures OkAt(ss[0], t) {
        assert FreshAt(ss[0], t);
        if t in ss[0].pcs { EmptyAndFull(ss[0].rings[t]); }
      }
    } else {
      RunKeepsInv(ss, es, n - 1);
      assert StepAt(ss, es, n - 1);
      match es[n - 1]
      case Begin(t, r, p) => BeginKeeps(ss[n - 1], t, r, p, ss[n]);
      case Move(t) =>
        MoveKeeps(ss[n - 1], t, ss[n]);
        MoveKeepsTasks(ss[n - 1], t, ss[n]);
    }
  }

  // ----- What it means -----------------------------------------------------------------------------

  /** Main result: delivery is exactly once and in order. In every reachable state the messages a task has
      been given are the first ones put in its ring, with the bytes they had when they were sent; at most
      one more has been taken out, and the rest are in the ring. The sends that reported success are those
      put in the ring, but for at most one that is about to. */
  lemma ExactlyOnceInOrder(ss: seq<Sys>, es: seq<Event>, n: nat, c: Id)
    requires IsRun(ss, es) && Initial(ss[0]) && n < |ss| && c in ss[n].pcs
    ensures var s := ss[n];
      && Has(s, c) && s.delivered[c] <= s.received[c] <= s.sent[c]
      && |s.received[c]| <= |s.delivered[c]| + 1
      && |s.sent[c]| <= |s.received[c]| + Max(s.rings[c]) - 1
      && s.accepted[c] <= multiset(s.sent[c]) && |s.sent[c]| <= |s.accepted[c]| + 1
  {
    RunKeepsInv(ss, es, n);
    ChanFacts(ss[n], c);
    EmptyAndFull(ss[n].rings[c]);
    assert |multiset(ss[n].sent[c])| == |ss[n].sent[c]|;
  }

  /** Main result: two tasks are never in the critical section of one channel. */
  lemma MutualExclusion(ss: seq<Sys>, es: seq<Event>, n: nat, t: Id, u: Id)
    requires IsRun(ss, es) && Initial(ss[0]) && n < |ss| && t in ss[n].pcs && u in ss[n].pcs
    requires Critical(ss[n].pcs[t]) && Critical(ss[n].pcs[u])
    requires Target(t, ss[n].pcs[t].op) == Target(u, ss[n].pcs[u].op)
    ensures t == u
  {
    RunKeepsInv(ss, es, n);
    HoldsLock(ss[n], t, Target(t, ss[n].pcs[t].op));
    HoldsLock(ss[n], u, Target(u, ss[n].pcs[u].op));
  }

  /** Task `t` was given message `i` of those sent to it, or its size. */
  ghost predicate Answered(s: Sys, t: Id, i: nat, taken: bool, s': Sys)
    requires Has(s, t) && Has(s', t) && s'.pcs[t].Idle?
  {
    && i < |s.sent[t]|
    && s'.pcs[t].reply == Reply(Done, if taken then Some(s.sent[t][i]) else None, Some(|s.sent[t][i]|))
    && s'.delivered[t] == s.delivered[t] + (if taken then [s.sent[t][i]] else [])
    && s'.received[t] == s.received[t] && s'.rings == s.rings
  }

  /** Main result: a receive gives back the oldest message not yet delivered, as it was sent; a peek gives
      the size of the oldest one and leaves it. */
  lemma ReplyIsOldest(ss: seq<Sys>, es: seq<Event>, n: nat, t: Id, op: Op, p: Ptr)
    requires IsRun(ss, es) && Initial(ss[0]) && n < |es| && es[n] == Move(t)
    requires t in ss[n].pcs && ss[n].pcs[t] == After(op, p)
    ensures Has(ss[n], t) && Has(ss[n + 1], t) && ss[n + 1].pcs[t].Idle?
    ensures var i := if op.Receive? then |ss[n].delivered[t]| else |ss[n].received[t]|;
            Answered(ss[n], t, i, op.Receive?, ss[n + 1])
  {
    RunKeepsInv(ss, es, n);
    assert StepAt(ss, es, n);
    var s := ss[n];
    TaskFacts(s, t);
    ChanFacts(s, t);
    FoundIsThere(s, t, op, p);
    var q := Queue(s.rings[t]);
    if op.Peek? { assert Texts(s.packs, q)[0] == s.packs[p]; }
  }

  /** Main result: a receive or a peek that tests its ring turns back exactly if everything sent to the task so
      far has been taken out. */
  lemma TurnsBackIff(ss: seq<Sys>, es: seq<Event>, n: nat, t: Id, op: Op)
    requires IsRun(ss, es) && Initial(ss[0]) && n < |es| && es[n] == Move(t) && !op.Send?
    requires t in ss[n].pcs && ss[n].pcs[t] == Locked(op)
    ensures Has(ss[n], t) && Has(ss[n + 1], t)
    ensures ss[n + 1].pcs[t] == Leaving(op, false, 0) <==> ss[n].received[t] == ss[n].sent[t]
  {
    RunKeepsInv(ss, es, n);
    assert StepAt(ss, es, n);
    ChanFacts(ss[n], t);
    var r := ss[n].rings[t];
    EmptyAndFull(r);
    assert ss[n].sent[t] == ss[n].received[t] <==> |Texts(ss[n].packs, Queue(r))| == 0;
  }

  /** And it then reports success and leaves the caller's payload and size as they were. */
  lemma TurnedBackReply(ss: seq<Sys>, es: seq<Event>, n: nat, t: Id, op: Op, p: Ptr)
    requires IsRun(ss, es) && Initial(ss[0]) && n < |es| && es[n] == Move(t) && !op.Send?
    requires t in ss[n].pcs && ss[n].pcs[t] == Leaving(op, false, p)
    ensures ss[n + 1] == ss[n].(locks := ss[n].locks[t := false], holder := ss[n].holder[t := None],
                                pcs := ss[n].pcs[t := Idle(Reply(Done, None, None))])
  {
    RunKeepsInv(ss, es, n);
    assert StepAt(ss, es, n);
    ChanFacts(ss[n], t);
    var a := ss[n].accepted;
    assert a[t] + multiset{} == a[t];
  }

  /** How many of its own steps a task still holds a lock for. */
  function Rank(pc: Pc): nat {
    match pc
    case Locked(_) => 4
    case Going(_) => 3
    case Half(_, _) => 2
    case Leaving(_, _, _) => 1
    case _ => 0
  }

  /** The task goes on in its critical section, nearer the end. */
  ghost predicate GoesOn(pc: Pc, pc': Pc) { Critical(pc) && Critical(pc') && pc'.op == pc.op && Rank(pc') < Rank(pc) }

  lemma HalfRanks(s: Sys, t: Id, s': Sys, c: Id)
    requires Moves(s, t, s') && s.pcs[t].Half? && c == Target(t, s.pcs[t].op) && Has(s, c)
    ensures t in s'.pcs && GoesOn(s.pcs[t], s'.pcs[t])
  {
  }

  lemma LeavingRanks(s: Sys, t: Id, s': Sys, c: Id)
    requires Moves(s, t, s') && s.pcs[t].Leaving? && c == Target(t, s.pcs[t].op) && Has(s, c)
    ensures c in s'.locks && !s'.locks[c]
  {
  }

  lemma EarlyRanks(s: Sys, t: Id, s': Sys, c: Id)
    requires Moves(s, t, s') && (s.pcs[t].Locked? || s.pcs[t].Going?) && c == Target(t, s.pcs[t].op) && Has(s, c)
    ensures t in s'.pcs && GoesOn(s.pcs[t], s'.pcs[t])
  {
  }

  lemma MoveRanks(s: Sys, t: Id, s': Sys, c: Id)
    requires Moves(s, t, s') && Critical(s.pcs[t]) && c == Target(t, s.pcs[t].op)
    ensures (t in s'.pcs && GoesOn(s.pcs[t], s'.pcs[t])) || (c in s'.locks && !s'.locks[c])
  {
    match s.pcs[t]
    case Half(_, _) => HalfRanks(s, t, s', c);
    case Leaving(_, _, _) => LeavingRanks(s, t, s', c);
    case _ => EarlyRanks(s, t, s', c);
  }

  lemma EarlyKeepsOther(s: Sys, u: Id, s': Sys, t: Id)
    requires Moves(s, u, s') && (s.pcs[u].Want? || s.pcs[u].Locked? || s.pcs[u].Going?) && t != u && t in s.pcs
    ensures t in s'.pcs && s'.pcs[t] == s.pcs[t]
  {
  }

  lemma HalfKeepsOther(s: Sys, u: Id, s': Sys, t: Id)
    requires Moves(s, u, s') && s.pcs[u].Half? && t != u && t in s.pcs
    ensures t in s'.pcs && s'.pcs[t] == s.pcs[t]
  {
  }

  lemma LateKeepsOther(s: Sys, u: Id, s': Sys, t: Id)
    requires Moves(s, u, s') && (s.pcs[u].Leaving? || s.pcs[u].After?) && t != u && t in s.pcs
    ensures t in s'.pcs && s'.pcs[t] == s.pcs[t]
  {
  }

  lemma MoveKeepsOther(s: Sys, u: Id, s': Sys, t: Id)
    requires Moves(s, u, s') && t != u && t in s.pcs
    ensures t in s'.pcs && s'.pcs[t] == s.pcs[t]
  {
    if s.pcs[u].Half? {
      HalfKeepsOther(s, u, s', t);
    } else if s.pcs[u].Leaving? || s.pcs[u].After? {
      LateKeepsOther(s, u, s', t);
    } else {
      EarlyKeepsOther(s, u, s', t);
    }
  }

  /** A step of anybody else leaves a task in its critical section where it is. */
  lemma OtherStep(ss: seq<Sys>, es: seq<Event>, n: nat, t: Id)
    requires IsRun(ss, es) && n < |es| && t in ss[n].pcs && Critical(ss[n].pcs[t]) && es[n] != Move(t)
    ensures t in ss[n + 1].pcs && ss[n + 1].pcs[t] == ss[n].pcs[t]
  {
    assert StepAt(ss, es, n);
    if es[n].Move? { MoveKeepsOther(ss[n], es[n].t, ss[n + 1], t); }
  }

  /** The steps task `t` takes among the events from `n` to `m`. */
  function MovesOf(es: seq<Event>, n: nat, m: nat, t: Id): nat
    requires n <= m <= |es|
    decreases m - n
  {
    if n == m then 0 else (if es[n] == Move(t) then 1 else 0) + MovesOf(es, n + 1, m, t)
  }

  ghost predicate FreeAt(s: Sys, c: Id) { c in s.locks && !s.locks[c] }

  lemma {:induction false} Releases(ss: seq<Sys>, es: seq<Event>, n: nat, m: nat, c: Id, t: Id)
    requires IsRun(ss, es) && Initial(ss[0]) && n <= m <= |es|
    requires t in ss[n].pcs && Critical(ss[n].pcs[t]) && Target(t, ss[n].pcs[t].op) == c
    requires MovesOf(es, n, m, t) >= Rank(ss[n].pcs[t])
    ensures exists k :: n < k <= m && FreeAt(ss[k], c)
    decreases m - n
  {
    if es[n] == Move(t) {
      assert StepAt(ss, es, n);
      RunKeepsInv(ss, es, n);
      MoveRanks(ss[n], t, ss[n + 1], c);
      if !FreeAt(ss[n + 1], c) { Releases(ss, es, n + 1, m, c, t); }
    } else {
      OtherStep(ss, es, n, t);
      Releases(ss, es, n + 1, m, c, t);
    }
  }

  /** Main result: whoever holds a ring's lock has released it by the time it has taken four more steps,
      whatever the others do meanwhile. */
  lemma HolderReleases(ss: seq<Sys>, es: seq<Event>, n: nat, m: nat, c: Id, t: Id)
    requires IsRun(ss, es) && Initial(ss[0]) && n <= m <= |es|
    requires c in ss[n].pcs && c in ss[n].holder && ss[n].holder[c] == Some(t)
    requires MovesOf(es, n, m, t) >= 4
    ensures exists k :: n < k <= m && FreeAt(ss[k], c)
  {
    RunKeepsInv(ss, es, n);
    ChanFacts(ss[n], c);
    Releases(ss, es, n, m, c, t);
  }
}
