/**
  Whole calls, from their beginning to their reply, among any number of others: who is refused and with which
  code, whom a name means, and that a send reports success exactly if it put its message in the recipient's ring.
 */
module IpcCalls {
  import opened Common
  import opened RingBuffer
  import opened Ipc

  // ----- Names -------------------------------------------------------------------------------------

  /** Entry `i` of the registry has the name and none before it does; it is channel `c`. */
  ghost predicate FirstAt(names: seq<(string, Id)>, name: string, c: Id, i: int) {
    0 <= i < |names| && names[i] == (name, c) && forall j | 0 <= j < i :: names[j].0 != name
  }

  /** Channel `c` is the one registered first under the name. */
  ghost predicate FirstUnder(names: seq<(string, Id)>, name: string, c: Id) { exists i :: FirstAt(names, name, c, i) }

  ghost predicate Known(names: seq<(string, Id)>, name: string) { exists i | 0 <= i < |names| :: names[i].0 == name }

  /** Main result: a name means the channel registered first under it. */
  lemma {:induction false} FindsFirst(names: seq<(string, Id)>, name: string)
    ensures FindByName(names, name).Some? <==> Known(names, name)
    ensures forall c: Id :: FindByName(names, name) == Some(c) <==> FirstUnder(names, name, c)
  {
    if names != [] {
      FindsFirst(names[1..], name);
      forall c: Id ensures FindByName(names, name) == Some(c) <==> FirstUnder(names, name, c) {
        FirstOfRest(names, name, c);
      }
      if names[0].0 != name {
        if Known(names[1..], name) {
          var i :| 0 <= i < |names[1..]| && names[1..][i].0 == name;
          assert names[i + 1].0 == name;
        }
        if Known(names, name) {
          var i :| 0 <= i < |names| && names[i].0 == name;
          assert names[1..][i - 1].0 == name;
        }
      }
    }
  }

  lemma FirstOfRest(names: seq<(string, Id)>, name: string, c: Id)
    requires names != []
    ensures FirstUnder(names, name, c) <==>
      if names[0].0 == name then names[0].1 == c else FirstUnder(names[1..], name, c)
  {
    if names[0].0 == name {
      if names[0].1 == c { assert FirstAt(names, name, c, 0); }
    } else {
      if FirstUnder(names, name, c) {
        var i :| FirstAt(names, name, c, i);
        assert FirstAt(names[1..], name, c, i - 1);
      }
      if FirstUnder(names[1..], name, c) {
        var i :| FirstAt(names[1..], name, c, i);
        assert forall j | 1 <= j < i + 1 :: names[j] == names[1..][j - 1];
        assert FirstAt(names, name, c, i + 1);
      }
    }
  }

  // ----- Who is refused ----------------------------------------------------------------------------

  ghost predicate Refused(s': Sys, t: Id, code: Code) {
    t in s'.pcs && s'.pcs[t] == Idle(Reply(code, None, None))
  }

  ghost predicate Accepted(s': Sys, t: Id, op: Op) { t in s'.pcs && s'.pcs[t] == Want(op) }

  /** Main result: an unknown call, or a send without payload, is invalid; a send to an unknown name, or any call
      by a task whose channel is not registered, fails; one the flags forbid is unauthorized; every other begins,
      a send with its payload in a package of its own for the channel registered first under the name. */
  lemma BeginOutcome(s: Sys, t: Id, r: Request, p: Ptr, s': Sys)
    requires Inv(s) && NamesOk(s) && Begins(s, t, r, p, s')
    ensures s' == s.(packs := s'.packs, owner := s'.owner, pcs := s.pcs[t := s'.pcs[t]])
    ensures r.Unknown? ==> Refused(s', t, Invalid)
    ensures (r.Receiving? || r.Peeking?) && !Registered(s.names, t) ==> Refused(s', t, Failure)
    ensures (r.Receiving? || r.Peeking?) && Registered(s.names, t) ==>
      if !s.flags[t].canReceive then Refused(s', t, Unauthorized)
      else Accepted(s', t, if r.Receiving? then Receive else Peek)
    ensures r.Sending? && (r.payload.None? || r.payload.value == []) ==> Refused(s', t, Invalid)
    ensures r.Sending? && r.payload.Some? && r.payload.value != [] ==>
      && (!Known(s.names, r.name) || !Registered(s.names, t) ==> Refused(s', t, Failure))
      && forall c | FirstUnder(s.names, r.name, c) && Registered(s.names, t) ::
           && c in s.flags
           && (if !s.flags[t].canSend || !s.flags[c].canReceive then Refused(s', t, Unauthorized)
               else Accepted(s', t, Send(c, p, r.payload.value)) && p in s'.packs && s'.packs[p] == r.payload.value)
  {
    if r.Sending? && r.payload.Some? && r.payload.value != [] {
      FindsFirst(s.names, r.name);
      forall c | FirstUnder(s.names, r.name, c) ensures Registered(s.names, c) && c in s.flags {
        var i :| FirstAt(s.names, r.name, c, i);
        assert s.names[i].1 == c;
        ChanFacts(s, c);
      }
    }
  }

  // ----- Sends -------------------------------------------------------------------------------------

  /** A call of task `t` from event `n` to its reply in state `m`. */
  ghost predicate IsCall(ss: seq<Sys>, es: seq<Event>, n: nat, m: nat, t: Id) {
    && |ss| == |es| + 1 && n < m <= |es| && es[n].Begin? && es[n].t == t
    && t in ss[m].pcs && ss[m].pcs[t].Idle? && forall k | n < k < m :: InCall(ss[k], t)
  }

  ghost predicate InCall(s: Sys, t: Id) { t in s.pcs && !s.pcs[t].Idle? }

  /** Between two states the message was put in the ring of channel `c`, behind what was there. */
  ghost predicate Appends(s: Sys, s': Sys, c: Id, msg: Bytes) {
    c in s.sent && s'.sent == s.sent[c := s.sent[c] + [msg]]
  }

  /** None of the steps of task `t` from event `n` to `m` put anything in any ring. */
  ghost predicate NoPut(ss: seq<Sys>, es: seq<Event>, n: nat, m: nat, t: Id)
    requires |ss| == |es| + 1 && m <= |es|
  {
    forall j | n <= j < m && es[j] == Move(t) :: ss[j + 1].sent == ss[j].sent
  }

  /** Exactly one of them did: event `i` put `msg` in the ring of `c`. */
  ghost predicate PutAt(ss: seq<Sys>, es: seq<Event>, n: nat, m: nat, t: Id, c: Id, msg: Bytes, i: nat)
    requires |ss| == |es| + 1 && m <= |es|
  {
    && n <= i < m && es[i] == Move(t) && Appends(ss[i], ss[i + 1], c, msg)
    && NoPut(ss, es, n, i, t) && NoPut(ss, es, i + 1, m, t)
  }

  ghost predicate OnePut(ss: seq<Sys>, es: seq<Event>, n: nat, m: nat, t: Id, c: Id, msg: Bytes)
    requires |ss| == |es| + 1 && m <= |es|
  {
    exists i: nat :: PutAt(ss, es, n, m, t, c, msg, i)
  }

  /** Where a send can be, and whether its message is in the ring. */
  ghost predicate Before(pc: Pc, op: Op) {
    pc == Want(op) || pc == Locked(op) || pc == Going(op) || (pc.Half? && pc.op == op)
      || (pc.Leaving? && pc.op == op && !pc.ok)
  }

  ghost predicate Past(pc: Pc, op: Op) { pc.Leaving? && pc.op == op && pc.ok }

  lemma EarlySend(s: Sys, t: Id, s': Sys, op: Op)
    requires Moves(s, t, s') && op.Send? && (s.pcs[t] == Want(op) || s.pcs[t] == Locked(op) || s.pcs[t] == Going(op))
    ensures t in s'.pcs && Before(s'.pcs[t], op) && s'.sent == s.sent
  {
  }

  lemma HalfSend(s: Sys, t: Id, s': Sys, op: Op)
    requires Moves(s, t, s') && op.Send? && s.pcs[t].Half? && s.pcs[t].op == op
    ensures t in s'.pcs && Past(s'.pcs[t], op) && Appends(s, s', op.dest, op.msg)
  {
  }

  lemma LeavingSend(s: Sys, t: Id, s': Sys, op: Op)
    requires Moves(s, t, s') && op.Send? && s.pcs[t].Leaving? && s.pcs[t].op == op
    ensures t in s'.pcs && s'.sent == s.sent && Refused(s', t, if s.pcs[t].ok then Done else Failure)
  {
  }

  /** A step of anybody else leaves a task in a call where it is. */
  lemma OthersKeep(ss: seq<Sys>, es: seq<Event>, k: nat, t: Id)
    requires IsRun(ss, es) && k < |es| && InCall(ss[k], t) && es[k] != Move(t)
    ensures t in ss[k + 1].pcs && ss[k + 1].pcs[t] == ss[k].pcs[t]
  {
    assert StepAt(ss, es, k);
    if es[k].Move? { MoveKeepsOther(ss[k], es[k].t, ss[k + 1], t); }
  }

  lemma NoPutOn(ss: seq<Sys>, es: seq<Event>, n: nat, k: nat, t: Id)
    requires |ss| == |es| + 1 && n <= k < |es| && NoPut(ss, es, n, k, t)
    requires es[k] == Move(t) ==> ss[k + 1].sent == ss[k].sent
    ensures NoPut(ss, es, n, k + 1, t)
  {
  }

  lemma OnePutOn(ss: seq<Sys>, es: seq<Event>, n: nat, k: nat, t: Id, c: Id, msg: Bytes)
    requires |ss| == |es| + 1 && n <= k < |es| && OnePut(ss, es, n, k, t, c, msg)
    requires es[k] == Move(t) ==> ss[k + 1].sent == ss[k].sent
    ensures OnePut(ss, es, n, k + 1, t, c, msg)
  {
    var i: nat :| PutAt(ss, es, n, k, t, c, msg, i);
    NoPutOn(ss, es, i + 1, k, t);
    assert PutAt(ss, es, n, k + 1, t, c, msg, i);
  }

  /** What a send has done by state `k`. */
  ghost predicate SendAt(ss: seq<Sys>, es: seq<Event>, n: nat, k: nat, t: Id, op: Op)
    requires |ss| == |es| + 1 && k <= |es| && op.Send?
  {
    && t in ss[k].pcs
    && ((Before(ss[k].pcs[t], op) && NoPut(ss, es, n, k, t))
        || (Past(ss[k].pcs[t], op) && OnePut(ss, es, n, k, t, op.dest, op.msg)))
  }

  /** And when it replies. */
  ghost predicate SendDone(ss: seq<Sys>, es: seq<Event>, n: nat, k: nat, t: Id, op: Op)
    requires |ss| == |es| + 1 && k <= |es| && op.Send?
  {
    || (Refused(ss[k], t, Failure) && NoPut(ss, es, n, k, t))
    || (Refused(ss[k], t, Done) && OnePut(ss, es, n, k, t, op.dest, op.msg))
  }

  lemma SendStep(ss: seq<Sys>, es: seq<Event>, n: nat, k: nat, t: Id, op: Op)
    requires IsRun(ss, es) && n < k < |es| && op.Send? && SendAt(ss, es, n, k, t, op)
    ensures SendAt(ss, es, n, k + 1, t, op) || SendDone(ss, es, n, k + 1, t, op)
  {
    if es[k] != Move(t) {
      OthersKeep(ss, es, k, t);
      if Past(ss[k].pcs[t], op) { OnePutOn(ss, es, n, k, t, op.dest, op.msg); } else { NoPutOn(ss, es, n, k, t); }
    } else {
      assert StepAt(ss, es, k);
      OwnSendStep(ss, es, n, k, t, op);
    }
  }

  lemma OwnSendStep(ss: seq<Sys>, es: seq<Event>, n: nat, k: nat, t: Id, op: Op)
    requires |ss| == |es| + 1 && n < k < |es| && op.Send? && SendAt(ss, es, n, k, t, op)
    requires es[k] == Move(t) && Moves(ss[k], t, ss[k + 1])
    ensures SendAt(ss, es, n, k + 1, t, op) || SendDone(ss, es, n, k + 1, t, op)
  {
    var pc := ss[k].pcs[t];
    if pc.Half? {
      HalfSend(ss[k], t, ss[k + 1], op);
      assert PutAt(ss, es, n, k + 1, t, op.dest, op.msg, k);
    } else if pc.Leaving? {
      LeavingSend(ss[k], t, ss[k + 1], op);
      if pc.ok { OnePutOn(ss, es, n, k, t, op.dest, op.msg); } else { NoPutOn(ss, es, n, k, t); }
    } else {
      EarlySend(ss[k], t, ss[k + 1], op);
      NoPutOn(ss, es, n, k, t);
    }
  }

  lemma {:induction false} SendRuns(ss: seq<Sys>, es: seq<Event>, n: nat, k: nat, t: Id, op: Op)
    requires IsRun(ss, es) && n < k <= |es| && op.Send? && SendAt(ss, es, n, n + 1, t, op)
    requires forall j | n < j < k :: InCall(ss[j], t)
    ensures SendAt(ss, es, n, k, t, op) || SendDone(ss, es, n, k, t, op)
    decreases k
  {
    if k > n + 1 {
      SendRuns(ss, es, n, k - 1, t, op);
      assert InCall(ss[k - 1], t);
      SendStep(ss, es, n, k - 1, t, op);
    }
  }

  lemma PutIsOneOrNone(ss: seq<Sys>, es: seq<Event>, n: nat, m: nat, t: Id, c: Id, msg: Bytes)
    requires |ss| == |es| + 1 && m <= |es| && NoPut(ss, es, n, m, t)
    ensures !OnePut(ss, es, n, m, t, c, msg)
  {
    forall i: nat ensures !PutAt(ss, es, n, m, t, c, msg, i) {
      if i < m { AppendsChanges(ss[i], ss[i + 1], c, msg); }
    }
  }

  lemma AppendsChanges(s: Sys, s': Sys, c: Id, msg: Bytes)
    ensures Appends(s, s', c, msg) ==> s'.sent != s.sent
  {
    assert Appends(s, s', c, msg) ==> |s'.sent[c]| == |s.sent[c]| + 1;
  }

  /** The first state of a send: it has begun, or it was refused. */
  lemma SendBegins(ss: seq<Sys>, es: seq<Event>, n: nat, t: Id, name: string, msg: Bytes, p: Ptr) returns (c: Id)
    requires IsRun(ss, es) && Initial(ss[0]) && n < |es| && es[n] == Begin(t, Sending(name, Some(msg)), p)
    ensures NoPut(ss, es, n, n + 1, t) && t in ss[n + 1].pcs
    ensures InCall(ss[n + 1], t) ==> FirstUnder(ss[n].names, name, c) && ss[n + 1].pcs[t] == Want(Send(c, p, msg))
    ensures !InCall(ss[n + 1], t) ==> ss[n + 1].pcs[t].reply.code != Done
  {
    RunKeepsInv(ss, es, n);
    assert StepAt(ss, es, n);
    var s := ss[n];
    FindsFirst(s.names, name);
    c := if FindByName(s.names, name).Some? then FindByName(s.names, name).value else 0;
    BeginOutcome(s, t, es[n].r, p, ss[n + 1]);
  }

  /** Main result: a send reports success exactly if one of its own steps put its message, once, in the ring of the
      channel registered first under the name; in every other case it reports something else and none of its steps
      put anything anywhere. */
  lemma SendReports(ss: seq<Sys>, es: seq<Event>, n: nat, m: nat, t: Id, name: string, msg: Bytes, p: Ptr)
    requires IsRun(ss, es) && Initial(ss[0]) && IsCall(ss, es, n, m, t)
    requires es[n] == Begin(t, Sending(name, Some(msg)), p)
    ensures ss[m].pcs[t].reply.code == Done <==>
      exists c: Id :: FirstUnder(ss[n].names, name, c) && OnePut(ss, es, n, m, t, c, msg)
    ensures ss[m].pcs[t].reply.code != Done ==> NoPut(ss, es, n, m, t)
  {
    var c := SendBegins(ss, es, n, t, name, msg, p);
    if InCall(ss[n + 1], t) { SendRuns(ss, es, n, m, t, Send(c, p, msg)); }
    if ss[m].pcs[t].reply.code != Done {
      forall x: Id ensures !OnePut(ss, es, n, m, t, x, msg) { PutIsOneOrNone(ss, es, n, m, t, x, msg); }
    }
  }

  /** Main result: a send that tests its recipient's ring turns back exactly if the ring is full: all but one of its
      slots hold messages that were sent and not yet taken out. */
  lemma SendTurnsBackIff(ss: seq<Sys>, es: seq<Event>, n: nat, t: Id, op: Op)
    requires IsRun(ss, es) && Initial(ss[0]) && n < |es| && es[n] == Move(t) && op.Send?
    requires t in ss[n].pcs && ss[n].pcs[t] == Locked(op)
    ensures Has(ss[n], op.dest) && t in ss[n + 1].pcs
    ensures var s := ss[n];
      if |s.sent[op.dest]| - |s.received[op.dest]| == Max(s.rings[op.dest]) - 1
      then ss[n + 1].pcs[t] == Leaving(op, false, 0) else ss[n + 1].pcs[t] == Going(op)
  {
    RunKeepsInv(ss, es, n);
    assert StepAt(ss, es, n);
    HoldsLock(ss[n], t, op.dest);
    SentMinusReceived(ss[n], op.dest);
    EmptyAndFull(ss[n].rings[op.dest]);
  }

  lemma SentMinusReceived(s: Sys, c: Id)
    requires Inv(s) && Has(s, c)
    ensures RingOk(s.rings[c]) && |s.sent[c]| - |s.received[c]| == |Queue(s.rings[c])|
  {
    ChanFacts(s, c);
  }

  // ----- Calls return ------------------------------------------------------------------------------

  /** How many of its own steps a call still takes, if none of them meets a lock somebody holds. */
  function Remaining(pc: Pc): nat {
    match pc
    case Want(_) => 6
    case Locked(_) => 5
    case Going(_) => 4
    case Half(_, _) => 3
    case Leaving(_, _, _) => 2
    case After(_, _) => 1
    case Idle(_) => 0
  }

  /** Event `k` is a step of task `t`, and not one that finds a ring's lock held. */
  ghost predicate Advances(ss: seq<Sys>, es: seq<Event>, k: nat, t: Id)
    requires k < |es| < |ss|
  {
    && es[k] == Move(t) && t in ss[k].pcs
    && !(ss[k].pcs[t].Want? && Target(t, ss[k].pcs[t].op) in ss[k].locks && ss[k].locks[Target(t, ss[k].pcs[t].op)])
  }

  /** The number of such steps from event `n` to `m`. */
  ghost function AdvancesOf(ss: seq<Sys>, es: seq<Event>, n: nat, m: nat, t: Id): nat
    requires n <= m <= |es| < |ss|
    decreases m - n
  {
    if n == m then 0 else (if Advances(ss, es, n, t) then 1 else 0) + AdvancesOf(ss, es, n + 1, m, t)
  }

  lemma EarlyAdvance(s: Sys, t: Id, s': Sys)
    requires Moves(s, t, s') && (s.pcs[t].Want? || s.pcs[t].Locked? || s.pcs[t].Going?)
    ensures t in s'.pcs
    ensures if s.pcs[t].Want? && s.locks[Target(t, s.pcs[t].op)] then s'.pcs[t] == s.pcs[t]
            else Remaining(s'.pcs[t]) < Remaining(s.pcs[t])
  {
  }

  lemma LateAdvance(s: Sys, t: Id, s': Sys)
    requires Moves(s, t, s') && (s.pcs[t].Leaving? || s.pcs[t].After?)
    ensures t in s'.pcs && Remaining(s'.pcs[t]) < Remaining(s.pcs[t])
  {
  }

  lemma OwnAdvance(s: Sys, t: Id, s': Sys)
    requires Moves(s, t, s')
    ensures t in s'.pcs
    ensures if s.pcs[t].Want? && s.locks[Target(t, s.pcs[t].op)] then s'.pcs[t] == s.pcs[t]
            else Remaining(s'.pcs[t]) < Remaining(s.pcs[t])
  {
    if s.pcs[t].Half? {
      HalfRanks(s, t, s', Target(t, s.pcs[t].op));
    } else if s.pcs[t].Leaving? || s.pcs[t].After? {
      LateAdvance(s, t, s');
    } else {
      EarlyAdvance(s, t, s');
    }
  }

  lemma {:induction false} ReturnsAfter(ss: seq<Sys>, es: seq<Event>, n: nat, m: nat, t: Id)
    requires IsRun(ss, es) && n <= m <= |es| && t in ss[n].pcs
    requires AdvancesOf(ss, es, n, m, t) >= Remaining(ss[n].pcs[t])
    ensures exists k :: n <= k <= m && t in ss[k].pcs && ss[k].pcs[t].Idle?
    decreases m - n
  {
    if !ss[n].pcs[t].Idle? {
      if es[n] == Move(t) {
        assert StepAt(ss, es, n);
        OwnAdvance(ss[n], t, ss[n + 1]);
      } else {
        OthersKeep(ss, es, n, t);
      }
      ReturnsAfter(ss, es, n + 1, m, t);
    }
  }

  /** Main result: a call has returned by the time its task has taken six steps that did not find a lock held,
      however those of the others fall in between. */
  lemma CallReturns(ss: seq<Sys>, es: seq<Event>, n: nat, m: nat, t: Id)
    requires IsRun(ss, es) && n <= m <= |es| && t in ss[n].pcs && AdvancesOf(ss, es, n, m, t) >= 6
    ensures exists k :: n <= k <= m && t in ss[k].pcs && ss[k].pcs[t].Idle?
  {
    ReturnsAfter(ss, es, n, m, t);
  }
}
