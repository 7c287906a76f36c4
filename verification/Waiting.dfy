/**
  One cycle seen by a waiting task. Whoever else is locked, a task that is not itself locked is never pushed
  back: taking the first assignable task out of the queue moves only tasks that cannot run behind it.
 */
module Waiting {
  import opened RoundRobin

  ghost predicate At(q: seq<Tid>, k: nat, t: Tid) { k < |q| && q[k] == t }

  /** `t` is at position `k` of `q` or before. */
  ghost predicate By(q: seq<Tid>, k: nat, t: Tid) { exists i: nat :: i <= k && At(q, i, t) }

  lemma FirstIsBefore(tasks: map<Tid, Task>, gtq: seq<Tid>, j: nat)
    requires j < |gtq| && Assignable(tasks, gtq[j])
    ensures FirstAssignable(tasks, gtq, 0) <= j
  {
  }

  lemma TakenOut(g: seq<Tid>, i: nat, k: nat, t: Tid)
    requires i <= k && At(g, k, t)
    ensures By([g[i]] + (g[..i] + g[i + 1..]), k, t)
  {
    var q := [g[i]] + (g[..i] + g[i + 1..]);
    assert At(q, if i == k then 0 else k, t);
  }

  lemma Shifted(a: Tid, q: seq<Tid>, k: nat, t: Tid)
    requires By(q, k, t)
    ensures By([a] + q, k + 1, t)
  {
    var i: nat :| i <= k && At(q, i, t);
    assert At([a] + q, i + 1, t);
  }

  lemma NotNull(s: Sched, t: Tid)
    requires Placed(s)
    ensures t in s.gtq ==> t != NULL
  {
    if t in s.gtq {
      assert t in Q(s);
      assert Member(s, t);
    }
  }

  lemma AssignedQ(s: Sched, k: nat, t: Tid) returns (i: nat)
    requires Placed(s) && At(s.gtq, k, t) && Assignable(s.tasks, t)
    ensures i <= k && Opt(Assigned(s)) + Without(s).gtq == [s.gtq[i]] + (s.gtq[..i] + s.gtq[i + 1..])
  {
    FirstIsBefore(s.tasks, s.gtq, k);
    i := FirstAssignable(s.tasks, s.gtq, 0);
    NotNull(s, s.gtq[i]);
  }

  lemma AssignCurrentNearer(s: Sched, k: nat, t: Tid)
    requires Placed(s) && !Busy(s) && s.next == NULL && Assigned(s) != s.idle
    requires At(s.gtq, k, t) && Assignable(s.tasks, t)
    ensures By(Q(AssignCurrent(s)), k, t)
  {
    AssignCurrentQ(s);
    var i := AssignedQ(s, k, t);
    TakenOut(s.gtq, i, k, t);
  }

  lemma FrontOf(s: Sched, k: nat, t: Tid)
    requires Busy(s) && s.next == NULL && At(Q(s), k, t)
    ensures if k == 0 then t == s.current else At(s.gtq, k - 1, t)
  {
    AssignNextQ(s);
  }

  lemma AssignNextNearer(s: Sched, k: nat, t: Tid)
    requires Placed(s) && Busy(s) && s.next == NULL && At(Q(s), k, t) && Assignable(s.tasks, t)
    ensures By(Q(AssignNext(s)), k, t)
  {
    FrontOf(s, k, t);
    AssignNextQ(s);
    if k == 0 {
      assert At(Q(AssignNext(s)), 0, t);
    } else {
      var i := AssignedQ(s, k - 1, t);
      TakenOut(s.gtq, i, k - 1, t);
      Shifted(s.current, Opt(Assigned(s)) + Without(s).gtq, k - 1, t);
    }
  }

  lemma ByTwice(q: seq<Tid>, q': seq<Tid>, k: nat, t: Tid)
    requires By(q, k, t) && forall i: nat | i <= k && At(q, i, t) :: By(q', i, t)
    ensures By(q', k, t)
  {
    var i: nat :| i <= k && At(q, i, t);
    var j: nat :| j <= i && At(q', j, t);
  }

  /** Filling the current slot. */
  lemma FillNearer(r: Sched, k: nat, t: Tid, d: Sched)
    requires Placed(r) && Behind(r) && !Busy(r) && At(Q(r), k, t) && Assignable(r.tasks, t)
    requires d == if r.next == NULL then AssignCurrent(r) else CpuNext(r)
    ensures Placed(d) && d.next == NULL && d.tasks == r.tasks && By(Q(d), k, t)
  {
    if r.next == NULL {
      assert Q(r) == r.gtq;
      AssignCurrentKeeps(r);
      AssignCurrentNearer(r, k, t);
    } else {
      CpuNextKeeps(r);
      assert At(Q(d), k, t);
    }
  }

  /** Filling the current slot and then the next one. */
  lemma TakeNearer(r: Sched, k: nat, t: Tid, d: Sched)
    requires Placed(r) && Behind(r) && !Busy(r) && At(Q(r), k, t) && Assignable(r.tasks, t)
    requires d == if r.next == NULL then AssignCurrent(r) else CpuNext(r)
    requires Busy(d)
    ensures By(Q(AssignNext(d)), k, t)
  {
    FillNearer(r, k, t, d);
    forall i: nat | i <= k && At(Q(d), i, t) ensures By(Q(AssignNext(d)), i, t) {
      AssignNextNearer(d, i, t);
    }
    ByTwice(Q(d), Q(AssignNext(d)), k, t);
  }

  /** Where a cycle of round robin would bring the task at position `k`: nearer behind a running task, and to
      where it is when the CPU is idle. */
  function Nearer(s: Sched, k: nat): int { if Busy(s) then k - 1 else k }

  lemma WaiterIsAssignable(s: Sched, k: nat, t: Tid)
    requires Placed(s) && Behind(s) && At(Q(s), k, t) && t != s.current && t in s.tasks && !s.tasks[t].locked
    ensures Assignable(s.tasks, t) && (Busy(s) ==> k > 0) && (s.gtq == [] ==> s.next == t)
  {
    if t != s.next {
      assert t in s.gtq;
      assert Waits(s, t);
    }
  }

  lemma FilledIsBusy(r: Sched, d: Sched)
    requires Placed(r) && Behind(r) && !Busy(r) && (r.next == NULL ==> exists x | x in r.gtq :: Assignable(r.tasks, x))
    requires d == if r.next == NULL then AssignCurrent(r) else CpuNext(r)
    ensures Busy(d)
  {
    if r.next == NULL { AssignCurrentKeeps(r); } else { CpuNextKeeps(r); }
  }

  lemma RequeueNearer(s: Sched, k: nat, t: Tid, r: Sched)
    requires Mid(s) && Busy(s) && At(Q(s), k, t) && k > 0 && t != s.current && Assignable(s.tasks, t) && r == Requeue(s)
    ensures Placed(r) && Behind(r) && !Busy(r) && At(Q(r), k - 1, t) && Assignable(r.tasks, t)
    ensures exists x | x in r.gtq :: Assignable(r.tasks, x)
  {
    RequeueSound(s, r);
    RequeueKeeps(s);
  }

  lemma IdleNearer(s: Sched, k: nat, t: Tid)
    requires Mid(s) && !Busy(s) && s.next == NULL && At(Q(s), k, t) && Assignable(s.tasks, t)
    ensures By(Q(Choose(s)), k, t)
  {
    assert Q(s) == s.gtq;
    AssignCurrentKeeps(s);
    AssignCurrentNearer(s, k, t);
  }

  lemma ShortNearer(s: Sched, k: nat, t: Tid)
    requires Mid(s) && (Busy(s) || s.next != NULL) && s.gtq == [] && At(Q(s), k, t) && (Busy(s) ==> k > 0)
    ensures By(Q(Choose(s)), Nearer(s, k), t)
  {
    ShortChooseKeeps(s);
    assert At(Q(Choose(s)), Nearer(s, k), t);
  }

  lemma BusyNearer(s: Sched, k: nat, t: Tid, r: Sched, d: Sched)
    requires Mid(s) && (Busy(s) || s.next != NULL) && s.gtq != [] && At(Q(s), k, t) && (Busy(s) ==> k > 0)
    requires t != s.current && Assignable(s.tasks, t) && r == (if s.current != NULL then Requeue(s) else s)
    requires d == if r.next == NULL then AssignCurrent(r) else CpuNext(r)
    ensures By(Q(AssignNext(d)), Nearer(s, k), t)
  {
    if s.current != NULL { RequeueNearer(s, k, t, r); }
    FilledIsBusy(r, d);
    TakeNearer(r, Nearer(s, k), t, d);
  }

  lemma ChooseNearer(s: Sched, k: nat, t: Tid)
    requires Mid(s) && At(Q(s), k, t) && t != s.current && t in s.tasks && !s.tasks[t].locked
    ensures 0 <= Nearer(s, k) && By(Q(Choose(s)), Nearer(s, k), t)
  {
    WaiterIsAssignable(s, k, t);
    if !Busy(s) && s.next == NULL {
      IdleNearer(s, k, t);
    } else if s.gtq == [] {
      ShortNearer(s, k, t);
    } else {
      BusyChoice(s);
      var r := if s.current != NULL then Requeue(s) else s;
      BusyNearer(s, k, t, r, if r.next == NULL then AssignCurrent(r) else CpuNext(r));
    }
  }

  lemma ReapNearer(s: Sched, k: nat, t: Tid, r: Sched)
    requires Inv(s) && At(Q(s), k, t) && t != s.current && t in s.tasks && !s.tasks[t].locked && r == Reap(s)
    ensures Mid(r) && t != r.current && t in r.tasks && !r.tasks[t].locked
    ensures r == s || (!Busy(r) && k > 0 && At(Q(r), k - 1, t) && Busy(s))
  {
    ReapKeeps(s);
    if r != s && Busy(s) { ReapQ(s); }
  }

  lemma StaysBusy(r: Sched, k: nat, t: Tid)
    requires Mid(r) && At(Q(r), k, t) && t != r.current && t in r.tasks && !r.tasks[t].locked
    ensures Busy(Choose(r))
  {
    WaiterIsAssignable(r, k, t);
    if !Busy(r) && r.next == NULL {
      assert Q(r) == r.gtq;
      AssignCurrentKeeps(r);
    } else if r.gtq == [] {
      ShortIsBusy(r);
    } else {
      BusyIsBusy(r);
    }
  }

  /** Main result: whoever else is locked, a cycle leaves the CPU busy and a waiting task that is not locked at
      least one position nearer, or, if the CPU was idle, no further back. */
  lemma CycleNearer(s: Sched, k: nat, t: Tid)
    requires Inv(s) && At(Q(s), k, t) && t != s.current && t in s.tasks && !s.tasks[t].locked
    ensures Inv(Cycle(s)) && Busy(Cycle(s)) && 0 <= Nearer(s, k) && By(Q(Cycle(s)), Nearer(s, k), t)
  {
    var r := Reap(s);
    ReapNearer(s, k, t, r);
    CycleSteps(s);
    var j := if r == s then k else k - 1;
    ChooseNearer(r, j, t);
    StaysBusy(r, j, t);
    DispatchRuns(Choose(r));
  }
}
