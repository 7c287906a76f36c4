/**
  The scheduler of one CPU as a state: the running task, the task held to run next, the global task
  queue, the idle task, and every task's record. A null task pointer is 0.

  `Cycle` is one pass of the timer's scheduling function. The results are about any run of cycles,
  arrivals and terminations: the queue is served round robin, and no task is lost or duplicated.
 */
module RoundRobin {
  import opened Contexts

  type Tid = int

  const NULL: Tid := 0

  datatype Status = Embryo | New | Ready | Running | Zombie

  datatype Task = Task(status: Status, locked: bool, context: Context)

  datatype Sched = Sched(current: Tid, next: Tid, gtq: seq<Tid>, idle: Tid, tasks: map<Tid, Task>)

  predicate Runnable(s: Status) { s == Ready || s == New }

  // ----- One cycle -------------------------------------------------------------------------------

  predicate Busy(s: Sched) { s.current != NULL && s.current != s.idle }

  predicate Assignable(tasks: map<Tid, Task>, t: Tid) {
    t in tasks && !tasks[t].locked && Runnable(tasks[t].status)
  }

  /** The first task of the queue, from position `k`, that is unlocked and runnable. */
  function FirstAssignable(tasks: map<Tid, Task>, gtq: seq<Tid>, k: int): (r: int)
    requires 0 <= k <= |gtq|
    ensures k <= r <= |gtq|
    ensures r < |gtq| ==> Assignable(tasks, gtq[r])
    ensures forall j | k <= j < r :: !Assignable(tasks, gtq[j])
    decreases |gtq| - k
  {
    if k == |gtq| || Assignable(tasks, gtq[k]) then k else FirstAssignable(tasks, gtq, k + 1)
  }

  function Assigned(s: Sched): Tid {
    var k := FirstAssignable(s.tasks, s.gtq, 0);
    if k < |s.gtq| then s.gtq[k] else NULL
  }

  function Without(s: Sched): Sched {
    var k := FirstAssignable(s.tasks, s.gtq, 0);
    if k < |s.gtq| then s.(gtq := s.gtq[..k] + s.gtq[k + 1..]) else s
  }

  function SetStatus(s: Sched, t: Tid, st: Status): Sched {
    if t in s.tasks then s.(tasks := s.tasks[t := s.tasks[t].(status := st)]) else s
  }

  function Demote(s: Sched, t: Tid): Sched {
    if t in s.tasks && s.tasks[t].status == Running then SetStatus(s, t, Ready) else s
  }

  function Put(s: Sched, t: Tid): Sched {
    var d := Demote(s, t);
    d.(gtq := d.gtq + [t])
  }

  function AssignCurrent(s: Sched): Sched { Without(s).(current := Assigned(s)) }

  function AssignNext(s: Sched): Sched { Without(s).(next := Assigned(s)) }

  function CpuNext(s: Sched): Sched { s.(current := s.next, next := NULL) }

  function Swap(s: Sched): Sched {
    Demote(s, s.current).(current := s.next, next := s.current)
  }

  /** A zombie that was running is destroyed. */
  function Reap(s: Sched): Sched {
    if s.current != NULL && s.current in s.tasks && s.tasks[s.current].status == Zombie
    then s.(current := NULL, tasks := s.tasks - {s.current}) else s
  }

  function Choose(s: Sched): Sched {
    if !Busy(s) && s.next == NULL then
      (if s.gtq == [] then s else AssignCurrent(s))
    else if s.gtq == [] then
      (if s.next == NULL then s else if s.current == NULL then CpuNext(s) else Swap(s))
    else
      var s1 := if s.current != NULL then Put(s, s.current) else s;
      var s2 := if s1.next == NULL then AssignCurrent(s1) else CpuNext(s1);
      AssignNext(s2)
  }

  function Dispatch(s: Sched): Sched {
    var s1 := if s.current == NULL then s.(current := s.idle) else s;
    SetStatus(s1, s1.current, Running)
  }

  function Cycle(s: Sched): Sched { Dispatch(Choose(Reap(s))) }

  // ----- Invariant -------------------------------------------------------------------------------

  function Opt(t: Tid): seq<Tid> { if t == NULL then [] else [t] }

  /** Who waits for the CPU, in order, the running task first. */
  function Q(s: Sched): seq<Tid> {
    (if Busy(s) then [s.current] else []) + Opt(s.next) + s.gtq
  }

  ghost predicate Member(s: Sched, t: Tid) {
    t in s.tasks && t != s.idle && t != NULL && multiset(Q(s))[t] == 1
  }

  ghost predicate Waits(s: Sched, t: Tid) {
    t in s.tasks && Runnable(s.tasks[t].status)
  }

  /** Idle is never queued, and every other task waits in exactly one place, once. */
  ghost predicate Placed(s: Sched) {
    && s.idle != NULL && s.idle in s.tasks
    && (forall t | t in Q(s) :: Member(s, t))
    && (forall t | t in s.tasks && t != s.idle :: t in Q(s))
  }

  /** Whoever is behind the running task can run, and the one held to run next is unlocked. */
  ghost predicate Behind(s: Sched) {
    && (forall t | t in s.gtq :: Waits(s, t))
    && (s.next != NULL ==> Waits(s, s.next) && !s.tasks[s.next].locked)
  }

  ghost predicate RunningIs(s: Sched, st: set<Status>) {
    Busy(s) ==> s.current in s.tasks && !s.tasks[s.current].locked && s.tasks[s.current].status in st
  }

  /** Every task is in its place; the running task is the only one not waiting; next is set only behind
      a real running task. */
  ghost predicate Inv(s: Sched) {
    && Placed(s) && Behind(s) && RunningIs(s, {Running, Zombie})
    && s.tasks[s.idle].status != Zombie
    && (s.current == s.idle ==> s.tasks[s.idle].status == Running)
    && (!Busy(s) ==> s.next == NULL)
  }

  /** Between the reaping and the choice: there may be no running task while one is held to run next. */
  ghost predicate Mid(s: Sched) {
    && Placed(s) && Behind(s) && RunningIs(s, {Running})
    && s.tasks[s.idle].status != Zombie
    && (s.current == s.idle ==> s.next == NULL)
  }

  /** Between the choice and the dispatch: the running task's status is still to be set. */
  ghost predicate Chosen(s: Sched) {
    && Placed(s) && Behind(s) && RunningIs(s, {New, Ready, Running})
    && s.tasks[s.idle].status != Zombie
    && (!Busy(s) ==> s.next == NULL)
  }

  lemma CurrentOnce(s: Sched)
    requires Placed(s) && Busy(s)
    ensures s.current in s.tasks && s.current != s.next && s.current !in s.gtq
  {
    assert Q(s) == [s.current] + (Opt(s.next) + s.gtq);
    assert Member(s, s.current);
    if s.next != NULL { assert s.next in Opt(s.next) + s.gtq; }
  }

  lemma Behinders(s: Sched)
    requires Placed(s)
    ensures s.next != NULL ==> s.next in s.tasks && s.next != s.idle
    ensures forall t | t in s.gtq :: t in s.tasks && t != s.idle && t != NULL
  {
    if s.next != NULL { assert s.next in Q(s); assert Member(s, s.next); }
    forall t | t in s.gtq ensures t in s.tasks && t != s.idle && t != NULL {
      assert t in Q(s);
      assert Member(s, t);
    }
  }

  lemma SamePlaces(s: Sched, s': Sched)
    requires Placed(s) && multiset(Q(s')) == multiset(Q(s))
    requires s'.idle == s.idle && s'.tasks.Keys == s.tasks.Keys
    ensures Placed(s')
  {
    forall t ensures t in Q(s') <==> t in Q(s) {
      assert t in Q(s') <==> t in multiset(Q(s'));
    }
    forall t | t in Q(s') ensures Member(s', t) { assert Member(s, t); }
  }

  lemma ReapKeeps(s: Sched)
    requires Inv(s)
    ensures Mid(Reap(s))
    ensures Q(Reap(s)) == if Busy(s) && s.tasks[s.current].status == Zombie then Q(s)[1..] else Q(s)
  {
    if Busy(s) && s.tasks[s.current].status == Zombie {
      CurrentOnce(s);
      ReapQ(s);
      ReapPlaces(s);
      ReapBehind(s);
    }
  }

  lemma ReapQ(s: Sched)
    requires Busy(s) && s.current in s.tasks && s.tasks[s.current].status == Zombie
    ensures Q(s) == [s.current] + Q(Reap(s)) && Q(Reap(s)) == Q(s)[1..]
  {
    assert Q(Reap(s)) == Opt(s.next) + s.gtq;
    assert Q(s) == [s.current] + (Opt(s.next) + s.gtq);
  }

  lemma ReapBehind(s: Sched)
    requires Behind(s) && s.current != s.next && s.current !in s.gtq
    ensures Behind(Reap(s))
  {
    forall t | t in s.gtq ensures Waits(Reap(s), t) { assert Waits(s, t); }
  }

  lemma ReapPlaces(s: Sched)
    requires Placed(s) && Busy(s) && s.current in s.tasks && s.tasks[s.current].status == Zombie
    requires Q(s) == [s.current] + Q(Reap(s))
    ensures Placed(Reap(s))
  {
    var r := Reap(s);
    assert Member(s, s.current);
    forall t | t in Q(r) ensures Member(r, t) {
      assert t in Q(s);
      assert Member(s, t);
    }
    forall t | t in r.tasks && t != r.idle ensures t in Q(r) { assert t in Q(s); }
  }

  lemma DispatchKeeps(s: Sched)
    requires Chosen(s)
    ensures Inv(Dispatch(s))
    ensures Q(Dispatch(s)) == Q(s)
  {
    var d := Dispatch(s);
    if Busy(s) { CurrentOnce(s); }
    assert Q(d) == Q(s);
    SamePlaces(s, d);
    Behinders(s);
    forall t | t in d.gtq ensures Waits(d, t) { assert Waits(s, t); }
  }

  // ----- The steps of the choice -----------------------------------------------------------------

  /** `s'` has the same tasks waiting as `s`, each of them in its place. */
  ghost predicate Conserves(s: Sched, s': Sched) {
    && Placed(s') && multiset(Q(s')) == multiset(Q(s))
    && s'.idle == s.idle && s'.tasks.Keys == s.tasks.Keys
  }

  lemma TakeOut(q: seq<Tid>, k: int)
    requires 0 <= k < |q|
    ensures multiset([q[k]] + (q[..k] + q[k + 1..])) == multiset(q)
    ensures k == 0 ==> [q[k]] + (q[..k] + q[k + 1..]) == q
  {
    assert q == q[..k] + [q[k]] + q[k + 1..];
  }

  lemma StillIn(q: seq<Tid>, k: int)
    requires 0 <= k < |q|
    ensures forall t | t in q[..k] + q[k + 1..] :: t in q
  {
  }

  /** Taking the first assignable task out of the queue leaves the others waiting. */
  lemma WithoutKeeps(s: Sched)
    requires NULL !in s.gtq
    ensures multiset(Opt(Assigned(s)) + Without(s).gtq) == multiset(s.gtq)
    ensures FirstAssignable(s.tasks, s.gtq, 0) == 0 ==> Opt(Assigned(s)) + Without(s).gtq == s.gtq
    ensures Assigned(s) != NULL ==> Assigned(s) in s.gtq && Assignable(s.tasks, Assigned(s))
  {
    var k := FirstAssignable(s.tasks, s.gtq, 0);
    if k < |s.gtq| {
      assert s.gtq[k] in s.gtq;
      TakeOut(s.gtq, k);
    } else {
      assert Opt(NULL) + s.gtq == s.gtq;
    }
  }

  lemma WithoutBehind(s: Sched)
    requires forall t | t in s.gtq :: t != NULL && Waits(s, t)
    ensures forall t | t in Without(s).gtq :: Waits(s, t)
    ensures Assigned(s) == NULL ==> forall t | t in s.gtq :: !Assignable(s.tasks, t)
  {
    var k := FirstAssignable(s.tasks, s.gtq, 0);
    if k < |s.gtq| { StillIn(s.gtq, k); assert s.gtq[k] in s.gtq; }
  }

  lemma AssignCurrentKeeps(s: Sched)
    requires Placed(s) && Behind(s) && !Busy(s) && s.next == NULL
    ensures Conserves(s, AssignCurrent(s)) && Behind(AssignCurrent(s))
    ensures RunningIs(AssignCurrent(s), {New, Ready})
    ensures AssignCurrent(s).current != s.idle && AssignCurrent(s).next == NULL
    ensures AssignCurrent(s).current == NULL ==> forall t | t in s.gtq :: !Assignable(s.tasks, t)
    ensures FirstAssignable(s.tasks, s.gtq, 0) == 0 ==> Q(AssignCurrent(s)) == Q(s)
  {
    Behinders(s);
    WithoutKeeps(s);
    AssignCurrentPlaces(s, Assigned(s), Without(s), AssignCurrent(s));
    WithoutBehind(s);
    AssignCurrentBehind(s);
  }

  lemma AssignCurrentPlaces(s: Sched, a: Tid, w: Sched, c: Sched)
    requires Placed(s) && !Busy(s) && s.next == NULL && a != s.idle
    requires multiset(Opt(a) + w.gtq) == multiset(s.gtq) && w == s.(gtq := w.gtq) && c == w.(current := a)
    ensures Conserves(s, c) && Q(s) == s.gtq && Q(c) == Opt(a) + w.gtq
  {
    assert Q(s) == s.gtq;
    assert Q(c) == Opt(a) + w.gtq;
    BagKept(s, c);
  }

  lemma BagKept(s: Sched, c: Sched)
    requires Placed(s) && multiset(Q(c)) == multiset(Q(s)) && c.idle == s.idle && c.tasks == s.tasks
    ensures Conserves(s, c)
  {
    SamePlaces(s, c);
  }

  lemma AssignCurrentQ(s: Sched)
    requires !Busy(s) && s.next == NULL && Assigned(s) != s.idle
    ensures Q(s) == s.gtq && Q(AssignCurrent(s)) == Opt(Assigned(s)) + Without(s).gtq
  {
    assert Q(s) == s.gtq;
    assert Q(AssignCurrent(s)) == Opt(Assigned(s)) + Without(s).gtq;
  }

  lemma AssignCurrentBehind(s: Sched)
    requires s.next == NULL && forall t | t in Without(s).gtq :: Waits(s, t)
    ensures Behind(AssignCurrent(s))
  {
    var c := AssignCurrent(s);
    forall t | t in c.gtq ensures Waits(c, t) { assert Waits(s, t); }
  }

  lemma AssignNextKeeps(s: Sched)
    requires Placed(s) && Behind(s) && Busy(s) && s.next == NULL
    ensures Conserves(s, AssignNext(s)) && Behind(AssignNext(s))
    ensures AssignNext(s).current == s.current && AssignNext(s).tasks == s.tasks
    ensures FirstAssignable(s.tasks, s.gtq, 0) == 0 ==> Q(AssignNext(s)) == Q(s)
  {
    Behinders(s);
    WithoutKeeps(s);
    AssignNextPlaces(s);
    WithoutBehind(s);
    AssignNextBehind(s);
  }

  lemma AssignNextPlaces(s: Sched)
    requires Placed(s) && Busy(s) && s.next == NULL
    requires multiset(Opt(Assigned(s)) + Without(s).gtq) == multiset(s.gtq)
    ensures Conserves(s, AssignNext(s))
    ensures Q(s) == [s.current] + s.gtq && Q(AssignNext(s)) == [s.current] + (Opt(Assigned(s)) + Without(s).gtq)
  {
    AssignNextQ(s);
    BagKept(s, AssignNext(s));
  }

  lemma AssignNextQ(s: Sched)
    requires Busy(s) && s.next == NULL
    ensures Q(s) == [s.current] + s.gtq && Q(AssignNext(s)) == [s.current] + (Opt(Assigned(s)) + Without(s).gtq)
  {
    assert Q(s) == [s.current] + s.gtq;
    assert Q(AssignNext(s)) == [s.current] + (Opt(Assigned(s)) + Without(s).gtq);
  }

  lemma AssignNextBehind(s: Sched)
    requires Assigned(s) != NULL ==> Assignable(s.tasks, Assigned(s))
    requires forall t | t in Without(s).gtq :: Waits(s, t)
    ensures Behind(AssignNext(s))
  {
    var c := AssignNext(s);
    forall t | t in c.gtq ensures Waits(c, t) { assert Waits(s, t); }
  }

  lemma CpuNextKeeps(s: Sched)
    requires Placed(s) && Behind(s) && !Busy(s) && s.next != NULL
    ensures Conserves(s, CpuNext(s)) && Behind(CpuNext(s)) && Q(CpuNext(s)) == Q(s)
    ensures RunningIs(CpuNext(s), {New, Ready}) && Busy(CpuNext(s))
  {
    var c := CpuNext(s);
    Behinders(s);
    assert Q(s) == [s.next] + s.gtq;
    assert Q(c) == [s.next] + s.gtq;
    SamePlaces(s, c);
    forall t | t in c.gtq ensures Waits(c, t) { assert Waits(s, t); }
  }

  /** The running task goes to the end of the queue. */
  function Requeue(s: Sched): Sched { Put(s, s.current).(current := NULL) }

  lemma MoveToBack(a: Tid, q: seq<Tid>)
    ensures multiset(q + [a]) == multiset([a] + q)
  {
  }

  lemma RequeueKeeps(s: Sched)
    requires Placed(s) && Behind(s) && Busy(s) && RunningIs(s, {Running})
    ensures Conserves(s, Requeue(s)) && Behind(Requeue(s))
    ensures Q(Requeue(s)) == Q(s)[1..] + [s.current]
  {
    CurrentOnce(s);
    RequeuePlaces(s);
    RequeueBehind(s);
  }

  lemma RequeuePlaces(s: Sched)
    requires Placed(s) && Busy(s) && s.current in s.tasks
    ensures Conserves(s, Requeue(s))
    ensures Q(Requeue(s)) == Q(s)[1..] + [s.current]
  {
    RequeueQ(s);
    SamePlaces(s, Requeue(s));
  }

  lemma RequeueQ(s: Sched)
    requires Busy(s)
    ensures Q(Requeue(s)) == Q(s)[1..] + [s.current]
    ensures multiset(Q(Requeue(s))) == multiset(Q(s))
  {
    var rest := Opt(s.next) + s.gtq;
    BusyQ(s);
    MoveToBack(s.current, rest);
    RequeuedQ(s);
  }

  lemma BusyQ(s: Sched)
    requires Busy(s)
    ensures Q(s) == [s.current] + (Opt(s.next) + s.gtq)
    ensures Q(s)[1..] == Opt(s.next) + s.gtq
  {
  }

  lemma RequeuedQ(s: Sched)
    requires Busy(s)
    ensures Q(Requeue(s)) == (Opt(s.next) + s.gtq) + [s.current]
  {
    var c := Requeue(s);
    assert c.gtq == s.gtq + [s.current] && c.next == s.next && !Busy(c);
    assert Q(c) == Opt(s.next) + (s.gtq + [s.current]);
  }

  lemma RequeueBehind(s: Sched)
    requires Behind(s) && Busy(s) && RunningIs(s, {Running})
    requires s.current != s.next && s.current !in s.gtq
    ensures Behind(Requeue(s))
  {
    var c := Requeue(s);
    forall t | t in c.gtq ensures Waits(c, t) {
      if t != s.current { assert t in s.gtq; assert Waits(s, t); }
    }
  }

  lemma SwapKeeps(s: Sched)
    requires Placed(s) && Behind(s) && Busy(s) && RunningIs(s, {Running}) && s.next != NULL && s.gtq == []
    ensures Conserves(s, Swap(s)) && Behind(Swap(s))
    ensures Q(Swap(s)) == Q(s)[1..] + [s.current]
    ensures RunningIs(Swap(s), {New, Ready}) && Busy(Swap(s))
  {
    var c := Swap(s);
    CurrentOnce(s);
    Behinders(s);
    assert Q(s) == [s.current] + [s.next];
    assert Q(c) == [s.next] + [s.current];
    MoveToBack(s.current, [s.next]);
    SamePlaces(s, c);
  }

  // ----- The choice ------------------------------------------------------------------------------

  ghost predicate NoneLocked(s: Sched) {
    forall t | t in s.gtq :: t in s.tasks ==> !s.tasks[t].locked
  }

  lemma FirstIsAssignable(s: Sched)
    requires Behind(s) && NoneLocked(s)
    ensures FirstAssignable(s.tasks, s.gtq, 0) == 0
  {
    if s.gtq != [] { assert Waits(s, s.gtq[0]); }
  }

  /** What round robin makes of the queue: a live running task goes to the back. */
  function Rotate(s: Sched): seq<Tid> {
    if Busy(s) && Q(s) != [] then Q(s)[1..] + [s.current] else Q(s)
  }

  lemma BusyChoice(s: Sched)
    requires Mid(s) && (Busy(s) || s.next != NULL) && s.gtq != []
    ensures Choose(s) == AssignNext(var r := (if s.current != NULL then Requeue(s) else s);
                                    if r.next == NULL then AssignCurrent(r) else CpuNext(r))
  {
  }

  lemma ChooseKeeps(s: Sched)
    requires Mid(s)
    ensures Chosen(Choose(s)) && multiset(Q(Choose(s))) == multiset(Q(s))
    ensures NoneLocked(s) ==> Q(Choose(s)) == Rotate(s)
  {
    if !Busy(s) && s.next == NULL {
      IdleChooseKeeps(s);
    } else if s.gtq == [] {
      ShortChooseKeeps(s);
    } else {
      BusyChooseKeeps(s);
    }
  }

  lemma IdleChooseKeeps(s: Sched)
    requires Mid(s) && !Busy(s) && s.next == NULL
    ensures Chosen(Choose(s)) && multiset(Q(Choose(s))) == multiset(Q(s))
    ensures NoneLocked(s) ==> Q(Choose(s)) == Rotate(s)
  {
    if s.gtq != [] {
      AssignCurrentKeeps(s);
      if NoneLocked(s) { FirstIsAssignable(s); }
    }
  }

  lemma ShortChoice(s: Sched)
    requires Mid(s) && (Busy(s) || s.next != NULL) && s.gtq == []
    ensures Choose(s) == if s.next == NULL then s else if s.current == NULL then CpuNext(s) else Swap(s)
    ensures s.current == NULL || Busy(s)
    ensures Busy(s) ==> Rotate(s) == Q(s)[1..] + [s.current]
  {
  }

  lemma AloneQ(s: Sched)
    requires Busy(s) && s.next == NULL && s.gtq == []
    ensures Rotate(s) == Q(s)
  {
    assert Q(s) == [s.current];
  }

  lemma ShortChooseKeeps(s: Sched)
    requires Mid(s) && (Busy(s) || s.next != NULL) && s.gtq == []
    ensures Chosen(Choose(s)) && multiset(Q(Choose(s))) == multiset(Q(s))
    ensures Q(Choose(s)) == Rotate(s)
  {
    ShortChoice(s);
    if s.next == NULL {
      AloneQ(s);
    } else if s.current == NULL {
      CpuNextKeeps(s);
    } else {
      SwapKeeps(s);
    }
  }

  lemma BusyChooseKeeps(s: Sched)
    requires Mid(s) && (Busy(s) || s.next != NULL) && s.gtq != []
    ensures Chosen(Choose(s)) && multiset(Q(Choose(s))) == multiset(Q(s))
    ensures NoneLocked(s) ==> Q(Choose(s)) == Rotate(s)
  {
    BusyChoice(s);
    if s.current == NULL {
      TakeKeeps(s, Choose(s));
    } else {
      RequeueThenTake(s, Choose(s));
    }
  }

  lemma RequeueThenTake(s: Sched, c: Sched)
    requires Mid(s) && Busy(s)
    requires c == AssignNext(if Requeue(s).next == NULL then AssignCurrent(Requeue(s)) else CpuNext(Requeue(s)))
    ensures Chosen(c) && multiset(Q(c)) == multiset(Q(s))
    ensures NoneLocked(s) ==> Q(c) == Rotate(s)
  {
    RequeueSound(s, Requeue(s));
    TakeKeeps(Requeue(s), c);
  }

  lemma RequeueSound(s: Sched, r: Sched)
    requires Mid(s) && Busy(s) && r == Requeue(s)
    ensures Placed(r) && Behind(r) && !Busy(r) && r.gtq != [] && r.tasks[r.idle].status != Zombie
    ensures exists t | t in r.gtq :: Assignable(r.tasks, t)
    ensures multiset(Q(r)) == multiset(Q(s)) && Q(r) == Rotate(s)
    ensures NoneLocked(s) ==> NoneLocked(r)
  {
    RequeueReady(s);
    RequeueInPlace(s, r);
  }

  lemma RequeueInPlace(s: Sched, r: Sched)
    requires Placed(s) && Behind(s) && Busy(s) && RunningIs(s, {Running}) && r == Requeue(s)
    ensures Placed(r) && Behind(r) && multiset(Q(r)) == multiset(Q(s)) && Q(r) == Rotate(s)
  {
    RequeueKeeps(s);
    BusyQ(s);
  }

  lemma RequeueReady(s: Sched)
    requires Busy(s) && RunningIs(s, {Running})
    ensures Requeue(s).gtq != [] && s.current in Requeue(s).gtq && Assignable(Requeue(s).tasks, s.current)
    ensures NoneLocked(s) ==> NoneLocked(Requeue(s))
    ensures s.idle in s.tasks && s.current != s.idle ==> Requeue(s).tasks[s.idle] == s.tasks[s.idle]
  {
    assert Requeue(s).gtq == s.gtq + [s.current];
  }

  lemma TakeKeeps(r: Sched, c: Sched)
    requires Placed(r) && Behind(r) && !Busy(r) && r.gtq != [] && r.tasks[r.idle].status != Zombie
    requires r.next == NULL ==> exists t | t in r.gtq :: Assignable(r.tasks, t)
    requires c == AssignNext(if r.next == NULL then AssignCurrent(r) else CpuNext(r))
    ensures Chosen(c) && multiset(Q(c)) == multiset(Q(r)) && (NoneLocked(r) ==> Q(c) == Q(r))
  {
    var d := if r.next == NULL then AssignCurrent(r) else CpuNext(r);
    if r.next == NULL { AssignCurrentKeeps(r); } else { CpuNextKeeps(r); }
    AssignNextKeeps(d);
    if NoneLocked(r) {
      FirstIsAssignable(r);
      FirstIsAssignable(d);
    }
  }

  lemma ChooseIdle(s: Sched)
    requires Mid(s) && !Busy(Choose(s))
    ensures !Busy(s) && s.next == NULL && Choose(s).gtq == s.gtq && Choose(s).tasks == s.tasks
    ensures forall t | t in s.gtq :: !Assignable(s.tasks, t)
  {
    if !Busy(s) && s.next == NULL {
      if s.gtq != [] { AssignCurrentKeeps(s); }
    } else if s.gtq == [] {
      ShortChoice(s);
      ShortIsBusy(s);
    } else {
      BusyIsBusy(s);
    }
  }

  lemma ShortIsBusy(s: Sched)
    requires Mid(s) && (Busy(s) || s.next != NULL) && s.gtq == []
    ensures Busy(Choose(s))
  {
    ShortChoice(s);
    if s.next != NULL { if s.current == NULL { CpuNextKeeps(s); } else { SwapKeeps(s); } }
  }

  lemma BusyIsBusy(s: Sched)
    requires Mid(s) && (Busy(s) || s.next != NULL) && s.gtq != []
    ensures Busy(Choose(s))
  {
    BusyChoice(s);
    if s.current == NULL {
      TakeIsBusy(s);
    } else {
      RequeueKeeps(s);
      RequeueReady(s);
      TakeIsBusy(Requeue(s));
    }
  }

  lemma TakeIsBusy(r: Sched)
    requires Placed(r) && Behind(r) && !Busy(r)
    requires r.next == NULL ==> exists t | t in r.gtq :: Assignable(r.tasks, t)
    ensures Busy(AssignNext(if r.next == NULL then AssignCurrent(r) else CpuNext(r)))
  {
    if r.next == NULL { AssignCurrentKeeps(r); } else { CpuNextKeeps(r); }
  }

  // ----- Main results: one cycle ------------------------------------------------------------------

  lemma CycleIdle(s: Sched)
    ensures Cycle(s).idle == s.idle
  {
  }

  lemma CycleSteps(s: Sched)
    requires Inv(s)
    ensures Mid(Reap(s)) && Chosen(Choose(Reap(s))) && Inv(Cycle(s))
    ensures Q(Cycle(s)) == Q(Choose(Reap(s)))
    ensures multiset(Q(Cycle(s))) == multiset(Q(Reap(s)))
  {
    ReapKeeps(s);
    ChooseKeeps(Reap(s));
    DispatchKeeps(Choose(Reap(s)));
  }

  lemma DispatchRuns(s: Sched)
    requires Chosen(s)
    ensures Dispatch(s).current in Dispatch(s).tasks && Dispatch(s).tasks[Dispatch(s).current].status == Running
    ensures Busy(Dispatch(s)) == Busy(s)
    ensures !Busy(s) ==> Dispatch(s).current == s.idle
  {
  }

  lemma DropHead(t: Tid, q: seq<Tid>)
    ensures multiset(q) == multiset([t] + q) - multiset{t}
  {
  }

  /** Whatever is locked, a cycle keeps the invariant and loses nobody but a zombie that was running;
      and the CPU idles only when every waiting task is locked. */
  lemma CycleConserves(s: Sched)
    requires Inv(s)
    ensures Inv(Cycle(s)) && Cycle(s).idle == s.idle
    ensures multiset(Q(Cycle(s))) ==
              if Busy(s) && s.tasks[s.current].status == Zombie then multiset(Q(s)) - multiset{s.current}
              else multiset(Q(s))
    ensures Cycle(s).current in Cycle(s).tasks && Cycle(s).tasks[Cycle(s).current].status == Running
    ensures !Busy(Cycle(s)) ==> forall t | t in Q(Cycle(s)) :: t in s.tasks && s.tasks[t].locked
  {
    CycleIdle(s);
    CycleSteps(s);
    CycleBag(s);
    DispatchRuns(Choose(Reap(s)));
    if !Busy(Cycle(s)) { IdleMeansLocked(Reap(s)); }
  }

  lemma CycleBag(s: Sched)
    requires Inv(s)
    ensures multiset(Q(Reap(s))) ==
              if Busy(s) && s.tasks[s.current].status == Zombie then multiset(Q(s)) - multiset{s.current}
              else multiset(Q(s))
  {
    if Busy(s) && s.tasks[s.current].status == Zombie {
      ReapQ(s);
      DropHead(s.current, Q(Reap(s)));
    }
  }

  lemma IdleMeansLocked(r: Sched)
    requires Mid(r) && !Busy(Choose(r))
    ensures Q(Choose(r)) == r.gtq
    ensures forall t | t in r.gtq :: t in r.tasks && r.tasks[t].locked
  {
    ChooseIdle(r);
    ChooseKeeps(r);
    assert Q(Choose(r)) == r.gtq;
    forall t | t in r.gtq ensures t in r.tasks && r.tasks[t].locked { assert Waits(r, t); }
  }

  /** With no queued task locked, a cycle is one step of round robin: a live running task goes to the
      back, a dead one leaves, an idle CPU starts the first; and the first in line runs. */
  lemma CycleIsRoundRobin(s: Sched)
    requires Inv(s) && NoneLocked(s)
    ensures Q(Cycle(s)) == if !Busy(s) then Q(s)
                           else if s.tasks[s.current].status == Zombie then Q(s)[1..]
                           else Q(s)[1..] + [Q(s)[0]]
    ensures Cycle(s).current == if Q(Cycle(s)) == [] then s.idle else Q(Cycle(s))[0]
  {
    var r := Reap(s);
    CycleSteps(s);
    ReapKeeps(s);
    ChooseKeeps(r);
    ReapRotates(s);
    DispatchRuns(Choose(r));
    if !Busy(Cycle(s)) {
      IdleMeansLocked(r);
      if r.gtq != [] { NobodyLocked(r); }
    }
  }

  lemma ReapRotates(s: Sched)
    requires Inv(s) && NoneLocked(s)
    ensures NoneLocked(Reap(s))
    ensures Rotate(Reap(s)) == if !Busy(s) then Q(s)
                               else if s.tasks[s.current].status == Zombie then Q(s)[1..]
                               else Q(s)[1..] + [Q(s)[0]]
  {
    ReapKeeps(s);
    if Busy(s) { assert Q(s)[0] == s.current; }
  }

  lemma NobodyLocked(r: Sched)
    requires r.gtq != [] && forall t | t in r.gtq :: t in r.tasks && r.tasks[t].locked
    ensures !NoneLocked(r)
  {
    var t := r.gtq[0];
    assert t in r.tasks && r.tasks[t].locked;
  }
}
