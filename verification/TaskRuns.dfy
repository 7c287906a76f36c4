/**
  Runs of one CPU: timer interrupts, arrivals in two steps (the task enters the queue locked, its lock
  is released later) and terminations. A context is the register frame a task resumes with.
 */
module TaskRuns {
  import opened Common
  import opened Contexts
  import opened RoundRobin
  import opened Waiting

  datatype Event =
    | Enqueue(tid: Tid, context: Context)       // sched_start up to the end of queue_put
    | Unlock(tid: Tid)                    // sched_start returns
    | Terminate                           // sched_terminate, or a fatal page fault of the running task
    | Tick(frame: Context, enabled: bool)       // a timer interrupt; enabled if heap and VMM are unlocked

  predicate NeverRun(s: Status) { s == Embryo || s == New }

  /** The interrupted registers go to the running task's context. */
  function Save(s: Sched, frame: Context): Sched {
    if s.current in s.tasks && s.current != NULL && !NeverRun(s.tasks[s.current].status)
    then s.(tasks := s.tasks[s.current := s.tasks[s.current].(context := frame)])
    else s
  }

  ghost predicate Legal(s: Sched, e: Event) {
    match e
    case Enqueue(t, _) => t != NULL && t !in s.tasks
    case Unlock(t) => t in s.tasks
    case Terminate => Busy(s)
    case Tick(_, _) => true
  }

  function Step(s: Sched, e: Event): Sched {
    match e
    case Enqueue(t, c) => s.(tasks := s.tasks[t := Task(New, true, c)], gtq := s.gtq + [t])
    case Unlock(t) => if t in s.tasks then s.(tasks := s.tasks[t := s.tasks[t].(locked := false)]) else s
    case Terminate => SetStatus(s, s.current, Zombie)
    case Tick(frame, enabled) => if enabled then Cycle(Save(s, frame)) else s
  }

  ghost predicate StepAt(ss: seq<Sched>, es: seq<Event>, n: int)
    requires 0 <= n < |es| < |ss|
  {
    Legal(ss[n], es[n]) && ss[n + 1] == Step(ss[n], es[n])
  }

  ghost predicate IsRun(ss: seq<Sched>, es: seq<Event>) {
    && |ss| == |es| + 1 && Inv(ss[0])
    && forall n | 0 <= n < |es| :: StepAt(ss, es, n)
  }

  // ----- What every event keeps -------------------------------------------------------------------

  /** Two states that differ in contexts and locks only. */
  ghost predicate SameBut(s: Sched, s': Sched) {
    && s'.current == s.current && s'.next == s.next && s'.gtq == s.gtq && s'.idle == s.idle
    && s'.tasks.Keys == s.tasks.Keys
    && forall t | t in s.tasks :: s'.tasks[t].status == s.tasks[t].status && (s'.tasks[t].locked ==> s.tasks[t].locked)
  }

  lemma SameButKeeps(s: Sched, s': Sched)
    requires Inv(s) && SameBut(s, s')
    ensures Inv(s') && Q(s') == Q(s)
  {
    SamePlaces(s, s');
    forall t | t in s'.gtq ensures Waits(s', t) { assert Waits(s, t); }
  }

  lemma EnqueueKeeps(s: Sched, t: Tid, c: Context)
    requires Inv(s) && t != NULL && t !in s.tasks
    ensures Inv(Step(s, Enqueue(t, c))) && Q(Step(s, Enqueue(t, c))) == Q(s) + [t]
  {
    var s' := Step(s, Enqueue(t, c));
    EnqueueQ(s, t, c);
    EnqueuePlaces(s, s', t);
    EnqueueBehind(s, t, c);
  }

  lemma EnqueueQ(s: Sched, t: Tid, c: Context)
    requires t != NULL
    ensures Q(Step(s, Enqueue(t, c))) == Q(s) + [t]
  {
  }

  lemma EnqueueBehind(s: Sched, t: Tid, c: Context)
    requires Behind(s) && t != NULL && t !in s.tasks
    ensures Behind(Step(s, Enqueue(t, c)))
  {
    var s' := Step(s, Enqueue(t, c));
    forall x | x in s'.gtq ensures Waits(s', x) { if x != t { assert Waits(s, x); } }
  }

  lemma TasksInQ(s: Sched, t: Tid)
    requires Placed(s)
    ensures t in Q(s) ==> t in s.tasks && t != s.idle && t != NULL
  {
    if t in Q(s) { assert Member(s, t); }
  }

  lemma EnqueuePlaces(s: Sched, s': Sched, t: Tid)
    requires Placed(s) && t != NULL && t !in s.tasks && Q(s') == Q(s) + [t]
    requires s'.idle == s.idle && s'.tasks.Keys == s.tasks.Keys + {t}
    ensures Placed(s')
  {
    TasksInQ(s, t);
    forall x | x in Q(s') ensures Member(s', x) {
      if x != t { assert x in Q(s); assert Member(s, x); }
    }
  }

  lemma TerminateKeeps(s: Sched)
    requires Inv(s) && Busy(s)
    ensures Inv(Step(s, Terminate)) && Q(Step(s, Terminate)) == Q(s)
  {
    var s' := Step(s, Terminate);
    CurrentOnce(s);
    SamePlaces(s, s');
    Behinders(s);
    forall t | t in s'.gtq ensures Waits(s', t) { assert Waits(s, t); }
  }

  lemma StepKeepsInv(s: Sched, e: Event)
    requires Inv(s) && Legal(s, e)
    ensures Inv(Step(s, e)) && Step(s, e).idle == s.idle
  {
    match e
    case Enqueue(t, c) => EnqueueKeeps(s, t, c);
    case Unlock(t) => SameButKeeps(s, Step(s, e));
    case Terminate => TerminateKeeps(s);
    case Tick(frame, enabled) =>
      if enabled { TickStepKeeps(s, frame, Step(s, e)); }
  }

  lemma TickStepKeeps(s: Sched, frame: Context, s': Sched)
    requires Inv(s) && s' == Cycle(Save(s, frame))
    ensures Inv(s') && s'.idle == s.idle
  {
    SameButKeeps(s, Save(s, frame));
    CycleConserves(Save(s, frame));
  }

  lemma NextKeepsInv(ss: seq<Sched>, es: seq<Event>, n: nat, s': Sched)
    requires |ss| == |es| + 1 && n < |es| && StepAt(ss, es, n) && s' == ss[n + 1] && Inv(ss[n])
    ensures Inv(s')
  {
    StepKeepsInv(ss[n], es[n]);
  }

  /** Main result: the invariant holds throughout every run. */
  lemma {:induction false} RunKeepsInv(ss: seq<Sched>, es: seq<Event>, n: nat)
    requires IsRun(ss, es) && n < |ss|
    ensures Inv(ss[n])
    decreases n
  {
    if n > 0 {
      RunKeepsInv(ss, es, n - 1);
      NextKeepsInv(ss, es, n - 1, ss[n]);
    }
  }

  // ----- Bounded waiting --------------------------------------------------------------------------

  function Ticks(es: seq<Event>): nat {
    if es == [] then 0 else (if es[0].Tick? && es[0].enabled then 1 else 0) + Ticks(es[1..])
  }

  /** How many cycles the task at position `k` has to wait at most. */
  function Wait(s: Sched, k: nat): nat { if Busy(s) then k else k + 1 }

  /** Task `t` does not hold up a cycle: it is not locked. */
  ghost predicate Unlocked(s: Sched, t: Tid) { t in s.tasks ==> !s.tasks[t].locked }

  /** Each event brings a waiting task nearer, or at least not farther, and a cycle always nearer. */
  lemma StepBringsNearer(s: Sched, e: Event, k: nat)
    requires Inv(s) && Legal(s, e) && k < |Q(s)| && s.current != Q(s)[k]
    requires e.Tick? && e.enabled ==> Unlocked(s, Q(s)[k])
    ensures exists k': nat :: && k' < |Q(Step(s, e))| && Q(Step(s, e))[k'] == Q(s)[k]
                              && Wait(Step(s, e), k') + Ticks([e]) <= Wait(s, k)
  {
    assert Ticks([e]) == if e.Tick? && e.enabled then 1 else 0;
    if e.Tick? && e.enabled {
      TickBringsNearer(s, e.frame, k, Step(s, e));
    } else {
      QuietKeepsPlace(s, e, k, Step(s, e));
    }
  }

  /** Without a cycle nobody moves. */
  lemma QuietKeepsPlace(s: Sched, e: Event, k: nat, s': Sched)
    requires Inv(s) && Legal(s, e) && k < |Q(s)| && s' == Step(s, e) && !(e.Tick? && e.enabled)
    ensures k < |Q(s')| && Q(s')[k] == Q(s)[k] && Wait(s', k) <= Wait(s, k)
  {
    match e
    case Enqueue(t, c) => EnqueueKeeps(s, t, c);
    case Unlock(t) => SameButKeeps(s, s');
    case Terminate => TerminateKeeps(s);
    case Tick(frame, enabled) =>
  }

  lemma TickBringsNearer(s: Sched, frame: Context, k: nat, s': Sched)
    requires Inv(s) && k < |Q(s)| && s.current != Q(s)[k] && Unlocked(s, Q(s)[k]) && s' == Cycle(Save(s, frame))
    ensures exists k': nat :: k' < |Q(s')| && Q(s')[k'] == Q(s)[k] && Wait(s', k') + 1 <= Wait(s, k)
  {
    var r, t := Save(s, frame), Q(s)[k];
    SaveKeeps(s, frame);
    TasksInQ(s, t);
    assert At(Q(r), k, t);
    CycleNearer(r, k, t);
    var k': nat :| k' <= Nearer(r, k) && At(Q(s'), k', t);
    assert k' < |Q(s')| && Q(s')[k'] == t && Wait(s', k') + 1 <= Wait(s, k);
  }

  lemma SaveKeeps(s: Sched, frame: Context)
    requires Inv(s)
    ensures Inv(Save(s, frame)) && Q(Save(s, frame)) == Q(s)
    ensures Busy(Save(s, frame)) == Busy(s) && Save(s, frame).current == s.current
    ensures Busy(s) ==> Save(s, frame).tasks[s.current].status == s.tasks[s.current].status
    ensures Save(s, frame).tasks.Keys == s.tasks.Keys
    ensures forall t | t in s.tasks :: Save(s, frame).tasks[t].locked == s.tasks[t].locked
  {
    SameButKeeps(s, Save(s, frame));
  }

  /** Whenever a cycle happens before task `t` has run, `t` is not locked. */
  ghost predicate NotHeldUp(ss: seq<Sched>, es: seq<Event>, t: Tid) {
    |ss| == |es| + 1 && forall n | 0 <= n < |es| :: FreeAt(ss, es, t, n)
  }

  ghost predicate FreeAt(ss: seq<Sched>, es: seq<Event>, t: Tid, n: int)
    requires 0 <= n < |es| < |ss|
  {
    es[n].Tick? && es[n].enabled && (forall j | 0 <= j <= n :: ss[j].current != t) ==> Unlocked(ss[n], t)
  }

  ghost predicate Runs(ss: seq<Sched>, t: Tid) { exists m | 0 <= m < |ss| :: ss[m].current == t }

  /** Main result: the task at position `k` is running after at most `k + 1` cycles, whatever arrives,
      terminates or is locked in between, as long as it is not itself locked when a cycle happens. */
  lemma WaitIsBounded(ss: seq<Sched>, es: seq<Event>, k: nat)
    requires IsRun(ss, es) && k < |Q(ss[0])| && NotHeldUp(ss, es, Q(ss[0])[k])
    requires Ticks(es) >= k + 1
    ensures Runs(ss, Q(ss[0])[k])
  {
    WaitIsBoundedFrom(ss, es, k);
  }

  lemma {:induction false} WaitIsBoundedFrom(ss: seq<Sched>, es: seq<Event>, k: nat)
    requires IsRun(ss, es) && k < |Q(ss[0])| && NotHeldUp(ss, es, Q(ss[0])[k])
    requires Ticks(es) >= Wait(ss[0], k)
    ensures Runs(ss, Q(ss[0])[k])
    decreases |es|
  {
    if ss[0].current == Q(ss[0])[k] {
    } else if es == [] {
      WaitsBehind(ss[0], k);
    } else {
      var k' := FirstBringsNearer(ss, es, k);
      TailIsRun(ss, es);
      TailNotHeldUp(ss, es, Q(ss[0])[k]);
      WaitIsBoundedFrom(ss[1..], es[1..], k');
      TailRuns(ss, Q(ss[0])[k]);
    }
  }

  lemma FirstBringsNearer(ss: seq<Sched>, es: seq<Event>, k: nat) returns (k': nat)
    requires IsRun(ss, es) && es != [] && k < |Q(ss[0])| && NotHeldUp(ss, es, Q(ss[0])[k])
    requires ss[0].current != Q(ss[0])[k]
    ensures k' < |Q(ss[1])| && Q(ss[1])[k'] == Q(ss[0])[k]
    ensures Wait(ss[1], k') + Ticks(es) <= Wait(ss[0], k) + Ticks(es[1..])
  {
    var s, e := ss[0], es[0];
    assert StepAt(ss, es, 0) && FreeAt(ss, es, Q(s)[k], 0);
    StepBringsNearer(s, e, k);
    k' :| && k' < |Q(ss[1])| && Q(ss[1])[k'] == Q(s)[k]
          && Wait(ss[1], k') + Ticks([e]) <= Wait(s, k);
    assert Ticks([e]) + Ticks(es[1..]) == Ticks(es);
  }

  lemma TailNotHeldUp(ss: seq<Sched>, es: seq<Event>, t: Tid)
    requires NotHeldUp(ss, es, t) && es != [] && ss[0].current != t
    ensures NotHeldUp(ss[1..], es[1..], t)
  {
    forall n | 0 <= n < |es[1..]| ensures FreeAt(ss[1..], es[1..], t, n) {
      assert FreeAt(ss, es, t, n + 1);
      if forall j | 0 <= j <= n :: ss[1..][j].current != t {
        assert forall j | 1 <= j <= n + 1 :: ss[j] == ss[1..][j - 1];
      }
    }
  }

  lemma TailRuns(ss: seq<Sched>, t: Tid)
    requires ss != [] && Runs(ss[1..], t)
    ensures Runs(ss, t)
  {
    var m :| 0 <= m < |ss[1..]| && ss[1..][m].current == t;
    assert ss[m + 1] == ss[1..][m];
  }

  lemma WaitsBehind(s: Sched, k: nat)
    requires k < |Q(s)| && s.current != Q(s)[k]
    ensures Wait(s, k) > 0
  {
  }

  lemma TailIsRun(ss: seq<Sched>, es: seq<Event>)
    requires IsRun(ss, es) && es != []
    ensures IsRun(ss[1..], es[1..])
    ensures forall n | 0 <= n < |es[1..]| :: es[1..][n] == es[n + 1] && ss[1..][n] == ss[n + 1]
  {
    assert StepAt(ss, es, 0);
    StepKeepsInv(ss[0], es[0]);
    forall n | 0 <= n < |es[1..]| ensures StepAt(ss[1..], es[1..], n) {
      assert StepAt(ss, es, n + 1);
    }
  }

  // ----- Resuming ---------------------------------------------------------------------------------

  /** The frame an event captures for task `t`: the one it is started with, or the interrupted one. */
  function Captured(s: Sched, e: Event, t: Tid): Option<Context> {
    match e
    case Enqueue(t', c) => if t' == t then Some(c) else None
    case Tick(frame, enabled) => if enabled && s.current == t && t != NULL then Some(frame) else None
    case _ => None
  }

  /** The frame last captured for task `t` in the first `n` events. */
  ghost function LastFrame(ss: seq<Sched>, es: seq<Event>, n: nat, t: Tid): Option<Context>
    requires |ss| == |es| + 1 && n <= |es|
  {
    if n == 0 then (if t in ss[0].tasks then Some(ss[0].tasks[t].context) else None)
    else if Captured(ss[n - 1], es[n - 1], t).Some? then Captured(ss[n - 1], es[n - 1], t)
    else LastFrame(ss, es, n - 1, t)
  }

  lemma ChooseTasks(s: Sched)
    ensures Choose(s).tasks == s.tasks || Choose(s).tasks == Demote(s, s.current).tasks
  {
    if Busy(s) || s.next != NULL {
      if s.gtq != [] {
        var s1 := if s.current != NULL then Put(s, s.current) else s;
        var s2 := if s1.next == NULL then AssignCurrent(s1) else CpuNext(s1);
        SlotTasks(s1);
        SlotTasks(s2);
      }
    } else {
      SlotTasks(s);
    }
  }

  lemma SlotTasks(s: Sched)
    ensures AssignCurrent(s).tasks == AssignNext(s).tasks == CpuNext(s).tasks == s.tasks
  {
  }

  lemma CycleKeepsContexts(s: Sched, t: Tid)
    requires t in Cycle(s).tasks
    ensures t in s.tasks && Cycle(s).tasks[t].context == s.tasks[t].context
  {
    ChooseTasks(Reap(s));
    DispatchContext(Choose(Reap(s)), t);
  }

  lemma DispatchContext(s: Sched, t: Tid)
    requires t in Dispatch(s).tasks
    ensures t in s.tasks && Dispatch(s).tasks[t].context == s.tasks[t].context
  {
  }

  lemma SavedContext(s: Sched, frame: Context, t: Tid)
    requires Inv(s) && t in s.tasks
    ensures t in Save(s, frame).tasks
    ensures Save(s, frame).tasks[t].context == if s.current == t then frame else s.tasks[t].context
  {
    if Busy(s) { CurrentOnce(s); }
  }

  lemma TickContext(s: Sched, frame: Context, t: Tid)
    requires Inv(s) && t in Cycle(Save(s, frame)).tasks
    ensures t in s.tasks && t != NULL
    ensures Cycle(Save(s, frame)).tasks[t].context == if s.current == t then frame else s.tasks[t].context
  {
    CycleKeepsContexts(Save(s, frame), t);
    SavedContext(s, frame, t);
    if t != s.idle { assert t in Q(s); assert Member(s, t); }
  }

  lemma StepContext(s: Sched, e: Event, t: Tid, s': Sched)
    requires Inv(s) && Legal(s, e) && s' == Step(s, e) && t in s'.tasks
    ensures match Captured(s, e, t)
            case Some(c) => s'.tasks[t].context == c
            case None => t in s.tasks && s'.tasks[t].context == s.tasks[t].context
  {
    if e.Tick? && e.enabled { TickContext(s, e.frame, t); }
  }

  /** What an event does to the context of task `t`, which is there after it. */
  ghost predicate ContextFollows(s: Sched, e: Event, t: Tid, s': Sched) {
    && t in s'.tasks
    && (Captured(s, e, t).Some? ==> s'.tasks[t].context == Captured(s, e, t).value)
    && (Captured(s, e, t).None? ==> t in s.tasks && s'.tasks[t].context == s.tasks[t].context)
  }

  lemma ContextStep(ss: seq<Sched>, es: seq<Event>, k: nat, t: Tid)
    requires IsRun(ss, es) && k < |es| && t in ss[k + 1].tasks
    ensures ContextFollows(ss[k], es[k], t, ss[k + 1])
  {
    RunKeepsInv(ss, es, k);
    assert StepAt(ss, es, k);
    StepContext(ss[k], es[k], t, ss[k + 1]);
  }

  /** Every task's context is always the frame last captured for it. */
  lemma {:induction false} ContextIsLastFrame(ss: seq<Sched>, es: seq<Event>, n: nat, t: Tid)
    requires IsRun(ss, es) && n <= |es| && t in ss[n].tasks
    ensures LastFrame(ss, es, n, t) == Some(ss[n].tasks[t].context)
    decreases n
  {
    if n > 0 {
      var k := n - 1;
      ContextStep(ss, es, k, t);
      if Captured(ss[k], es[k], t).None? { ContextIsLastFrame(ss, es, k, t); }
    }
  }

  lemma TickRuns(s: Sched, frame: Context, s': Sched)
    requires Inv(s) && s' == Cycle(Save(s, frame))
    ensures s'.current in s'.tasks
  {
    SaveKeeps(s, frame);
    CycleConserves(Save(s, frame));
  }

  lemma SwitchRuns(ss: seq<Sched>, es: seq<Event>, n: nat)
    requires IsRun(ss, es) && n < |es| && es[n].Tick? && es[n].enabled
    ensures ss[n + 1].current in ss[n + 1].tasks
  {
    assert StepAt(ss, es, n);
    RunKeepsInv(ss, es, n);
    TickRuns(ss[n], es[n].frame, ss[n + 1]);
  }

  /** Main result: a timer interrupt that switches resumes a task with exactly the frame captured at its
      last preemption, or the one it was started with; one that does not switch changes nothing. */
  lemma ResumesLastFrame(ss: seq<Sched>, es: seq<Event>, n: nat)
    requires IsRun(ss, es) && n < |es| && es[n].Tick?
    ensures !es[n].enabled ==> ss[n + 1] == ss[n]
    ensures es[n].enabled ==>
              && ss[n + 1].current in ss[n + 1].tasks
              && LastFrame(ss, es, n + 1, ss[n + 1].current) == Some(ss[n + 1].tasks[ss[n + 1].current].context)
  {
    if es[n].enabled {
      SwitchRuns(ss, es, n);
      ContextIsLastFrame(ss, es, n + 1, ss[n + 1].current);
    } else {
      assert StepAt(ss, es, n);
    }
  }

  // ----- The first resume -------------------------------------------------------------------------

  lemma StaysQueued(s: Sched, e: Event, t: Tid, s': Sched)
    requires Inv(s) && Legal(s, e) && s' == Step(s, e) && t in Q(s) && t != s.current
    ensures t in Q(s')
  {
    match e
    case Enqueue(x, c) => EnqueueKeeps(s, x, c);
    case Unlock(x) => SameButKeeps(s, s');
    case Terminate => TerminateKeeps(s);
    case Tick(frame, enabled) => if enabled { TickKeepsQueued(s, frame, t, s'); }
  }

  lemma TickKeepsQueued(s: Sched, frame: Context, t: Tid, s': Sched)
    requires Inv(s) && s' == Cycle(Save(s, frame)) && t in Q(s) && t != s.current
    ensures t in Q(s')
  {
    var r := Save(s, frame);
    SaveKeeps(s, frame);
    CycleConserves(r);
    StillThere(Q(r), Q(s'), r.current, t);
  }

  lemma StillThere(q: seq<Tid>, q': seq<Tid>, x: Tid, t: Tid)
    requires (multiset(q') == multiset(q) || multiset(q') == multiset(q) - multiset{x}) && t in q && t != x
    ensures t in q'
  {
    assert multiset(q')[t] == multiset(q)[t];
  }

  lemma QueuedNext(ss: seq<Sched>, es: seq<Event>, k: nat, t: Tid)
    requires IsRun(ss, es) && k < |es| && t in Q(ss[k]) && t != ss[k].current
    ensures t in Q(ss[k + 1]) && Captured(ss[k], es[k], t).None?
  {
    RunKeepsInv(ss, es, k);
    assert StepAt(ss, es, k);
    StaysQueued(ss[k], es[k], t, ss[k + 1]);
    TasksInQ(ss[k], t);
  }

  lemma QueuedFirst(ss: seq<Sched>, es: seq<Event>, m: nat, t: Tid, c: Context)
    requires IsRun(ss, es) && m < |es| && es[m] == Enqueue(t, c)
    ensures t in Q(ss[m + 1])
  {
    RunKeepsInv(ss, es, m);
    assert StepAt(ss, es, m);
    EnqueueKeeps(ss[m], t, c);
  }

  /** Task `t` is queued, and the last frame captured for it is `c`. */
  ghost predicate WaitsWith(ss: seq<Sched>, es: seq<Event>, n: nat, t: Tid, c: Context)
    requires |ss| == |es| + 1 && n <= |es|
  {
    t in Q(ss[n]) && LastFrame(ss, es, n, t) == Some(c)
  }

  lemma StartsWaiting(ss: seq<Sched>, es: seq<Event>, m: nat, t: Tid, c: Context)
    requires IsRun(ss, es) && m < |es| && es[m] == Enqueue(t, c)
    ensures WaitsWith(ss, es, m + 1, t, c)
  {
    QueuedFirst(ss, es, m, t, c);
  }

  lemma KeepsWaiting(ss: seq<Sched>, es: seq<Event>, k: nat, t: Tid, c: Context)
    requires IsRun(ss, es) && k < |es| && WaitsWith(ss, es, k, t, c) && t != ss[k].current
    ensures WaitsWith(ss, es, k + 1, t, c)
  {
    QueuedNext(ss, es, k, t);
  }

  /** Until it first runs, a started task keeps the frame it was started with. */
  lemma {:induction false} StartedFrame(ss: seq<Sched>, es: seq<Event>, m: nat, n: nat, t: Tid, c: Context)
    requires IsRun(ss, es) && m < n <= |es| && es[m] == Enqueue(t, c)
    requires forall i | m < i < n :: ss[i].current != t
    ensures WaitsWith(ss, es, n, t, c)
    decreases n
  {
    if n == m + 1 {
      StartsWaiting(ss, es, m, t, c);
    } else {
      StartedFrame(ss, es, m, n - 1, t, c);
      KeepsWaiting(ss, es, n - 1, t, c);
    }
  }

  /** Main result: a started task first runs at its entry point, on the stack and with the privilege it was
      started with, with interrupts enabled: code selector 0x30 and data selector 0x28 at level 3, or 0x18 and 0x20
      at level 0; the frame pointer is the base of the stack and every other register is zero. */
  lemma FirstResume(ss: seq<Sched>, es: seq<Event>, m: nat, n: nat, t: Tid, entry: int, sp: int, user: bool, simd: int)
    requires IsRun(ss, es) && m < n < |es| && es[m] == Enqueue(t, Context(InitRegisters(entry, sp, user), simd))
    requires (forall i | m < i <= n :: ss[i].current != t) && es[n].Tick? && es[n].enabled && ss[n + 1].current == t
    ensures t in ss[n + 1].tasks
    ensures var regs := ss[n + 1].tasks[t].context.regs;
      && regs.rip == entry && regs.rsp == sp && regs.rbp == PROCESS_STACK_BASE && regs.rflags == 0x202
      && regs.cs == (if user then 0x30 + 3 else 0x18) && regs.ss == (if user then 0x28 + 3 else 0x20)
      && regs.rax == regs.rbx == regs.rcx == regs.rdx == regs.rsi == regs.rdi == 0
      && regs.r8 == regs.r9 == regs.r10 == regs.r11 == regs.r12 == regs.r13 == regs.r14 == regs.r15 == 0
  {
    SwitchRuns(ss, es, n);
    StartedFrame(ss, es, m, n + 1, t, Context(InitRegisters(entry, sp, user), simd));
    ContextIsLastFrame(ss, es, n + 1, t);
  }

  // ----- Statuses ---------------------------------------------------------------------------------

  /** The choice makes ready the task it takes the CPU from, and no other. */
  lemma ChooseStatus(s: Sched, t: Tid)
    requires Mid(s) && t in s.tasks && t != Choose(s).current
    ensures t in Choose(s).tasks
    ensures Choose(s).tasks[t].status == if Busy(s) && t == s.current then Ready else s.tasks[t].status
  {
    if Busy(s) {
      CurrentOnce(s);
      BusyTasks(s);
    } else {
      ChooseTasks(s);
    }
  }

  lemma BusyTasks(s: Sched)
    requires Busy(s)
    ensures || Choose(s).tasks == Demote(s, s.current).tasks
            || (Choose(s).tasks == s.tasks && Choose(s).current == s.current)
  {
    if s.gtq == [] {
    } else {
      var s1 := Put(s, s.current);
      SlotTasks(s1);
      SlotTasks(if s1.next == NULL then AssignCurrent(s1) else CpuNext(s1));
    }
  }

  lemma DispatchStatus(s: Sched, t: Tid)
    requires t in s.tasks
    ensures t in Dispatch(s).tasks && (t != NULL && t == s.current ==> Dispatch(s).current == t)
    ensures Dispatch(s).tasks[t].status == if t == Dispatch(s).current then Running else s.tasks[t].status
  {
  }

  /** After a cycle the current task is running, the one it took the CPU from is ready, unless that is the idle
      task or a zombie, and every other task's status is as it was. */
  lemma CycleStatus(s: Sched, t: Tid, s': Sched)
    requires Inv(s) && s' == Cycle(s) && t in s.tasks && t in s'.tasks && t != NULL
    ensures s'.tasks[t].status == if t == s'.current then Running
                                  else if Busy(s) && t == s.current then Ready else s.tasks[t].status
  {
    var r := Reap(s);
    ReapKeeps(s);
    ChooseTasks(r);
    DispatchStatus(Choose(r), t);
    if t != s'.current { ChooseStatus(r, t); }
  }

  /** Main result: the status of a task after any event. */
  lemma StatusAfter(ss: seq<Sched>, es: seq<Event>, n: nat, t: Tid)
    requires IsRun(ss, es) && n < |es| && t in ss[n].tasks && t in ss[n + 1].tasks && t != NULL
    ensures var s, s' := ss[n], ss[n + 1];
      s'.tasks[t].status ==
        if es[n].Terminate? && t == s.current then Zombie
        else if !es[n].Tick? || !es[n].enabled then s.tasks[t].status
        else if t == s'.current then Running
        else if Busy(s) && t == s.current then Ready
        else s.tasks[t].status
  {
    RunKeepsInv(ss, es, n);
    assert StepAt(ss, es, n);
    if es[n].Tick? && es[n].enabled { TickStatus(ss[n], es[n].frame, t, ss[n + 1]); }
  }

  lemma TickStatus(s: Sched, frame: Context, t: Tid, s': Sched)
    requires Inv(s) && s' == Cycle(Save(s, frame)) && t in s.tasks && t in s'.tasks && t != NULL
    ensures s'.tasks[t].status == if t == s'.current then Running
                                  else if Busy(s) && t == s.current then Ready else s.tasks[t].status
  {
    SaveKeeps(s, frame);
    CycleStatus(Save(s, frame), t, s');
  }

  /** Main result: a task that has run is never again one that has not. */
  lemma {:induction false} NeverNewAgain(ss: seq<Sched>, es: seq<Event>, m: nat, n: nat, t: Tid)
    requires IsRun(ss, es) && m <= n <= |es| && ss[m].current == t && t != NULL
    requires forall i | m <= i <= n :: t in ss[i].tasks
    ensures !NeverRun(ss[n].tasks[t].status)
    decreases n
  {
    if n == m {
      RunKeepsInv(ss, es, n);
    } else {
      NeverNewAgain(ss, es, m, n - 1, t);
      StatusAfter(ss, es, n - 1, t);
    }
  }

  // ----- Locks ------------------------------------------------------------------------------------

  /** The lock of a task is changed by nothing but its own release. */
  lemma StepLock(s: Sched, e: Event, t: Tid, s': Sched)
    requires Inv(s) && Legal(s, e) && s' == Step(s, e) && t in s.tasks && t in s'.tasks
    ensures s'.tasks[t].locked == (s.tasks[t].locked && e != Unlock(t))
  {
    if e.Tick? && e.enabled { CycleLock(Save(s, e.frame), t); }
  }

  lemma CycleLock(s: Sched, t: Tid)
    requires t in s.tasks && t in Cycle(s).tasks
    ensures Cycle(s).tasks[t].locked == s.tasks[t].locked
  {
    CycleKeepsContexts(s, t);
    ChooseTasks(Reap(s));
    DispatchContext(Choose(Reap(s)), t);
    DispatchLock(Choose(Reap(s)), t);
  }

  lemma DispatchLock(s: Sched, t: Tid)
    requires t in s.tasks && t in Dispatch(s).tasks
    ensures Dispatch(s).tasks[t].locked == s.tasks[t].locked
  {
  }

  /** Task `t` waits, and its lock is held exactly if `locked`. */
  ghost predicate WaitsLocked(s: Sched, t: Tid, locked: bool) {
    t in Q(s) && t in s.tasks && s.tasks[t].locked == locked
  }

  lemma WaitsOn(ss: seq<Sched>, es: seq<Event>, k: nat, t: Tid, locked: bool)
    requires IsRun(ss, es) && k < |es| && WaitsLocked(ss[k], t, locked) && t != ss[k].current
    ensures WaitsLocked(ss[k + 1], t, locked && es[k] != Unlock(t))
  {
    QueuedNext(ss, es, k, t);
    RunKeepsInv(ss, es, k);
    RunKeepsInv(ss, es, k + 1);
    TasksInQ(ss[k + 1], t);
    assert StepAt(ss, es, k);
    StepLock(ss[k], es[k], t, ss[k + 1]);
  }

  /** A started task waits, locked, until it is unlocked. */
  lemma {:induction false} LockedUntil(ss: seq<Sched>, es: seq<Event>, a: nat, n: nat, t: Tid)
    requires IsRun(ss, es) && a < n <= |es| && es[a].Enqueue? && es[a].tid == t
    requires forall i | a < i < n :: es[i] != Unlock(t)
    ensures WaitsLocked(ss[n], t, true)
    decreases n
  {
    if n == a + 1 {
      StartsLocked(ss, es, a, t);
    } else {
      LockedUntil(ss, es, a, n - 1, t);
      LockedOn(ss, es, n - 1, t);
    }
  }

  lemma StartsLocked(ss: seq<Sched>, es: seq<Event>, a: nat, t: Tid)
    requires IsRun(ss, es) && a < |es| && es[a].Enqueue? && es[a].tid == t
    ensures WaitsLocked(ss[a + 1], t, true)
  {
    RunKeepsInv(ss, es, a);
    assert StepAt(ss, es, a);
    EnqueueQ(ss[a], t, es[a].context);
  }

  lemma LockedOn(ss: seq<Sched>, es: seq<Event>, k: nat, t: Tid)
    requires IsRun(ss, es) && k < |es| && WaitsLocked(ss[k], t, true)
    ensures WaitsLocked(ss[k + 1], t, es[k] != Unlock(t))
  {
    RunKeepsInv(ss, es, k);
    LockedIsNotRunning(ss[k], t);
    WaitsOn(ss, es, k, t, true);
  }

  lemma LockedIsNotRunning(s: Sched, t: Tid)
    requires Inv(s) && WaitsLocked(s, t, true)
    ensures t != s.current
  {
    TasksInQ(s, t);
  }

  lemma {:induction false} UnlockedOn(ss: seq<Sched>, es: seq<Event>, m: nat, n: nat, t: Tid)
    requires IsRun(ss, es) && m <= n <= |es| && WaitsLocked(ss[m], t, false)
    requires forall i | m <= i < n :: ss[i].current != t
    ensures WaitsLocked(ss[n], t, false)
    decreases n
  {
    if n > m {
      UnlockedOn(ss, es, m, n - 1, t);
      WaitsOn(ss, es, n - 1, t, false);
    }
  }

  lemma {:induction false} SuffixIsRun(ss: seq<Sched>, es: seq<Event>, m: nat)
    requires IsRun(ss, es) && m <= |es|
    ensures IsRun(ss[m..], es[m..])
  {
    RunKeepsInv(ss, es, m);
    forall n | 0 <= n < |es[m..]| ensures StepAt(ss[m..], es[m..], n) {
      assert StepAt(ss, es, m + n);
    }
  }

  /** Main result: a started task runs, whatever else happens: once its start has released its lock, within as
      many cycles as there are tasks waiting, itself included. */
  lemma StartedRuns(ss: seq<Sched>, es: seq<Event>, a: nat, u: nat, t: Tid)
    requires IsRun(ss, es) && a < u < |es| && es[a].Enqueue? && es[a].tid == t && es[u] == Unlock(t)
    requires (forall i | a < i < u :: es[i] != Unlock(t)) && Ticks(es[u + 1..]) >= |Q(ss[u + 1])|
    ensures exists m | u < m < |ss| :: ss[m].current == t
  {
    LockedUntil(ss, es, a, u, t);
    LockedOn(ss, es, u, t);
    RunsFrom(ss, es, u + 1, t);
  }

  lemma RunsFrom(ss: seq<Sched>, es: seq<Event>, m: nat, t: Tid)
    requires IsRun(ss, es) && m <= |es| && WaitsLocked(ss[m], t, false) && Ticks(es[m..]) >= |Q(ss[m])|
    ensures exists n | m <= n < |ss| :: ss[n].current == t
  {
    var k :| 0 <= k < |Q(ss[m])| && Q(ss[m])[k] == t;
    var ss', es' := ss[m..], es[m..];
    SuffixIsRun(ss, es, m);
    forall n | 0 <= n < |es'| ensures FreeAt(ss', es', t, n) {
      if forall j | 0 <= j <= n :: ss'[j].current != t {
        assert forall j | m <= j <= m + n :: ss[j] == ss'[j - m];
        UnlockedOn(ss, es, m, m + n, t);
      }
    }
    WaitIsBounded(ss', es', k);
    var n :| 0 <= n < |ss'| && ss'[n].current == t;
    assert ss[m + n] == ss'[n];
  }

  // ----- Zombies ----------------------------------------------------------------------------------

  lemma StepAddsNobody(s: Sched, e: Event, t: Tid)
    requires Inv(s) && Legal(s, e) && t !in s.tasks && !(e.Enqueue? && e.tid == t)
    ensures t !in Step(s, e).tasks
  {
    if e.Tick? && e.enabled && t in Step(s, e).tasks { CycleKeepsContexts(Save(s, e.frame), t); }
  }

  /** Until the next cycle a terminated task stays where it is. */
  lemma {:induction false} ZombieStays(ss: seq<Sched>, es: seq<Event>, n: nat, m: nat)
    requires IsRun(ss, es) && n < m <= |es| && es[n] == Terminate
    requires forall i | n < i < m :: !(es[i].Tick? && es[i].enabled)
    ensures RunsZombie(ss[m], ss[n].current)
    decreases m
  {
    RunKeepsInv(ss, es, m - 1);
    assert StepAt(ss, es, m - 1);
    if m > n + 1 {
      ZombieStays(ss, es, n, m - 1);
      QuietKeepsZombie(ss[m - 1], es[m - 1], ss[m], ss[n].current);
    } else {
      TerminateMakesZombie(ss[n], ss[m]);
    }
  }

  ghost predicate RunsZombie(s: Sched, z: Tid) {
    s.current == z && Busy(s) && z in s.tasks && s.tasks[z].status == Zombie
  }

  lemma TerminateMakesZombie(s: Sched, s': Sched)
    requires Inv(s) && Legal(s, Terminate) && s' == Step(s, Terminate)
    ensures RunsZombie(s', s.current)
  {
  }

  lemma QuietKeepsZombie(s: Sched, e: Event, s': Sched, z: Tid)
    requires Legal(s, e) && s' == Step(s, e) && !(e.Tick? && e.enabled) && RunsZombie(s, z)
    ensures RunsZombie(s', z)
  {
  }

  /** Main result: a task that terminates is gone after the next cycle and never runs again, unless a new task is
      started at the same address. */
  lemma TerminatedNeverReturns(ss: seq<Sched>, es: seq<Event>, n: nat, k: nat, m: nat)
    requires IsRun(ss, es) && n < k < m < |ss| && es[n] == Terminate && es[k].Tick? && es[k].enabled
    requires forall i | n < i < k :: !(es[i].Tick? && es[i].enabled)
    requires forall i | k < i < m :: !(es[i].Enqueue? && es[i].tid == ss[n].current)
    ensures ss[n].current !in ss[m].tasks && ss[m].current != ss[n].current && ss[n].current !in Q(ss[m])
  {
    ZombieStays(ss, es, n, k);
    ZombieNeverReturns(ss, es, k, m);
  }

  /** A zombie that is running when a cycle happens is gone after it. */
  lemma ZombieNeverReturns(ss: seq<Sched>, es: seq<Event>, n: nat, m: nat)
    requires IsRun(ss, es) && n < m < |ss|
    requires Busy(ss[n]) && ss[n].current in ss[n].tasks && ss[n].tasks[ss[n].current].status == Zombie
    requires es[n].Tick? && es[n].enabled
    requires forall i | n < i < m :: !(es[i].Enqueue? && es[i].tid == ss[n].current)
    ensures ss[n].current !in ss[m].tasks && ss[m].current != ss[n].current && ss[n].current !in Q(ss[m])
  {
    ZombieIsGone(ss, es, n, m, ss[n].current);
    RunKeepsInv(ss, es, m);
    GoneFromEverywhere(ss[m], ss[n].current);
  }

  lemma {:induction false} ZombieIsGone(ss: seq<Sched>, es: seq<Event>, n: nat, m: nat, z: Tid)
    requires IsRun(ss, es) && n < m < |ss| && z == ss[n].current
    requires Busy(ss[n]) && z in ss[n].tasks && ss[n].tasks[z].status == Zombie
    requires es[n].Tick? && es[n].enabled
    requires forall i | n < i < m :: !(es[i].Enqueue? && es[i].tid == z)
    ensures z !in ss[m].tasks
    decreases m
  {
    if m == n + 1 {
      RunKeepsInv(ss, es, n);
      assert StepAt(ss, es, n);
      GoneNext(ss[n], es[n], ss[m]);
    } else {
      ZombieIsGone(ss, es, n, m - 1, z);
      OneMoreStep(ss, es, m - 1, z);
    }
  }

  lemma OneMoreStep(ss: seq<Sched>, es: seq<Event>, n: nat, z: Tid)
    requires IsRun(ss, es) && n < |es| && z !in ss[n].tasks && !(es[n].Enqueue? && es[n].tid == z)
    ensures z !in ss[n + 1].tasks
  {
    RunKeepsInv(ss, es, n);
    assert StepAt(ss, es, n);
    StaysGone(ss[n], es[n], z, ss[n + 1]);
  }

  lemma GoneNext(s: Sched, e: Event, s': Sched)
    requires Inv(s) && e.Tick? && e.enabled && s' == Step(s, e)
    requires Busy(s) && s.tasks[s.current].status == Zombie
    ensures s.current !in s'.tasks
  {
    ZombieReaped(s, e.frame);
  }

  lemma StaysGone(s: Sched, e: Event, z: Tid, s': Sched)
    requires Inv(s) && Legal(s, e) && s' == Step(s, e)
    requires z !in s.tasks && !(e.Enqueue? && e.tid == z)
    ensures z !in s'.tasks
  {
    StepAddsNobody(s, e, z);
  }

  lemma ZombieReaped(s: Sched, frame: Context)
    requires Inv(s) && Busy(s) && s.tasks[s.current].status == Zombie
    ensures s.current !in Cycle(Save(s, frame)).tasks
  {
    var r := Reap(Save(s, frame));
    assert s.current !in r.tasks;
    ChooseTasks(r);
    if s.current in Cycle(Save(s, frame)).tasks { DispatchContext(Choose(r), s.current); }
  }

  lemma GoneFromEverywhere(s: Sched, z: Tid)
    requires Inv(s) && z !in s.tasks && z != NULL
    ensures s.current != z && z !in Q(s)
  {
    TasksInQ(s, z);
  }
}
