/**
  The scheduler and the timer interrupt as they run: the CPU's task slots, the global task queue and
  the task records are fields, updated in place; the queue is a linked list. Each method is proved against
  `RoundRobin` and `TaskRuns`.
 */
module Scheduler {
  import opened Contexts
  import opened RoundRobin
  import opened TaskRuns
  import L = LinkedList

  lemma CurrentExists(s: Sched)
    requires Inv(s)
    ensures s.current != NULL ==> s.current in s.tasks
  {
  }

  lemma ReapThenChoose(s: Sched, r: Sched)
    requires Inv(s) && r == Reap(s)
    ensures Choosable(r)
    ensures r.idle in Choose(r).tasks && Choose(r).idle == r.idle
    ensures Choose(r).current != NULL ==> Choose(r).current in Choose(r).tasks
  {
    ReapKeeps(s);
    ChooseKeeps(r);
    ChosenExists(Choose(r));
    ChooseIdleSame(r);
    MidSound(r);
  }

  lemma ChooseIdleSame(s: Sched)
    ensures Choose(s).idle == s.idle
  {
  }

  lemma ChosenExists(c: Sched)
    requires Chosen(c)
    ensures c.idle in c.tasks && (c.current != NULL ==> c.current in c.tasks)
  {
  }

  lemma Switched(s: Sched, frame: Context, s': Sched)
    requires Inv(s) && s' == Cycle(Save(s, frame))
    ensures Inv(s') && s'.current in s'.tasks
    ensures Handled(s, frame, true, s', s'.tasks[s'.current].context)
  {
    TickKeepsInv(s, frame, s');
    TickRuns(s, frame, s');
    TickIsHandled(s, frame, s');
  }

  lemma TickIsHandled(s: Sched, frame: Context, s': Sched)
    requires s' == Cycle(Save(s, frame)) && s'.current in s'.tasks
    ensures Handled(s, frame, true, s', s'.tasks[s'.current].context)
  {
  }

  lemma TickKeepsInv(s: Sched, frame: Context, s': Sched)
    requires Inv(s) && s' == Cycle(Save(s, frame))
    ensures Inv(s')
  {
    SaveKeeps(s, frame);
    CycleSteps(Save(s, frame));
  }

  /** What a timer interrupt does to the scheduler, and the frame it returns to: unless it is enabled,
      nothing; otherwise the running task's stored frame after the cycle. */
  ghost predicate Handled(s: Sched, stack: Context, enabled: bool, s': Sched, stack': Context) {
    && s' == Step(s, Tick(stack, enabled))
    && (if enabled then s'.current in s'.tasks && stack' == s'.tasks[s'.current].context else stack' == stack)
  }

  lemma Unhandled(s: Sched, stack: Context, enabled: bool)
    requires !enabled
    ensures Handled(s, stack, enabled, s, stack)
  {
  }

  // ----- What the choice of a task relies on -------------------------------------------------------

  ghost predicate Queued(s: Sched) { forall t | t in s.gtq :: t in s.tasks && t != NULL }

  ghost predicate Available(s: Sched, t: Tid) { t in s.tasks && !s.tasks[t].locked }

  /** The state of the busy branch after the running task has gone to the end of the queue. */
  function PutBack(s: Sched): Sched { if s.current != NULL then Put(s, s.current) else s }

  /** And after the current slot has been filled again. */
  function Filled(s: Sched): Sched { if s.next == NULL then AssignCurrent(s) else CpuNext(s) }

  ghost predicate IsBusyBranch(s: Sched) { (Busy(s) || s.next != NULL) && s.gtq != [] }

  ghost predicate BusySound(s: Sched) {
    && (s.current != NULL ==> s.current in s.tasks) && (s.next != NULL ==> Available(PutBack(s), s.next))
    && Queued(PutBack(s)) && Queued(Filled(PutBack(s)))
  }

  /** Every task the choice looks at is there, and whoever it locks is not locked. */
  ghost predicate Choosable(s: Sched) {
    && Queued(s) && (s.next != NULL ==> Available(s, s.next))
    && (s.next != NULL && s.current != NULL ==> Available(s, s.current))
    && (IsBusyBranch(s) ==> BusySound(s))
  }

  lemma BusyIsSound(s: Sched)
    requires Mid(s) && IsBusyBranch(s)
    ensures BusySound(s)
  {
    if s.current != NULL {
      var r := Requeue(s);
      RequeueSound(s, r);
      PutBackSound(s, PutBack(s), r);
    } else {
      FilledSound(s);
    }
  }

  lemma PutBackSound(s: Sched, p: Sched, r: Sched)
    requires Placed(r) && Behind(r) && !Busy(r) && r == p.(current := NULL) && p.next == s.next
    ensures Queued(p) && Queued(Filled(p)) && (s.next != NULL ==> Available(p, s.next))
  {
    FilledSound(r);
    assert Filled(p) == Filled(r);
  }

  lemma FilledSound(r: Sched)
    requires Placed(r) && Behind(r) && !Busy(r)
    ensures Queued(r) && Queued(Filled(r)) && (r.next != NULL ==> Available(r, r.next))
  {
    Behinders(r);
    if r.next == NULL { AssignCurrentKeeps(r); } else { CpuNextKeeps(r); }
    Behinders(Filled(r));
  }

  lemma MidSound(s: Sched)
    requires Mid(s)
    ensures Choosable(s)
  {
    Behinders(s);
    if IsBusyBranch(s) { BusyIsSound(s); }
  }

  /** A new task enters the queue locked, and its lock is released. */
  ghost function Started(s: Sched, t: Tid, c: Context): Sched { Step(Step(s, Enqueue(t, c)), Unlock(t)) }

  lemma StartKeeps(s: Sched, t: Tid, c: Context)
    requires Inv(s) && t != NULL && t !in s.tasks
    ensures Inv(Started(s, t, c))
  {
    StepKeepsInv(s, Enqueue(t, c));
    StepKeepsInv(Step(s, Enqueue(t, c)), Unlock(t));
  }

  function IdleContext(entry: int, simd: int): Context {
    Context(InitRegisters(entry, PROCESS_STACK_BASE + PROCESS_STACK_SIZE, false), simd)
  }

  /** The global task queue: a linked list, and the tasks it holds in order. */
  class TaskQueue {
    var list: L.Node?<Tid>
    ghost var nodes: L.Nodes<Tid>
    ghost var tids: seq<Tid>

    ghost predicate Valid()
      reads this, nodes
    {
      L.IsList(list, nodes) && L.Contents(nodes) == tids
    }

    /** Every node was in the list before or is new. */
    twostate predicate SameNodes()
      reads this
    {
      forall i | 0 <= i < |nodes| :: nodes[i] in old(nodes) || fresh(nodes[i])
    }

    constructor ()
      ensures Valid() && tids == [] && nodes == []
    {
      list, nodes, tids := null, [], [];
    }

    /** The loop and the removal of queue_assign. */
    method Assign(tasks: map<Tid, Task>) returns (t: Tid)
      requires Valid() && forall x | x in tids :: x in tasks && x != NULL
      modifies this, nodes
      ensures Valid() && forall i | 0 <= i < |nodes| :: nodes[i] in old(nodes)
      ensures var k := FirstAssignable(tasks, old(tids), 0);
              if k < |old(tids)| then t == old(tids)[k] && tids == L.Removed(old(tids), k)
              else t == NULL && tids == old(tids)
    {
      var p, k := list, 0;
      t := NULL;
      while p != null
        invariant 0 <= k <= |nodes| && p == L.At(nodes, k) && t == NULL
        invariant FirstAssignable(tasks, tids, k) == FirstAssignable(tasks, tids, 0)
        decreases |nodes| - k
      {
        assert L.LinkedAt(nodes, k) && tids[k] == p.data;
        if !tasks[p.data].locked && Runnable(tasks[p.data].status) {
          t := p.data;
          break;
        }
        p, k := p.next, k + 1;
      }
      if t == NULL { return; }
      list, nodes := L.DeleteAt(list, k, nodes);
      tids := L.Removed(tids, k);
    }

    method Append(t: Tid)
      requires Valid()
      modifies this, nodes
      ensures Valid() && SameNodes() && tids == old(tids) + [t]
    {
      list, nodes := L.Append(list, t, nodes);
      tids := tids + [t];
    }
  }

  class Cpu {
    var current: Tid
    var next: Tid
    const gtq: TaskQueue
    const idle: Tid
    var tasks: map<Tid, Task>
    var ready: bool
    var isSwitching: bool    // each lock: true when held
    var heapLock: bool
    var vmmLock: bool
    const spaceOf: Tid -> int    // the page table of each task's address space
    var pageTable: int           // the one in use

    ghost function State(): Sched
      reads this, gtq
    {
      Sched(current, next, gtq.tids, idle, tasks)
    }

    ghost predicate Valid()
      reads this, gtq, gtq.nodes
    {
      gtq.Valid() && Inv(State())
    }

    constructor (idle: Tid, entry: int, simd: int, spaceOf: Tid -> int, pageTable: int)
      requires idle != NULL
      ensures Valid() && current == NULL && Q(State()) == [] && gtq.nodes == [] && this.idle == idle
      ensures tasks == map[idle := Task(New, false, IdleContext(entry, simd))]
      ensures var regs := tasks[idle].context.regs;
        regs.rip == entry && regs.rsp == 0x800_0000_4000 && regs.cs == 0x18 && regs.ss == 0x20 && regs.rflags == 0x202
      ensures fresh(gtq) && ready && !isSwitching && !heapLock && !vmmLock
      ensures this.spaceOf == spaceOf && this.pageTable == pageTable
    {
      this.idle, this.spaceOf, this.pageTable := idle, spaceOf, pageTable;
      gtq := new TaskQueue();
      current, next := NULL, NULL;
      tasks := map[idle := Task(New, false, IdleContext(entry, simd))];
      ready, isSwitching, heapLock, vmmLock := true, false, false, false;
    }

    /** queue_assign: the first unlocked runnable task, taken out of the queue. */
    method QueueAssign() returns (t: Tid)
      requires gtq.Valid() && Queued(State())
      modifies gtq, gtq.nodes
      ensures gtq.Valid() && forall i | 0 <= i < |gtq.nodes| :: gtq.nodes[i] in old(gtq.nodes)
      ensures t == Assigned(old(State())) && State() == Without(old(State()))
    {
      t := gtq.Assign(tasks);
    }

    method QueuePut(t: Tid)
      requires gtq.Valid() && t in tasks
      modifies this`tasks, gtq, gtq.nodes
      ensures gtq.Valid() && gtq.SameNodes() && State() == Put(old(State()), t)
    {
      if tasks[t].status == Running { tasks := tasks[t := tasks[t].(status := Ready)]; }
      gtq.Append(t);
    }

    method SwapTask()
      requires current in tasks && next in tasks && !tasks[current].locked && !tasks[next].locked
      modifies this`current, this`next, this`tasks
      ensures State() == Swap(old(State()))
    {
      if tasks[current].status == Running { tasks := tasks[current := tasks[current].(status := Ready)]; }
      current, next := next, current;
    }

    method NextTask()
      requires next in tasks && !tasks[next].locked
      modifies this`current, this`next
      ensures State() == CpuNext(old(State()))
    {
      current, next := next, NULL;
    }

    /** The middle of sched_cycle: who runs next, and who is held to run after that. */
    method ChooseTask()
      requires gtq.Valid() && Choosable(State())
      modifies this`current, this`next, this`tasks, gtq, gtq.nodes
      ensures gtq.Valid() && gtq.SameNodes() && State() == Choose(old(State()))
    {
      if (current == NULL || current == idle) && next == NULL {
        if gtq.list != null { current := QueueAssign(); }
      } else if gtq.list == null {
        if next != NULL {
          if current == NULL { NextTask(); } else { SwapTask(); }
        }
      } else {
        ChooseBusy();
      }
    }

    /** The CPU is busy and the queue has something pending. */
    method ChooseBusy()
      requires gtq.Valid() && BusySound(State())
      modifies this`current, this`next, this`tasks, gtq, gtq.nodes
      ensures gtq.Valid() && gtq.SameNodes() && State() == AssignNext(Filled(PutBack(old(State()))))
    {
      if current != NULL { QueuePut(current); }
      TakeNext();
    }

    /** The end of the busy branch: fill the current slot, then the next one. */
    method TakeNext()
      requires gtq.Valid() && Queued(State()) && Queued(Filled(State())) && (next != NULL ==> Available(State(), next))
      modifies this`current, this`next, gtq, gtq.nodes
      ensures gtq.Valid() && gtq.SameNodes() && State() == AssignNext(Filled(old(State())))
    {
      if next == NULL {
        current := QueueAssign();
      } else {
        NextTask();
      }
      next := QueueAssign();
    }

    /** A zombie in the current slot is destroyed. */
    method ReapZombie()
      requires current != NULL ==> current in tasks
      modifies this`current, this`tasks
      ensures State() == Reap(old(State()))
    {
      if current != NULL {
        if tasks[current].status == Zombie {
          tasks := tasks - {current};
          current := NULL;
        }
      }
    }

    /** An empty current slot gets the idle task; whoever is there runs. */
    method DispatchTask()
      requires idle in tasks && (current != NULL ==> current in tasks)
      modifies this`current, this`tasks
      ensures State() == Dispatch(old(State()))
    {
      if current == NULL { current := idle; }
      tasks := tasks[current := tasks[current].(status := Running)];
    }

    method SchedCycle()
      requires Valid()
      modifies this`current, this`next, this`tasks, gtq, gtq.nodes
      ensures gtq.Valid() && gtq.SameNodes() && State() == Cycle(old(State()))
    {
      ghost var s := State();
      CurrentExists(s);
      ReapZombie();
      ReapThenChoose(s, State());
      ChooseTask();
      DispatchTask();
    }

    /** The task joins the queue locked, and is unlocked. */
    method Start(task: Tid, c: Context)
      requires gtq.Valid() && task !in tasks
      modifies this`tasks, gtq, gtq.nodes
      ensures gtq.Valid() && gtq.SameNodes() && State() == Started(old(State()), task, c)
    {
      tasks := tasks[task := Task(New, true, c)];
      QueuePut(task);
      tasks := tasks[task := tasks[task].(locked := false)];
    }

    /** sched_start. `task` is an address no other task has. */
    method SchedStart(task: Tid, entry: int, user: bool, simd: int)
      requires Valid() && task != NULL && task !in tasks
      modifies this`tasks, gtq, gtq.nodes
      ensures Valid() && gtq.SameNodes()
      ensures var sp := PROCESS_STACK_BASE + PROCESS_STACK_SIZE - 8;
              State() == Started(old(State()), task, Context(InitRegisters(entry, sp, user), simd))
      ensures current == old(current) && next == old(next) && gtq.tids == old(gtq.tids) + [task]
      ensures task in tasks && tasks[task].status == New && !tasks[task].locked
      ensures tasks[task].context.regs.rip == entry && tasks[task].context.regs.rsp == 0x800_0000_3ff8
      ensures forall t | t in old(tasks) :: t in tasks && tasks[t] == old(tasks)[t]
    {
      var c := Context(InitRegisters(entry, PROCESS_STACK_BASE + PROCESS_STACK_SIZE - 8, user), simd);
      StartKeeps(State(), task, c);
      Start(task, c);
    }

    method SchedTerminate()
      requires Valid() && current != NULL && current != idle
      modifies this`tasks
      ensures Valid() && State() == Step(old(State()), Terminate)
      ensures tasks == old(tasks)[current := old(tasks)[current].(status := Zombie)]
    {
      StepKeepsInv(State(), Terminate);
      tasks := tasks[current := tasks[current].(status := Zombie)];
    }

    method ContextSave(stack: Context)
      requires current != NULL ==> current in tasks
      modifies this`tasks
      ensures State() == Save(old(State()), stack)
    {
      if current != NULL && !NeverRun(tasks[current].status) {
        tasks := tasks[current := tasks[current].(context := stack)];
      }
    }

    /** Save, cycle, load. */
    method Switch(stack: Context, ghost enabled: bool) returns (stack': Context)
      requires Valid() && enabled
      modifies this`current, this`next, this`tasks, gtq, gtq.nodes
      ensures Valid() && gtq.SameNodes() && Handled(old(State()), stack, enabled, State(), stack')
    {
      ghost var s := State();
      CurrentExists(s);
      ContextSave(stack);
      SaveKeeps(s, stack);
      SchedCycle();
      Switched(s, stack, State());
      stack' := tasks[current].context;
    }

    /** And then the address space of the task that runs now. */
    method SwitchSpace(stack: Context, ghost enabled: bool) returns (stack': Context)
      requires Valid() && enabled
      modifies this`current, this`next, this`tasks, this`pageTable, gtq, gtq.nodes
      ensures Valid() && gtq.SameNodes() && Handled(old(State()), stack, enabled, State(), stack')
      ensures pageTable == spaceOf(current)
    {
      stack' := Switch(stack, enabled);
      ghost var s := State();
      pageTable := spaceOf(current);
      assert State() == s;
    }

    method SwitchIfUnlocked(stack: Context, ghost enabled: bool) returns (stack': Context)
      requires Valid() && enabled == (!heapLock && !vmmLock)
      modifies this`current, this`next, this`tasks, this`pageTable, gtq, gtq.nodes
      ensures Valid() && gtq.SameNodes() && Handled(old(State()), stack, enabled, State(), stack')
      ensures pageTable == if enabled then spaceOf(current) else old(pageTable)
    {
      if !heapLock && !vmmLock {
        stack' := SwitchSpace(stack, enabled);
      } else {
        stack' := stack;
        Unhandled(State(), stack, enabled);
      }
    }

    /** The same under the switching lock. */
    method SwitchLocked(stack: Context, ghost enabled: bool) returns (stack': Context)
      requires Valid() && !isSwitching && enabled == (!heapLock && !vmmLock)
      modifies this`current, this`next, this`tasks, this`isSwitching
      modifies this`pageTable, gtq, gtq.nodes
      ensures Valid() && gtq.SameNodes() && !isSwitching && Handled(old(State()), stack, enabled, State(), stack')
      ensures pageTable == if enabled then spaceOf(current) else old(pageTable)
    {
      isSwitching := true;
      stack' := SwitchIfUnlocked(stack, enabled);
      isSwitching := false;
    }

    predicate Enabled(stack: Context)
      reads this
    {
      stack.regs.irq == 32 && ready && !isSwitching && !heapLock && !vmmLock
    }

    /** The timer branch of interrupt_handler; `stack` is the interrupted frame, `stack'` the one
        returned to, in the address space of the task it belongs to. */
    method InterruptHandler(stack: Context) returns (stack': Context)
      requires Valid()
      modifies this`current, this`next, this`tasks, this`isSwitching
      modifies this`pageTable, gtq, gtq.nodes
      ensures Valid() && gtq.SameNodes() && isSwitching == old(isSwitching)
      ensures pageTable == if old(Enabled(stack)) then spaceOf(current) else old(pageTable)
      ensures Handled(old(State()), stack, old(Enabled(stack)), State(), stack')
    {
      ghost var enabled := Enabled(stack);
      if !enabled { Unhandled(State(), stack, enabled); }
      stack' := stack;
      if stack.regs.irq == APIC_TIMER_IRQ {
        if ready {
          if !isSwitching {
            stack' := SwitchLocked(stack, enabled);
          }
        }
      }
    }
  }
}
