/** The run queue of one core as the kernel keeps it: fields that each operation updates in place. */
module TaskManagerModel {
  import opened Basics
  import opened RunQueue
  import opened RunQueueInv
  import opened RunQueueTheorems

  class TaskManager {
    var tasks: map<TaskId, Task>
    var fifo: seq<TaskId>
    var rr: seq<TaskId>
    var idleSlot: Option<TaskId>
    var sleeping: multiset<TaskId>
    var blocked: map<ResourceId, seq<TaskId>>
    var localTick: nat
    var totalSchedules: nat
    var running: TaskId
    var idle: TaskId
    const hz: nat

    function View(): State
      reads this
    {
      State(tasks, fifo, rr, idleSlot, sleeping, blocked, localTick, totalSchedules, running, idle)
    }

    ghost predicate Valid()
      reads this
    {
      running in tasks && idle in tasks && Inv(View())
    }

    /** `InitCurrentCore`: a ready idle task in the Idle scheduler, named as the running task. */
    constructor (idleTask: TaskId, sliceDefault: nat, hz: nat)
      ensures Init(View()) && Valid() && this.hz == hz
    {
      tasks := map[idleTask := Task(Ready, IdlePolicy, 0, 0, sliceDefault, sliceDefault, 0, 0)];
      fifo, rr, idleSlot := [], [], Some(idleTask);
      sleeping, blocked := multiset{}, map[];
      localTick, totalSchedules := 0, 0;
      running, idle := idleTask, idleTask;
      this.hz := hz;
      new;
      InitInv(View());
    }

    method Enqueue(p: TaskId)
      requires p in tasks
      modifies this
      ensures View() == RunQueue.Enqueue(old(View()), p)
    {
      match tasks[p].policy
      case RealTime => fifo := fifo + [p];
      case Normal =>
        tasks := tasks[p := tasks[p].(sliceRemaining := tasks[p].sliceDefault)];
        rr := rr + [p];
      case IdlePolicy => idleSlot := Some(p);
    }

    method Dequeue(p: TaskId)
      requires p in tasks
      modifies this
      ensures View() == RunQueue.Dequeue(old(View()), p)
    {
      match tasks[p].policy
      case RealTime => fifo := WithoutAll(fifo, p);
      case Normal => rr := WithoutFirst(rr, p);
      case IdlePolicy =>
        if idleSlot == Some(p) {
          idleSlot := None;
        }
    }

    /** `list::remove`, which the FIFO scheduler uses. */
    static method WithoutAll(q: seq<TaskId>, p: TaskId) returns (r: seq<TaskId>)
      ensures r == RemoveAll(q, p)
    {
      r := [];
      var i := 0;
      while i < |q|
        invariant 0 <= i <= |q|
        invariant r + RemoveAll(q[i..], p) == RemoveAll(q, p)
      {
        assert q[i..][1..] == q[i + 1..];
        if q[i] != p {
          r := r + [q[i]];
        }
        i := i + 1;
      }
    }

    /** The scan of the round-robin scheduler, which stops at the first hit. */
    static method WithoutFirst(q: seq<TaskId>, p: TaskId) returns (r: seq<TaskId>)
      ensures r == RemoveFirst(q, p)
    {
      var i := 0;
      while i < |q| && q[i] != p
        invariant 0 <= i <= |q| && p !in q[..i]
      {
        assert q[..i + 1] == q[..i] + [q[i]];
        i := i + 1;
      }
      if i < |q| {
        RemoveAt(q, p, i);
        r := q[..i] + q[i + 1..];
      } else {
        assert q == q[..i];
        RemoveAbsent(q, p);
        r := q;
      }
    }

    /** The schedulers in the order of the array: 0 is RealTime, 1 is Normal, 2 is Idle. */
    predicate IsEmpty(level: nat)
      reads this
    {
      if level == 0 then fifo == [] else if level == 1 then rr == [] else idleSlot == None
    }

    /** Takes the front of a ready list; the Idle scheduler hands out its task and keeps it. */
    method PickNext(level: nat) returns (cand: TaskId)
      requires level < 3 && !IsEmpty(level)
      modifies this`fifo, this`rr
      ensures level == 0 ==> cand == old(fifo)[0] && fifo == old(fifo)[1..] && rr == old(rr)
      ensures level == 1 ==> cand == old(rr)[0] && rr == old(rr)[1..] && fifo == old(fifo)
      ensures level == 2 ==> idleSlot == Some(cand) && fifo == old(fifo) && rr == old(rr)
    {
      if level == 0 {
        cand := fifo[0];
        fifo := fifo[1..];
      } else if level == 1 {
        cand := rr[0];
        rr := rr[1..];
      } else {
        cand := idleSlot.value;
      }
    }

    /** The pick loop of Schedule: best policy first, entries that are not ready thrown away. */
    method PickLoop() returns (next: Option<TaskId>)
      requires Known(View()) && PickEnds(View())
      modifies this`fifo, this`rr
      ensures (View(), next) == Pick(old(View()))
    {
      ghost var s := View();
      next := None;
      var level := 0;
      while level < 3 && next.None?
        invariant 0 <= level <= 3
        invariant View() == s.(fifo := fifo, rr := rr) && Known(View())
        invariant next.None? && level == 0 ==> View() == s
        invariant next.None? && level == 1 ==> fifo == [] == DropStale(s.tasks, s.fifo) && rr == s.rr
        invariant next.None? && level >= 2 ==>
                    && fifo == [] == DropStale(s.tasks, s.fifo)
                    && rr == [] == DropStale(s.tasks, s.rr)
        invariant next.None? && level == 3 ==> s.idleSlot.None?
        invariant next.Some? ==> (View(), next) == Pick(s)
        decreases 3 - level
      {
        while !IsEmpty(level) && next.None?
          invariant View() == s.(fifo := fifo, rr := rr) && Known(View())
          invariant next.None? && level == 0 ==>
                      rr == s.rr && DropStale(s.tasks, fifo) == DropStale(s.tasks, s.fifo)
          invariant next.None? && level == 1 ==>
                      && fifo == [] == DropStale(s.tasks, s.fifo)
                      && DropStale(s.tasks, rr) == DropStale(s.tasks, s.rr)
          invariant next.None? && level == 2 ==>
                      fifo == [] == DropStale(s.tasks, s.fifo) && rr == [] == DropStale(s.tasks, s.rr)
          invariant next.Some? ==> (View(), next) == Pick(s)
          decreases |fifo| + |rr|, next.None?
        {
          var cand := PickNext(level);
          if tasks[cand].status == Ready {
            next := Some(cand);
          }
        }
        level := level + 1;
      }
    }

    /** Every scheduler but Idle asks for the preempted task to be queued again. */
    method RequeueCurrent()
      requires running in tasks
      modifies this
      ensures View() == Requeue(old(View()))
    {
      var current := running;
      if tasks[current].status == Running {
        tasks := tasks[current := tasks[current].(status := Ready)];
        if tasks[current].policy != IdlePolicy {
          Enqueue(current);
        }
      }
    }

    method SwitchTo(next: TaskId)
      requires next in tasks
      modifies this
      ensures View() == Dispatch(old(View()), next)
    {
      var t := tasks[next];
      tasks := tasks[next := t.(status := Running, sliceRemaining := t.sliceDefault,
                                contextSwitches := t.contextSwitches + 1)];
      totalSchedules := totalSchedules + 1;
      running := next;
    }

    /** The asserts are those of the source; none of them can fail. */
    method Schedule()
      requires Schedulable(View())
      modifies this
      ensures View() == RunQueue.Schedule(old(View()))
    {
      hide PickEnds, Requeue, Pick, Dispatch;
      var current := running;
      RequeueCurrent();
      var pick := PickLoop();
      var next;
      match pick {
        case Some(p) => next := p;
        case None =>
          if tasks[current].status == Ready {
            next := current;
          } else {
            next := idle;
            tasks := tasks[next := tasks[next].(status := Ready)];
          }
      }
      assert tasks[next].status == Ready;
      assert tasks[current].status != Ready ==> current != next;
      SwitchTo(next);
    }

    method WakeTop(task: TaskId)
      requires Valid() && task in sleeping
      modifies this
      ensures task in old(tasks) && View() == WakeOne(old(View()), task) && Valid()
      ensures |sleeping| < |old(sleeping)|
    {
      WakeOneInv(View(), task);
      sleeping := sleeping - multiset{task};
      tasks := tasks[task := tasks[task].(status := Ready)];
      if task != running {
        Enqueue(task);
      }
    }

    /** The wake loop of TickUpdate: pops the sleep heap until its top is not due. */
    method WakeDue() returns (woke: bool, ghost order: seq<TaskId>)
      requires Valid()
      modifies this
      ensures WakeOrder(old(View()), order) && View() == WakeAll(old(View()), order)
      ensures woke <==> order != []
      ensures Valid() && running in tasks
    {
      hide Base, WakeOne;
      ghost var s := View();
      woke, order := false, [];
      while sleeping != multiset{}
        invariant Valid() && PoppedTo(s, order, View())
        invariant woke <==> order != []
        decreases |sleeping|
      {
        SleepersAreKnown(View());
        ghost var top := Least(sleeping, Deadlines(View()));
        var task :| task in sleeping && forall q | q in sleeping :: tasks[task].wakeTick <= tasks[q].wakeTick;
        if tasks[task].wakeTick > localTick {
          break;
        }
        PoppedMore(s, order, View(), task);
        WakeTop(task);
        woke, order := true, order + [task];
      }
      SleepersAreKnown(View());
      PoppedEnd(s, order, View());
    }

    /** TickUpdate. The order in which the heap gave up the due tasks is returned for the specification. */
    method TickUpdate() returns (ghost order: seq<TaskId>)
      requires Valid()
      modifies this
      ensures WakeOrder(NextTick(old(View())), order) && TickEnabled(old(View()), order)
      ensures View() == Tick(old(View()), order) && Valid()
    {
      hide Base, Schedulable, ScheduleAsserts, RunQueue.Schedule, WakeAll, WakeOrder, SleepersKnown;
      NextTickInv(View());
      localTick := (localTick + 1) % U64;
      var needPreempt;
      needPreempt, order := WakeDue();
      TickInv(old(View()), order);
      ChargeInv(View());
      ScheduleInv(Charge(View()));
      var current := running;
      if tasks[current].status == Running {
        var t := tasks[current];
        tasks := tasks[current := t.(
                         totalRuntime := t.totalRuntime + 1,
                         sliceRemaining := if t.sliceRemaining > 0 then t.sliceRemaining - 1 else 0)];
        // The schedulers of the run queue never ask for a preemption in OnTick.
        if !needPreempt && tasks[current].sliceRemaining == 0 {
          needPreempt := true;
        }
      }
      if needPreempt {
        Schedule();
      }
      BaseKnown(View());
    }

    /** The assert is that of the source. */
    method Sleep(ms: nat)
      requires Valid() && (running != idle || (ms == 0 && totalSchedules > 0))
      modifies this
      ensures Completes(old(View()), OpSleep(ms), hz)
      ensures View() == RunQueue.Sleep(old(View()), ms, hz) && Valid()
    {
      hide Base, Schedulable, ScheduleAsserts, RunQueue.Schedule, RunQueue.Dequeue;
      OpInv(View(), OpSleep(ms), hz);
      assert tasks[running].status == Running;
      if ms == 0 {
        Schedule();
        BaseKnown(View());
        return;
      }
      var sleepTicks := (ms * hz + MS_PER_SECOND - 1) % U64 / MS_PER_SECOND;
      if sleepTicks == 0 {
        sleepTicks := 1;
      }
      var current := running;
      tasks := tasks[current := tasks[current].(wakeTick := (localTick + sleepTicks) % U64)];
      SameTasks(View(), current);
      Dequeue(current);
      tasks := tasks[current := tasks[current].(status := Sleeping)];
      sleeping := sleeping + multiset{current};
      assert View() == GoToSleep(old(View()), ms, hz);
      Schedule();
      BaseKnown(View());
    }

    /** The assert is that of the source. */
    method Block(resource: ResourceId)
      requires Valid() && running != idle
      modifies this
      ensures Completes(old(View()), OpBlock(resource), hz)
      ensures View() == RunQueue.Block(old(View()), resource) && Valid()
    {
      hide Base, Schedulable, ScheduleAsserts, RunQueue.Schedule;
      OpInv(View(), OpBlock(resource), hz);
      assert tasks[running].status == Running;
      var current := running;
      tasks := tasks[current := tasks[current].(status := Blocked, blockedOn := resource)];
      blocked := blocked[resource := (if resource in blocked then blocked[resource] else []) + [current]];
      Schedule();
      BaseKnown(View());
    }

    /** The asserts are those of the source: the drain loop only meets tasks blocked on the resource. */
    method UnblockFront(resource: ResourceId, waiting: seq<TaskId>)
      requires waiting != [] && AllKnown(View(), waiting) && Base(Draining(View(), resource, waiting))
      modifies this
      ensures waiting[0] in old(tasks) && View() == Unblock(old(View()), waiting[0])
      ensures blocked == old(blocked) && AllKnown(View(), waiting[1..])
      ensures Base(Draining(View(), resource, waiting[1..]))
      ensures UnblockAll(old(View()), waiting) == UnblockAll(View(), waiting[1..])
    {
      hide Base;
      var task := waiting[0];
      FrontWaiter(Draining(View(), resource, waiting), resource, task);
      UnblockBase(View(), resource, waiting);
      assert tasks[task].status == Blocked;
      assert tasks[task].blockedOn == resource;
      tasks := tasks[task := tasks[task].(status := Ready, blockedOn := 0)];
      Enqueue(task);
    }

    method Wakeup(resource: ResourceId)
      requires Valid()
      modifies this
      ensures AllKnown(old(View()), Waiting(old(View()), resource))
      ensures View() == RunQueue.Wakeup(old(View()), resource) && Valid()
    {
      hide Base;
      WakeupInv(View(), resource);
      BaseKnown(RunQueue.Wakeup(View(), resource));
      if resource !in blocked {
        return;
      }
      ghost var s := View();
      var waiting := blocked[resource];
      assert Draining(s, resource, waiting) == s;
      while waiting != []
        invariant blocked == s.blocked && AllKnown(View(), waiting)
        invariant Base(Draining(View(), resource, waiting))
        invariant UnblockAll(View(), waiting) == UnblockAll(s, s.blocked[resource])
        decreases |waiting|
      {
        UnblockFront(resource, waiting);
        waiting := waiting[1..];
      }
      blocked := blocked - {resource};
    }

    method AddTask(p: TaskId, t: Task)
      requires Valid() && p !in tasks && t.status == UnInit && t.policy != IdlePolicy
      modifies this
      ensures View() == RunQueue.AddTask(old(View()), p, t) && Valid()
    {
      AddTaskInv(View(), p, t);
      tasks := tasks[p := t.(status := Ready)];
      Enqueue(p);
    }
  }

  /** The heap gave up `done`, in this order, and `m` is what is left. */
  ghost predicate PoppedTo(s: State, done: seq<TaskId>, m: State)
    decreases |done|
  {
    if done == [] then m == s
    else SleepersKnown(s) && IsTop(s, done[0]) && Due(s, done[0]) && PoppedTo(WakeOne(s, done[0]), done[1..], m)
  }

  lemma {:induction false} PoppedMore(s: State, done: seq<TaskId>, m: State, p: TaskId)
    requires PoppedTo(s, done, m) && SleepersKnown(m) && IsTop(m, p) && Due(m, p)
    ensures PoppedTo(s, done + [p], WakeOne(m, p))
    decreases |done|
  {
    hide WakeOne;
    if done == [] {
      assert (done + [p])[1..] == [];
    } else {
      PoppedMore(WakeOne(s, done[0]), done[1..], m, p);
      assert (done + [p])[1..] == done[1..] + [p];
    }
  }

  lemma {:induction false} PoppedEnd(s: State, done: seq<TaskId>, m: State)
    requires PoppedTo(s, done, m) && SleepersKnown(m) && forall p :: p in m.sleeping ==> !Due(m, p)
    ensures WakeOrder(s, done) && WakeAll(s, done) == m
    decreases |done|
  {
    hide WakeOne;
    if done != [] {
      PoppedEnd(WakeOne(s, done[0]), done[1..], m);
    }
  }

  lemma SleepersAreKnown(s: State)
    requires Inv(s)
    ensures SleepersKnown(s)
  {
    forall p | p in s.sleeping
      ensures p in s.tasks
    {
      assert Is(s, p, Sleeping);
    }
  }

  lemma {:induction false} RemoveAt(q: seq<TaskId>, p: TaskId, i: nat)
    requires i < |q| && q[i] == p && p !in q[..i]
    ensures RemoveFirst(q, p) == q[..i] + q[i + 1..]
    decreases i
  {
    if i > 0 {
      assert q[0] == q[..i][0];
      assert q[1..][..i - 1] == q[..i][1..];
      RemoveAt(q[1..], p, i - 1);
    }
  }

  lemma SameTasks(s: State, p: TaskId)
    requires p in s.tasks
    ensures RunQueue.Dequeue(s, p).tasks == s.tasks && RunQueue.Dequeue(s, p).running == s.running
    ensures RunQueue.Dequeue(s, p).localTick == s.localTick
  {
  }
}
