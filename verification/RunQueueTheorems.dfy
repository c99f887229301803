/** What the run queue guarantees over whole runs: one place per task, best policy first,
    bounded waiting under round robin, and exact sleep. */
module RunQueueTheorems {
  import opened Basics
  import opened RunQueue
  import opened RunQueueInv

  // ---------------------------------------------------------------------------------------------
  // Exactly one place
  // ---------------------------------------------------------------------------------------------

  ghost function WaitsOn(s: State, p: TaskId): set<ResourceId> {
    set r | r in s.blocked && p in s.blocked[r]
  }

  /** How often `p` occurs in the lists, the heap and as the running task together. */
  ghost function Places(s: State, p: TaskId): nat {
    multiset(s.fifo)[p] + multiset(s.rr)[p] + s.sleeping[p] + |WaitsOn(s, p)|
    + (if p == s.running then 1 else 0)
  }

  lemma {:induction false} CountNoDup(q: seq<TaskId>, p: TaskId)
    requires NoDup(q)
    ensures multiset(q)[p] == if p in q then 1 else 0
    decreases |q|
  {
    if q != [] {
      CountNoDup(q[1..], p);
      assert q == [q[0]] + q[1..];
      assert multiset(q) == multiset{q[0]} + multiset(q[1..]);
    }
  }

  lemma OnePlace(s: State, p: TaskId)
    requires Inv(s) && p in s.tasks && p != s.idle
    ensures Places(s, p) == 1 && Placed(s, p)
  {
    Elsewhere(s, p);
    CountNoDup(s.fifo, p);
    CountNoDup(s.rr, p);
    assert Placed(s, p);
    if s.tasks[p].status == Blocked {
      assert WaitsOn(s, p) == {s.tasks[p].blockedOn};
    } else {
      assert WaitsOn(s, p) == {};
    }
    assert p in s.fifo ==> p !in s.rr;
  }

  /** After every run each added task is in one place, once, and only the current task is running. */
  lemma EveryTaskInOnePlace(s0: State, ops: seq<Op>, hz: nat)
    requires Init(s0) && Run(s0, ops, hz)
    ensures var s := Exec(s0, ops, hz);
            && (forall p :: p in s.tasks && p != s.idle ==> Placed(s, p) && Places(s, p) == 1)
            && (forall p :: p in s.tasks && s.tasks[p].status == Running ==> p == s.running)
            && s.running in s.tasks
            && (s.tasks[s.running].status == Running || (s.running == s.idle && s.tasks[s.idle].status == Ready))
  {
    InitInv(s0);
    RunInv(s0, ops, hz);
    var s := Exec(s0, ops, hz);
    forall p | p in s.tasks && p != s.idle
      ensures Placed(s, p) && Places(s, p) == 1
    {
      OnePlace(s, p);
    }
    forall p | p in s.tasks && s.tasks[p].status == Running
      ensures p == s.running
    {
      assert p != s.idle ==> Placed(s, p);
    }
  }

  /** No run gets stuck: any call that keeps the rules completes, and a tick has a wake order. */
  lemma NoRunGetsStuck(s0: State, ops: seq<Op>, hz: nat, op: Op)
    requires Init(s0) && Run(s0, ops, hz)
    ensures exists order :: WakeOrder(NextTick(Exec(s0, ops, hz)), order)
    ensures Callable(Exec(s0, ops, hz), op) ==> Completes(Exec(s0, ops, hz), op, hz)
  {
    InitInv(s0);
    RunInv(s0, ops, hz);
    var s := Exec(s0, ops, hz);
    AccountingBase(s, NextTick(s), s.running);
    var order := SomeWakeOrder(NextTick(s));
    if Callable(s, op) {
      OpInv(s, op, hz);
    }
  }

  /** The entry assertion of Sleep and Block holds exactly from the first Schedule of the core on. */
  lemma EntryAssertionExact(s0: State, ops: seq<Op>, hz: nat)
    requires Init(s0) && Run(s0, ops, hz)
    ensures CurrentRuns(Exec(s0, ops, hz)) <==> Exec(s0, ops, hz).totalSchedules > 0
  {
    InitInv(s0);
    RunInv(s0, ops, hz);
    RunsOnceScheduled(Exec(s0, ops, hz));
  }

  lemma RunsOnceScheduled(s: State)
    requires Inv(s)
    ensures CurrentRuns(s) <==> s.totalSchedules > 0
  {
    assert s.running in s.tasks;
  }

  ghost function Deadlines(s: State): map<TaskId, nat> {
    map p | p in s.tasks :: s.tasks[p].wakeTick
  }

  lemma {:induction false} SomeWakeOrder(s: State) returns (order: seq<TaskId>)
    requires Inv(s)
    ensures WakeOrder(s, order)
    decreases |s.sleeping|
  {
    assert SleepersKnown(s) by {
      forall p | p in s.sleeping ensures p in s.tasks { assert Is(s, p, Sleeping); }
    }
    if forall p :: p in s.sleeping ==> !Due(s, p) {
      order := [];
    } else {
      var top := Least(s.sleeping, Deadlines(s));
      WakeOneInv(s, top);
      var rest := SomeWakeOrder(WakeOne(s, top));
      order := [top] + rest;
      assert order[1..] == rest;
    }
  }

  // ---------------------------------------------------------------------------------------------
  // The best policy first
  // ---------------------------------------------------------------------------------------------

  function Rank(policy: Policy): nat {
    match policy case RealTime => 0 case Normal => 1 case IdlePolicy => 2
  }

  /** Schedule ends and runs a ready task that no other ready task outranks. */
  lemma BestPolicyFirst(s: State, p: TaskId)
    requires Base(s)
    ensures Schedulable(s)
    ensures var r, next := Requeue(s), Schedule(s).running;
            && next in r.tasks && r.tasks[next].status == Ready
            && (p in r.tasks && r.tasks[p].status == Ready ==> Rank(r.tasks[next].policy) <= Rank(r.tasks[p].policy))
  {
    ScheduleInv(s);
    RequeueBase(s);
    PickFront(Requeue(s));
    var r := Requeue(s);
    assert r.fifo != [] ==> Is(r, r.fifo[0], Ready);
    assert r.rr != [] ==> Is(r, r.rr[0], Ready);
    assert p in r.tasks && p != r.idle ==> Placed(r, p);
  }

  // ---------------------------------------------------------------------------------------------
  // Bounded waiting
  // ---------------------------------------------------------------------------------------------

  function Ticks(ops: seq<Op>): nat {
    if ops == [] then 0 else (if ops[0].OpTick? then 1 else 0) + Ticks(ops[1..])
  }

  /** No RealTime task is ready or running. */
  predicate NoRealTime(s: State)
    requires s.running in s.tasks
  {
    s.fifo == [] && s.tasks[s.running].policy != RealTime
  }

  predicate SlicesUpTo(s: State, slice: nat) {
    forall p :: p in s.tasks ==> s.tasks[p].sliceDefault <= slice
  }

  predicate FreshSlice(s: State)
    requires s.running in s.tasks
  {
    s.tasks[s.running].sliceRemaining <= s.tasks[s.running].sliceDefault
  }

  /** Ticks until the running task must give way: a spent slice still lasts to the next tick. */
  function Left(s: State): nat
    requires s.running in s.tasks
  {
    if s.tasks[s.running].sliceRemaining == 0 then 1 else s.tasks[s.running].sliceRemaining
  }

  /** No task is lost and no default slice or policy changes. */
  predicate SameDefaults(s: State, s': State) {
    forall p :: p in s.tasks ==>
      && p in s'.tasks
      && s'.tasks[p].sliceDefault == s.tasks[p].sliceDefault && s'.tasks[p].policy == s.tasks[p].policy
  }

  /** `s'` is what dispatching the front of the best non-empty queue of `r` leaves. */
  ghost predicate FrontDispatched(r: State, s': State) {
    && (r.fifo != [] ==> r.fifo[0] in r.tasks && r.tasks[r.fifo[0]].policy == RealTime
                         && r.tasks[r.fifo[0]].status == Ready)
    && (r.rr != [] ==> r.rr[0] in r.tasks && r.tasks[r.rr[0]].status == Ready)
    && r.idle in r.tasks
    && s' == if r.fifo != [] then Dispatch(r.(fifo := r.fifo[1..]), r.fifo[0])
             else if r.rr != [] then Dispatch(r.(rr := r.rr[1..]), r.rr[0])
             else Dispatch(r, r.idle)
  }

  /** What Schedule does in a run queue that is in order. */
  lemma ScheduleResult(s: State)
    requires Base(s)
    ensures Schedulable(s) && FrontDispatched(Requeue(s), Schedule(s))
  {
    RequeueBase(s);
    PickFront(Requeue(s));
    var r := Requeue(s);
    assert r.fifo != [] ==> Is(r, r.fifo[0], Ready);
    assert r.rr != [] ==> Is(r, r.rr[0], Ready);
  }

  lemma RequeueKeeps(s: State)
    requires s.running in s.tasks
    ensures var r := Requeue(s);
            SameDefaults(s, r) && s.rr <= r.rr && r.sleeping == s.sleeping && r.localTick == s.localTick
  {
  }

  lemma DispatchKeeps(r: State, s': State)
    requires FrontDispatched(r, s')
    ensures SameDefaults(r, s') && s'.running in s'.tasks && FreshSlice(s')
    ensures s'.sleeping == r.sleeping && s'.localTick == r.localTick
  {
  }

  lemma CurrentKnown(s: State)
    requires Base(s)
    ensures s.running in s.tasks
  {
  }

  lemma ScheduleKeeps(s: State)
    requires Base(s)
    ensures Schedulable(s)
    ensures var s' := Schedule(s);
            && SameDefaults(s, s') && s'.running in s'.tasks && FreshSlice(s')
            && s'.sleeping == s.sleeping && s'.localTick == s.localTick
  {
    hide Base, Schedule, Schedulable, FrontDispatched, Requeue, FreshSlice;
    CurrentKnown(s);
    ScheduleResult(s);
    RequeueKeeps(s);
    DispatchKeeps(Requeue(s), Schedule(s));
  }

  /** A waiting task moves up one place whenever Schedule runs, or gets the core. */
  lemma DispatchAdvances(r: State, s': State, p: TaskId, k: nat, slice: nat)
    requires FrontDispatched(r, s') && k < |r.rr| && r.rr[k] == p && slice >= 1
    requires s'.running in s'.tasks && NoRealTime(s') && SlicesUpTo(s', slice)
    ensures s'.running == p || (k >= 1 && k - 1 < |s'.rr| && s'.rr[k - 1] == p && Left(s') <= slice)
  {
    assert r.fifo == [];
    assert s'.tasks[s'.running].sliceDefault <= slice;
  }

  lemma WakeOneAppends(s: State, p: TaskId)
    requires p in s.tasks
    ensures s.rr <= WakeOne(s, p).rr && s.fifo <= WakeOne(s, p).fifo && SameDefaults(s, WakeOne(s, p))
  {
  }

  lemma {:induction false} WakeAllAppends(s: State, order: seq<TaskId>)
    requires WakeOrder(s, order)
    ensures s.rr <= WakeAll(s, order).rr && s.fifo <= WakeAll(s, order).fifo && SameDefaults(s, WakeAll(s, order))
    decreases |order|
  {
    hide WakeOne;
    if order != [] {
      WakeOneAppends(s, order[0]);
      WakeAllAppends(WakeOne(s, order[0]), order[1..]);
    }
  }

  lemma UnblockAppends(s: State, p: TaskId)
    requires p in s.tasks
    ensures s.rr <= Unblock(s, p).rr && SameDefaults(s, Unblock(s, p)) && Unblock(s, p).tasks.Keys == s.tasks.Keys
  {
  }

  lemma {:induction false} UnblockAllAppends(s: State, q: seq<TaskId>)
    requires AllKnown(s, q)
    ensures s.rr <= UnblockAll(s, q).rr && SameDefaults(s, UnblockAll(s, q))
    decreases |q|
  {
    hide Unblock;
    if q != [] {
      UnblockAppends(s, q[0]);
      UnblockAllAppends(Unblock(s, q[0]), q[1..]);
    }
  }

  /** The longest the task at index `k` can still wait if every slice is used up. */
  function Budget(s: State, k: nat, slice: nat): nat
    requires s.running in s.tasks
  {
    Left(s) + k * slice
  }

  /** An operation brings a waiting task closer to the core by at least the ticks it takes. */
  ghost predicate Closer(s: State, s': State, p: TaskId, k: nat, k': nat, slice: nat, ticks: nat)
    requires s.running in s.tasks && s'.running in s'.tasks
  {
    k' < |s'.rr| && s'.rr[k'] == p && Budget(s', k', slice) + ticks <= Budget(s, k, slice)
  }

  lemma OneLess(k: nat, slice: nat)
    requires k >= 1
    ensures (k - 1) * slice + slice == k * slice
  {
  }

  lemma ScheduleCloser(s: State, m: State, p: TaskId, k: nat, slice: nat) returns (k': nat)
    requires s.running in s.tasks && Base(m) && k < |m.rr| && m.rr[k] == p && slice >= 1
    requires Schedulable(m)
    requires var s' := Schedule(m);
             s'.running in s'.tasks && NoRealTime(s') && SlicesUpTo(s', slice) && s'.running != p
    ensures Closer(s, Schedule(m), p, k, k', slice, 1)
  {
    ScheduleResult(m);
    RequeueKeeps(m);
    k' := DispatchCloser(s, Requeue(m), Schedule(m), p, k, slice);
  }

  lemma DispatchCloser(s: State, r: State, s': State, p: TaskId, k: nat, slice: nat) returns (k': nat)
    requires s.running in s.tasks && FrontDispatched(r, s') && k < |r.rr| && r.rr[k] == p && slice >= 1
    requires s'.running in s'.tasks && NoRealTime(s') && SlicesUpTo(s', slice) && s'.running != p
    ensures Closer(s, s', p, k, k', slice, 1)
  {
    DispatchAdvances(r, s', p, k, slice);
    k' := k - 1;
    LessBudget(s, s', k, slice);
  }

  lemma LessBudget(s: State, s': State, k: nat, slice: nat)
    requires s.running in s.tasks && s'.running in s'.tasks && k >= 1 && Left(s') <= slice
    ensures Budget(s', k - 1, slice) + 1 <= Budget(s, k, slice)
  {
    OneLess(k, slice);
  }

  /** The state in which TickUpdate decides on a preemption. */
  ghost function Ticked(s: State, order: seq<TaskId>): State
    requires WakeOrder(NextTick(s), order) && WakeAll(NextTick(s), order).running in WakeAll(NextTick(s), order).tasks
  {
    Charge(WakeAll(NextTick(s), order))
  }

  lemma TickedOk(s: State, order: seq<TaskId>)
    requires Inv(s) && WakeOrder(NextTick(s), order)
    ensures WakeAll(NextTick(s), order).running in WakeAll(NextTick(s), order).tasks
    ensures var m := Ticked(s, order);
            && Base(m) && m.running == s.running && s.rr <= m.rr && s.fifo <= m.fifo && SameDefaults(s, m)
            && m.tasks[m.running] == Charge(s).tasks[s.running]
  {
    hide Base, WakeOrder, WakeAll, Charge;
    CurrentKnown(s);
    AccountingBase(s, NextTick(s), s.running);
    WakeAllInv(NextTick(s), order);
    WakeAllAppends(NextTick(s), order);
    ChargeOk(s, WakeAll(NextTick(s), order));
  }

  lemma ChargeOk(s: State, s1: State)
    requires s.running in s.tasks && Base(s1) && s1.running == s.running && SameDefaults(s, s1)
    requires s.rr <= s1.rr && s.fifo <= s1.fifo
    requires s1.tasks[s.running] == s.tasks[s.running]
    ensures var m := Charge(s1);
            && Base(m) && m.running == s.running && s.rr <= m.rr && s.fifo <= m.fifo && SameDefaults(s, m)
            && m.tasks[m.running] == Charge(s).tasks[s.running]
  {
    AccountingBase(s1, Charge(s1), s1.running);
  }

  lemma TickCloser(s: State, order: seq<TaskId>, p: TaskId, k: nat, slice: nat) returns (k': nat)
    requires Inv(s) && Started(s) && k < |s.rr| && s.rr[k] == p && slice >= 1
    requires TickEnabled(s, order) && Tick(s, order).running in Tick(s, order).tasks
    requires NoRealTime(Tick(s, order)) && SlicesUpTo(Tick(s, order), slice) && Tick(s, order).running != p
    ensures Closer(s, Tick(s, order), p, k, k', slice, 1)
  {
    TickedOk(s, order);
    var m := Ticked(s, order);
    if MustPreempt(m, order != []) {
      k' := ScheduleCloser(s, m, p, k, slice);
    } else {
      k' := k;
      assert Left(m) + 1 == Left(s);
    }
  }

  lemma OpCloser(s: State, op: Op, hz: nat, p: TaskId, k: nat, slice: nat) returns (k': nat)
    requires Inv(s) && Started(s) && Callable(s, op) && Completes(s, op, hz)
    requires k < |s.rr| && s.rr[k] == p && slice >= 1
    requires var s' := Do(s, op, hz);
             s'.running in s'.tasks && NoRealTime(s') && SlicesUpTo(s', slice) && s'.running != p
    ensures Closer(s, Do(s, op, hz), p, k, k', slice, if op.OpTick? then 1 else 0)
  {
    hide Base, Schedule, Schedulable, WakeOrder, WakeAll;
    CurrentKnown(s);
    match op
    case OpYield => k' := ScheduleCloser(s, s, p, k, slice);
    case OpTick(order) => k' := TickCloser(s, order, p, k, slice);
    case OpSleep(ms) => k' := SleepCloser(s, ms, hz, p, k, slice);
    case OpBlock(r) =>
      GoToBlockedBase(s, r);
      k' := ScheduleCloser(s, GoToBlocked(s, r), p, k, slice);
    case OpWakeup(r) =>
      k' := k;
      WakeupInv(s, r);
      UnblockAllAppends(s, Waiting(s, r));
    case OpAdd(q, t) => k' := k;
  }

  lemma GoToSleepKeeps(s: State, ms: nat, hz: nat)
    requires Base(s) && Started(s) && s.running != s.idle
    ensures GoToSleep(s, ms, hz).rr == s.rr
  {
    Elsewhere(s, s.running);
    RemoveAbsent(s.rr, s.running);
  }

  lemma SleepCloser(s: State, ms: nat, hz: nat, p: TaskId, k: nat, slice: nat) returns (k': nat)
    requires Inv(s) && Started(s) && (ms == 0 || s.running != s.idle) && Completes(s, OpSleep(ms), hz)
    requires k < |s.rr| && s.rr[k] == p && slice >= 1
    requires var s' := Sleep(s, ms, hz);
             s'.running in s'.tasks && NoRealTime(s') && SlicesUpTo(s', slice) && s'.running != p
    ensures Closer(s, Sleep(s, ms, hz), p, k, k', slice, 0)
  {
    if ms == 0 {
      k' := ScheduleCloser(s, s, p, k, slice);
    } else {
      GoToSleepBase(s, ms, hz);
      GoToSleepKeeps(s, ms, hz);
      k' := ScheduleCloser(s, GoToSleep(s, ms, hz), p, k, slice);
    }
  }

  lemma DefaultsKept(s: State, op: Op, hz: nat)
    requires Inv(s) && Callable(s, op) && Completes(s, op, hz)
    ensures SameDefaults(s, Do(s, op, hz))
  {
    hide Base, Schedule, Schedulable, WakeOrder, WakeAll, ScheduleAsserts, WakeupAsserts;
    match op
    case OpYield => ScheduleKeeps(s);
    case OpTick(order) =>
      TickedOk(s, order);
      ScheduleKeeps(Ticked(s, order));
    case OpSleep(ms) =>
      if ms == 0 {
        ScheduleKeeps(s);
      } else {
        GoToSleepBase(s, ms, hz);
        assert SameDefaults(s, GoToSleep(s, ms, hz));
        ScheduleKeeps(GoToSleep(s, ms, hz));
      }
    case OpBlock(r) =>
      GoToBlockedBase(s, r);
      assert SameDefaults(s, GoToBlocked(s, r));
      ScheduleKeeps(GoToBlocked(s, r));
    case OpWakeup(r) => UnblockAllAppends(s, Waiting(s, r));
    case OpAdd(q, t) =>
  }

  /** Until `p` runs, no RealTime task interferes and `p` does not run, at any point of the run. */
  ghost predicate Waits(s: State, ops: seq<Op>, hz: nat, p: TaskId)
    requires Run(s, ops, hz)
    decreases |ops|
  {
    && s.running in s.tasks && NoRealTime(s) && s.running != p
    && (ops != [] ==> Waits(Do(s, ops[0], hz), ops[1..], hz, p))
  }

  lemma {:induction false} SlicesKept(s: State, ops: seq<Op>, hz: nat, slice: nat)
    requires Inv(s) && Run(s, ops, hz) && SlicesUpTo(Exec(s, ops, hz), slice)
    ensures SlicesUpTo(s, slice)
    decreases |ops|
  {
    if ops != [] {
      OpInv(s, ops[0], hz);
      SlicesKept(Do(s, ops[0], hz), ops[1..], hz, slice);
      DefaultsKept(s, ops[0], hz);
    }
  }

  lemma {:induction false} WaitingShrinks(s: State, ops: seq<Op>, hz: nat, p: TaskId, k: nat, slice: nat)
    requires Inv(s) && Started(s) && Run(s, ops, hz) && Waits(s, ops, hz, p)
    requires k < |s.rr| && s.rr[k] == p && slice >= 1 && SlicesUpTo(Exec(s, ops, hz), slice)
    ensures Ticks(ops) < Budget(s, k, slice)
    decreases |ops|
  {
    if ops == [] {
      assert k * slice >= 0;
    } else {
      OpInv(s, ops[0], hz);
      var s' := Do(s, ops[0], hz);
      SlicesKept(s', ops[1..], hz, slice);
      var k' := OpCloser(s, ops[0], hz, p, k, slice);
      WaitingShrinks(s', ops[1..], hz, p, k', slice);
    }
  }

  /** From the first Schedule on, the running task has no more than its default slice left. */
  lemma OpFresh(s: State, op: Op, hz: nat)
    requires Inv(s) && Callable(s, op) && Completes(s, op, hz) && (Started(s) ==> FreshSlice(s))
    ensures Inv(Do(s, op, hz)) && (Started(Do(s, op, hz)) ==> FreshSlice(Do(s, op, hz)))
  {
    OpInv(s, op, hz);
    match op
    case OpYield => ScheduleKeeps(s);
    case OpTick(order) =>
      TickedOk(s, order);
      ScheduleKeeps(Ticked(s, order));
    case OpSleep(ms) =>
      if ms == 0 {
        ScheduleKeeps(s);
      } else {
        GoToSleepBase(s, ms, hz);
        ScheduleKeeps(GoToSleep(s, ms, hz));
      }
    case OpBlock(r) =>
      GoToBlockedBase(s, r);
      ScheduleKeeps(GoToBlocked(s, r));
    case OpWakeup(r) => WakeupInv(s, r);
    case OpAdd(q, t) =>
  }

  lemma {:induction false} RunFresh(s: State, ops: seq<Op>, hz: nat)
    requires Inv(s) && Run(s, ops, hz) && (Started(s) ==> FreshSlice(s))
    ensures Inv(Exec(s, ops, hz)) && (Started(Exec(s, ops, hz)) ==> FreshSlice(Exec(s, ops, hz)))
    decreases |ops|
  {
    if ops != [] {
      OpFresh(s, ops[0], hz);
      RunFresh(Do(s, ops[0], hz), ops[1..], hz);
    }
  }

  /**
   Round-robin bounded waiting. In any reached state after the first Schedule, while no RealTime
   task is ready or running, the task at index `k` of the Normal queue gets the core within
   `(k + 1) * slice` ticks, where `slice` bounds every default slice: no run keeps it waiting
   longer, whatever is slept, blocked, woken or added meanwhile.
   */
  lemma BoundedWaiting(s0: State, before: seq<Op>, ops: seq<Op>, hz: nat, p: TaskId, k: nat, slice: nat)
    requires Init(s0) && Run(s0, before, hz)
    requires var s := Exec(s0, before, hz);
             && s.running in s.tasks && Started(s) && Run(s, ops, hz) && Waits(s, ops, hz, p)
             && k < |s.rr| && s.rr[k] == p && slice >= 1 && SlicesUpTo(Exec(s, ops, hz), slice)
    ensures Ticks(ops) < (k + 1) * slice
  {
    InitInv(s0);
    RunFresh(s0, before, hz);
    var s := Exec(s0, before, hz);
    WaitingShrinks(s, ops, hz, p, k, slice);
    SlicesKept(s, ops, hz, slice);
    OneLess(k + 1, slice);
  }

  ghost predicate RealTimeRuns(s: State) {
    Inv(s) && Started(s) && s.tasks[s.running].policy == RealTime
  }

  lemma RealTimeTick(s: State, order: seq<TaskId>)
    requires RealTimeRuns(s) && WakeOrder(NextTick(s), order)
    ensures TickEnabled(s, order) && RealTimeRuns(Tick(s, order))
  {
    hide Base, WakeOrder, WakeAll, Schedule, Schedulable;
    TickInv(s, order);
    TickedOk(s, order);
    var m := Ticked(s, order);
    if MustPreempt(m, order != []) {
      ScheduleResult(m);
      ScheduleInv(m);
      assert Requeue(m).fifo != [];
    }
  }

  /**
   Why the bound asks that no RealTime task runs: through any number of ticks the core stays
   with RealTime tasks once one runs, so that a Normal task waits without any bound.
   */
  lemma {:induction false} RealTimeKeepsCore(s: State, ops: seq<Op>, hz: nat)
    requires RealTimeRuns(s) && Run(s, ops, hz) && forall i :: 0 <= i < |ops| ==> ops[i].OpTick?
    ensures RealTimeRuns(Exec(s, ops, hz))
    decreases |ops|
  {
    hide RealTimeRuns, Tick, WakeOrder;
    if ops != [] {
      RealTimeTick(s, ops[0].order);
      RealTimeKeepsCore(Do(s, ops[0], hz), ops[1..], hz);
    }
  }

  // ---------------------------------------------------------------------------------------------
  // Sleep
  // ---------------------------------------------------------------------------------------------

  /** The least number of ticks that last at least `ms` milliseconds. */
  function CeilTicks(ms: nat, hz: nat): nat {
    (ms * hz + MS_PER_SECOND - 1) / MS_PER_SECOND
  }

  lemma CeilTicksIsLeast(ms: nat, hz: nat, n: nat)
    ensures n * MS_PER_SECOND >= ms * hz <==> n >= CeilTicks(ms, hz)
  {
  }

  predicate NoOverflow(tick: nat, ms: nat, hz: nat) {
    ms * hz + MS_PER_SECOND - 1 < U64 && tick + CeilTicks(ms, hz) < U64
  }

  /** The deadline is the exact one if and only if the 64-bit arithmetic does not wrap. */
  lemma DeadlineExact(s: State, ms: nat, hz: nat)
    requires s.running in s.tasks && ms > 0 && hz > 0
    ensures var p := s.running;
            && p in GoToSleep(s, ms, hz).tasks
            && (GoToSleep(s, ms, hz).tasks[p].wakeTick == s.localTick + CeilTicks(ms, hz)
                <==> NoOverflow(s.localTick, ms, hz))
  {
    var x := ms * hz + MS_PER_SECOND - 1;
    assert ms * hz > 0;
    assert x >= MS_PER_SECOND;
    Wrapped(x);
    var k := SleepTicks(ms, hz);
    if x >= U64 {
      assert k < CeilTicks(ms, hz);
    } else {
      assert k == CeilTicks(ms, hz);
    }
    WrapBelow(s.localTick + k);
  }

  lemma Wrapped(x: nat)
    ensures x < U64 ==> x % U64 == x
    ensures x >= U64 ==> x % U64 <= x - U64
  {
  }

  lemma WrapBelow(x: nat)
    ensures x % U64 <= x && (x < U64 <==> x % U64 == x)
  {
  }

  predicate Asleep(s: State, p: TaskId, deadline: nat) {
    p in s.tasks && p != s.idle && s.tasks[p].status == Sleeping && s.tasks[p].wakeTick == deadline
  }

  lemma RequeueLeaves(s: State, p: TaskId, deadline: nat)
    requires s.running in s.tasks && Asleep(s, p, deadline)
    ensures Asleep(Requeue(s), p, deadline)
  {
  }

  lemma DispatchLeaves(r: State, s': State, p: TaskId, deadline: nat)
    requires FrontDispatched(r, s') && Asleep(r, p, deadline)
    ensures Asleep(s', p, deadline)
  {
  }

  lemma ScheduleLeaves(s: State, p: TaskId, deadline: nat)
    requires Base(s) && Asleep(s, p, deadline)
    ensures Schedulable(s) && Asleep(Schedule(s), p, deadline)
  {
    hide *;
    CurrentKnown(s);
    ScheduleResult(s);
    RequeueLeaves(s, p, deadline);
    DispatchLeaves(Requeue(s), Schedule(s), p, deadline);
  }

  /** Waking the due tasks wakes `p` exactly when its deadline has come. */
  lemma {:induction false} WakeAllLeaves(s: State, order: seq<TaskId>, p: TaskId, deadline: nat)
    requires Inv(s) && WakeOrder(s, order) && Asleep(s, p, deadline)
    ensures deadline > s.localTick ==> Asleep(WakeAll(s, order), p, deadline) && p !in order
    ensures deadline <= s.localTick ==>
              p in order && p in WakeAll(s, order).tasks && WakeAll(s, order).tasks[p].status == Ready
    decreases |order|
  {
    assert Placed(s, p);
    if order != [] {
      var s1 := WakeOne(s, order[0]);
      WakeOneInv(s, order[0]);
      if order[0] == p {
        StaysAwake(s1, order[1..], p);
      } else {
        WakeAllLeaves(s1, order[1..], p, deadline);
      }
    }
  }

  lemma {:induction false} StaysAwake(s: State, order: seq<TaskId>, p: TaskId)
    requires Inv(s) && WakeOrder(s, order) && p in s.tasks && s.tasks[p].status == Ready
    ensures p in WakeAll(s, order).tasks && WakeAll(s, order).tasks[p].status == Ready
    decreases |order|
  {
    if order != [] {
      WakeOneInv(s, order[0]);
      assert Is(s, order[0], Sleeping);
      StaysAwake(WakeOne(s, order[0]), order[1..], p);
    }
  }

  lemma {:induction false} WakeAllNoneDue(s: State, order: seq<TaskId>)
    requires WakeOrder(s, order)
    ensures var s' := WakeAll(s, order);
            && s'.localTick == s.localTick
            && forall q :: q in s'.sleeping ==> q in s'.tasks && s'.tasks[q].wakeTick > s'.localTick
    decreases |order|
  {
    if order != [] {
      WakeAllNoneDue(WakeOne(s, order[0]), order[1..]);
    }
  }

  lemma {:induction false} UnblockAllLeaves(s: State, q: seq<TaskId>, p: TaskId, deadline: nat)
    requires AllKnown(s, q) && p !in q && Asleep(s, p, deadline)
    ensures Asleep(UnblockAll(s, q), p, deadline) && UnblockAll(s, q).localTick == s.localTick
    decreases |q|
  {
    if q != [] {
      assert forall i :: 0 <= i < |q[1..]| ==> q[1..][i] == q[i + 1];
      UnblockAllLeaves(Unblock(s, q[0]), q[1..], p, deadline);
    }
  }

  predicate Awake(s: State, p: TaskId) {
    p in s.tasks && (s.tasks[p].status == Ready || s.tasks[p].status == Running)
  }

  lemma RequeueWakes(s: State, p: TaskId)
    requires s.running in s.tasks && Awake(s, p)
    ensures Awake(Requeue(s), p)
  {
  }

  lemma DispatchWakes(r: State, s': State, p: TaskId)
    requires FrontDispatched(r, s') && Awake(r, p)
    ensures Awake(s', p)
  {
  }

  lemma ScheduleWakes(s: State, p: TaskId)
    requires Base(s) && Awake(s, p)
    ensures Schedulable(s) && Awake(Schedule(s), p)
  {
    hide *;
    CurrentKnown(s);
    ScheduleResult(s);
    RequeueWakes(s, p);
    DispatchWakes(Requeue(s), Schedule(s), p);
  }

  /** What holds when TickUpdate decides on a preemption: nobody who was due still sleeps. */
  lemma TickedSleepers(s: State, order: seq<TaskId>)
    requires Inv(s) && WakeOrder(NextTick(s), order)
    ensures WakeAll(NextTick(s), order).running in WakeAll(NextTick(s), order).tasks
    ensures var m := Ticked(s, order);
            && m.localTick == NextTick(s).localTick && SleepersKnown(m)
            && forall q :: q in m.sleeping ==> !Due(m, q)
  {
    hide Base;
    TickedOk(s, order);
    WakeAllNoneDue(NextTick(s), order);
  }

  /** A tick leaves a sleeper asleep until its deadline, and wakes it then. */
  lemma TickedLeaves(s: State, order: seq<TaskId>, p: TaskId, deadline: nat)
    requires Inv(s) && WakeOrder(NextTick(s), order) && Asleep(s, p, deadline)
    ensures WakeAll(NextTick(s), order).running in WakeAll(NextTick(s), order).tasks
    ensures deadline > NextTick(s).localTick ==> Asleep(Ticked(s, order), p, deadline)
    ensures deadline <= NextTick(s).localTick ==> p in order && Awake(Ticked(s, order), p)
  {
    hide Base, WakeOrder, WakeAll;
    NextTickInv(s);
    TickedOk(s, order);
    WakeAllLeaves(NextTick(s), order, p, deadline);
    WakeAllInv(NextTick(s), order);
  }

  lemma TickLeaves(s: State, order: seq<TaskId>, p: TaskId, deadline: nat)
    requires Inv(s) && WakeOrder(NextTick(s), order) && Asleep(s, p, deadline)
    ensures TickEnabled(s, order) && Tick(s, order).localTick == NextTick(s).localTick
    ensures deadline > NextTick(s).localTick ==> Asleep(Tick(s, order), p, deadline)
    ensures deadline <= NextTick(s).localTick ==> p in order && Awake(Tick(s, order), p)
  {
    hide Base, WakeOrder, WakeAll, Charge, Schedule, Schedulable, MustPreempt, Asleep, Awake, NextTick;
    TickInv(s, order);
    TickedOk(s, order);
    TickedSleepers(s, order);
    TickedLeaves(s, order, p, deadline);
    ScheduleKeeps(Ticked(s, order));
    if deadline > NextTick(s).localTick {
      ScheduleLeaves(Ticked(s, order), p, deadline);
    } else {
      ScheduleWakes(Ticked(s, order), p);
    }
  }

  /** After every tick no sleeper has a deadline at or before the clock. */
  lemma NoneDueAfterTick(s: State, order: seq<TaskId>)
    requires Inv(s) && WakeOrder(NextTick(s), order)
    ensures TickEnabled(s, order) && SleepersKnown(Tick(s, order))
    ensures forall q :: q in Tick(s, order).sleeping ==> !Due(Tick(s, order), q)
  {
    hide Base, WakeOrder, WakeAll, Charge, Schedule, Schedulable, MustPreempt;
    TickInv(s, order);
    TickedOk(s, order);
    TickedSleepers(s, order);
    var m := Ticked(s, order);
    ScheduleKeeps(m);
    forall q | q in Tick(s, order).sleeping
      ensures q in Tick(s, order).tasks && !Due(Tick(s, order), q)
    {
      SleeperStatus(m, q);
      ScheduleLeaves(m, q, m.tasks[q].wakeTick);
    }
  }

  lemma SleeperStatus(s: State, q: TaskId)
    requires Base(s) && q in s.sleeping
    ensures q in s.tasks && Asleep(s, q, s.tasks[q].wakeTick)
  {
    assert Is(s, q, Sleeping);
  }

  lemma OpLeaves(s: State, op: Op, hz: nat, p: TaskId, deadline: nat)
    requires Inv(s) && Callable(s, op) && Completes(s, op, hz) && Asleep(s, p, deadline) && !op.OpTick?
    ensures Asleep(Do(s, op, hz), p, deadline) && Do(s, op, hz).localTick == s.localTick
  {
    hide Base, Schedule, Schedulable, ScheduleAsserts, WakeupAsserts;
    match op
    case OpYield => ScheduleLeaves(s, p, deadline); ScheduleKeeps(s);
    case OpSleep(ms) =>
      if ms == 0 {
        ScheduleLeaves(s, p, deadline);
        ScheduleKeeps(s);
      } else {
        GoToSleepBase(s, ms, hz);
        ScheduleLeaves(GoToSleep(s, ms, hz), p, deadline);
        ScheduleKeeps(GoToSleep(s, ms, hz));
      }
    case OpBlock(r) =>
      GoToBlockedBase(s, r);
      ScheduleLeaves(GoToBlocked(s, r), p, deadline);
      ScheduleKeeps(GoToBlocked(s, r));
    case OpWakeup(r) =>
      Elsewhere(s, p);
      UnblockAllLeaves(s, Waiting(s, r), p, deadline);
    case OpAdd(q, t) =>
  }

  lemma ClockMoves(s: State)
    requires s.localTick + 1 < U64
    ensures NextTick(s).localTick == s.localTick + 1
  {
  }

  function TickCost(op: Op): nat {
    if op.OpTick? then 1 else 0
  }

  lemma OpSleepsOn(s: State, op: Op, hz: nat, p: TaskId, deadline: nat)
    requires Inv(s) && Callable(s, op) && Completes(s, op, hz) && Asleep(s, p, deadline)
    requires s.localTick + TickCost(op) < deadline < U64
    ensures Inv(Do(s, op, hz)) && Asleep(Do(s, op, hz), p, deadline)
    ensures Do(s, op, hz).localTick == s.localTick + TickCost(op)
  {
    hide Base, Tick, Schedule, Sleep, Block, Wakeup, AddTask, Asleep, Schedulable, TickEnabled, NextTick, WakeOrder;
    OpInv(s, op, hz);
    if op.OpTick? {
      ClockMoves(s);
      TickLeaves(s, op.order, p, deadline);
    } else {
      OpLeaves(s, op, hz, p, deadline);
    }
  }

  lemma {:induction false} SleepsUntil(s: State, ops: seq<Op>, hz: nat, p: TaskId, deadline: nat)
    requires Inv(s) && Run(s, ops, hz) && Asleep(s, p, deadline)
    requires s.localTick + Ticks(ops) < deadline < U64
    ensures Inv(Exec(s, ops, hz)) && Asleep(Exec(s, ops, hz), p, deadline)
    ensures Exec(s, ops, hz).localTick == s.localTick + Ticks(ops)
    decreases |ops|
  {
    hide Inv, Callable, Completes, Do, Asleep;
    if ops != [] {
      OpSleepsOn(s, ops[0], hz, p, deadline);
      SleepsUntil(Do(s, ops[0], hz), ops[1..], hz, p, deadline);
    }
  }

  lemma FallsAsleep(s: State, ms: nat, hz: nat)
    requires Inv(s) && ms > 0 && hz > 0 && Callable(s, OpSleep(ms)) && NoOverflow(s.localTick, ms, hz)
    ensures Completes(s, OpSleep(ms), hz) && Inv(Sleep(s, ms, hz))
    ensures Asleep(Sleep(s, ms, hz), s.running, s.localTick + CeilTicks(ms, hz))
    ensures Sleep(s, ms, hz).localTick == s.localTick
  {
    OpInv(s, OpSleep(ms), hz);
    GoToSleepBase(s, ms, hz);
    DeadlineExact(s, ms, hz);
    var m := GoToSleep(s, ms, hz);
    assert Asleep(m, s.running, s.localTick + CeilTicks(ms, hz));
    ScheduleLeaves(m, s.running, s.localTick + CeilTicks(ms, hz));
    ScheduleKeeps(m);
  }

  /**
   Sleep is exact. A task that sleeps at tick `t` without 64-bit overflow is asleep as long as
   fewer than `CeilTicks` ticks have passed, whatever else happens, and the tick that completes
   them is the one that wakes it.
   */
  lemma SleepIsExact(s0: State, before: seq<Op>, ms: nat, hz: nat, ops: seq<Op>, order: seq<TaskId>)
    requires Init(s0) && Run(s0, before, hz) && ms > 0 && hz > 0
    requires var s := Exec(s0, before, hz);
             && Callable(s, OpSleep(ms)) && NoOverflow(s.localTick, ms, hz) && Completes(s, OpSleep(ms), hz)
             && Run(Sleep(s, ms, hz), ops, hz) && Ticks(ops) < CeilTicks(ms, hz)
    ensures var s := Exec(s0, before, hz);
            var s' := Exec(Sleep(s, ms, hz), ops, hz);
            && s.running in s'.tasks && s'.tasks[s.running].status == Sleeping
            && (WakeOrder(NextTick(s'), order) && Ticks(ops) + 1 == CeilTicks(ms, hz) ==>
                  && TickEnabled(s', order) && s.running in order
                  && Awake(Tick(s', order), s.running))
  {
    hide Base, Tick, Schedule, Schedulable, TickEnabled, WakeOrder, NextTick, CeilTicks, Exec, Run;
    InitInv(s0);
    RunInv(s0, before, hz);
    var s := Exec(s0, before, hz);
    FallsAsleep(s, ms, hz);
    var deadline := s.localTick + CeilTicks(ms, hz);
    SleepsUntil(Sleep(s, ms, hz), ops, hz, s.running, deadline);
    var s' := Exec(Sleep(s, ms, hz), ops, hz);
    if WakeOrder(NextTick(s'), order) {
      ClockMoves(s');
      TickLeaves(s', order, s.running, deadline);
    }
  }
}
