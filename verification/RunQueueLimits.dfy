/** Where round robin stops bounding the waiting of a Normal task: exactly at a running RealTime task. */
module RunQueueLimits {

  import opened Basics
  import opened RunQueue
  import opened RunQueueInv
  import opened RunQueueTheorems

  // ---------------------------------------------------------------------------------------------
  // Runs of ticks alone
  // ---------------------------------------------------------------------------------------------

  predicate TickOnly(ops: seq<Op>) {
    forall i :: 0 <= i < |ops| ==> ops[i].OpTick?
  }

  /** `p` does not run at any point of the run. */
  ghost predicate NeverRuns(s: State, ops: seq<Op>, hz: nat, p: TaskId)
    requires Run(s, ops, hz)
    decreases |ops|
  {
    s.running != p && (ops != [] ==> NeverRuns(Do(s, ops[0], hz), ops[1..], hz, p))
  }

  /** The run queue after its first Schedule, with no RealTime task ready and nobody asleep. */
  ghost predicate Calm(s: State) {
    && Inv(s) && s.running in s.tasks && Started(s)
    && s.fifo == [] && s.sleeping == multiset{}
  }

  lemma NobodyToWake(s: State, order: seq<TaskId>)
    requires s.sleeping == multiset{}
    ensures WakeOrder(NextTick(s), order) <==> order == []
  {
  }

  lemma CalmTicked(s: State)
    requires Calm(s)
    ensures WakeOrder(NextTick(s), []) && TickEnabled(s, [])
    ensures var m := Charge(NextTick(s));
            && Base(m) && m.running == s.running && Started(m)
            && m.fifo == [] && m.rr == s.rr && m.sleeping == multiset{} && m.tasks.Keys == s.tasks.Keys
            && m.tasks[m.running].policy == s.tasks[s.running].policy
            && (MustPreempt(m, false) ==> Schedulable(m))
            && Tick(s, []) == (if MustPreempt(m, false) then Schedule(m) else m)
  {
    hide Base;
    NobodyToWake(s, []);
    TickInv(s, []);
    TickedOk(s, []);
  }

  /** A tick of a calm run queue: whoever holds the core, RealTime stays RealTime and nothing else. */
  lemma CalmTick(s: State)
    requires Calm(s)
    ensures TickEnabled(s, []) && Calm(Tick(s, []))
    ensures var s' := Tick(s, []);
            && (s'.tasks[s'.running].policy == RealTime <==> s.tasks[s.running].policy == RealTime)
            && (s.tasks[s.running].policy == RealTime ==> s'.running == s.running && s'.rr == s.rr)
            && s'.tasks.Keys == s.tasks.Keys && SameDefaults(s, s')
  {
    hide Base, Schedule, Schedulable, TickEnabled, Tick, Charge, MustPreempt;
    CalmTicked(s);
    NobodyToWake(s, []);
    TickInv(s, []);
    var m := Charge(NextTick(s));
    TickedDefaults(s);
    if MustPreempt(m, false) {
      ScheduleResult(m);
      ScheduleKeeps(m);
      CalmDispatch(m);
    }
  }

  lemma TickedDefaults(s: State)
    requires s.running in s.tasks
    ensures SameDefaults(s, Charge(NextTick(s)))
  {
  }

  predicate SameWakes(s: State, s': State) {
    forall p :: p in s.tasks ==> p in s'.tasks && s'.tasks[p].wakeTick == s.tasks[p].wakeTick
  }

  lemma CalmDispatch(m: State)
    requires Base(m) && Started(m) && m.fifo == [] && Schedulable(m)
    requires FrontDispatched(Requeue(m), Schedule(m))
    ensures var s' := Schedule(m);
            && s'.running in s'.tasks && s'.fifo == [] && s'.sleeping == m.sleeping && s'.tasks.Keys == m.tasks.Keys
            && SameWakes(m, s')
            && (s'.tasks[s'.running].policy == RealTime <==> m.tasks[m.running].policy == RealTime)
            && (m.tasks[m.running].policy == RealTime ==> s'.running == m.running && s'.rr == m.rr)
  {
    hide Schedule, Schedulable, Base, Requeue;
    CurrentKnown(m);
    FrontIsNormal(m);
    CalmRequeue(m);
  }

  lemma CalmRequeue(m: State)
    requires m.running in m.tasks && Started(m) && m.fifo == []
    requires m.rr != [] ==> m.rr[0] in m.tasks && m.tasks[m.rr[0]].policy == Normal
    ensures var r := Requeue(m);
            && r.tasks.Keys == m.tasks.Keys && r.sleeping == m.sleeping && r.idle == m.idle && SameWakes(m, r)
            && (forall p :: p in m.tasks ==> r.tasks[p].policy == m.tasks[p].policy)
            && (m.tasks[m.running].policy == RealTime ==> r.fifo == [m.running] && r.rr == m.rr)
            && (m.tasks[m.running].policy != RealTime ==>
                  && r.fifo == []
                  && (r.rr != [] ==> r.rr[0] in m.tasks && m.tasks[r.rr[0]].policy == Normal))
  {
  }

  lemma FrontIsNormal(m: State)
    requires Base(m)
    ensures m.rr != [] ==> m.rr[0] in m.tasks && m.tasks[m.rr[0]].policy == Normal
    ensures m.idle in m.tasks && m.tasks[m.idle].policy == IdlePolicy
  {
    assert m.rr != [] ==> Is(m, m.rr[0], Ready);
  }

  // ---------------------------------------------------------------------------------------------
  // A RealTime task holds the core for ever
  // ---------------------------------------------------------------------------------------------

  function Ticking(n: nat): (r: seq<Op>)
    ensures |r| == n && TickOnly(r) && Ticks(r) == n
  {
    if n == 0 then [] else [OpTick([])] + Ticking(n - 1)
  }

  lemma RealTimeIsCalm(s: State)
    requires RealTimeRuns(s) && s.fifo == [] && s.sleeping == multiset{}
    ensures Calm(s)
  {
  }

  /**
   From a running RealTime task, with the RealTime queue empty and nobody asleep, any number of
   ticks can follow, and after them the same task runs and the Normal queue has not moved.
   */
  lemma {:induction false} RealTimeHoldsCore(s: State, n: nat, hz: nat)
    requires RealTimeRuns(s) && s.fifo == [] && s.sleeping == multiset{}
    ensures Run(s, Ticking(n), hz)
    ensures var s' := Exec(s, Ticking(n), hz);
            && RealTimeRuns(s') && s'.running == s.running
            && s'.fifo == [] && s'.rr == s.rr && s'.sleeping == multiset{}
    ensures forall p :: p != s.running ==> NeverRuns(s, Ticking(n), hz, p)
    decreases n
  {
    hide Base, Tick, TickEnabled;
    if n > 0 {
      RealTimeIsCalm(s);
      CalmTick(s);
      NobodyToWake(s, []);
      OpInv(s, OpTick([]), hz);
      assert Ticking(n)[0] == OpTick([]) && Ticking(n)[1..] == Ticking(n - 1);
      RealTimeHoldsCore(Tick(s, []), n - 1, hz);
    }
  }

  // ---------------------------------------------------------------------------------------------
  // Without RealTime tasks, ticks bring none before one is due
  // ---------------------------------------------------------------------------------------------

  /** No RealTime task runs or is ready, and none that sleeps is due within `n` ticks. */
  ghost predicate Quiet(s: State, n: nat) {
    && Inv(s) && s.running in s.tasks && Started(s) && NoRealTime(s)
    && LateRealTime(s, s.localTick + n)
  }

  predicate LateRealTime(s: State, tick: nat) {
    forall p :: p in s.sleeping ==> p in s.tasks && (s.tasks[p].policy == RealTime ==> s.tasks[p].wakeTick > tick)
  }

  lemma WakeOneQuiet(s: State, p: TaskId, tick: nat)
    requires p in s.tasks && s.tasks[p].policy != RealTime && LateRealTime(s, tick)
    ensures var s' := WakeOne(s, p);
            && s'.fifo == s.fifo && s'.tasks.Keys == s.tasks.Keys && s'.localTick == s.localTick
            && LateRealTime(s', tick)
  {
  }

  lemma {:induction false} WakeAllQuiet(s: State, order: seq<TaskId>, tick: nat)
    requires WakeOrder(s, order) && LateRealTime(s, tick) && s.localTick <= tick
    ensures var s' := WakeAll(s, order);
            && s'.fifo == s.fifo && s'.tasks.Keys == s.tasks.Keys && s'.localTick == s.localTick
            && LateRealTime(s', tick)
    decreases |order|
  {
    hide WakeOne;
    if order != [] {
      assert order[0] in s.sleeping && Due(s, order[0]);
      WakeOneQuiet(s, order[0], tick);
      WakeAllQuiet(WakeOne(s, order[0]), order[1..], tick);
    }
  }

  lemma ChargedQuiet(s: State, tick: nat)
    requires s.running in s.tasks && LateRealTime(s, tick)
    ensures var m := Charge(s);
            && m.fifo == s.fifo && m.tasks.Keys == s.tasks.Keys && LateRealTime(m, tick) && m.localTick == s.localTick
            && m.tasks[s.running].policy == s.tasks[s.running].policy
            && (m.tasks[s.running].status == s.tasks[s.running].status)
  {
  }

  /** What a tick makes of a quiet run queue before it reschedules. */
  lemma TickedQuiet(s: State, order: seq<TaskId>, n: nat)
    requires Quiet(s, n) && n > 0 && TickEnabled(s, order)
    ensures WakeAll(NextTick(s), order).running in WakeAll(NextTick(s), order).tasks
    ensures var m := Ticked(s, order);
            && Base(m) && m.running == s.running && Started(m) && m.tasks[m.running].policy != RealTime
            && m.fifo == [] && m.tasks.Keys == s.tasks.Keys && SameDefaults(s, m)
            && m.localTick <= s.localTick + 1 && LateRealTime(m, s.localTick + n)
            && (MustPreempt(m, order != []) ==> Schedulable(m))
            && Tick(s, order) == (if MustPreempt(m, order != []) then Schedule(m) else m)
  {
    hide Base, WakeOrder, WakeAll, Schedule, Schedulable, LateRealTime;
    TickedOk(s, order);
    NextTickQuiet(s, s.localTick + n);
    WakeAllQuiet(NextTick(s), order, s.localTick + n);
    ChargedQuiet(WakeAll(NextTick(s), order), s.localTick + n);
  }

  lemma NextTickQuiet(s: State, tick: nat)
    requires LateRealTime(s, tick)
    ensures LateRealTime(NextTick(s), tick) && NextTick(s).localTick <= s.localTick + 1
  {
  }

  lemma QuietTick(s: State, order: seq<TaskId>, n: nat)
    requires Quiet(s, n) && n > 0 && TickEnabled(s, order)
    ensures var s' := Tick(s, order); Quiet(s', n - 1) && s'.tasks.Keys == s.tasks.Keys && SameDefaults(s, s')
  {
    hide Base, Schedule, Schedulable, Tick, Charge, MustPreempt, TickEnabled, WakeAll, WakeOrder, LateRealTime;
    TickedQuiet(s, order, n);
    assert WakeOrder(NextTick(s), order) by { TickWakes(s, order); }
    TickInv(s, order);
    var m := Ticked(s, order);
    if MustPreempt(m, order != []) {
      ScheduleResult(m);
      ScheduleKeeps(m);
      CalmDispatch(m);
      LateKept(m, Schedule(m), s.localTick + n);
    }
    Sooner(Tick(s, order), s.localTick + n, Tick(s, order).localTick + (n - 1));
  }

  lemma TickWakes(s: State, order: seq<TaskId>)
    requires TickEnabled(s, order)
    ensures WakeOrder(NextTick(s), order)
  {
  }

  lemma LateKept(m: State, s': State, tick: nat)
    requires LateRealTime(m, tick) && SameWakes(m, s') && SameDefaults(m, s') && s'.sleeping == m.sleeping
    ensures LateRealTime(s', tick)
  {
  }

  lemma Sooner(s: State, tick: nat, sooner: nat)
    requires LateRealTime(s, tick) && sooner <= tick
    ensures LateRealTime(s, sooner)
  {
  }

  lemma QuietStep(s: State, op: Op, hz: nat, n: nat)
    requires Quiet(s, n) && n > 0 && op.OpTick? && Callable(s, op) && Completes(s, op, hz)
    ensures var s' := Do(s, op, hz); Quiet(s', n - 1) && s'.tasks.Keys == s.tasks.Keys && SameDefaults(s, s')
  {
    hide Quiet, Tick, WakeOrder, WakeAll, Schedulable, SameDefaults;
    QuietTick(s, op.order, n);
  }

  lemma {:induction false} TicksBringNoRealTime(s: State, ops: seq<Op>, hz: nat, p: TaskId, slice: nat, n: nat)
    requires Quiet(s, n) && |ops| <= n && SlicesUpTo(s, slice)
    requires Run(s, ops, hz) && TickOnly(ops) && NeverRuns(s, ops, hz, p)
    ensures Waits(s, ops, hz, p) && SlicesUpTo(Exec(s, ops, hz), slice)
    decreases |ops|
  {
    hide Inv, Do, Callable, Completes, LateRealTime, SlicesUpTo;
    if ops != [] {
      var s' := Do(s, ops[0], hz);
      QuietStep(s, ops[0], hz, n);
      DefaultsBound(s, s', slice);
      TicksBringNoRealTime(s', ops[1..], hz, p, slice, n - 1);
    }
  }

  lemma DefaultsBound(s: State, s': State, slice: nat)
    requires SameDefaults(s, s') && s'.tasks.Keys == s.tasks.Keys && SlicesUpTo(s, slice)
    ensures SlicesUpTo(s', slice)
  {
  }

  // ---------------------------------------------------------------------------------------------
  // With one, a Normal task never runs
  // ---------------------------------------------------------------------------------------------

  /** A RealTime task runs or is ready, and `p`, a Normal task, does not run. */
  ghost predicate Starving(s: State, p: TaskId) {
    && Inv(s) && s.running in s.tasks && Started(s) && !NoRealTime(s)
    && p in s.tasks && s.tasks[p].policy == Normal && s.running != p
  }

  lemma StarvingTick(s: State, order: seq<TaskId>, p: TaskId)
    requires Starving(s, p) && WakeOrder(NextTick(s), order)
    ensures TickEnabled(s, order) && Starving(Tick(s, order), p)
  {
    hide Base, WakeOrder, WakeAll, Schedule, Schedulable, FrontDispatched;
    TickInv(s, order);
    TickedOk(s, order);
    var m := Ticked(s, order);
    if MustPreempt(m, order != []) {
      ScheduleResult(m);
      ScheduleKeeps(m);
      assert Requeue(m).fifo != [];
      RealTimeFirst(m);
    }
  }

  lemma RealTimeFirst(m: State)
    requires m.running in m.tasks && Schedulable(m) && Requeue(m).fifo != []
    requires FrontDispatched(Requeue(m), Schedule(m))
    ensures var s' := Schedule(m);
            s'.running in s'.tasks && s'.tasks[s'.running].policy == RealTime && s'.tasks[s'.running].status == Running
  {
    hide Schedule, Schedulable, Requeue;
  }

  lemma {:induction false} Starves(s: State, n: nat, hz: nat, p: TaskId) returns (ops: seq<Op>)
    requires Starving(s, p)
    ensures Run(s, ops, hz) && TickOnly(ops) && Ticks(ops) == n && NeverRuns(s, ops, hz, p)
    decreases n
  {
    hide Inv, Tick, TickEnabled, WakeOrder;
    if n == 0 {
      ops := [];
    } else {
      var order := NextOrder(s);
      StarvingTick(s, order, p);
      OpInv(s, OpTick(order), hz);
      var rest := Starves(Tick(s, order), n - 1, hz, p);
      ops := [OpTick(order)] + rest;
      assert ops[1..] == rest;
    }
  }

  lemma NextOrder(s: State) returns (order: seq<TaskId>)
    requires Inv(s)
    ensures WakeOrder(NextTick(s), order)
  {
    hide Base, WakeOrder;
    assert s.running in s.tasks by { CurrentKnown(s); }
    AccountingBase(s, NextTick(s), s.running);
    order := SomeWakeOrder(NextTick(s));
  }

  // ---------------------------------------------------------------------------------------------
  // The bound, exactly
  // ---------------------------------------------------------------------------------------------

  /** No run of ticks alone keeps `p` from the core for `n` ticks. */
  ghost predicate RunsWithin(s: State, p: TaskId, n: nat, hz: nat) {
    forall ops :: Run(s, ops, hz) && TickOnly(ops) && NeverRuns(s, ops, hz, p) ==> Ticks(ops) < n
  }

  lemma {:induction false} FirstTicks(s: State, ops: seq<Op>, hz: nat, p: TaskId, n: nat)
    requires Run(s, ops, hz) && TickOnly(ops) && NeverRuns(s, ops, hz, p) && n <= |ops|
    ensures Run(s, ops[..n], hz) && NeverRuns(s, ops[..n], hz, p)
    ensures TickOnly(ops[..n]) && Ticks(ops[..n]) == n && Ticks(ops) == |ops|
    decreases |ops|
  {
    hide Do, Callable, Completes;
    if ops != [] {
      assert TickOnly(ops[1..]);
      FirstTicks(Do(s, ops[0], hz), ops[1..], hz, p, if n > 0 then n - 1 else 0);
      if n > 0 {
        assert ops[..n][0] == ops[0] && ops[..n][1..] == ops[1..][..n - 1];
      }
    }
  }

  /**
   The bound of round robin, exactly: of a reached run queue in which no sleeping RealTime task is
   due within `(k + 1) * slice` ticks, every run of ticks gives the task at index `k` of the Normal
   queue the core within so many ticks if and only if no RealTime task runs or is ready.
   */
  lemma BoundedWaitingExactly(s0: State, before: seq<Op>, hz: nat, k: nat, slice: nat)
    requires Init(s0) && Run(s0, before, hz)
    requires var s := Exec(s0, before, hz);
             && s.running in s.tasks && Started(s) && LateRealTime(s, s.localTick + (k + 1) * slice)
             && k < |s.rr| && slice >= 1 && SlicesUpTo(s, slice)
    ensures var s := Exec(s0, before, hz);
            RunsWithin(s, s.rr[k], (k + 1) * slice, hz) <==> NoRealTime(s)
  {
    hide Base, Run, Exec, NeverRuns, Waits, LateRealTime, NoRealTime;
    InitInv(s0);
    RunInv(s0, before, hz);
    var s, n := Exec(s0, before, hz), (k + 1) * slice;
    if NoRealTime(s) {
      forall ops | Run(s, ops, hz) && TickOnly(ops) && NeverRuns(s, ops, hz, s.rr[k])
        ensures Ticks(ops) < n
      {
        var m := if |ops| < n then |ops| else n;
        FirstTicks(s, ops, hz, s.rr[k], m);
        TicksBringNoRealTime(s, ops[..m], hz, s.rr[k], slice, n);
        BoundedWaiting(s0, before, ops[..m], hz, s.rr[k], k, slice);
      }
    } else {
      WaiterIsNormal(s, k);
      var ops := Starves(s, n, hz, s.rr[k]);
    }
  }

  lemma WaiterIsNormal(s: State, k: nat)
    requires Inv(s) && k < |s.rr|
    ensures s.rr[k] in s.tasks && s.tasks[s.rr[k]].policy == Normal && s.tasks[s.rr[k]].status == Ready
  {
    assert Is(s, s.rr[k], Ready);
  }

  // ---------------------------------------------------------------------------------------------
  // Such a state is reached
  // ---------------------------------------------------------------------------------------------

  function NewTask(policy: Policy): Task {
    Task(UnInit, policy, 0, 0, 0, 10, 0, 0)
  }

  function Boot(): State {
    State(map[0 := Task(Ready, IdlePolicy, 0, 0, 0, 10, 0, 0)], [], [], Some(0), multiset{}, map[], 0, 0, 0, 0)
  }

  /**
   A RealTime task 1 and a Normal task 2 are added to a fresh core and it schedules: the RealTime
   queue is empty, task 2 waits at the front, and it goes on waiting through any number of ticks.
   */
  lemma NormalTaskStarves(n: nat, hz: nat)
    ensures var before := [OpAdd(1, NewTask(RealTime)), OpAdd(2, NewTask(Normal)), OpYield];
            && Init(Boot()) && Run(Boot(), before, hz)
            && var s := Exec(Boot(), before, hz);
               && s.running == 1 && s.fifo == [] && s.rr == [2] && s.sleeping == multiset{}
               && Run(s, Ticking(n), hz) && NeverRuns(s, Ticking(n), hz, 2)
               && Exec(s, Ticking(n), hz).running == 1 && Exec(s, Ticking(n), hz).rr == [2]
  {
    var before := [OpAdd(1, NewTask(RealTime)), OpAdd(2, NewTask(Normal)), OpYield];
    var s1 := AddTask(Boot(), 1, NewTask(RealTime));
    var s2 := AddTask(s1, 2, NewTask(Normal));
    InitInv(Boot());
    AddTaskInv(Boot(), 1, NewTask(RealTime));
    AddTaskInv(s1, 2, NewTask(Normal));
    ScheduleInv(s2);
    FirstSchedule(s2);
    Chain(Boot(), s1, s2, before, hz);
    RealTimeHoldsCore(Schedule(s2), n, hz);
  }

  lemma FirstSchedule(s2: State)
    requires s2 == AddTask(AddTask(Boot(), 1, NewTask(RealTime)), 2, NewTask(Normal)) && ScheduleOk(s2)
    ensures var s := Schedule(s2);
            && s.running == 1 && s.running in s.tasks && s.tasks[1].policy == RealTime
            && s.fifo == [] && s.rr == [2] && s.sleeping == multiset{}
  {
    assert s2.fifo == [1] && s2.rr == [2];
  }

  lemma Chain(s0: State, s1: State, s2: State, ops: seq<Op>, hz: nat)
    requires |ops| == 3 && ops[2] == OpYield && ops[0].OpAdd? && ops[1].OpAdd?
    requires Callable(s0, ops[0]) && s1 == AddTask(s0, ops[0].id, ops[0].task)
    requires Callable(s1, ops[1]) && s2 == AddTask(s1, ops[1].id, ops[1].task) && ScheduleOk(s2)
    ensures Run(s0, ops, hz) && Exec(s0, ops, hz) == Schedule(s2)
  {
    hide ScheduleAsserts, Schedulable, Schedule, AddTask;
    var tail := ops[1..];
    assert tail[0] == ops[1] && tail[1..] == [OpYield];
    assert Run(s2, [OpYield], hz) && Exec(s2, [OpYield], hz) == Schedule(s2);
    assert Run(s1, tail, hz) && Exec(s1, tail, hz) == Schedule(s2);
  }
}
