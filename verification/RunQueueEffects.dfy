/** What each operation does to every task, list and counter of a run queue that is in order. */
module RunQueueEffects {

  import opened Basics
  import opened RunQueue
  import opened RunQueueInv
  import opened RunQueueTheorems

  /** The tasks of a list that have a policy, in the order of the list. */
  function OfPolicy(tasks: map<TaskId, Task>, q: seq<TaskId>, policy: Policy): seq<TaskId> {
    if q == [] then []
    else
      (if q[0] in tasks && tasks[q[0]].policy == policy then [q[0]] else []) + OfPolicy(tasks, q[1..], policy)
  }

  /** A task that joins the ready tasks; a Normal one with its slice refilled. */
  function MadeReady(t: Task): Task {
    t.(status := Ready, blockedOn := if t.status == Blocked then 0 else t.blockedOn,
       sliceRemaining := if t.policy == Normal then t.sliceDefault else t.sliceRemaining)
  }

  predicate TasksJoined(tasks: map<TaskId, Task>, tasks': map<TaskId, Task>, q: seq<TaskId>) {
    && tasks'.Keys == tasks.Keys
    && (forall p :: p in tasks ==> tasks'[p] == if p in q then MadeReady(tasks[p]) else tasks[p])
  }

  /** The tasks of `q` join the ready tasks in this order; no other task and no counter changes. */
  predicate Joined(s: State, s': State, q: seq<TaskId>) {
    && TasksJoined(s.tasks, s'.tasks, q)
    && s'.fifo == s.fifo + OfPolicy(s.tasks, q, RealTime)
    && s'.rr == s.rr + OfPolicy(s.tasks, q, Normal)
    && s'.idleSlot == s.idleSlot && s'.localTick == s.localTick && s'.totalSchedules == s.totalSchedules
    && s'.running == s.running && s'.idle == s.idle
  }

  predicate NoIdle(tasks: map<TaskId, Task>, q: seq<TaskId>) {
    forall i :: 0 <= i < |q| ==> q[i] in tasks && tasks[q[i]].policy != IdlePolicy
  }

  lemma {:induction false} SamePolicies(tasks: map<TaskId, Task>, tasks': map<TaskId, Task>, q: seq<TaskId>,
                                        policy: Policy)
    requires forall i :: 0 <= i < |q| ==> q[i] in tasks && q[i] in tasks' && tasks'[q[i]].policy == tasks[q[i]].policy
    ensures OfPolicy(tasks', q, policy) == OfPolicy(tasks, q, policy)
    decreases |q|
  {
    if q != [] {
      SamePolicies(tasks, tasks', q[1..], policy);
    }
  }

  /** One task joins, then the others: together they join in order. */
  lemma JoinedOn(s: State, s1: State, s': State, q: seq<TaskId>)
    requires q != [] && NoDup(q) && NoIdle(s.tasks, q) && Joined(s, s1, [q[0]]) && Joined(s1, s', q[1..])
    ensures Joined(s, s', q)
  {
    hide TasksJoined, OfPolicy, NoIdle, NoDup;
    TasksJoinedOn(s.tasks, s1.tasks, s'.tasks, q);
    OneOfPolicy(s.tasks, q, RealTime);
    OneOfPolicy(s.tasks, q, Normal);
  }

  lemma TasksJoinedOn(tasks: map<TaskId, Task>, tasks1: map<TaskId, Task>, tasks': map<TaskId, Task>, q: seq<TaskId>)
    requires q != [] && NoDup(q) && NoIdle(tasks, q)
    requires TasksJoined(tasks, tasks1, [q[0]]) && TasksJoined(tasks1, tasks', q[1..])
    ensures TasksJoined(tasks, tasks', q)
    ensures forall policy :: OfPolicy(tasks1, q[1..], policy) == OfPolicy(tasks, q[1..], policy)
  {
    hide OfPolicy;
    var rest := q[1..];
    forall i | 0 <= i < |rest|
      ensures rest[i] != q[0] && rest[i] in tasks && rest[i] in tasks1
      ensures tasks1[rest[i]].policy == tasks[rest[i]].policy
    {
      assert rest[i] == q[i + 1];
    }
    forall policy
      ensures OfPolicy(tasks1, rest, policy) == OfPolicy(tasks, rest, policy)
    {
      SamePolicies(tasks, tasks1, rest, policy);
    }
    assert forall p :: p in q <==> p == q[0] || p in rest by { assert q == [q[0]] + rest; }
    forall p | p in tasks
      ensures tasks'[p] == if p in q then MadeReady(tasks[p]) else tasks[p]
    {
    }
  }

  lemma OneOfPolicy(tasks: map<TaskId, Task>, q: seq<TaskId>, policy: Policy)
    requires q != []
    ensures OfPolicy(tasks, q, policy) == OfPolicy(tasks, [q[0]], policy) + OfPolicy(tasks, q[1..], policy)
  {
    assert [q[0]][1..] == [];
  }

  lemma RestOf(tasks: map<TaskId, Task>, tasks': map<TaskId, Task>, q: seq<TaskId>)
    requires q != [] && NoDup(q) && NoIdle(tasks, q)
    requires forall p :: p in tasks ==> p in tasks' && tasks'[p].policy == tasks[p].policy
    ensures NoDup(q[1..]) && NoIdle(tasks', q[1..])
  {
    forall i | 0 <= i < |q[1..]|
      ensures q[1..][i] in tasks' && tasks'[q[1..][i]].policy != IdlePolicy
    {
      assert q[1..][i] == q[i + 1];
    }
  }

  lemma JustOne(tasks: map<TaskId, Task>, p: TaskId, policy: Policy)
    ensures OfPolicy(tasks, [p], policy) == if p in tasks && tasks[p].policy == policy then [p] else []
  {
    assert [p][1..] == [];
  }

  lemma JoinedNone(s: State)
    ensures Joined(s, s, [])
  {
  }

  // ---------------------------------------------------------------------------------------------
  // Wakeup
  // ---------------------------------------------------------------------------------------------

  lemma UnblockOne(s: State, p: TaskId)
    requires p in s.tasks && s.tasks[p].policy != IdlePolicy && s.tasks[p].status == Blocked
    ensures Joined(s, Unblock(s, p), [p])
    ensures Unblock(s, p).blocked == s.blocked && Unblock(s, p).sleeping == s.sleeping
  {
    hide OfPolicy;
    JustOne(s.tasks, p, RealTime);
    JustOne(s.tasks, p, Normal);
    assert Unblock(s, p).tasks == s.tasks[p := MadeReady(s.tasks[p])];
  }

  lemma {:induction false} UnblockAllJoins(s: State, q: seq<TaskId>)
    requires AllKnown(s, q) && NoDup(q) && NoIdle(s.tasks, q)
    requires forall i :: 0 <= i < |q| ==> s.tasks[q[i]].status == Blocked
    ensures Joined(s, UnblockAll(s, q), q)
    ensures UnblockAll(s, q).blocked == s.blocked && UnblockAll(s, q).sleeping == s.sleeping
    decreases |q|
  {
    hide Joined, Unblock;
    if q == [] {
      JoinedNone(s);
    } else {
      var s1 := Unblock(s, q[0]);
      UnblockOne(s, q[0]);
      StillBlocked(s, s1, q);
      UnblockAllJoins(s1, q[1..]);
      JoinedOn(s, s1, UnblockAll(s1, q[1..]), q);
    }
  }

  lemma StillBlocked(s: State, s1: State, q: seq<TaskId>)
    requires q != [] && NoDup(q) && NoIdle(s.tasks, q) && Joined(s, s1, [q[0]])
    requires forall i :: 0 <= i < |q| ==> s.tasks[q[i]].status == Blocked
    ensures AllKnown(s1, q[1..]) && NoDup(q[1..]) && NoIdle(s1.tasks, q[1..])
    ensures forall i :: 0 <= i < |q[1..]| ==> s1.tasks[q[1..][i]].status == Blocked
  {
    RestOf(s.tasks, s1.tasks, q);
    forall i | 0 <= i < |q[1..]|
      ensures q[1..][i] in s1.tasks && s1.tasks[q[1..][i]].status == Blocked
    {
      assert q[1..][i] == q[i + 1] && q[i + 1] != q[0];
    }
  }

  /** The waiting list of a resource holds exactly the tasks that are blocked on it. */
  lemma WaitersAre(s: State, r: ResourceId)
    requires Inv(s)
    ensures NoDup(Waiting(s, r)) && NoIdle(s.tasks, Waiting(s, r)) && AllKnown(s, Waiting(s, r))
    ensures forall p :: p in s.tasks ==>
              (p in Waiting(s, r) <==> s.tasks[p].status == Blocked && s.tasks[p].blockedOn == r)
  {
    var q := Waiting(s, r);
    assert r in s.blocked ==> WaitingList(s, r, q);
    forall i | 0 <= i < |q|
      ensures q[i] in s.tasks && s.tasks[q[i]].policy != IdlePolicy
    {
      assert Is(s, q[i], Blocked);
      assert Placed(s, q[i]);
    }
    forall p | p in s.tasks
      ensures p in q <==> s.tasks[p].status == Blocked && s.tasks[p].blockedOn == r
    {
      if p in q {
        var i :| 0 <= i < |q| && q[i] == p;
        assert Is(s, q[i], Blocked);
      } else if p != s.idle {
        assert Placed(s, p);
      }
    }
  }

  /**
   Wakeup makes ready exactly the tasks that are blocked on the resource, in the order in which
   they wait, erases the waiting list and changes nothing else.
   */
  lemma WakeupEffect(s: State, r: ResourceId)
    requires Inv(s)
    ensures AllKnown(s, Waiting(s, r))
    ensures var s', q := Wakeup(s, r), Waiting(s, r);
            && s'.blocked == s.blocked - {r} && s'.sleeping == s.sleeping && Joined(s, s', q)
            && (forall p :: p in s.tasks ==>
                  (p in q <==> s.tasks[p].status == Blocked && s.tasks[p].blockedOn == r))
            && (forall p :: p in s.tasks && s.tasks[p].status == Blocked && s.tasks[p].blockedOn == r ==>
                  s'.tasks[p].status == Ready && s'.tasks[p].blockedOn == 0)
  {
    hide Inv, UnblockAll;
    var q := Waiting(s, r);
    WaitersAre(s, r);
    if r in s.blocked {
      UnblockAllJoins(s, q);
    } else {
      JoinedNone(s);
    }
  }

  // ---------------------------------------------------------------------------------------------
  // Schedule
  // ---------------------------------------------------------------------------------------------

  predicate GoesBack(s: State, policy: Policy)
    requires s.running in s.tasks
  {
    s.tasks[s.running].status == Running && s.tasks[s.running].policy == policy
  }

  /** The ready lists once the running task, if it still runs, has gone to the end of its own. */
  function FifoWithCurrent(s: State): seq<TaskId>
    requires s.running in s.tasks
  {
    s.fifo + if GoesBack(s, RealTime) then [s.running] else []
  }

  function RrWithCurrent(s: State): seq<TaskId>
    requires s.running in s.tasks
  {
    s.rr + if GoesBack(s, Normal) then [s.running] else []
  }

  function NextOf(s: State): TaskId
    requires s.running in s.tasks
  {
    if FifoWithCurrent(s) != [] then FifoWithCurrent(s)[0]
    else if RrWithCurrent(s) != [] then RrWithCurrent(s)[0]
    else s.idle
  }

  /**
   The front of the RealTime list, or else of the Normal list, or else the idle task runs with a
   full slice; the task that ran is ready again if it still ran; every other task is untouched.
   */
  ghost predicate Scheduled(s: State, s': State)
    requires s.running in s.tasks
  {
    var next := NextOf(s);
    && s'.running == next && s'.totalSchedules == s.totalSchedules + 1
    && s'.fifo == (if FifoWithCurrent(s) != [] then FifoWithCurrent(s)[1..] else [])
    && s'.rr == (if FifoWithCurrent(s) == [] && RrWithCurrent(s) != [] then RrWithCurrent(s)[1..] else RrWithCurrent(s))
    && s'.sleeping == s.sleeping && s'.blocked == s.blocked && s'.localTick == s.localTick
    && s'.idle == s.idle && s'.idleSlot == s.idleSlot
    && s'.tasks.Keys == s.tasks.Keys
    && (forall p :: p in s.tasks ==>
          s'.tasks[p] ==
            var t := s.tasks[p];
            if p == next then
              t.(status := Running, sliceRemaining := t.sliceDefault, contextSwitches := t.contextSwitches + 1)
            else if p == s.running && t.status == Running then MadeReady(t)
            else t)
  }

  lemma RequeueEffect(s: State)
    requires s.running in s.tasks
    ensures var r := Requeue(s);
            && r.fifo == FifoWithCurrent(s) && r.rr == RrWithCurrent(s) && r.tasks.Keys == s.tasks.Keys
            && r == s.(tasks := r.tasks, fifo := r.fifo, rr := r.rr)
            && (forall p :: p in s.tasks ==>
                  r.tasks[p] == if p == s.running && s.tasks[p].status == Running then MadeReady(s.tasks[p])
                                else s.tasks[p])
  {
  }

  lemma ScheduleEffect(s: State)
    requires Base(s)
    ensures s.running in s.tasks && Schedulable(s) && Scheduled(s, Schedule(s))
  {
    hide Base, Requeue, Schedule, Schedulable;
    CurrentKnown(s);
    ScheduleResult(s);
    RequeueEffect(s);
    FrontEffect(s, Requeue(s), Schedule(s));
  }

  lemma FrontEffect(s: State, r: State, s': State)
    requires s.running in s.tasks && FrontDispatched(r, s')
    requires r.fifo == FifoWithCurrent(s) && r.rr == RrWithCurrent(s) && r.tasks.Keys == s.tasks.Keys
    requires r == s.(tasks := r.tasks, fifo := r.fifo, rr := r.rr)
    requires forall p :: p in s.tasks ==>
               r.tasks[p] == if p == s.running && s.tasks[p].status == Running then MadeReady(s.tasks[p])
                             else s.tasks[p]
    ensures Scheduled(s, s')
  {
    hide FifoWithCurrent, RrWithCurrent;
  }

  // ---------------------------------------------------------------------------------------------
  // TickUpdate
  // ---------------------------------------------------------------------------------------------

  lemma SleeperIs(s: State, p: TaskId)
    requires Inv(s) && p in s.sleeping
    ensures p in s.tasks && s.tasks[p].policy != IdlePolicy && s.tasks[p].status == Sleeping
    ensures p != s.running && s.sleeping[p] == 1
  {
    assert Is(s, p, Sleeping);
    assert Placed(s, p);
  }

  lemma WakeOneJoins(s: State, p: TaskId)
    requires Inv(s) && p in s.sleeping
    ensures p in s.tasks && s.tasks[p].policy != IdlePolicy && Joined(s, WakeOne(s, p), [p])
    ensures WakeOne(s, p).sleeping == s.sleeping - multiset{p} && WakeOne(s, p).blocked == s.blocked
    ensures p !in WakeOne(s, p).sleeping && s.tasks[p].status == Sleeping && p != s.running
  {
    hide Inv, OfPolicy;
    SleeperIs(s, p);
    JustOne(s.tasks, p, RealTime);
    JustOne(s.tasks, p, Normal);
    var s' := WakeOne(s, p);
    assert s'.tasks == s.tasks[p := MadeReady(s.tasks[p])];
  }

  /** `order` lists the due sleepers, each once. */
  ghost predicate DueOnes(s: State, order: seq<TaskId>) {
    && NoDup(order) && NoIdle(s.tasks, order) && SleepersKnown(s)
    && (forall p :: p in order <==> p in s.sleeping && s.tasks[p].wakeTick <= s.localTick)
    && (forall p :: p in order ==> s.tasks[p].status == Sleeping && p != s.running)
  }

  lemma NoneDue(s: State)
    requires WakeOrder(s, [])
    ensures DueOnes(s, []) && WakeAll(s, []) == s && s.sleeping - multiset([]) == s.sleeping
  {
  }

  lemma FirstDue(s: State, order: seq<TaskId>)
    requires order != [] && WakeOrder(s, order)
    ensures order[0] in s.sleeping && order[0] in s.tasks && s.tasks[order[0]].wakeTick <= s.localTick
    ensures SleepersKnown(s) && IsTop(s, order[0]) && WakeOrder(WakeOne(s, order[0]), order[1..])
    ensures WakeAll(s, order) == WakeAll(WakeOne(s, order[0]), order[1..])
    ensures multiset(order) == multiset{order[0]} + multiset(order[1..])
  {
    assert order == [order[0]] + order[1..];
  }

  /** Exactly the due sleepers are woken, each once, in the order in which the heap gives them up. */
  lemma {:induction false} WakeAllJoins(s: State, order: seq<TaskId>)
    requires Inv(s) && WakeOrder(s, order)
    ensures Joined(s, WakeAll(s, order), order) && DueOnes(s, order)
    ensures WakeAll(s, order).sleeping == s.sleeping - multiset(order) && WakeAll(s, order).blocked == s.blocked
    decreases |order|
  {
    hide Inv, WakeOne, WakeOrder, WakeAll, Joined, DueOnes, NoDup, NoIdle;
    if order == [] {
      JoinedNone(s);
      NoneDue(s);
    } else {
      FirstDue(s, order);
      var s1, rest := WakeOne(s, order[0]), order[1..];
      WakeOneJoins(s, order[0]);
      WakeOneInv(s, order[0]);
      WakeAllJoins(s1, rest);
      DueOn(s, s1, order);
      assert NoDup(order) && NoIdle(s.tasks, order) by { OnceEach(s, order); }
      JoinedOn(s, s1, WakeAll(s1, rest), order);
    }
  }

  lemma OnceEach(s: State, order: seq<TaskId>)
    requires DueOnes(s, order)
    ensures NoDup(order) && NoIdle(s.tasks, order)
  {
  }

  lemma DueOn(s: State, s1: State, order: seq<TaskId>)
    requires order != [] && order[0] in s.sleeping && order[0] in s.tasks && s.tasks[order[0]].policy != IdlePolicy
    requires Joined(s, s1, [order[0]]) && s1.sleeping == s.sleeping - multiset{order[0]} && order[0] !in s1.sleeping
    requires s.tasks[order[0]].status == Sleeping && order[0] != s.running && s.tasks[order[0]].wakeTick <= s.localTick
    requires SleepersKnown(s) && DueOnes(s1, order[1..])
    ensures DueOnes(s, order)
  {
    hide OfPolicy, NoDup, NoIdle;
    var first, rest := order[0], order[1..];
    assert forall p :: p in order <==> p == first || p in rest by { assert order == [first] + rest; }
    forall p | p in s.sleeping && p != first
      ensures p in s1.sleeping && s1.tasks[p] == s.tasks[p]
    {
    }
    assert forall p :: p in rest ==> p in s.sleeping && p != first && s1.tasks[p] == s.tasks[p];
    assert NoDup(order) && NoIdle(s.tasks, order) by { Prepended(s.tasks, s1.tasks, order); }
  }

  lemma Prepended(tasks: map<TaskId, Task>, tasks1: map<TaskId, Task>, order: seq<TaskId>)
    requires order != [] && order[0] !in order[1..] && NoDup(order[1..]) && NoIdle(tasks1, order[1..])
    requires order[0] in tasks && tasks[order[0]].policy != IdlePolicy
    requires forall p :: p in order[1..] ==> p in tasks && p in tasks1 && tasks1[p] == tasks[p]
    ensures NoDup(order) && NoIdle(tasks, order)
  {
    var rest := order[1..];
    forall i, j | 0 <= i < j < |order|
      ensures order[i] != order[j]
    {
      assert order[j] == rest[j - 1];
      assert i > 0 ==> order[i] == rest[i - 1];
    }
    forall i | 0 <= i < |order|
      ensures order[i] in tasks && tasks[order[i]].policy != IdlePolicy
    {
      assert i > 0 ==> order[i] == rest[i - 1];
    }
  }

  /** A running task pays one tick of its slice. */
  function Paid(t: Task): Task {
    t.(totalRuntime := t.totalRuntime + 1, sliceRemaining := if t.sliceRemaining > 0 then t.sliceRemaining - 1 else 0)
  }

  /** The run queue `m` in which a tick has woken the tasks of `order` and charged the running task. */
  ghost predicate Elapsed(s: State, m: State, order: seq<TaskId>)
    requires s.running in s.tasks
  {
    && m.localTick == (s.localTick + 1) % U64
    && m.tasks.Keys == s.tasks.Keys
    && (forall p :: p in s.tasks ==>
          m.tasks[p] == if p == s.running then Paid(s.tasks[p])
                        else if p in order then MadeReady(s.tasks[p])
                        else s.tasks[p])
    && m.fifo == s.fifo + OfPolicy(s.tasks, order, RealTime) && m.rr == s.rr + OfPolicy(s.tasks, order, Normal)
    && m.sleeping == s.sleeping - multiset(order) && m.blocked == s.blocked
    && m.idleSlot == s.idleSlot && m.totalSchedules == s.totalSchedules && m.running == s.running && m.idle == s.idle
  }

  lemma ChargeElapsed(s: State, w: State, order: seq<TaskId>)
    requires s.running in s.tasks && s.tasks[s.running].status == Running && s.running !in order
    requires Joined(NextTick(s), w, order) && w.sleeping == s.sleeping - multiset(order) && w.blocked == s.blocked
    ensures w.running in w.tasks && Elapsed(s, Charge(w), order)
  {
    hide OfPolicy;
  }

  ghost predicate SomeoneDue(s: State) {
    exists p :: p in s.sleeping && p in s.tasks && s.tasks[p].wakeTick <= NextTick(s).localTick
  }

  /**
   A tick wakes exactly the due sleepers and charges the running task. It then reschedules if and
   only if a sleeper was due or the slice of the running task is used up.
   */
  lemma TickEffect(s: State, order: seq<TaskId>) returns (m: State)
    requires Inv(s) && s.running in s.tasks && Started(s) && WakeOrder(NextTick(s), order)
    ensures TickEnabled(s, order) && Base(m) && Elapsed(s, m, order) && m.running in m.tasks && NoDup(order)
    ensures forall p :: p in order <==> p in s.sleeping && p in s.tasks && s.tasks[p].wakeTick <= NextTick(s).localTick
    ensures if SomeoneDue(s) || s.tasks[s.running].sliceRemaining <= 1 then Scheduled(m, Tick(s, order))
            else Tick(s, order) == m
  {
    hide Base, WakeOrder, WakeAll, Schedule, Schedulable, Joined, Elapsed, Scheduled;
    TickInv(s, order);
    TickedOk(s, order);
    NextTickInv(s);
    WakeAllJoins(NextTick(s), order);
    m := Ticked(s, order);
    DueNow(s, order);
    ChargeElapsed(s, WakeAll(NextTick(s), order), order);
    ScheduleEffect(m);
    assert m.tasks[m.running].sliceRemaining == Paid(s.tasks[s.running]).sliceRemaining;
  }

  lemma DueNow(s: State, order: seq<TaskId>)
    requires DueOnes(NextTick(s), order)
    ensures NoDup(order) && s.running !in order && (order != [] <==> SomeoneDue(s))
    ensures forall p :: p in order <==> p in s.sleeping && p in s.tasks && s.tasks[p].wakeTick <= NextTick(s).localTick
  {
    if order != [] {
      assert order[0] in order;
    }
  }

  predicate BestRuns(s: State)
    requires s.running in s.tasks
  {
    forall p :: p in s.tasks && s.tasks[p].status == Ready ==>
      Rank(s.tasks[s.running].policy) <= Rank(s.tasks[p].policy)
  }

  lemma ScheduledBest(m: State, s': State)
    requires Base(m) && m.running in m.tasks && Scheduled(m, s') && Inv(s')
    ensures s'.running in s'.tasks && BestRuns(s')
  {
    forall p | p in s'.tasks && s'.tasks[p].status == Ready
      ensures Rank(s'.tasks[s'.running].policy) <= Rank(s'.tasks[p].policy)
    {
      assert p != s'.idle ==> Placed(s', p);
      assert s'.running != s'.idle ==> Placed(s', s'.running);
      RunnerPolicy(m, s');
    }
  }

  lemma RunnerPolicy(m: State, s': State)
    requires Base(m) && m.running in m.tasks && Scheduled(m, s') && Inv(s')
    ensures s'.running in s'.tasks
    ensures s'.tasks[s'.running].policy == Normal ==> s'.fifo == []
    ensures s'.tasks[s'.running].policy == IdlePolicy ==> s'.fifo == [] && s'.rr == []
  {
    assert m.fifo != [] ==> Is(m, m.fifo[0], Ready) && m.tasks[m.fifo[0]].policy == RealTime;
    assert m.rr != [] ==> Is(m, m.rr[0], Ready) && m.tasks[m.rr[0]].policy == Normal;
  }

  /**
   After a tick on which a sleeper was due, no ready task has a better policy than the running one;
   and a tick reschedules, once, if and only if a sleeper was due or the slice is used up.
   */
  lemma TickReschedules(s: State, order: seq<TaskId>)
    requires Inv(s) && s.running in s.tasks && Started(s) && WakeOrder(NextTick(s), order)
    ensures TickEnabled(s, order) && Tick(s, order).running in Tick(s, order).tasks
    ensures SomeoneDue(s) ==> BestRuns(Tick(s, order))
    ensures Tick(s, order).totalSchedules
         == s.totalSchedules + if SomeoneDue(s) || s.tasks[s.running].sliceRemaining <= 1 then 1 else 0
  {
    hide Inv, WakeOrder, Tick, TickEnabled, BestRuns, SomeoneDue, Base;
    var m := TickEffect(s, order);
    assert Inv(Tick(s, order)) by { TickInv(s, order); }
    if SomeoneDue(s) || s.tasks[s.running].sliceRemaining <= 1 {
      ScheduledBest(m, Tick(s, order));
    }
  }

  // ---------------------------------------------------------------------------------------------
  // Sleep, Block and AddTask
  // ---------------------------------------------------------------------------------------------

  /** Only the record of the running task differs. */
  predicate OnlyCurrent(s: State, m: State, t: Task)
    requires s.running in s.tasks
  {
    && m.tasks == s.tasks[s.running := t] && m.fifo == s.fifo && m.rr == s.rr && m.idleSlot == s.idleSlot
    && m.localTick == s.localTick && m.totalSchedules == s.totalSchedules && m.running == s.running && m.idle == s.idle
  }

  /** Block leaves the caller Blocked on the resource, at the end of its waiting list, and schedules. */
  lemma BlockEffect(s: State, r: ResourceId) returns (m: State)
    requires Inv(s) && s.running in s.tasks && Started(s) && s.running != s.idle
    ensures Schedulable(GoToBlocked(s, r)) && m.running in m.tasks && Scheduled(m, Block(s, r))
    ensures OnlyCurrent(s, m, s.tasks[s.running].(status := Blocked, blockedOn := r)) && m.sleeping == s.sleeping
    ensures m.blocked.Keys == s.blocked.Keys + {r} && Waiting(m, r) == Waiting(s, r) + [s.running]
    ensures forall x :: x in s.blocked && x != r ==> m.blocked[x] == s.blocked[x]
    ensures var s' := Block(s, r);
            && s'.running != s.running && s.running in s'.tasks && s'.tasks[s.running].status == Blocked
            && s'.tasks[s.running].blockedOn == r && Waiting(s', r) == Waiting(s, r) + [s.running]
  {
    hide Base, Schedule, Schedulable;
    m := GoToBlocked(s, r);
    GoToBlockedBase(s, r);
    ScheduleEffect(m);
    LeftBehind(m, Block(s, r));
  }

  /** A task that does not run when Schedule is entered, and is not ready, is left. */
  lemma LeftBehind(m: State, s': State)
    requires Base(m) && m.running in m.tasks && Scheduled(m, s') && m.running != m.idle
    requires m.tasks[m.running].status != Running && m.tasks[m.running].status != Ready
    ensures s'.running != m.running && s'.tasks[m.running] == m.tasks[m.running]
  {
    assert m.fifo != [] ==> Is(m, m.fifo[0], Ready);
    assert m.rr != [] ==> Is(m, m.rr[0], Ready);
  }

  /** Sleep leaves the caller asleep until its deadline and schedules; Sleep(0) only schedules. */
  lemma SleepEffect(s: State, ms: nat, hz: nat) returns (m: State)
    requires Inv(s) && s.running in s.tasks && Started(s) && s.running != s.idle
    ensures if ms == 0 then Schedulable(s) else Schedulable(GoToSleep(s, ms, hz))
    ensures m.running in m.tasks && Scheduled(m, Sleep(s, ms, hz)) && m.blocked == s.blocked
    ensures ms == 0 ==> m == s
    ensures ms > 0 ==>
              var t := s.tasks[s.running];
              && m.running in m.tasks
              && OnlyCurrent(s, m, t.(status := Sleeping, wakeTick := m.tasks[m.running].wakeTick))
              && m.sleeping == s.sleeping + multiset{s.running}
              && Sleep(s, ms, hz).running != s.running
  {
    hide Base, Schedule, Schedulable;
    if ms == 0 {
      m := s;
      ScheduleEffect(m);
    } else {
      m := GoToSleep(s, ms, hz);
      GoToSleepBase(s, ms, hz);
      NotQueued(s);
      ScheduleEffect(m);
      LeftBehind(m, Sleep(s, ms, hz));
    }
  }

  lemma NotQueued(s: State)
    requires Inv(s) && s.running in s.tasks && Started(s)
    ensures RemoveAll(s.fifo, s.running) == s.fifo && RemoveFirst(s.rr, s.running) == s.rr
    ensures s.tasks[s.running].policy == IdlePolicy ==> s.running == s.idle
  {
    forall i | 0 <= i < |s.fifo|
      ensures s.fifo[i] != s.running
    {
      assert Is(s, s.fifo[i], Ready);
    }
    forall i | 0 <= i < |s.rr|
      ensures s.rr[i] != s.running
    {
      assert Is(s, s.rr[i], Ready);
    }
    RemoveAbsent(s.fifo, s.running);
    RemoveAbsent(s.rr, s.running);
    assert s.running != s.idle ==> Placed(s, s.running);
  }

  /** A new task is ready at the end of its policy's list and nothing else changes. */
  lemma AddEffect(s: State, p: TaskId, t: Task)
    requires Inv(s) && p !in s.tasks && t.status == UnInit && t.policy != IdlePolicy
    ensures var s' := AddTask(s, p, t);
            && s'.tasks.Keys == s.tasks.Keys + {p} && s'.tasks[p] == MadeReady(t)
            && (forall x :: x in s.tasks ==> s'.tasks[x] == s.tasks[x])
            && s'.fifo == s.fifo + (if t.policy == RealTime then [p] else [])
            && s'.rr == s.rr + (if t.policy == Normal then [p] else [])
            && s' == s.(tasks := s'.tasks, fifo := s'.fifo, rr := s'.rr)
  {
    hide Inv;
  }

  // ---------------------------------------------------------------------------------------------
  // A slice
  // ---------------------------------------------------------------------------------------------

  /** No sleeper is due within `n` ticks, and the clock does not wrap. */
  predicate NobodyDue(s: State, n: nat) {
    && s.localTick + n < U64
    && forall p :: p in s.sleeping ==> p in s.tasks && s.tasks[p].wakeTick > s.localTick + n
  }

  lemma QuietElapsed(s: State, n: nat)
    requires Inv(s) && s.running in s.tasks && Started(s) && NobodyDue(s, n) && n > 0
    ensures WakeOrder(NextTick(s), []) && !SomeoneDue(s)
  {
  }

  function QuietTicks(n: nat): (r: seq<Op>)
    ensures |r| == n
  {
    if n == 0 then [] else [OpTick([])] + QuietTicks(n - 1)
  }

  predicate SameSleepers(s: State, s': State) {
    && s'.sleeping == s.sleeping
    && forall p :: p in s.sleeping ==> p in s.tasks && p in s'.tasks && s'.tasks[p].wakeTick == s.tasks[p].wakeTick
  }

  /** `n` ticks later the same task runs, and nothing but its accounting and the clock has changed. */
  ghost predicate RanOn(s: State, s': State, n: nat)
    requires s.running in s.tasks
  {
    && Inv(s') && s'.running == s.running && s.running in s'.tasks && Started(s')
    && s'.totalSchedules == s.totalSchedules && s'.fifo == s.fifo && s'.rr == s.rr && s'.blocked == s.blocked
    && Left(s') == Left(s) - n && s'.localTick == s.localTick + n
    && SameSleepers(s, s')
  }

  lemma ElapsedRanOn(s: State, m: State)
    requires s.running in s.tasks && Started(s) && Elapsed(s, m, []) && Inv(m) && s.localTick + 1 < U64 && Left(s) > 1
    requires forall p :: p in s.sleeping ==> p in s.tasks && p != s.running
    ensures RanOn(s, m, 1)
  {
    hide Inv;
    assert s.sleeping - multiset([]) == s.sleeping;
  }

  lemma StillNobodyDue(s: State, s': State, n: nat)
    requires s.running in s.tasks && NobodyDue(s, n) && n > 0 && RanOn(s, s', 1)
    ensures NobodyDue(s', n - 1)
  {
    hide Inv;
  }

  lemma RanOnTrans(s: State, s1: State, s': State, n: nat)
    requires s.running in s.tasks && RanOn(s, s1, 1) && RanOn(s1, s', n)
    ensures RanOn(s, s', n + 1)
  {
    hide Inv;
  }

  /**
   While nobody wakes, the running task keeps the core for exactly the ticks left of its slice, and
   for one if none is left: through any fewer ticks it runs on and nothing is scheduled.
   */
  lemma {:induction false} SliceLasts(s: State, n: nat, hz: nat)
    requires Inv(s) && s.running in s.tasks && Started(s) && NobodyDue(s, n) && n < Left(s)
    ensures Run(s, QuietTicks(n), hz) && RanOn(s, Exec(s, QuietTicks(n), hz), n)
    decreases n
  {
    hide Inv, Tick, TickEnabled, WakeOrder, NobodyDue, Completes;
    if n == 0 {
      NoTicks(s);
    } else {
      SliceStep(s, n, hz);
      var s1 := Tick(s, []);
      StillNobodyDue(s, s1, n);
      assert QuietTicks(n)[0] == OpTick([]) && QuietTicks(n)[1..] == QuietTicks(n - 1);
      SliceLasts(s1, n - 1, hz);
      RanOnTrans(s, s1, Exec(s1, QuietTicks(n - 1), hz), n - 1);
    }
  }

  lemma NoTicks(s: State)
    requires Inv(s) && s.running in s.tasks && Started(s)
    ensures RanOn(s, s, 0)
  {
    forall p | p in s.sleeping
      ensures p in s.tasks
    {
      SleeperIs(s, p);
    }
  }

  lemma SliceStep(s: State, n: nat, hz: nat)
    requires Inv(s) && s.running in s.tasks && Started(s) && NobodyDue(s, n) && 0 < n < Left(s)
    ensures Callable(s, OpTick([])) && Completes(s, OpTick([]), hz) && TickEnabled(s, []) && RanOn(s, Tick(s, []), 1)
  {
    hide Inv, Base, Tick, TickEnabled, WakeOrder, SomeoneDue, Elapsed, RanOn, Completes, Scheduled;
    QuietElapsed(s, n);
    var m := TickEffect(s, []);
    OpInv(s, OpTick([]), hz);
    forall p | p in s.sleeping
      ensures p in s.tasks && p != s.running
    {
      SleeperIs(s, p);
    }
    assert Inv(m) by { TickInv(s, []); }
    ElapsedRanOn(s, m);
  }

  /**
   A task that Schedule has dispatched keeps the core for its default slice, or one tick if that is
   zero, when nobody wakes, and the tick that uses it up reschedules.
   */
  lemma DispatchedSlice(s: State, s1: State, n: nat, hz: nat) returns (s2: State)
    requires Inv(s) && Schedulable(s) && s1 == Schedule(s) && s1.running in s1.tasks
    requires n == if s1.tasks[s1.running].sliceDefault == 0 then 1 else s1.tasks[s1.running].sliceDefault
    requires NobodyDue(s1, n)
    ensures Run(s1, QuietTicks(n - 1), hz) && s2 == Exec(s1, QuietTicks(n - 1), hz)
    ensures s2.running == s1.running && s2.totalSchedules == s1.totalSchedules
    ensures TickEnabled(s2, []) && Tick(s2, []).totalSchedules == s1.totalSchedules + 1
  {
    hide Base, Schedule, Schedulable, Run, Exec, Tick, TickEnabled, WakeOrder, SomeoneDue, QuietTicks, NobodyDue;
    assert Base(s) && Inv(s1) by { ScheduleInv(s); }
    ScheduleEffect(s);
    DueSooner(s1, n, n - 1);
    SliceLasts(s1, n - 1, hz);
    s2 := Exec(s1, QuietTicks(n - 1), hz);
    LastTick(s1, s2, n);
    QuietElapsed(s2, 1);
    TickReschedules(s2, []);
  }

  lemma DueSooner(s: State, n: nat, k: nat)
    requires NobodyDue(s, n) && k <= n
    ensures NobodyDue(s, k)
  {
  }

  lemma LastTick(s: State, s': State, n: nat)
    requires s.running in s.tasks && n > 0 && NobodyDue(s, n) && RanOn(s, s', n - 1)
    ensures NobodyDue(s', 1)
  {
    hide Inv;
  }
}
