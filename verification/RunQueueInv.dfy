/** Every operation of the run queue keeps each task in exactly one place, as its status says. */
module RunQueueInv {
  import opened Basics
  import opened RunQueue

  predicate NoDup(q: seq<TaskId>) {
    forall i, j :: 0 <= i < j < |q| ==> q[i] != q[j]
  }

  predicate Is(s: State, p: TaskId, status: Status) {
    p in s.tasks && p != s.idle && s.tasks[p].status == status
  }

  predicate ReadyList(s: State, q: seq<TaskId>, policy: Policy) {
    && NoDup(q)
    && forall i :: 0 <= i < |q| ==> Is(s, q[i], Ready) && s.tasks[q[i]].policy == policy
  }

  predicate WaitingList(s: State, r: ResourceId, q: seq<TaskId>) {
    && q != [] && NoDup(q)
    && forall i :: 0 <= i < |q| ==> Is(s, q[i], Blocked) && s.tasks[q[i]].blockedOn == r
  }

  /** A task other than idle is where its status says. */
  predicate Placed(s: State, p: TaskId)
    requires p in s.tasks
  {
    var t := s.tasks[p];
    t.policy != IdlePolicy &&
    match t.status
    case Ready => (t.policy == RealTime && p in s.fifo) || (t.policy == Normal && p in s.rr)
    case Running => p == s.running
    case Sleeping => p in s.sleeping
    case Blocked => t.blockedOn in s.blocked && p in s.blocked[t.blockedOn]
    case _ => false
  }

  predicate IdleOk(s: State) {
    && s.idle in s.tasks && s.tasks[s.idle].policy == IdlePolicy && s.idleSlot == Some(s.idle)
    && (s.tasks[s.idle].status == Ready || (s.tasks[s.idle].status == Running && s.running == s.idle))
  }

  /** Holds between operations, and also inside them when Schedule is entered. */
  ghost predicate Base(s: State) {
    && s.running in s.tasks
    && IdleOk(s)
    && ReadyList(s, s.fifo, RealTime)
    && ReadyList(s, s.rr, Normal)
    && SleepersOk(s)
    && WaitersOk(s)
    && AllPlaced(s)
  }

  predicate SleepersOk(s: State) {
    forall p :: p in s.sleeping ==> Is(s, p, Sleeping) && s.sleeping[p] == 1
  }

  predicate WaitersOk(s: State) {
    forall r :: r in s.blocked ==> WaitingList(s, r, s.blocked[r])
  }

  predicate AllPlaced(s: State) {
    forall p :: p in s.tasks && p != s.idle ==> Placed(s, p)
  }

  /** The running task has status Running, except that idle stands in before the first Schedule. */
  predicate RunningOk(s: State)
    requires s.running in s.tasks
  {
    if s.totalSchedules > 0 then s.tasks[s.running].status == Running
    else s.running == s.idle && s.tasks[s.idle].status == Ready
  }

  ghost predicate Inv(s: State) {
    Base(s) && RunningOk(s)
  }

  ghost predicate Started(s: State)
    requires s.running in s.tasks
  {
    s.tasks[s.running].status == Running
  }

  ghost predicate NobodyRuns(s: State) {
    forall p :: p in s.tasks ==> s.tasks[p].status != Running
  }

  // ---------------------------------------------------------------------------------------------
  // Moving one task from one place to another
  // ---------------------------------------------------------------------------------------------

  /** Only task `p` may differ between the two states, and no other task leaves its place. */
  ghost predicate OnlyMoved(s: State, s': State, p: TaskId) {
    && s'.idle == s.idle && s'.idleSlot == s.idleSlot
    && s'.tasks.Keys == s.tasks.Keys + {p}
    && (forall x :: x in s.tasks && x != p ==> s'.tasks[x] == s.tasks[x])
    && (forall x :: x in s.fifo && x != p ==> x in s'.fifo)
    && (forall x :: x in s.rr && x != p ==> x in s'.rr)
    && (forall x :: x in s.sleeping && x != p ==> x in s'.sleeping)
    && (forall r, x :: r in s.blocked && x in s.blocked[r] && x != p ==>
          r in s'.blocked && x in s'.blocked[r])
    && (s'.running != s.running ==>
          p == s.running || (s.running in s.tasks ==> s.tasks[s.running].status != Running))
  }

  lemma OthersPlaced(s: State, s': State, p: TaskId)
    requires Base(s) && OnlyMoved(s, s', p)
    ensures (p in s'.tasks && (p == s'.idle || Placed(s', p))) ==> AllPlaced(s')
  {
    forall x | x in s'.tasks && x != p && x != s'.idle
      ensures Placed(s', x)
    {
      assert Placed(s, x);
    }
  }

  lemma ListKept(s: State, s': State, q: seq<TaskId>, policy: Policy, p: TaskId)
    requires ReadyList(s, q, policy) && p !in q && s'.idle == s.idle
    requires forall x :: x in s.tasks && x != p ==> x in s'.tasks && s'.tasks[x] == s.tasks[x]
    ensures ReadyList(s', q, policy)
  {
    forall i | 0 <= i < |q|
      ensures Is(s', q[i], Ready) && s'.tasks[q[i]].policy == policy
    {
      assert Is(s, q[i], Ready);
    }
  }

  lemma Appended(s: State, s': State, q: seq<TaskId>, policy: Policy, p: TaskId)
    requires ReadyList(s, q, policy) && p !in q && s'.idle == s.idle
    requires forall x :: x in s.tasks && x != p ==> x in s'.tasks && s'.tasks[x] == s.tasks[x]
    requires Is(s', p, Ready) && s'.tasks[p].policy == policy
    ensures ReadyList(s', q + [p], policy)
  {
    ListKept(s, s', q, policy, p);
  }

  lemma Popped(s: State, s': State, q: seq<TaskId>, policy: Policy)
    requires q != [] && ReadyList(s, q, policy) && s'.idle == s.idle
    requires forall x :: x in s.tasks && x != q[0] ==> x in s'.tasks && s'.tasks[x] == s.tasks[x]
    ensures ReadyList(s', q[1..], policy) && q[0] !in q[1..]
    ensures forall x :: x in q && x != q[0] ==> x in q[1..]
  {
    forall i | 0 <= i < |q[1..]|
      ensures q[1..][i] != q[0] && Is(s', q[1..][i], Ready) && s'.tasks[q[1..][i]].policy == policy
    {
      assert q[1..][i] == q[i + 1];
      assert Is(s, q[i + 1], Ready);
    }
  }

  lemma WaitersKept(s: State, s': State, p: TaskId)
    requires Base(s) && s'.idle == s.idle
    requires forall x :: x in s.tasks && x != p ==> x in s'.tasks && s'.tasks[x] == s.tasks[x]
    requires forall r :: r in s'.blocked ==> r in s.blocked && s'.blocked[r] == s.blocked[r] && p !in s.blocked[r]
    ensures WaitersOk(s')
  {
    forall r | r in s'.blocked
      ensures WaitingList(s', r, s'.blocked[r])
    {
      var q := s.blocked[r];
      assert WaitingList(s, r, q);
      forall i | 0 <= i < |q|
        ensures Is(s', q[i], Blocked) && s'.tasks[q[i]].blockedOn == r
      {
        assert Is(s, q[i], Blocked);
      }
    }
  }

  lemma SleepersKept(s: State, s': State, p: TaskId)
    requires Base(s) && s'.idle == s.idle && s'.sleeping == s.sleeping && p !in s.sleeping
    requires forall x :: x in s.tasks && x != p ==> x in s'.tasks && s'.tasks[x] == s.tasks[x]
    ensures SleepersOk(s')
  {
    forall x | x in s'.sleeping
      ensures Is(s', x, Sleeping) && s'.sleeping[x] == 1
    {
      assert Is(s, x, Sleeping);
    }
  }

  /** A task stands in no list that its status does not name. */
  lemma Elsewhere(s: State, p: TaskId)
    requires Base(s) && p in s.tasks
    ensures (s.tasks[p].status != Ready || p == s.idle || s.tasks[p].policy != RealTime) ==> p !in s.fifo
    ensures (s.tasks[p].status != Ready || p == s.idle || s.tasks[p].policy != Normal) ==> p !in s.rr
    ensures (s.tasks[p].status != Sleeping || p == s.idle) ==> p !in s.sleeping
    ensures forall r :: r in s.blocked && (s.tasks[p].status != Blocked || p == s.idle || s.tasks[p].blockedOn != r)
                        ==> p !in s.blocked[r]
  {
    forall r | r in s.blocked && (s.tasks[p].status != Blocked || p == s.idle || s.tasks[p].blockedOn != r)
      ensures p !in s.blocked[r]
    {
      assert WaitingList(s, r, s.blocked[r]);
    }
  }

  // ---------------------------------------------------------------------------------------------
  // Schedule
  // ---------------------------------------------------------------------------------------------

  /** A task that leaves its place joins the ready list of its policy. */
  lemma JoinReady(s: State, s': State, p: TaskId)
    requires Base(s) && OnlyMoved(s, s', p) && p !in s.fifo && p !in s.rr && p != s.idle
    requires p in s'.tasks && s'.tasks[p].status == Ready && s'.tasks[p].policy != IdlePolicy
    requires SleepersOk(s') && WaitersOk(s') && s'.running == s.running
    requires s'.fifo == (if s'.tasks[p].policy == RealTime then s.fifo + [p] else s.fifo)
    requires s'.rr == (if s'.tasks[p].policy == Normal then s.rr + [p] else s.rr)
    ensures Base(s')
  {
    hide NoDup;
    if s'.tasks[p].policy == RealTime {
      Appended(s, s', s.fifo, RealTime, p);
      ListKept(s, s', s.rr, Normal, p);
    } else {
      Appended(s, s', s.rr, Normal, p);
      ListKept(s, s', s.fifo, RealTime, p);
    }
    OthersPlaced(s, s', p);
  }

  /** A task that stands in no list joins the ready list of its policy. */
  lemma EnqueueBase(s: State, s': State, p: TaskId)
    requires Base(s) && p !in s.fifo && p !in s.rr && p !in s.sleeping && p != s.idle
    requires forall r :: r in s.blocked ==> p !in s.blocked[r]
    requires p in s'.tasks && s'.tasks == s.tasks[p := s'.tasks[p]] && s'.tasks[p].status == Ready
    requires s'.tasks[p].policy != IdlePolicy
    requires s'.sleeping == s.sleeping && s'.blocked == s.blocked && s'.running == s.running
    requires s'.idle == s.idle && s'.idleSlot == s.idleSlot
    requires s'.fifo == (if s'.tasks[p].policy == RealTime then s.fifo + [p] else s.fifo)
    requires s'.rr == (if s'.tasks[p].policy == Normal then s.rr + [p] else s.rr)
    ensures Base(s')
  {
    assert s'.tasks.Keys == s.tasks.Keys + {p};
    WaitersKept(s, s', p);
    SleepersKept(s, s', p);
    JoinReady(s, s', p);
  }

  lemma RequeueIdle(s: State)
    requires Base(s) && s.running == s.idle && s.tasks[s.running].status == Running
    ensures Base(Requeue(s))
  {
    var s', cur := Requeue(s), s.running;
    Elsewhere(s, cur);
    WaitersKept(s, s', cur);
    SleepersKept(s, s', cur);
    ListKept(s, s', s.fifo, RealTime, cur);
    ListKept(s, s', s.rr, Normal, cur);
    OthersPlaced(s, s', cur);
  }

  lemma RequeueBase(s: State)
    requires Base(s)
    ensures Base(Requeue(s)) && NobodyRuns(Requeue(s))
  {
    var s', cur := Requeue(s), s.running;
    if s.tasks[cur].status == Running {
      if cur == s.idle {
        RequeueIdle(s);
      } else {
        Elsewhere(s, cur);
        assert Placed(s, cur);
        EnqueueBase(s, s', cur);
      }
    }
    forall p | p in s'.tasks
      ensures s'.tasks[p].status != Running
    {
      if p != s.idle { assert Placed(s, p); }
    }
  }

  /** With the lists in order nothing is stale, so the front of the best non-empty list is picked. */
  lemma PickFront(s: State)
    requires Base(s) && NobodyRuns(s)
    ensures Known(s) && PickEnds(s)
    ensures Pick(s) == (if s.fifo != [] then (s.(fifo := s.fifo[1..]), Some(s.fifo[0]))
                        else if s.rr != [] then (s.(rr := s.rr[1..]), Some(s.rr[0]))
                        else (s, Some(s.idle)))
  {
    assert s.fifo != [] ==> Is(s, s.fifo[0], Ready);
    assert s.rr != [] ==> Is(s, s.rr[0], Ready);
  }

  lemma DispatchIdle(s: State)
    requires Base(s) && NobodyRuns(s)
    ensures Inv(Dispatch(s, s.idle)) && Started(Dispatch(s, s.idle))
  {
    hide NoDup;
    var s' := Dispatch(s, s.idle);
    Elsewhere(s, s.idle);
    ListKept(s, s', s.fifo, RealTime, s.idle);
    ListKept(s, s', s.rr, Normal, s.idle);
    OthersPlaced(s, s', s.idle);
    WaitersKept(s, s', s.idle);
    SleepersKept(s, s', s.idle);
  }

  lemma DispatchFront(s: State, s1: State, next: TaskId)
    requires Base(s) && NobodyRuns(s) && next != s.idle
    requires s1 == s.(fifo := s1.fifo, rr := s1.rr)
    requires || (s.fifo != [] && next == s.fifo[0] && s1.fifo == s.fifo[1..] && s1.rr == s.rr)
             || (s.rr != [] && next == s.rr[0] && s1.rr == s.rr[1..] && s1.fifo == s.fifo)
    ensures next in s1.tasks && Inv(Dispatch(s1, next)) && Started(Dispatch(s1, next))
  {
    hide NoDup;
    assert Is(s, next, Ready);
    var s' := Dispatch(s1, next);
    Elsewhere(s, next);
    if s.tasks[next].policy == RealTime {
      Popped(s, s', s.fifo, RealTime);
      ListKept(s, s', s.rr, Normal, next);
    } else {
      Popped(s, s', s.rr, Normal);
      ListKept(s, s', s.fifo, RealTime, next);
    }
    OthersPlaced(s, s', next);
    WaitersKept(s, s', next);
    SleepersKept(s, s', next);
  }

  lemma FrontIsNotIdle(s: State)
    requires Base(s)
    ensures s.fifo != [] ==> s.fifo[0] != s.idle
    ensures s.rr != [] ==> s.rr[0] != s.idle
  {
    assert s.fifo != [] ==> Is(s, s.fifo[0], Ready);
    assert s.rr != [] ==> Is(s, s.rr[0], Ready);
  }

  lemma BaseKnown(s: State)
    requires Base(s)
    ensures Known(s)
  {
  }

  lemma ScheduleInv(s: State)
    requires Base(s)
    ensures ScheduleOk(s) && Inv(Schedule(s)) && Started(Schedule(s))
  {
    hide Base, NobodyRuns, Requeue, Dispatch, Pick, ScheduleAsserts;
    BaseKnown(s);
    RequeueBase(s);
    PickFront(Requeue(s));
    var r := Requeue(s);
    if r.fifo == [] && r.rr == [] {
      DispatchIdle(r);
    } else {
      FrontIsNotIdle(r);
      DispatchFront(r, Pick(r).0, Pick(r).1.value);
    }
    ChoiceIsReady(s);
  }

  /** The assertions of Schedule hold of every choice it makes. */
  lemma ChoiceIsReady(s: State)
    requires Schedulable(s)
    ensures ScheduleAsserts(s)
  {
    hide PickEnds, DropStale;
  }

  // ---------------------------------------------------------------------------------------------
  // Sleep and Block
  // ---------------------------------------------------------------------------------------------

  lemma {:induction false} RemoveAbsent(q: seq<TaskId>, p: TaskId)
    requires p !in q
    ensures RemoveAll(q, p) == q && RemoveFirst(q, p) == q
    decreases |q|
  {
    if q != [] {
      RemoveAbsent(q[1..], p);
    }
  }

  /** The running task, in no list, is only marked; a lemma for Sleep and Block. */
  lemma LeaveRunning(s: State, s': State)
    requires Base(s) && s.tasks[s.running].status == Running && s.running != s.idle
    requires s.running in s'.tasks && s'.tasks == s.tasks[s.running := s'.tasks[s.running]] && s'.running == s.running
    requires s'.idle == s.idle && s'.idleSlot == s.idleSlot && s'.fifo == s.fifo && s'.rr == s.rr
    requires s.sleeping <= s'.sleeping && SleepersOk(s') && WaitersOk(s') && Placed(s', s.running)
    requires forall r :: r in s.blocked ==> r in s'.blocked && s.blocked[r] <= s'.blocked[r]
    ensures Base(s')
  {
    var p := s.running;
    Elsewhere(s, p);
    ListKept(s, s', s.fifo, RealTime, p);
    ListKept(s, s', s.rr, Normal, p);
    assert s'.tasks.Keys == s.tasks.Keys + {p};
    OthersPlaced(s, s', p);
  }

  lemma GoToSleepBase(s: State, ms: nat, hz: nat)
    requires Base(s) && s.tasks[s.running].status == Running && s.running != s.idle
    ensures Base(GoToSleep(s, ms, hz))
  {
    hide ReadyList, IdleOk;
    var s', p := GoToSleep(s, ms, hz), s.running;
    Elsewhere(s, p);
    RemoveAbsent(s.fifo, p);
    RemoveAbsent(s.rr, p);
    assert Placed(s, p);
    WaitersKept(s, s', p);
    forall x | x in s'.sleeping
      ensures Is(s', x, Sleeping) && s'.sleeping[x] == 1
    {
      assert x != p ==> Is(s, x, Sleeping);
    }
    LeaveRunning(s, s');
  }

  lemma GoToBlockedBase(s: State, r: ResourceId)
    requires Base(s) && s.tasks[s.running].status == Running && s.running != s.idle
    ensures Base(GoToBlocked(s, r))
  {
    hide ReadyList, IdleOk;
    var s', p := GoToBlocked(s, r), s.running;
    Elsewhere(s, p);
    SleepersKept(s, s', p);
    assert Placed(s, p);
    forall x | x in s'.blocked
      ensures WaitingList(s', x, s'.blocked[x])
    {
      JoinWaiters(s, s', x, p);
    }
    LeaveRunning(s, s');
  }

  lemma JoinWaiters(s: State, s': State, r: ResourceId, p: TaskId)
    requires WaitersOk(s) && s'.idle == s.idle && r in s'.blocked && p != s.idle
    requires forall x :: x in s.tasks && x != p ==> x in s'.tasks && s'.tasks[x] == s.tasks[x]
    requires r in s.blocked ==> p !in s.blocked[r]
    requires (s'.blocked[r] == Waiting(s, r) + [p] && Is(s', p, Blocked) && s'.tasks[p].blockedOn == r)
             || (r in s.blocked && s'.blocked[r] == s.blocked[r])
    ensures WaitingList(s', r, s'.blocked[r])
  {
    var q, q' := Waiting(s, r), s'.blocked[r];
    assert r in s.blocked ==> WaitingList(s, r, q);
    forall i | 0 <= i < |q'|
      ensures Is(s', q'[i], Blocked) && s'.tasks[q'[i]].blockedOn == r
    {
      assert i < |q| ==> q'[i] == q[i] && Is(s, q[i], Blocked);
    }
  }

  // ---------------------------------------------------------------------------------------------
  // Wakeup and AddTask
  // ---------------------------------------------------------------------------------------------

  /** The run queue while the waiting list of `r` is drained and `q` is left of it. */
  function Draining(s: State, r: ResourceId, q: seq<TaskId>): State {
    s.(blocked := if q == [] then s.blocked - {r} else s.blocked[r := q])
  }

  /** The front of a waiting list: what is known of it before it is made ready. */
  lemma FrontWaiter(v: State, r: ResourceId, p: TaskId)
    requires Base(v) && r in v.blocked && v.blocked[r] != [] && p == v.blocked[r][0]
    ensures Is(v, p, Blocked) && v.tasks[p].policy != IdlePolicy && v.tasks[p].blockedOn == r
    ensures p !in v.fifo && p !in v.rr && p !in v.sleeping
    ensures forall x :: x in v.blocked && x != r ==> p !in v.blocked[x]
  {
    assert WaitingList(v, r, v.blocked[r]) && Is(v, v.blocked[r][0], Blocked);
    Elsewhere(v, p);
    assert Placed(v, p);
  }

  lemma DrainedWaiters(v: State, v': State, r: ResourceId, p: TaskId)
    requires WaitersOk(v) && r in v.blocked && p == v.blocked[r][0] && v'.idle == v.idle
    requires forall x :: x in v.tasks && x != p ==> x in v'.tasks && v'.tasks[x] == v.tasks[x]
    requires forall x :: x in v.blocked && x != r ==> p !in v.blocked[x]
    requires v'.blocked == if |v.blocked[r]| == 1 then v.blocked - {r} else v.blocked[r := v.blocked[r][1..]]
    ensures WaitersOk(v')
    ensures forall x, y :: x in v.blocked && y in v.blocked[x] && y != p ==> x in v'.blocked && y in v'.blocked[x]
  {
    forall x | x in v'.blocked
      ensures WaitingList(v', x, v'.blocked[x])
    {
      assert WaitingList(v, x, v.blocked[x]);
      WaitersLeft(v, v', x, p);
    }
    var q := v.blocked[r];
    assert q == [p] + q[1..];
  }

  lemma UnblockBase(s: State, r: ResourceId, q: seq<TaskId>)
    requires q != [] && Base(Draining(s, r, q))
    ensures q[0] in s.tasks && Base(Draining(Unblock(s, q[0]), r, q[1..]))
  {
    hide ReadyList, IdleOk, WaitersOk, AllPlaced, SleepersOk;
    var v, p := Draining(s, r, q), q[0];
    FrontWaiter(v, r, p);
    var v' := Draining(Unblock(s, p), r, q[1..]);
    SleepersKept(v, v', p);
    DrainedWaiters(v, v', r, p);
    JoinReady(v, v', p);
  }

  lemma WaitersLeft(s: State, s': State, r: ResourceId, p: TaskId)
    requires r in s.blocked && r in s'.blocked && WaitingList(s, r, s.blocked[r]) && s'.idle == s.idle
    requires forall x :: x in s.tasks && x != p ==> x in s'.tasks && s'.tasks[x] == s.tasks[x]
    requires (p !in s.blocked[r] && s'.blocked[r] == s.blocked[r])
             || (s.blocked[r][0] == p && s'.blocked[r] == s.blocked[r][1..] != [])
    ensures WaitingList(s', r, s'.blocked[r])
  {
    var q, q' := s.blocked[r], s'.blocked[r];
    forall i | 0 <= i < |q'|
      ensures Is(s', q'[i], Blocked) && s'.tasks[q'[i]].blockedOn == r
    {
      assert Is(s, q[i + |q| - |q'|], Blocked);
    }
  }

  lemma {:induction false} UnblockAllBase(s: State, r: ResourceId, q: seq<TaskId>)
    requires AllKnown(s, q) && Base(Draining(s, r, q))
    ensures Base(Draining(UnblockAll(s, q), r, []))
    ensures UnblockAll(s, q).blocked == s.blocked && UnblockAll(s, q).running == s.running
    ensures UnblockAll(s, q).idle == s.idle && UnblockAll(s, q).totalSchedules == s.totalSchedules
    ensures WakeupAsserts(s, r, q)
    ensures s.running !in q ==> UnblockAll(s, q).tasks[s.running] == s.tasks[s.running]
    decreases |q|
  {
    hide Base;
    if q != [] {
      FrontWaiter(Draining(s, r, q), r, q[0]);
      UnblockBase(s, r, q);
      var s1 := Unblock(s, q[0]);
      assert forall i :: 0 <= i < |q[1..]| ==> q[1..][i] == q[i + 1];
      UnblockAllBase(s1, r, q[1..]);
    }
  }

  lemma WaitersKnown(s: State, r: ResourceId)
    requires Base(s) && r in s.blocked
    ensures s.blocked[r] != [] && AllKnown(s, s.blocked[r]) && Draining(s, r, s.blocked[r]) == s
    ensures s.tasks[s.running].status != Blocked ==> s.running !in s.blocked[r]
  {
    var q := s.blocked[r];
    assert WaitingList(s, r, q);
    forall i | 0 <= i < |q|
      ensures q[i] in s.tasks && s.tasks[q[i]].status == Blocked
    {
      assert Is(s, q[i], Blocked);
    }
  }

  /** Wakeup only meets tasks that are blocked on the resource, and keeps the invariant. */
  lemma WakeupInv(s: State, r: ResourceId)
    requires Inv(s)
    ensures AllKnown(s, Waiting(s, r)) && WakeupAsserts(s, r, Waiting(s, r)) && Inv(Wakeup(s, r))
    ensures r in s.blocked ==> s.blocked[r] != []
    ensures Wakeup(s, r).running == s.running
    ensures Wakeup(s, r).tasks[s.running] == s.tasks[s.running]
  {
    hide Base, UnblockAll, WakeupAsserts;
    if r in s.blocked {
      CurrentAndIdle(s);
      WaitersKnown(s, r);
      UnblockAllBase(s, r, s.blocked[r]);
      CurrentAndIdle(Wakeup(s, r));
    } else {
      NobodyWaits(s, r);
    }
  }

  lemma NobodyWaits(s: State, r: ResourceId)
    ensures WakeupAsserts(s, r, [])
  {
  }

  lemma CurrentAndIdle(s: State)
    requires Base(s)
    ensures s.running in s.tasks && s.idle in s.tasks
  {
  }

  lemma AddTaskInv(s: State, p: TaskId, t: Task)
    requires Inv(s) && p !in s.tasks && t.status == UnInit && t.policy != IdlePolicy
    ensures Inv(AddTask(s, p, t))
  {
    forall r | r in s.blocked
      ensures p !in s.blocked[r]
    {
      assert WaitingList(s, r, s.blocked[r]);
    }
    EnqueueBase(s, AddTask(s, p, t), p);
  }

  // ---------------------------------------------------------------------------------------------
  // TickUpdate
  // ---------------------------------------------------------------------------------------------

  /** Changing the clock or the accounting of one task moves nobody. */
  lemma AccountingBase(s: State, s': State, p: TaskId)
    requires Base(s) && p in s.tasks
    requires p in s'.tasks && s' == s.(localTick := s'.localTick, tasks := s.tasks[p := s'.tasks[p]])
    requires s'.tasks[p] == s.tasks[p].(totalRuntime := s'.tasks[p].totalRuntime,
                                                        sliceRemaining := s'.tasks[p].sliceRemaining)
    ensures Base(s')
  {
    forall x, status | Is(s, x, status)
      ensures Is(s', x, status)
    {
    }
    forall r | r in s'.blocked
      ensures WaitingList(s', r, s'.blocked[r])
    {
      assert WaitingList(s, r, s.blocked[r]);
    }
    forall x | x in s'.tasks && x != s'.idle
      ensures Placed(s', x)
    {
      assert Placed(s, x);
    }
  }

  /** A sleeper: what is known of it before it is made ready. */
  lemma SleeperFacts(s: State, p: TaskId)
    requires Base(s) && p in s.sleeping
    ensures Is(s, p, Sleeping) && s.tasks[p].policy != IdlePolicy && p !in s.fifo && p !in s.rr
    ensures forall r :: r in s.blocked ==> p !in s.blocked[r]
  {
    assert Is(s, p, Sleeping);
    Elsewhere(s, p);
    assert Placed(s, p);
  }

  lemma SleeperLeft(s: State, s': State, p: TaskId)
    requires SleepersOk(s) && s'.idle == s.idle && p in s.sleeping && s'.sleeping == s.sleeping - multiset{p}
    requires forall x :: x in s.tasks && x != p ==> x in s'.tasks && s'.tasks[x] == s.tasks[x]
    ensures SleepersOk(s')
  {
    forall x | x in s'.sleeping
      ensures Is(s', x, Sleeping) && s'.sleeping[x] == 1
    {
      assert Is(s, x, Sleeping) && s.sleeping[x] == 1;
    }
  }

  lemma WakeOneInv(s: State, p: TaskId)
    requires Inv(s) && p in s.sleeping
    ensures p in s.tasks && p != s.running && Inv(WakeOne(s, p))
    ensures WakeOne(s, p).running == s.running && WakeOne(s, p).tasks[s.running] == s.tasks[s.running]
  {
    hide ReadyList, IdleOk, SleepersOk, WaitersOk, AllPlaced;
    SleeperFacts(s, p);
    var s' := WakeOne(s, p);
    WaitersKept(s, s', p);
    SleeperLeft(s, s', p);
    JoinReady(s, s', p);
  }

  lemma {:induction false} WakeAllInv(s: State, order: seq<TaskId>)
    requires Inv(s) && WakeOrder(s, order)
    ensures Inv(WakeAll(s, order))
    ensures WakeAll(s, order).running == s.running && s.running in WakeAll(s, order).tasks
    ensures WakeAll(s, order).tasks[s.running] == s.tasks[s.running]
    decreases |order|
  {
    if order != [] {
      WakeOneInv(s, order[0]);
      WakeAllInv(WakeOne(s, order[0]), order[1..]);
    }
  }

  lemma NextTickInv(s: State)
    requires Inv(s)
    ensures var s' := NextTick(s);
            Inv(s') && s'.running == s.running && s'.tasks == s.tasks && s'.rr == s.rr
  {
    AccountingBase(s, NextTick(s), s.running);
  }

  lemma ChargeInv(s: State)
    requires Inv(s)
    ensures Inv(Charge(s)) && Charge(s).running == s.running
    ensures Started(s) ==> Started(Charge(s))
  {
    AccountingBase(s, Charge(s), s.running);
  }

  lemma TickInv(s: State, order: seq<TaskId>)
    requires Inv(s) && WakeOrder(NextTick(s), order)
    ensures TickEnabled(s, order) && Inv(Tick(s, order))
    ensures Started(s) ==> Started(Tick(s, order))
    ensures var s1 := Charge(WakeAll(NextTick(s), order));
            MustPreempt(s1, order != []) ==> ScheduleOk(s1)
  {
    hide Base, Schedule, Schedulable, WakeAll, WakeOrder, NextTick, Charge, MustPreempt;
    NextTickInv(s);
    WakeAllInv(NextTick(s), order);
    ChargeInv(WakeAll(NextTick(s), order));
    ScheduleInv(Charge(WakeAll(NextTick(s), order)));
  }

  // ---------------------------------------------------------------------------------------------
  // Every run
  // ---------------------------------------------------------------------------------------------

  lemma InitInv(s: State)
    requires Init(s)
    ensures Inv(s)
  {
  }

  /** An operation whose caller keeps the rules runs to its end and keeps the invariant. */
  lemma OpInv(s: State, op: Op, hz: nat)
    requires Inv(s) && Callable(s, op)
    ensures Completes(s, op, hz) && Inv(Do(s, op, hz))
    ensures Started(s) ==> Started(Do(s, op, hz))
  {
    hide Base, Schedulable, ScheduleAsserts, Schedule, GoToSleep, GoToBlocked, Wakeup, WakeupAsserts, Tick,
      TickEnabled, WakeOrder, WakeAll, Charge, MustPreempt;
    CurrentAndIdle(s);
    match op
    case OpYield => ScheduleInv(s);
    case OpTick(order) => TickInv(s, order);
    case OpSleep(ms) =>
      if ms == 0 {
        ScheduleInv(s);
      } else {
        GoToSleepBase(s, ms, hz);
        ScheduleInv(GoToSleep(s, ms, hz));
      }
    case OpBlock(r) =>
      GoToBlockedBase(s, r);
      ScheduleInv(GoToBlocked(s, r));
    case OpWakeup(r) => WakeupInv(s, r);
    case OpAdd(p, t) => AddTaskInv(s, p, t);
  }

  lemma {:induction false} RunInv(s: State, ops: seq<Op>, hz: nat)
    requires Inv(s) && Run(s, ops, hz)
    ensures Inv(Exec(s, ops, hz))
    ensures Started(s) ==> Started(Exec(s, ops, hz))
    decreases |ops|
  {
    if ops != [] {
      OpInv(s, ops[0], hz);
      RunInv(Do(s, ops[0], hz), ops[1..], hz);
    }
  }
}
