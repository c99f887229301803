/**
 The CFS policy with tasks that go to sleep and are woken, by Wakeup or by a tick. A tick that
 wakes a task reschedules without asking the policy, so that the running task is not charged.
 */
module CfsSleepers {

  import opened Basics
  import opened Cfs

  /** `Plain`: nobody falls asleep or wakes up. `next` and `op.after` are what Schedule leaves. */
  datatype Event =
    | Plain(op: Op)
    | WakeTick(woken: seq<TaskId>, next: System)
    | Leave(next: System)
    | Wake(task: TaskId)

  predicate Asleep(s: System, p: TaskId) {
    p in s.cfs.entities && !Member(s, p)
  }

  function Woken(s: System, p: TaskId): System
    requires Asleep(s, p)
  {
    s.(cfs := Enqueued(s.cfs, p))
  }

  predicate AllAsleep(s: System, woken: seq<TaskId>)
    decreases |woken|
  {
    woken == [] || (Asleep(s, woken[0]) && AllAsleep(Woken(s, woken[0]), woken[1..]))
  }

  function AllWoken(s: System, woken: seq<TaskId>): System
    requires AllAsleep(s, woken)
    decreases |woken|
  {
    if woken == [] then s else AllWoken(Woken(s, woken[0]), woken[1..])
  }

  /** The running task may leave while another is queued; the idle task is not part of this model. */
  ghost predicate Happens(s: System, e: Event)
    requires Closed(s)
  {
    match e
    case Plain(op) => Possible(s, op)
    case WakeTick(woken, next) =>
      && AllAsleep(s, woken)
      && var m := AllWoken(s, woken);
         m.cur in m.cfs.entities && Rescheduled(m, next)
    case Leave(next) => s.cfs.queue != multiset{} && Picked(s.cfs, next.cur, next.cfs)
    case Wake(p) => Asleep(s, p)
  }

  ghost function After(s: System, e: Event): System
    requires Closed(s) && Happens(s, e)
  {
    match e
    case Plain(op) => op.after
    case WakeTick(_, next) => next
    case Leave(next) => next
    case Wake(p) => Woken(s, p)
  }

  // ---------------------------------------------------------------------------------------------
  // Every event keeps the tasks in order
  // ---------------------------------------------------------------------------------------------

  ghost predicate SameTasks(s: System, s': System) {
    && s'.cfs.entities.Keys == s.cfs.entities.Keys
    && (forall p :: p in s.cfs.entities ==> s'.cfs.entities[p].weight == s.cfs.entities[p].weight)
  }

  lemma WokenClosed(s: System, p: TaskId)
    requires Closed(s) && Asleep(s, p)
    ensures Closed(Woken(s, p)) && SameTasks(s, Woken(s, p)) && Woken(s, p).cur == s.cur
  {
    hide Delta;
  }

  lemma {:induction false} AllWokenClosed(s: System, woken: seq<TaskId>)
    requires Closed(s) && AllAsleep(s, woken)
    ensures var m := AllWoken(s, woken); Closed(m) && SameTasks(s, m) && m.cur == s.cur
    decreases |woken|
  {
    hide Closed, Woken, Asleep;
    if woken != [] {
      WokenClosed(s, woken[0]);
      AllWokenClosed(Woken(s, woken[0]), woken[1..]);
    }
  }

  lemma LeaveClosed(s: System, s': System)
    requires Closed(s) && s.cfs.queue != multiset{} && Picked(s.cfs, s'.cur, s'.cfs)
    ensures Closed(s') && SameTasks(s, s')
  {
  }

  lemma EventClosed(s: System, e: Event)
    requires Closed(s) && Happens(s, e)
    ensures Closed(After(s, e)) && SameTasks(s, After(s, e))
  {
    hide Closed, Possible, Rescheduled, Woken, Asleep;
    match e
    case Plain(op) =>
      OpClosed(s, op);
    case WakeTick(woken, next) =>
      AllWokenClosed(s, woken);
      PickClosed(AllWoken(s, woken), next);
    case Leave(next) =>
      LeaveClosed(s, next);
    case Wake(p) =>
      WokenClosed(s, p);
  }

  ghost predicate Life(s: System, events: seq<Event>)
    decreases |events|
  {
    events == [] || (Closed(s) && Happens(s, events[0]) && Life(After(s, events[0]), events[1..]))
  }

  ghost function Outlived(s: System, events: seq<Event>): System
    requires Life(s, events)
    decreases |events|
  {
    if events == [] then s else Outlived(After(s, events[0]), events[1..])
  }

  // ---------------------------------------------------------------------------------------------
  // Vruntime and service
  // ---------------------------------------------------------------------------------------------

  /** The ticks that found `p` running. */
  ghost function Service(s: System, events: seq<Event>, p: TaskId): nat
    requires Life(s, events)
    decreases |events|
  {
    if events == [] then 0
    else
      var e := events[0];
      var ran := if s.cur == p && (e.WakeTick? || (e.Plain? && e.op.Tick?)) then 1 else 0;
      ran + Service(After(s, e), events[1..], p)
  }

  /** Those of them that woke a sleeper. */
  ghost function Uncharged(s: System, events: seq<Event>, p: TaskId): nat
    requires Life(s, events)
    decreases |events|
  {
    if events == [] then 0
    else
      var e := events[0];
      (if s.cur == p && e.WakeTick? then 1 else 0) + Uncharged(After(s, e), events[1..], p)
  }

  lemma WokenCharges(s: System, p: TaskId)
    requires Closed(s) && Asleep(s, p) && AllStarted(s)
    ensures Woken(s, p).cfs.entities == s.cfs.entities
  {
  }

  lemma {:induction false} AllWokenCharges(s: System, woken: seq<TaskId>)
    requires Closed(s) && AllAsleep(s, woken) && AllStarted(s)
    ensures AllWoken(s, woken).cfs.entities == s.cfs.entities
    decreases |woken|
  {
    hide Closed, Woken, Asleep;
    if woken != [] {
      WokenClosed(s, woken[0]);
      WokenCharges(s, woken[0]);
      AllWokenCharges(Woken(s, woken[0]), woken[1..]);
    }
  }

  /** What an event costs each task, none of which is at vruntime zero. */
  lemma EventCharges(s: System, e: Event, p: TaskId)
    requires Closed(s) && AllStarted(s) && Happens(s, e) && p in s.cfs.entities
    ensures p in After(s, e).cfs.entities
    ensures After(s, e).cfs.entities[p].vruntime
         == Vr(s.cfs, p) + (if e.Plain? && e.op.Tick? && s.cur == p then Delta(s.cfs.entities[p].weight) else 0)
  {
    hide Delta, Woken, Asleep, Possible;
    match e
    case Plain(op) =>
      OpCharges(s, op, p);
    case WakeTick(woken, next) =>
      AllWokenClosed(s, woken);
      AllWokenCharges(s, woken);
      PickCharges(AllWoken(s, woken), next, p);
    case Leave(next) =>
    case Wake(q) =>
      WokenCharges(s, q);
  }

  lemma EventStarted(s: System, e: Event)
    requires Closed(s) && AllStarted(s) && Happens(s, e)
    ensures Closed(After(s, e)) && AllStarted(After(s, e))
  {
    hide Delta, Happens, After, Closed;
    EventClosed(s, e);
    forall q | q in After(s, e).cfs.entities
      ensures Vr(After(s, e).cfs, q) > 0
    {
      EventCharges(s, e, q);
    }
  }

  lemma {:induction false} VruntimeIsCharged(s: System, events: seq<Event>, p: TaskId)
    requires Closed(s) && Life(s, events) && AllStarted(s) && p in s.cfs.entities
    ensures p in Outlived(s, events).cfs.entities && Uncharged(s, events, p) <= Service(s, events, p)
    ensures Vr(Outlived(s, events).cfs, p)
         == Vr(s.cfs, p) + (Service(s, events, p) - Uncharged(s, events, p)) * Delta(s.cfs.entities[p].weight)
    decreases |events|
  {
    hide Delta, Happens, After, AllStarted;
    if events != [] {
      var e := events[0];
      EventClosed(s, e);
      EventStarted(s, e);
      EventCharges(s, e, p);
      VruntimeIsCharged(After(s, e), events[1..], p);
      Distribute(if s.cur == p && e.Plain? && e.op.Tick? then 1 else 0,
                 Service(After(s, e), events[1..], p) - Uncharged(After(s, e), events[1..], p),
                 Delta(s.cfs.entities[p].weight));
    }
  }

  /**
   With sleepers, the vruntime of a task grows by the service it received exactly if no tick that
   woke a task fell on it, or its ticks cost nothing.
   */
  lemma ServiceExactly(s: System, events: seq<Event>, p: TaskId)
    requires Closed(s) && Life(s, events) && AllStarted(s) && p in s.cfs.entities
    ensures p in Outlived(s, events).cfs.entities
    ensures Vr(Outlived(s, events).cfs, p) == Vr(s.cfs, p) + Service(s, events, p) * Delta(s.cfs.entities[p].weight)
       <==> Uncharged(s, events, p) == 0 || Delta(s.cfs.entities[p].weight) == 0
  {
    hide Delta, Life, Outlived, Service, Uncharged;
    VruntimeIsCharged(s, events, p);
    var n, u, d := Service(s, events, p), Uncharged(s, events, p), Delta(s.cfs.entities[p].weight);
    Distribute(n - u, u, d);
  }

  // ---------------------------------------------------------------------------------------------
  // Two runs of three tasks from boot
  // ---------------------------------------------------------------------------------------------

  /** Three tasks of the default weight with these vruntimes. */
  function Three(v: seq<nat>, queue: multiset<TaskId>, min: nat, cur: TaskId): System
    requires |v| == 3
  {
    System(State(map[0 := Entity(v[0], 1024), 1 := Entity(v[1], 1024), 2 := Entity(v[2], 1024)], queue, min), cur)
  }

  predicate InOrder(queue: multiset<TaskId>, cur: TaskId) {
    cur < 3 && cur !in queue && forall p :: p in queue ==> p < 3 && queue[p] == 1
  }

  lemma ThreeClosed(v: seq<nat>, queue: multiset<TaskId>, min: nat, cur: TaskId)
    requires |v| == 3 && InOrder(queue, cur)
    ensures Closed(Three(v, queue, min, cur))
    ensures forall p: TaskId :: p < 3 ==> p in Three(v, queue, min, cur).cfs.entities
                                          && Vr(Three(v, queue, min, cur).cfs, p) == v[p]
  {
  }

  /** `next` is a task of least vruntime and `min` the least vruntime of the rest, or its own. */
  predicate Choice(v: seq<nat>, all: multiset<TaskId>, next: TaskId, min: nat)
    requires |v| == 3 && forall p :: p in all ==> p < 3
  {
    && next in all && (forall p :: p in all ==> v[next] <= v[p])
    && var rest := all - multiset{next};
       if rest == multiset{} then min == v[next]
       else (exists p :: p in rest && v[p] == min) && forall p :: p in rest ==> min <= v[p]
  }

  lemma ThreePicked(v: seq<nat>, all: multiset<TaskId>, old_: nat, next: TaskId, min: nat)
    requires |v| == 3 && (forall p :: p in all ==> p < 3) && Choice(v, all, next, min)
    ensures var c := Three(v, all, old_, 0).cfs;
            Known(c) && Picked(c, next, Three(v, all - multiset{next}, min, next).cfs)
  {
    var c, rest := Three(v, all, old_, 0).cfs, all - multiset{next};
    assert forall p: TaskId :: p < 3 ==> p in c.entities && Vr(c, p) == v[p];
    if rest != multiset{} {
      var top :| top in rest && v[top] == min;
      assert Vr(c, top) == min;
    }
  }

  lemma ThreeRescheduled(v: seq<nat>, queue: multiset<TaskId>, old_: nat, cur: TaskId, next: TaskId, min: nat)
    requires |v| == 3 && InOrder(queue, cur) && v[cur] > 0 && Choice(v, queue + multiset{cur}, next, min)
    ensures var s, s' := Three(v, queue, old_, cur), Three(v, queue + multiset{cur} - multiset{next}, min, next);
            s.cur in s.cfs.entities && Rescheduled(s, s')
  {
    hide Picked;
    var s := Three(v, queue, old_, cur);
    assert Enqueued(s.cfs, cur) == Three(v, queue + multiset{cur}, old_, 0).cfs by {
      assert s.cfs.entities[cur] == Entity(v[cur], 1024);
      assert s.cfs.entities[cur := Entity(v[cur], 1024)] == s.cfs.entities;
    }
    ThreePicked(v, queue + multiset{cur}, old_, next, min);
  }

  lemma ThreeCharged(v: seq<nat>, queue: multiset<TaskId>, min: nat, cur: TaskId)
    requires |v| == 3 && InOrder(queue, cur)
    ensures var s := Three(v, queue, min, cur);
            && s.cur in s.cfs.entities && s.cfs.entities[s.cur].weight > 0
            && Charge(s.cfs, cur) == Three(v[cur := v[cur] + 1000], queue, min, cur).cfs
  {
  }

  /** A tick that does not preempt. */
  lemma QuietTick(v: seq<nat>, queue: multiset<TaskId>, min: nat, cur: TaskId) returns (e: Event)
    requires |v| == 3 && InOrder(queue, cur) && forall p :: p in queue ==> v[cur] + 1000 <= v[p] + MIN_GRANULARITY
    ensures var s, s' := Three(v, queue, min, cur), Three(v[cur := v[cur] + 1000], queue, min, cur);
            Closed(s) && Happens(s, e) && After(s, e) == s'
  {
    ThreeClosed(v, queue, min, cur);
    ThreeCharged(v, queue, min, cur);
    ThreeClosed(v[cur := v[cur] + 1000], queue, min, cur);
    e := Plain(Tick(false, Three(v[cur := v[cur] + 1000], queue, min, cur)));
  }

  /** A tick that preempts, because `q` lags behind. */
  lemma PreemptingTick(v: seq<nat>, queue: multiset<TaskId>, old_: nat, cur: TaskId, q: TaskId, next: TaskId, min: nat)
    returns (e: Event)
    requires |v| == 3 && InOrder(queue, cur) && q in queue && v[q] + MIN_GRANULARITY < v[cur] + 1000
    requires Choice(v[cur := v[cur] + 1000], queue + multiset{cur}, next, min)
    ensures var s := Three(v, queue, old_, cur);
            var s' := Three(v[cur := v[cur] + 1000], queue + multiset{cur} - multiset{next}, min, next);
            Closed(s) && Happens(s, e) && After(s, e) == s'
  {
    hide Rescheduled;
    var w := v[cur := v[cur] + 1000];
    ThreeClosed(v, queue, old_, cur);
    ThreeCharged(v, queue, old_, cur);
    ThreeClosed(w, queue, old_, cur);
    ThreeRescheduled(w, queue, old_, cur, next, min);
    assert Vr(Three(w, queue, old_, cur).cfs, q) == w[q];
    e := Plain(Tick(false, Three(w, queue + multiset{cur} - multiset{next}, min, next)));
  }

  lemma YieldTo(v: seq<nat>, queue: multiset<TaskId>, old_: nat, cur: TaskId, next: TaskId, min: nat) returns (e: Event)
    requires |v| == 3 && InOrder(queue, cur) && v[cur] > 0 && Choice(v, queue + multiset{cur}, next, min)
    ensures var s, s' := Three(v, queue, old_, cur), Three(v, queue + multiset{cur} - multiset{next}, min, next);
            Closed(s) && Happens(s, e) && After(s, e) == s'
  {
    hide Rescheduled;
    ThreeClosed(v, queue, old_, cur);
    ThreeRescheduled(v, queue, old_, cur, next, min);
    e := Plain(Yield(Three(v, queue + multiset{cur} - multiset{next}, min, next)));
  }

  lemma LeaveTo(v: seq<nat>, queue: multiset<TaskId>, old_: nat, cur: TaskId, next: TaskId, min: nat) returns (e: Event)
    requires |v| == 3 && InOrder(queue, cur) && Choice(v, queue, next, min)
    ensures var s, s' := Three(v, queue, old_, cur), Three(v, queue - multiset{next}, min, next);
            Closed(s) && Happens(s, e) && After(s, e) == s'
  {
    hide Picked;
    ThreeClosed(v, queue, old_, cur);
    ThreePicked(v, queue, old_, next, min);
    e := Leave(Three(v, queue - multiset{next}, min, next));
  }

  lemma WakeUp(v: seq<nat>, queue: multiset<TaskId>, min: nat, cur: TaskId, p: TaskId) returns (e: Event)
    requires |v| == 3 && InOrder(queue, cur) && p < 3 && p != cur && p !in queue && v[p] > 0
    ensures var s, s' := Three(v, queue, min, cur), Three(v, queue + multiset{p}, min, cur);
            Closed(s) && Happens(s, e) && After(s, e) == s'
  {
    var s := Three(v, queue, min, cur);
    ThreeClosed(v, queue, min, cur);
    assert s.cfs.entities[p := Entity(v[p], 1024)] == s.cfs.entities;
    e := Wake(p);
  }

  lemma Onward(s0: System, events: seq<Event>, s: System, e: Event, s': System) returns (more: seq<Event>)
    requires Life(s0, events) && Outlived(s0, events) == s && Closed(s) && Happens(s, e) && After(s, e) == s'
    ensures Life(s0, more) && Outlived(s0, more) == s'
  {
    more := events + [e];
    OneMore(s0, events, e);
  }

  lemma {:induction false} OneMore(s0: System, events: seq<Event>, e: Event)
    requires Life(s0, events) && Closed(Outlived(s0, events)) && Happens(Outlived(s0, events), e)
    ensures Life(s0, events + [e]) && Outlived(s0, events + [e]) == After(Outlived(s0, events), e)
    decreases |events|
  {
    hide Happens, After, Closed;
    if events == [] {
      assert ([e])[1..] == [];
      assert events + [e] == [e];
    } else {
      assert (events + [e])[1..] == events[1..] + [e];
      OneMore(After(s0, events[0]), events[1..], e);
    }
  }

  /** Three new tasks are queued on an empty run queue. */
  function Queued(): State {
    var none := State(map[0 := Entity(0, 0), 1 := Entity(0, 0), 2 := Entity(0, 0)], multiset{}, 0);
    Enqueued(Enqueued(Enqueued(none, 0), 1), 2)
  }

  /** One of them is picked. */
  predicate Boot(s: System) {
    Known(Queued()) && Picked(Queued(), s.cur, s.cfs)
  }

  lemma QueuedIs()
    ensures Queued() == Three([0, 0, 0], multiset{0, 1, 2}, 0, 0).cfs
  {
    var c := Queued();
    assert c.queue == multiset{0, 1, 2};
    assert c.entities == Three([0, 0, 0], multiset{}, 0, 0).cfs.entities;
  }

  lemma BootsTo()
    ensures Boot(Three([0, 0, 0], multiset{0, 2}, 0, 1))
  {
    hide Picked, Queued, Three;
    QueuedIs();
    assert multiset{0, 1, 2} - multiset{1} == multiset{0, 2};
    assert 0 in multiset{0, 2};
    ThreePicked([0, 0, 0], multiset{0, 1, 2}, 0, 1, 0);
    SameState([0, 0, 0], multiset{0, 2}, 0, 1);
  }

  lemma SameState(v: seq<nat>, queue: multiset<TaskId>, min: nat, cur: TaskId)
    requires |v| == 3
    ensures Three(v, queue, min, cur).cur == cur
  {
  }

  /** Each task gets one tick, and task 1 comes to run again. */
  lemma OneTickEach() returns (events: seq<Event>)
    ensures var s0 := Three([0, 0, 0], multiset{0, 2}, 0, 1);
            Life(s0, events) && Outlived(s0, events) == Three([1000, 1000, 1000], multiset{0, 2}, 1000, 1)
  {
    hide Choice, Life, Outlived, Three, Happens, After, InOrder, Closed;
    var s0 := Three([0, 0, 0], multiset{0, 2}, 0, 1);
    assert Life(s0, []) && Outlived(s0, []) == s0 by { Nothing(s0); }
    Facts();
    var e1 := PreemptingTick([0, 0, 0], multiset{0, 2}, 0, 1, 0, 0, 0);
    events := Onward(s0, [], s0, e1, Three([0, 1000, 0], multiset{1, 2}, 0, 0));
    var e2 := PreemptingTick([0, 1000, 0], multiset{1, 2}, 0, 0, 2, 2, 1000);
    events := Onward(s0, events, Three([0, 1000, 0], multiset{1, 2}, 0, 0), e2,
                     Three([1000, 1000, 0], multiset{0, 1}, 1000, 2));
    var e3 := QuietTick([1000, 1000, 0], multiset{0, 1}, 1000, 2);
    events := Onward(s0, events, Three([1000, 1000, 0], multiset{0, 1}, 1000, 2), e3,
                     Three([1000, 1000, 1000], multiset{0, 1}, 1000, 2));
    var e4 := YieldTo([1000, 1000, 1000], multiset{0, 1}, 1000, 2, 1, 1000);
    events := Onward(s0, events, Three([1000, 1000, 1000], multiset{0, 1}, 1000, 2), e4,
                     Three([1000, 1000, 1000], multiset{0, 2}, 1000, 1));
  }

  lemma Nothing(s: System)
    ensures Life(s, []) && Outlived(s, []) == s
  {
  }

  /** The choices that the two runs make. */
  lemma Facts()
    ensures InOrder(multiset{0, 2}, 1) && InOrder(multiset{1, 2}, 0) && InOrder(multiset{0, 1}, 2)
    ensures multiset{0, 2} + multiset{1} - multiset{0} == multiset{1, 2}
    ensures multiset{1, 2} + multiset{0} - multiset{2} == multiset{0, 1}
    ensures multiset{0, 1} + multiset{2} - multiset{1} == multiset{0, 2}
    ensures [0, 0, 0][1 := 1000] == [0, 1000, 0] && [0, 1000, 0][0 := 1000] == [1000, 1000, 0]
    ensures [1000, 1000, 0][2 := 1000] == [1000, 1000, 1000]
    ensures Choice([0, 1000, 0], multiset{0, 2} + multiset{1}, 0, 0)
    ensures Choice([1000, 1000, 0], multiset{1, 2} + multiset{0}, 2, 1000)
    ensures Choice([1000, 1000, 1000], multiset{0, 1} + multiset{2}, 1, 1000)
  {
    assert 2 in multiset{1, 2} && 1 in multiset{0, 1} && 0 in multiset{0, 2};
    assert multiset{0, 2} + multiset{1} - multiset{0} == multiset{1, 2};
    assert multiset{1, 2} + multiset{0} - multiset{2} == multiset{0, 1};
    assert multiset{0, 1} + multiset{2} - multiset{1} == multiset{0, 2};
  }

  /**
   Task 1 sleeps while the other two go on, and is woken far behind the running task: the fairness
   bound is broken by the next tick.
   */
  lemma WokenFarBehind() returns (s0: System, events: seq<Event>)
    ensures Boot(s0) && Life(s0, events)
    ensures var s := Outlived(s0, events);
            && Closed(s) && Anchored(s) && SpreadWithin(s, 1000) && StepsUpTo(s, 1000)
            && !NextTickFits(s, FairBound(1000, 1000))
            && exists ops :: Run(s, ops) && !BoundHolds(s, ops, FairBound(1000, 1000))
  {
    hide Choice, Life, Outlived, Three, Happens, After, InOrder, Closed, Boot;
    BootsTo();
    s0 := Three([0, 0, 0], multiset{0, 2}, 0, 1);
    events := OneTickEach();
    FactsBehind();
    var e5 := LeaveTo([1000, 1000, 1000], multiset{0, 2}, 1000, 1, 0, 1000);
    events := Onward(s0, events, Three([1000, 1000, 1000], multiset{0, 2}, 1000, 1), e5,
                     Three([1000, 1000, 1000], multiset{2}, 1000, 0));
    var e6 := PreemptingTick([1000, 1000, 1000], multiset{2}, 1000, 0, 2, 2, 2000);
    events := Onward(s0, events, Three([1000, 1000, 1000], multiset{2}, 1000, 0), e6,
                     Three([2000, 1000, 1000], multiset{0}, 2000, 2));
    var e7 := QuietTick([2000, 1000, 1000], multiset{0}, 2000, 2);
    events := Onward(s0, events, Three([2000, 1000, 1000], multiset{0}, 2000, 2), e7,
                     Three([2000, 1000, 2000], multiset{0}, 2000, 2));
    var e8 := WakeUp([2000, 1000, 2000], multiset{0}, 2000, 2, 1);
    events := Onward(s0, events, Three([2000, 1000, 2000], multiset{0}, 2000, 2), e8,
                     Three([2000, 1000, 2000], multiset{0, 1}, 2000, 2));
    Behind();
  }

  lemma FactsBehind()
    ensures InOrder(multiset{0, 2}, 1) && InOrder(multiset{2}, 0) && InOrder(multiset{0}, 2)
    ensures multiset{0, 2} - multiset{0} == multiset{2} && multiset{2} + multiset{0} - multiset{2} == multiset{0}
    ensures multiset{0} + multiset{1} == multiset{0, 1}
    ensures [1000, 1000, 1000][0 := 2000] == [2000, 1000, 1000] && [2000, 1000, 1000][2 := 2000] == [2000, 1000, 2000]
    ensures Choice([1000, 1000, 1000], multiset{0, 2}, 0, 1000)
    ensures Choice([2000, 1000, 1000], multiset{2} + multiset{0}, 2, 2000)
  {
    assert 2 in multiset{2} && 0 in multiset{0};
    assert multiset{0, 2} - multiset{0} == multiset{2};
    assert multiset{2} + multiset{0} - multiset{2} == multiset{0};
  }

  lemma Behind()
    ensures var s := Three([2000, 1000, 2000], multiset{0, 1}, 2000, 2);
            && Closed(s) && Anchored(s) && SpreadWithin(s, 1000) && StepsUpTo(s, 1000)
            && !NextTickFits(s, FairBound(1000, 1000))
            && exists ops :: Run(s, ops) && !BoundHolds(s, ops, FairBound(1000, 1000))
  {
    hide Three, Anchored, SpreadWithin, StepsUpTo, NextTickFits, Run, BoundHolds, Closed;
    var s := Three([2000, 1000, 2000], multiset{0, 1}, 2000, 2);
    BehindState(s);
    var ops := TooFarAhead(s, FairBound(1000, 1000));
  }

  lemma BehindState(s: System)
    requires s == Three([2000, 1000, 2000], multiset{0, 1}, 2000, 2)
    ensures Closed(s) && Anchored(s) && SpreadWithin(s, 1000) && StepsUpTo(s, 1000)
    ensures !NextTickFits(s, FairBound(1000, 1000))
  {
    ThreeClosed([2000, 1000, 2000], multiset{0, 1}, 2000, 2);
    assert s.cfs.queue == multiset{0, 1};
    assert 0 in s.cfs.queue && 1 in s.cfs.queue && s.cfs.minVruntime == Vr(s.cfs, 0);
    assert Vr(s.cfs, 1) == 1000 && Vr(s.cfs, 2) == 2000;
  }

  /** Two tasks sleep while the third goes on; once both are woken, Schedule lowers the recorded smallest vruntime. */
  lemma MinCanFall() returns (s0: System, events: seq<Event>, s': System)
    ensures Boot(s0) && Life(s0, events)
    ensures var s := Outlived(s0, events);
            Closed(s) && Rescheduled(s, s') && s'.cfs.minVruntime < s.cfs.minVruntime
  {
    hide Choice, Life, Outlived, Three, Happens, After, InOrder, Closed, Boot, Rescheduled;
    BootsTo();
    s0 := Three([0, 0, 0], multiset{0, 2}, 0, 1);
    events := OneTickEach();
    FactsFall();
    var e5 := LeaveTo([1000, 1000, 1000], multiset{0, 2}, 1000, 1, 2, 1000);
    events := Onward(s0, events, Three([1000, 1000, 1000], multiset{0, 2}, 1000, 1), e5,
                     Three([1000, 1000, 1000], multiset{0}, 1000, 2));
    var e6 := LeaveTo([1000, 1000, 1000], multiset{0}, 1000, 2, 0, 1000);
    events := Onward(s0, events, Three([1000, 1000, 1000], multiset{0}, 1000, 2), e6,
                     Three([1000, 1000, 1000], multiset{}, 1000, 0));
    var e7 := QuietTick([1000, 1000, 1000], multiset{}, 1000, 0);
    events := Onward(s0, events, Three([1000, 1000, 1000], multiset{}, 1000, 0), e7,
                     Three([2000, 1000, 1000], multiset{}, 1000, 0));
    var e8 := YieldTo([2000, 1000, 1000], multiset{}, 1000, 0, 0, 2000);
    events := Onward(s0, events, Three([2000, 1000, 1000], multiset{}, 1000, 0), e8,
                     Three([2000, 1000, 1000], multiset{}, 2000, 0));
    var e9 := WakeUp([2000, 1000, 1000], multiset{}, 2000, 0, 1);
    events := Onward(s0, events, Three([2000, 1000, 1000], multiset{}, 2000, 0), e9,
                     Three([2000, 1000, 1000], multiset{1}, 2000, 0));
    var e10 := WakeUp([2000, 1000, 1000], multiset{1}, 2000, 0, 2);
    events := Onward(s0, events, Three([2000, 1000, 1000], multiset{1}, 2000, 0), e10,
                     Three([2000, 1000, 1000], multiset{1, 2}, 2000, 0));
    s' := Falls();
  }

  lemma FactsFall()
    ensures InOrder(multiset{0, 2}, 1) && InOrder(multiset{0}, 2) && InOrder(multiset{}, 0) && InOrder(multiset{1}, 0)
    ensures multiset{0, 2} - multiset{2} == multiset{0} && multiset{0} - multiset{0} == multiset{}
    ensures multiset{} + multiset{0} - multiset{0} == multiset{} && multiset{} + multiset{1} == multiset{1}
    ensures multiset{1} + multiset{2} == multiset{1, 2}
    ensures [1000, 1000, 1000][0 := 2000] == [2000, 1000, 1000]
    ensures Choice([1000, 1000, 1000], multiset{0, 2}, 2, 1000) && Choice([1000, 1000, 1000], multiset{0}, 0, 1000)
    ensures Choice([2000, 1000, 1000], multiset{} + multiset{0}, 0, 2000)
  {
    assert 0 in multiset{0};
    assert multiset{0, 2} - multiset{2} == multiset{0} && multiset{0} - multiset{0} == multiset{};
    assert multiset{} + multiset{0} - multiset{0} == multiset{};
  }

  lemma Falls() returns (s': System)
    ensures var s := Three([2000, 1000, 1000], multiset{1, 2}, 2000, 0);
            Closed(s) && Rescheduled(s, s') && s'.cfs.minVruntime < s.cfs.minVruntime
  {
    hide Rescheduled, Enqueued;
    var s := Three([2000, 1000, 1000], multiset{1, 2}, 2000, 0);
    ThreeClosed([2000, 1000, 1000], multiset{1, 2}, 2000, 0);
    s' := SomeReschedule(s);
    MinGrowsExactly(s, s');
    RequeuedIs(s);
    var c := Enqueued(s.cfs, s.cur);
    assert 1 in c.queue && 2 in c.queue && Vr(c, 1) < c.minVruntime && Vr(c, 2) < c.minVruntime;
  }
}
