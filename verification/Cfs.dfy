/** The CFS policy (src/task/cfs_scheduler.cpp) and how TickUpdate and Schedule drive it. */
module Cfs {

  import opened Basics

  type TaskId = nat

  const DEFAULT_WEIGHT: nat := 1024
  const MIN_GRANULARITY: nat := 10

  datatype Entity = Entity(vruntime: nat, weight: nat)

  /** `queue` is the heap of ready tasks; the running task is not in it. */
  datatype State = State(
    entities: map<TaskId, Entity>,
    queue: multiset<TaskId>,
    minVruntime: nat)

  function Vr(s: State, p: TaskId): nat
    requires p in s.entities
  {
    s.entities[p].vruntime
  }

  predicate Known(s: State) {
    forall p :: p in s.queue ==> p in s.entities
  }

  /** `p` may be the top of the heap: no ready task has a smaller vruntime. */
  predicate IsTop(s: State, p: TaskId)
    requires Known(s)
  {
    p in s.queue && forall q :: q in s.queue ==> Vr(s, p) <= Vr(s, q)
  }

  /** A new task starts at the smallest vruntime, and a weight of zero means the default. */
  function Enqueued(s: State, p: TaskId): State
    requires p in s.entities
  {
    var e := s.entities[p];
    var e1 := if e.vruntime == 0 then e.(vruntime := s.minVruntime) else e;
    var e2 := if e1.weight == 0 then e1.(weight := DEFAULT_WEIGHT) else e1;
    s.(entities := s.entities[p := e2], queue := s.queue + multiset{p})
  }

  /** What is left of the heap once `p` is taken out of it for good. */
  function Dequeued(s: State, p: TaskId): State {
    s.(queue := s.queue[p := 0])
  }

  /** `next` leaves the heap, and the new top, or else `next`, gives the smallest vruntime. */
  predicate Picked(s: State, next: TaskId, s': State)
    requires Known(s)
  {
    && IsTop(s, next)
    && s'.entities == s.entities && s'.queue == s.queue - multiset{next}
    && (if s'.queue == multiset{} then s'.minVruntime == Vr(s, next)
        else exists top :: top in s'.queue && s'.minVruntime == Vr(s, top)
                           && forall q :: q in s'.queue ==> Vr(s, top) <= Vr(s, q))
  }

  function Delta(weight: nat): nat
    requires weight > 0
  {
    DEFAULT_WEIGHT * 1000 / weight
  }

  /** The running task pays for a tick in proportion to the inverse of its weight. */
  function Charge(s: State, cur: TaskId): State
    requires cur in s.entities && s.entities[cur].weight > 0
  {
    var e := s.entities[cur];
    s.(entities := s.entities[cur := e.(vruntime := e.vruntime + Delta(e.weight))])
  }

  /** The head of the queue is more than the granularity behind the running task. */
  predicate Lags(s: State, cur: TaskId)
    requires Known(s) && cur in s.entities
  {
    exists q :: q in s.queue && Vr(s, q) + MIN_GRANULARITY < Vr(s, cur)
  }

  // ---------------------------------------------------------------------------------------------
  // The scheduler object
  // ---------------------------------------------------------------------------------------------

  ghost function Vruntimes(s: State): map<TaskId, nat> {
    map p | p in s.entities :: Vr(s, p)
  }

  lemma SomeSmallest(s: State) returns (p: TaskId)
    requires Known(s) && s.queue != multiset{}
    ensures IsTop(s, p)
  {
    p := Least(s.queue, Vruntimes(s));
  }

  /** Moving an element from the heap to the list, or dropping it, keeps what is left without `p`. */
  lemma MovedOver(m: multiset<TaskId>, temp: seq<TaskId>, t: TaskId, p: TaskId)
    requires t in m
    ensures var temp' := if t != p then temp + [t] else temp;
            (m - multiset{t})[p := 0] + multiset(temp') == m[p := 0] + multiset(temp)
    ensures |m - multiset{t}| < |m|
  {
  }

  class CfsScheduler {
    var entities: map<TaskId, Entity>
    var queue: multiset<TaskId>
    var minVruntime: nat

    function View(): State
      reads this
    {
      State(entities, queue, minVruntime)
    }

    predicate IsEmpty()
      reads this
    {
      queue == multiset{}
    }

    method Top() returns (p: TaskId)
      requires Known(View()) && !IsEmpty()
      ensures IsTop(View(), p)
    {
      ghost var w := SomeSmallest(View());
      assert w in queue && forall q | q in queue :: entities[w].vruntime <= entities[q].vruntime;
      p :| p in queue && forall q | q in queue :: entities[p].vruntime <= entities[q].vruntime;
    }

    method Enqueue(p: TaskId)
      requires p in entities
      modifies this
      ensures View() == Enqueued(old(View()), p)
    {
      if entities[p].vruntime == 0 {
        entities := entities[p := entities[p].(vruntime := minVruntime)];
      }
      if entities[p].weight == 0 {
        entities := entities[p := entities[p].(weight := DEFAULT_WEIGHT)];
      }
      queue := queue + multiset{p};
    }

    /** Empties the heap into a list that leaves out `p`, and rebuilds the heap from the list. */
    method Dequeue(p: TaskId)
      requires Known(View())
      modifies this`queue
      ensures View() == Dequeued(old(View()), p)
    {
      var temp: seq<TaskId> := [];
      while queue != multiset{}
        invariant Known(View())
        invariant queue[p := 0] + multiset(temp) == old(queue)[p := 0]
        decreases |queue|
      {
        var t := Top();
        MovedOver(queue, temp, t, p);
        queue := queue - multiset{t};
        if t != p {
          temp := temp + [t];
        }
      }
      assert queue[p := 0] == multiset{};
      Rebuild(temp);
    }

    method Rebuild(temp: seq<TaskId>)
      requires IsEmpty()
      modifies this`queue
      ensures queue == multiset(temp)
    {
      for i := 0 to |temp|
        invariant queue == multiset(temp[..i])
      {
        assert temp[..i + 1] == temp[..i] + [temp[i]];
        queue := queue + multiset{temp[i]};
      }
      assert temp[..|temp|] == temp;
    }

    method PickNext() returns (next: Option<TaskId>)
      requires Known(View())
      modifies this`queue, this`minVruntime
      ensures old(IsEmpty()) ==> next == None && View() == old(View())
      ensures !old(IsEmpty()) ==> next.Some? && Picked(old(View()), next.value, View())
    {
      if IsEmpty() {
        return None;
      }
      var p := Top();
      queue := queue - multiset{p};
      if !IsEmpty() {
        var top := Top();
        minVruntime := entities[top].vruntime;
      } else {
        minVruntime := entities[p].vruntime;
      }
      next := Some(p);
    }

    method OnTick(cur: TaskId) returns (preempt: bool)
      requires Known(View()) && cur in entities && entities[cur].weight > 0
      modifies this`entities
      ensures View() == Charge(old(View()), cur) && preempt == Lags(View(), cur)
    {
      var delta := DEFAULT_WEIGHT * 1000 / entities[cur].weight;
      entities := entities[cur := entities[cur].(vruntime := entities[cur].vruntime + delta)];
      preempt := false;
      if !IsEmpty() {
        var next := Top();
        if entities[next].vruntime + MIN_GRANULARITY < entities[cur].vruntime {
          preempt := true;
        }
      }
    }
  }

  // ---------------------------------------------------------------------------------------------
  // Runs of a closed set of runnable tasks
  // ---------------------------------------------------------------------------------------------

  datatype System = System(cfs: State, cur: TaskId)

  /** `expired`: the tick also ends the time slice. The system is left as `after` by Schedule. */
  datatype Op = Tick(expired: bool, after: System) | Yield(after: System)

  /** Schedule: the running task is queued again and a task with the smallest vruntime taken. */
  ghost predicate Rescheduled(s: System, s': System)
    requires s.cur in s.cfs.entities
  {
    var c := Enqueued(s.cfs, s.cur);
    Known(c) && Picked(c, s'.cur, s'.cfs)
  }

  ghost predicate Possible(s: System, op: Op) {
    && Known(s.cfs) && s.cur in s.cfs.entities && s.cfs.entities[s.cur].weight > 0
    && match op
       case Tick(expired, after) =>
         var m := System(Charge(s.cfs, s.cur), s.cur);
         if Lags(m.cfs, m.cur) || expired then Rescheduled(m, after) else after == m
       case Yield(after) => Rescheduled(s, after)
  }

  ghost predicate Run(s: System, ops: seq<Op>)
    decreases |ops|
  {
    ops == [] || (Possible(s, ops[0]) && Run(ops[0].after, ops[1..]))
  }

  ghost function Exec(s: System, ops: seq<Op>): System
    decreases |ops|
  {
    if ops == [] then s else Exec(ops[0].after, ops[1..])
  }

  // ---------------------------------------------------------------------------------------------
  // Fairness
  // ---------------------------------------------------------------------------------------------

  predicate Member(s: System, p: TaskId) {
    p == s.cur || p in s.cfs.queue
  }

  /** Each runnable task is queued once or runs, and has a weight. */
  ghost predicate Closed(s: System) {
    && s.cur in s.cfs.entities && s.cur !in s.cfs.queue
    && (forall p :: p in s.cfs.queue ==> p in s.cfs.entities && s.cfs.queue[p] == 1)
    && (forall p :: p in s.cfs.entities ==> s.cfs.entities[p].weight > 0)
  }

  /** The recorded smallest vruntime is that of a queued task, as every pick records it. */
  ghost predicate Anchored(s: System)
    requires Closed(s)
  {
    s.cfs.queue != multiset{} ==> exists q :: q in s.cfs.queue && s.cfs.minVruntime == Vr(s.cfs, q)
  }

  /** As a pick leaves it: nobody is more than the granularity behind the running task. */
  ghost predicate Settled(s: System)
    requires Closed(s)
  {
    && (forall q :: q in s.cfs.queue ==> Vr(s.cfs, s.cur) <= Vr(s.cfs, q) + MIN_GRANULARITY)
    && Anchored(s)
  }

  /** The next tick of the running task does not put it more than `bound` ahead. */
  ghost predicate NextTickFits(s: System, bound: nat)
    requires Closed(s)
  {
    forall q :: q in s.cfs.queue ==>
      Vr(s.cfs, s.cur) + Delta(s.cfs.entities[s.cur].weight) <= Vr(s.cfs, q) + bound
  }

  lemma SettledFits(s: System, bound: nat, step: nat)
    requires Closed(s) && Settled(s) && StepsUpTo(s, step) && bound >= MIN_GRANULARITY + step
    ensures NextTickFits(s, bound) && Anchored(s)
  {
  }

  ghost predicate SpreadWithin(s: System, bound: nat)
    requires Closed(s)
  {
    forall p, q :: Member(s, p) && Member(s, q) ==> Vr(s.cfs, p) <= Vr(s.cfs, q) + bound
  }

  /** No tick costs a task more than `step`. */
  ghost predicate StepsUpTo(s: System, step: nat)
    requires Closed(s)
  {
    forall p :: p in s.cfs.entities ==> Delta(s.cfs.entities[p].weight) <= step
  }

  ghost predicate SameWeights(s: System, s': System) {
    && s'.cfs.entities.Keys == s.cfs.entities.Keys
    && (forall p :: p in s.cfs.entities ==> s'.cfs.entities[p].weight == s.cfs.entities[p].weight)
    && (forall p :: Member(s', p) <==> Member(s, p))
  }

  /** The running task may have just been charged a tick that put it one step too far ahead. */
  ghost predicate Charged(s: System, bound: nat)
    requires Closed(s)
  {
    SpreadWithin(s, bound) && Anchored(s)
  }

  lemma ChargeFair(s: System, bound: nat)
    requires Closed(s) && Anchored(s) && NextTickFits(s, bound) && SpreadWithin(s, bound)
    ensures var m := System(Charge(s.cfs, s.cur), s.cur);
            && Closed(m) && SameWeights(s, m) && Charged(m, bound)
            && (!Lags(m.cfs, m.cur) ==> Settled(m))
  {
    var m := System(Charge(s.cfs, s.cur), s.cur);
    forall p, q | Member(m, p) && Member(m, q)
      ensures Vr(m.cfs, p) <= Vr(m.cfs, q) + bound
    {
      assert Member(s, p) && Member(s, q);
    }
    if s.cfs.queue != multiset{} {
      var q :| q in s.cfs.queue && s.cfs.minVruntime == Vr(s.cfs, q);
      assert m.cfs.minVruntime == Vr(m.cfs, q);
    }
  }

  /** Queueing the running task again keeps the spread, also when its vruntime is reset from zero. */
  lemma EnqueueFair(s: System, bound: nat)
    requires Closed(s) && Charged(s, bound)
    ensures var c := Enqueued(s.cfs, s.cur);
            && Known(c) && c.entities.Keys == s.cfs.entities.Keys
            && (forall p :: p in c.queue <==> Member(s, p)) && (forall p :: p in c.queue ==> c.queue[p] == 1)
            && (forall p :: p in c.entities ==> c.entities[p].weight == s.cfs.entities[p].weight)
            && (forall p, q :: p in c.queue && q in c.queue ==> Vr(c, p) <= Vr(c, q) + bound)
  {
    hide Delta;
    var c := Enqueued(s.cfs, s.cur);
    forall p, q | p in c.queue && q in c.queue
      ensures Vr(c, p) <= Vr(c, q) + bound
    {
      assert Member(s, p) && Member(s, q);
      if s.cfs.queue != multiset{} {
        var w :| w in s.cfs.queue && s.cfs.minVruntime == Vr(s.cfs, w);
        assert Member(s, w);
      }
    }
  }

  lemma PickFair(c: State, s': System, bound: nat)
    requires Known(c) && Picked(c, s'.cur, s'.cfs)
    requires forall p :: p in c.queue ==> c.queue[p] == 1
    requires forall p :: p in c.entities ==> c.entities[p].weight > 0
    requires forall p, q :: p in c.queue && q in c.queue ==> Vr(c, p) <= Vr(c, q) + bound
    ensures Closed(s') && Settled(s') && SpreadWithin(s', bound)
    ensures forall p :: Member(s', p) <==> p in c.queue
  {
    hide Delta;
    assert forall p :: Member(s', p) <==> p in c.queue;
  }

  lemma ReschedulesFair(s: System, s': System, bound: nat)
    requires Closed(s) && Charged(s, bound) && Rescheduled(s, s')
    ensures Closed(s') && SameWeights(s, s') && Settled(s') && SpreadWithin(s', bound)
  {
    hide Delta, Charged, Enqueued, Settled, SpreadWithin;
    EnqueueFair(s, bound);
    PickFair(Enqueued(s.cfs, s.cur), s', bound);
  }

  lemma OpFair(s: System, op: Op, bound: nat, step: nat)
    requires Closed(s) && Anchored(s) && NextTickFits(s, bound) && SpreadWithin(s, bound)
    requires StepsUpTo(s, step) && Possible(s, op)
    ensures Closed(op.after) && SameWeights(s, op.after) && Settled(op.after)
    ensures SpreadWithin(op.after, bound) && StepsUpTo(op.after, step)
  {
    match op
    case Tick(expired, after) =>
      ChargeFair(s, bound);
      var m := System(Charge(s.cfs, s.cur), s.cur);
      if Lags(m.cfs, m.cur) || expired {
        ReschedulesFair(m, after, bound);
      }
    case Yield(after) => ReschedulesFair(s, after, bound);
  }

  function FairBound(initial: nat, step: nat): nat {
    if initial >= MIN_GRANULARITY + step then initial else MIN_GRANULARITY + step
  }

  /**
   Fairness. While a fixed set of tasks stays runnable, the spread of their vruntimes never
   exceeds the larger of its initial value and the granularity plus the costliest tick,
   through any number of ticks, preemptions, expired slices and yields.
   */
  lemma {:induction false} SpreadStaysBounded(s: System, ops: seq<Op>, initial: nat, step: nat)
    requires Closed(s) && Anchored(s) && SpreadWithin(s, initial) && StepsUpTo(s, step) && Run(s, ops)
    requires NextTickFits(s, FairBound(initial, step))
    ensures var s' := Exec(s, ops);
            && Closed(s') && Anchored(s') && SameWeights(s, s') && SpreadWithin(s', FairBound(initial, step))
            && NextTickFits(s', FairBound(initial, step))
    decreases |ops|
  {
    var bound := FairBound(initial, step);
    assert SpreadWithin(s, bound);
    if ops != [] {
      OpFair(s, ops[0], bound, step);
      SettledFits(ops[0].after, bound, step);
      SpreadStaysBounded(ops[0].after, ops[1..], bound, step);
    }
  }

  ghost predicate BoundHolds(s: System, ops: seq<Op>, bound: nat) {
    Closed(Exec(s, ops)) && SpreadWithin(Exec(s, ops), bound)
  }

  /**
   The bound holds on every run exactly if the next tick of the running task keeps it; a task
   that already runs further ahead, which no pick leaves, is charged before it is preempted.
   */
  lemma BoundExactly(s: System, initial: nat, step: nat)
    requires Closed(s) && Anchored(s) && SpreadWithin(s, initial) && StepsUpTo(s, step)
    ensures (forall ops :: Run(s, ops) ==> BoundHolds(s, ops, FairBound(initial, step)))
       <==> NextTickFits(s, FairBound(initial, step))
  {
    var bound := FairBound(initial, step);
    if NextTickFits(s, bound) {
      forall ops | Run(s, ops)
        ensures BoundHolds(s, ops, bound)
      {
        SpreadStaysBounded(s, ops, initial, step);
      }
    } else {
      var ops := TooFarAhead(s, bound);
      assert Run(s, ops) && !BoundHolds(s, ops, bound);
    }
  }

  lemma SomeReschedule(s: System) returns (after: System)
    requires Closed(s)
    ensures Rescheduled(s, after)
  {
    var c := Enqueued(s.cfs, s.cur);
    var next := Least(c.queue, Vruntimes(c));
    var queue := c.queue - multiset{next};
    if queue == multiset{} {
      after := System(State(c.entities, queue, Vr(c, next)), next);
    } else {
      var top := Least(queue, Vruntimes(c));
      after := System(State(c.entities, queue, Vr(c, top)), next);
    }
  }

  /** Rescheduling does not close a gap behind the running task. */
  lemma GapKept(m: System, after: System, q: TaskId, bound: nat)
    requires Closed(m) && Rescheduled(m, after) && q in m.cfs.queue && Vr(m.cfs, m.cur) > Vr(m.cfs, q) + bound
    ensures Closed(after) ==> !SpreadWithin(after, bound)
  {
    hide Delta;
    assert after.cfs.entities == Enqueued(m.cfs, m.cur).entities;
    assert Member(after, m.cur) && Member(after, q);
    assert Vr(after.cfs, m.cur) == Vr(m.cfs, m.cur) && Vr(after.cfs, q) == Vr(m.cfs, q);
  }

  /** A run of one tick that breaks the bound. */
  lemma TooFarAhead(s: System, bound: nat) returns (ops: seq<Op>)
    requires Closed(s) && !NextTickFits(s, bound) && bound >= MIN_GRANULARITY
    ensures Run(s, ops) && !BoundHolds(s, ops, bound)
  {
    hide Delta, Rescheduled, SpreadWithin;
    var m := System(Charge(s.cfs, s.cur), s.cur);
    var q :| q in s.cfs.queue && Vr(s.cfs, s.cur) + Delta(s.cfs.entities[s.cur].weight) > Vr(s.cfs, q) + bound;
    assert Vr(m.cfs, q) + MIN_GRANULARITY < Vr(m.cfs, m.cur);
    var after := SomeReschedule(m);
    GapKept(m, after, q, bound);
    ops := [Tick(false, after)];
    assert ops[1..] == [] && Run(after, []) && Exec(after, []) == after;
  }

  // ---------------------------------------------------------------------------------------------
  // The recorded smallest vruntime
  // ---------------------------------------------------------------------------------------------

  /** The running task is queued again and nothing else changes. */
  ghost predicate Requeued(s: System, c: State)
    requires Closed(s)
  {
    && Known(c) && c.minVruntime == s.cfs.minVruntime
    && (forall p :: p in c.queue <==> p == s.cur || p in s.cfs.queue)
    && (forall p :: p in c.queue ==> c.queue[p] == 1)
    && (forall q :: q in s.cfs.queue ==> Vr(c, q) == Vr(s.cfs, q))
    && Vr(c, s.cur) == if Vr(s.cfs, s.cur) == 0 then s.cfs.minVruntime else Vr(s.cfs, s.cur)
  }

  lemma RequeuedIs(s: System)
    requires Closed(s)
    ensures Requeued(s, Enqueued(s.cfs, s.cur))
  {
    hide Delta;
  }

  /** `next` has the least vruntime, the others stay queued, and `min` is theirs or that of `next`. */
  ghost predicate Taken(c: State, next: TaskId, rest: State)
    requires Known(c)
  {
    && next in c.queue && (forall q :: q in c.queue ==> Vr(c, next) <= Vr(c, q))
    && rest.entities == c.entities && (forall p :: p in rest.queue <==> p in c.queue && p != next)
    && (forall p :: p in rest.queue ==> rest.minVruntime <= Vr(c, p))
    && (rest.queue == multiset{} ==> rest.minVruntime == Vr(c, next))
    && (rest.queue != multiset{} ==> exists top :: top in rest.queue && rest.minVruntime == Vr(c, top))
  }

  lemma TakenIs(c: State, next: TaskId, rest: State)
    requires Known(c) && Picked(c, next, rest) && forall p :: p in c.queue ==> c.queue[p] == 1
    ensures Taken(c, next, rest)
  {
  }

  /** No queued task is behind the recorded smallest vruntime except perhaps `but`. */
  ghost predicate NoneBehind(c: State, but: TaskId)
    requires Known(c)
  {
    but in c.queue && forall p :: p in c.queue && p != but ==> c.minVruntime <= Vr(c, p)
  }

  /**
   Schedule does not lower the recorded smallest vruntime exactly if, with the running task queued
   again, at most one runnable task is behind it, or none if there is only one.
   */
  lemma MinGrowsExactly(s: System, s': System)
    requires Closed(s) && Rescheduled(s, s')
    ensures var c := Enqueued(s.cfs, s.cur);
            s.cfs.minVruntime <= s'.cfs.minVruntime <==>
              if s.cfs.queue == multiset{} then s.cfs.minVruntime <= Vr(c, s.cur)
              else exists but :: NoneBehind(c, but)
  {
    hide Enqueued, Picked, Vr;
    var c := Enqueued(s.cfs, s.cur);
    RequeuedIs(s);
    TakenIs(c, s'.cur, s'.cfs);
    if s.cfs.queue == multiset{} {
      assert s'.cur == s.cur && s'.cfs.queue == multiset{};
    } else {
      MinOfRest(c, s'.cur, s'.cfs, s.cur);
    }
  }

  lemma MinOfRest(c: State, next: TaskId, rest: State, cur: TaskId)
    requires Known(c) && Taken(c, next, rest) && cur in c.queue && exists p :: p in c.queue && p != cur
    ensures c.minVruntime <= rest.minVruntime <==> exists but :: NoneBehind(c, but)
  {
    var p :| p in c.queue && p != cur;
    assert p in rest.queue || cur in rest.queue;
    if c.minVruntime <= rest.minVruntime {
      assert NoneBehind(c, next);
    }
    if but :| NoneBehind(c, but) {
      assert Vr(c, next) <= Vr(c, but);
    }
  }

  /** The recorded smallest vruntime is not above that of any queued task, or of the only one. */
  ghost predicate Lowest(s: System)
    requires Closed(s)
  {
    && (forall q :: q in s.cfs.queue ==> s.cfs.minVruntime <= Vr(s.cfs, q))
    && (s.cfs.queue == multiset{} ==> s.cfs.minVruntime <= Vr(s.cfs, s.cur))
  }

  lemma RescheduleLowest(s: System, s': System)
    requires Closed(s) && Lowest(s) && Rescheduled(s, s')
    ensures Closed(s') && Lowest(s') && s.cfs.minVruntime <= s'.cfs.minVruntime
  {
    hide Enqueued, Picked;
    PickClosed(s, s');
    MinGrowsExactly(s, s');
    RequeuedIs(s);
    var c := Enqueued(s.cfs, s.cur);
    TakenIs(c, s'.cur, s'.cfs);
    assert s.cfs.queue != multiset{} ==> NoneBehind(c, s.cur);
  }

  lemma ChargeLowest(s: System, m: System)
    requires Closed(s) && Lowest(s) && m == System(Charge(s.cfs, s.cur), s.cur)
    ensures Closed(m) && Lowest(m)
  {
    hide Delta;
  }

  /** While a fixed set of tasks stays runnable, the recorded smallest vruntime never goes down. */
  lemma {:induction false} MinNeverFalls(s: System, ops: seq<Op>)
    requires Closed(s) && Lowest(s) && Run(s, ops)
    ensures Closed(Exec(s, ops)) && Lowest(Exec(s, ops)) && s.cfs.minVruntime <= Exec(s, ops).cfs.minVruntime
    decreases |ops|
  {
    hide Lags, Closed, Lowest, Rescheduled;
    if ops != [] {
      var op := ops[0];
      if op.Tick? {
        var m := System(Charge(s.cfs, s.cur), s.cur);
        ChargeLowest(s, m);
        if Lags(m.cfs, m.cur) || op.expired {
          RescheduleLowest(m, op.after);
        }
      } else {
        RescheduleLowest(s, op.after);
      }
      MinNeverFalls(op.after, ops[1..]);
    }
  }

  // ---------------------------------------------------------------------------------------------
  // Proportional share
  // ---------------------------------------------------------------------------------------------

  /** How many ticks of the run `p` was charged for. */
  ghost function TicksOf(s: System, ops: seq<Op>, p: TaskId): nat
    decreases |ops|
  {
    if ops == [] then 0
    else (if ops[0].Tick? && s.cur == p then 1 else 0) + TicksOf(ops[0].after, ops[1..], p)
  }

  /** Nobody is at vruntime zero, which Enqueue would take for a new task. */
  ghost predicate AllStarted(s: System)
    requires Closed(s)
  {
    forall p :: p in s.cfs.entities ==> Vr(s.cfs, p) > 0
  }

  /** What one operation costs each task, none of which is at vruntime zero. */
  lemma OpCharges(s: System, op: Op, p: TaskId)
    requires Closed(s) && AllStarted(s) && Possible(s, op) && p in s.cfs.entities
    ensures p in op.after.cfs.entities
    ensures op.after.cfs.entities[p].weight == s.cfs.entities[p].weight
    ensures op.after.cfs.entities[p].vruntime
            == Vr(s.cfs, p) + (if op.Tick? && s.cur == p then Delta(s.cfs.entities[p].weight) else 0)
  {
    hide Delta, Picked, Lags;
    if op.Tick? {
      var m := System(Charge(s.cfs, s.cur), s.cur);
      if Lags(m.cfs, m.cur) || op.expired {
        PickCharges(m, op.after, p);
      }
    } else {
      PickCharges(s, op.after, p);
    }
  }

  lemma PickCharges(s: System, s': System, p: TaskId)
    requires s.cur in s.cfs.entities && s.cfs.entities[s.cur].weight > 0 && Vr(s.cfs, s.cur) > 0
    requires p in s.cfs.entities && Rescheduled(s, s')
    ensures p in s'.cfs.entities && s'.cfs.entities[p] == s.cfs.entities[p]
  {
  }

  lemma OpKeepsStarted(s: System, op: Op)
    requires Closed(s) && AllStarted(s) && Possible(s, op)
    requires Closed(op.after) && SameWeights(s, op.after)
    ensures AllStarted(op.after)
  {
    hide Delta, Possible;
    forall q | q in op.after.cfs.entities
      ensures Vr(op.after.cfs, q) > 0
    {
      OpCharges(s, op, q);
    }
  }

  /** Every operation keeps the set of runnable tasks and their weights, however far apart they are. */
  lemma OpClosed(s: System, op: Op)
    requires Closed(s) && Possible(s, op)
    ensures Closed(op.after) && SameWeights(s, op.after)
  {
    hide Delta, Lags, Closed, SameWeights, Rescheduled;
    if op.Tick? {
      var m := System(Charge(s.cfs, s.cur), s.cur);
      ChargeClosed(s, m);
      if Lags(m.cfs, m.cur) || op.expired {
        PickClosed(m, op.after);
        SameThrough(s, m, op.after);
      }
    } else {
      PickClosed(s, op.after);
    }
  }

  lemma ChargeClosed(s: System, m: System)
    requires Closed(s) && m == System(Charge(s.cfs, s.cur), s.cur)
    ensures Closed(m) && SameWeights(s, m)
  {
    hide Delta;
  }

  lemma SameThrough(s: System, m: System, s': System)
    requires SameWeights(s, m) && SameWeights(m, s')
    ensures SameWeights(s, s')
  {
  }

  lemma PickClosed(s: System, s': System)
    requires Closed(s) && Rescheduled(s, s')
    ensures Closed(s') && SameWeights(s, s')
  {
    var c := Enqueued(s.cfs, s.cur);
    assert forall p :: p in c.queue <==> Member(s, p);
    assert forall p :: Member(s', p) <==> p in c.queue;
  }

  /** The vruntime of a task grows by exactly what its ticks cost it. */
  lemma {:induction false} VruntimeIsService(s: System, ops: seq<Op>, p: TaskId)
    requires Closed(s) && Run(s, ops) && AllStarted(s) && p in s.cfs.entities
    ensures p in Exec(s, ops).cfs.entities
    ensures Vr(Exec(s, ops).cfs, p) == Vr(s.cfs, p) + TicksOf(s, ops, p) * Delta(s.cfs.entities[p].weight)
    decreases |ops|
  {
    hide Delta, Possible, AllStarted;
    if ops != [] {
      OpClosed(s, ops[0]);
      OpKeepsStarted(s, ops[0]);
      OpCharges(s, ops[0], p);
      VruntimeIsService(ops[0].after, ops[1..], p);
      Distribute(if ops[0].Tick? && s.cur == p then 1 else 0, TicksOf(ops[0].after, ops[1..], p),
                 Delta(s.cfs.entities[p].weight));
    }
  }

  lemma Distribute(a: nat, b: nat, c: nat)
    ensures (a + b) * c == a * c + b * c
  {
  }

  /**
   Proportional share. Over any run, the ticks two runnable tasks get, each weighed by what a
   tick costs the task, differ by no more than the initial spread plus the fairness bound, however long it is.
   */
  lemma ProportionalShare(s: System, ops: seq<Op>, p: TaskId, q: TaskId, initial: nat, step: nat)
    requires Closed(s) && Anchored(s) && SpreadWithin(s, initial) && StepsUpTo(s, step) && Run(s, ops)
    requires NextTickFits(s, FairBound(initial, step)) && AllStarted(s) && Member(s, p) && Member(s, q)
    ensures var bound := FairBound(initial, step);
            TicksOf(s, ops, p) * Delta(s.cfs.entities[p].weight)
            <= TicksOf(s, ops, q) * Delta(s.cfs.entities[q].weight) + initial + bound
  {
    SpreadStaysBounded(s, ops, initial, step);
    VruntimeIsService(s, ops, p);
    VruntimeIsService(s, ops, q);
    var s' := Exec(s, ops);
    assert Member(s', p) && Member(s', q);
  }

  /** What a tick costs is 1024000 / weight, rounded down. */
  lemma DeltaExact(w: nat)
    requires w > 0
    ensures Delta(w) * w <= 1024000 < (Delta(w) + 1) * w
  {
    assert 1024000 == w * (1024000 / w) + 1024000 % w;
  }

  lemma Ordered(a: nat, b: nat, c: nat)
    requires a <= b
    ensures a * c <= b * c
  {
  }

  /** Costs rounded down from k / weight, and weighed ticks that differ by no more than `b`. */
  lemma ShareArith(k: nat, tp: nat, tq: nat, dp: nat, dq: nat, wp: nat, wq: nat, b: nat, r: nat)
    requires k == dp * wp + r && dq * wq <= k && tp * dp <= tq * dq + b
    ensures k * (tp * wq) <= k * (tq * wp) + b * (wp * wq) + r * (tp * wq)
  {
    Ordered(tp * dp, tq * dq + b, wp * wq);
    Ordered(dq * wq, k, tq * wp);
    assert k * (tp * wq) == (dp * wp) * (tp * wq) + r * (tp * wq);
    assert (dp * wp) * (tp * wq) == (tp * dp) * (wp * wq);
    assert (tq * dq + b) * (wp * wq) == (dq * wq) * (tq * wp) + b * (wp * wq);
  }

  /**
   Shares follow the weights. Over any run the ticks two runnable tasks get are in proportion to
   their weights up to a constant, and up to what rounding the cost of a tick down loses.
   */
  lemma WeightedShare(s: System, ops: seq<Op>, p: TaskId, q: TaskId, initial: nat, step: nat)
    requires Closed(s) && Anchored(s) && SpreadWithin(s, initial) && StepsUpTo(s, step) && Run(s, ops)
    requires NextTickFits(s, FairBound(initial, step)) && AllStarted(s) && Member(s, p) && Member(s, q)
    ensures var wp, wq := s.cfs.entities[p].weight, s.cfs.entities[q].weight;
            1024000 * (TicksOf(s, ops, p) * wq)
            <= 1024000 * (TicksOf(s, ops, q) * wp) + (initial + FairBound(initial, step)) * (wp * wq)
               + (1024000 % wp) * (TicksOf(s, ops, p) * wq)
  {
    hide Anchored, SpreadWithin, StepsUpTo, NextTickFits, AllStarted, Run, TicksOf, Delta, FairBound;
    var wp, wq := s.cfs.entities[p].weight, s.cfs.entities[q].weight;
    ProportionalShare(s, ops, p, q, initial, step);
    DeltaExact(wq);
    Remaining(wp);
    ShareArith(1024000, TicksOf(s, ops, p), TicksOf(s, ops, q), Delta(wp), Delta(wq), wp, wq,
               initial + FairBound(initial, step), 1024000 % wp);
  }

  lemma Remaining(w: nat)
    requires w > 0
    ensures 1024000 == Delta(w) * w + 1024000 % w
  {
  }

  // ---------------------------------------------------------------------------------------------
  // A new task
  // ---------------------------------------------------------------------------------------------

  /** The run queue with a task that was created and queued. */
  function WithTask(s: System, p: TaskId, e: Entity): System {
    s.(cfs := Enqueued(s.cfs.(entities := s.cfs.entities[p := e]), p))
  }

  lemma NewTaskQueued(s: System, p: TaskId, e: Entity)
    requires Closed(s) && p !in s.cfs.entities
    ensures var s' := WithTask(s, p, e);
            && Closed(s') && s'.cfs.entities[p].weight == (if e.weight == 0 then DEFAULT_WEIGHT else e.weight)
            && Vr(s'.cfs, p) == (if e.vruntime == 0 then s.cfs.minVruntime else e.vruntime)
            && s'.cfs.queue == s.cfs.queue + multiset{p} && s'.cfs.minVruntime == s.cfs.minVruntime
            && (forall q :: q in s.cfs.entities ==> q in s'.cfs.entities && s'.cfs.entities[q] == s.cfs.entities[q])
  {
    hide Delta;
    var s' := WithTask(s, p, e);
    assert s'.cfs.queue[p] == 1;
    assert s'.cur != p;
  }

  /**
   A task that was never charged is queued without widening the spread of the runnable tasks, so
   that it neither waits behind all of them nor keeps them waiting.
   */
  lemma NewTaskFits(s: System, p: TaskId, e: Entity, bound: nat)
    requires Closed(s) && Anchored(s) && s.cfs.queue != multiset{} && SpreadWithin(s, bound)
    requires p !in s.cfs.entities && e.vruntime == 0
    ensures Closed(WithTask(s, p, e)) && SpreadWithin(WithTask(s, p, e), bound)
  {
    hide Enqueued, Delta;
    NewTaskQueued(s, p, e);
    var s' := WithTask(s, p, e);
    var w :| w in s.cfs.queue && s.cfs.minVruntime == Vr(s.cfs, w);
    forall a: TaskId, b: TaskId | Member(s', a) && Member(s', b)
      ensures Vr(s'.cfs, a) <= Vr(s'.cfs, b) + bound
    {
      assert Member(s, if a == p then w else a) && Member(s, if b == p then w else b);
    }
  }
}
