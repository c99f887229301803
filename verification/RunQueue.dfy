/**
 The run queue of one core: what Schedule, TickUpdate, Sleep, Block, Wakeup and AddTask
 (src/task) do to it. Each operation is atomic here; class TaskManager carries them out.
 */
module RunQueue {

  import opened Basics

  datatype Status = UnInit | Ready | Running | Sleeping | Blocked | Exited | Zombie

  datatype Policy = RealTime | Normal | IdlePolicy

  /** A task control block is named by its address. */
  type TaskId = nat

  type ResourceId = nat

  const MS_PER_SECOND: nat := 1000

  datatype Task = Task(
    status: Status,
    policy: Policy,
    blockedOn: ResourceId,
    wakeTick: nat,
    sliceRemaining: nat,
    sliceDefault: nat,
    totalRuntime: nat,
    contextSwitches: nat)

  /** `fifo` and `rr` are the RealTime and Normal ready lists, `idleSlot` the Idle scheduler. */
  datatype State = State(
    tasks: map<TaskId, Task>,
    fifo: seq<TaskId>,
    rr: seq<TaskId>,
    idleSlot: Option<TaskId>,
    sleeping: multiset<TaskId>,
    blocked: map<ResourceId, seq<TaskId>>,
    localTick: nat,
    totalSchedules: nat,
    running: TaskId,
    idle: TaskId)

  // ---------------------------------------------------------------------------------------------
  // The schedulers
  // ---------------------------------------------------------------------------------------------

  function SetTask(s: State, p: TaskId, t: Task): State {
    s.(tasks := s.tasks[p := t])
  }

  function SetStatus(s: State, p: TaskId, status: Status): State
    requires p in s.tasks
  {
    SetTask(s, p, s.tasks[p].(status := status))
  }

  function Enqueue(s: State, p: TaskId): State
    requires p in s.tasks
  {
    match s.tasks[p].policy
    case RealTime => s.(fifo := s.fifo + [p])
    case Normal =>
      SetTask(s, p, s.tasks[p].(sliceRemaining := s.tasks[p].sliceDefault)).(rr := s.rr + [p])
    case IdlePolicy => s.(idleSlot := Some(p))
  }

  /** `list::remove` drops every occurrence, the round-robin scan only the first. */
  function RemoveAll(q: seq<TaskId>, p: TaskId): seq<TaskId> {
    if q == [] then []
    else if q[0] == p then RemoveAll(q[1..], p)
    else [q[0]] + RemoveAll(q[1..], p)
  }

  function RemoveFirst(q: seq<TaskId>, p: TaskId): seq<TaskId> {
    if q == [] then []
    else if q[0] == p then q[1..]
    else [q[0]] + RemoveFirst(q[1..], p)
  }

  function Dequeue(s: State, p: TaskId): State
    requires p in s.tasks
  {
    match s.tasks[p].policy
    case RealTime => s.(fifo := RemoveAll(s.fifo, p))
    case Normal => s.(rr := RemoveFirst(s.rr, p))
    case IdlePolicy => if s.idleSlot == Some(p) then s.(idleSlot := None) else s
  }

  // ---------------------------------------------------------------------------------------------
  // Schedule
  // ---------------------------------------------------------------------------------------------

  predicate AllKnown(s: State, q: seq<TaskId>) {
    forall i :: 0 <= i < |q| ==> q[i] in s.tasks
  }

  predicate Known(s: State) {
    && s.running in s.tasks && s.idle in s.tasks
    && AllKnown(s, s.fifo) && AllKnown(s, s.rr)
    && (s.idleSlot.Some? ==> s.idleSlot.value in s.tasks)
  }

  /** A current task that still runs becomes ready again and goes back to its queue. */
  function Requeue(s: State): (r: State)
    requires s.running in s.tasks
    ensures Known(s) ==> Known(r)
    ensures r.running == s.running && r.idle == s.idle
  {
    var cur := s.running;
    if s.tasks[cur].status != Running then s
    else
      var s1 := SetStatus(s, cur, Ready);
      match s.tasks[cur].policy
      case RealTime => Enqueue(s1, cur)
      case Normal => Enqueue(s1, cur)
      case IdlePolicy => s1
  }

  /** The queue after the leading entries that are not ready have been dropped. */
  function DropStale(tasks: map<TaskId, Task>, q: seq<TaskId>): (r: seq<TaskId>)
    requires forall i :: 0 <= i < |q| ==> q[i] in tasks
    ensures forall i :: 0 <= i < |r| ==> r[i] in tasks
    ensures r != [] ==> tasks[r[0]].status == Ready
  {
    if q == [] || tasks[q[0]].status == Ready then q else DropStale(tasks, q[1..])
  }

  /** The pick loop ends: whenever it reaches the Idle scheduler, the task found there is ready. */
  predicate PickEnds(s: State)
    requires Known(s)
  {
    DropStale(s.tasks, s.fifo) == [] && DropStale(s.tasks, s.rr) == [] && s.idleSlot.Some? ==>
      s.tasks[s.idleSlot.value].status == Ready
  }

  predicate Schedulable(s: State) {
    Known(s) && PickEnds(Requeue(s))
  }

  /** The pick loop: RealTime before Normal before Idle, the first ready entry of each. */
  function Pick(s: State): (r: (State, Option<TaskId>))
    requires Known(s) && PickEnds(s)
    ensures r.0 == s.(fifo := r.0.fifo, rr := r.0.rr) && Known(r.0)
    ensures r.1.Some? ==> r.1.value in s.tasks && s.tasks[r.1.value].status == Ready
  {
    var fifo := DropStale(s.tasks, s.fifo);
    if fifo != [] then (s.(fifo := fifo[1..]), Some(fifo[0]))
    else
      var rr := DropStale(s.tasks, s.rr);
      if rr != [] then (s.(fifo := [], rr := rr[1..]), Some(rr[0]))
      else (s.(fifo := [], rr := []), s.idleSlot)
  }

  /** With nothing to pick, a ready current task goes on, and otherwise the idle task takes over. */
  function Fallback(s: State, pick: Option<TaskId>): (r: (State, TaskId))
    requires s.running in s.tasks && s.idle in s.tasks && (pick.Some? ==> pick.value in s.tasks)
    ensures r.1 in r.0.tasks
  {
    match pick
    case Some(p) => (s, p)
    case None =>
      if s.tasks[s.running].status == Ready then (s, s.running)
      else (SetStatus(s, s.idle, Ready), s.idle)
  }

  function Dispatch(s: State, next: TaskId): State
    requires next in s.tasks
  {
    var t := s.tasks[next];
    SetTask(s, next, t.(status := Running, sliceRemaining := t.sliceDefault,
                        contextSwitches := t.contextSwitches + 1))
    .(totalSchedules := s.totalSchedules + 1, running := next)
  }

  function Schedule(s: State): State
    requires Schedulable(s)
  {
    var (s1, pick) := Pick(Requeue(s));
    var (s2, next) := Fallback(s1, pick);
    Dispatch(s2, next)
  }

  // ---------------------------------------------------------------------------------------------
  // TickUpdate
  // ---------------------------------------------------------------------------------------------

  predicate SleepersKnown(s: State) {
    forall p :: p in s.sleeping ==> p in s.tasks
  }

  predicate Due(s: State, p: TaskId)
    requires p in s.tasks
  {
    s.tasks[p].wakeTick <= s.localTick
  }

  /** `p` may be the top of the sleep heap: no sleeper wakes earlier. Ties may fall either way. */
  predicate IsTop(s: State, p: TaskId)
    requires SleepersKnown(s)
  {
    p in s.sleeping && forall q :: q in s.sleeping ==> s.tasks[p].wakeTick <= s.tasks[q].wakeTick
  }

  function WakeOne(s: State, p: TaskId): State
    requires p in s.tasks
  {
    var s1 := SetStatus(s.(sleeping := s.sleeping - multiset{p}), p, Ready);
    if p == s.running then s1 else Enqueue(s1, p)
  }

  /** `order` is a sequence in which the heap gives up its due tasks, and none is left due. */
  ghost predicate WakeOrder(s: State, order: seq<TaskId>)
    decreases |order|
  {
    && SleepersKnown(s)
    && if order == [] then forall p :: p in s.sleeping ==> !Due(s, p)
       else IsTop(s, order[0]) && Due(s, order[0]) && WakeOrder(WakeOne(s, order[0]), order[1..])
  }

  ghost function WakeAll(s: State, order: seq<TaskId>): State
    requires WakeOrder(s, order)
    decreases |order|
  {
    if order == [] then s else WakeAll(WakeOne(s, order[0]), order[1..])
  }

  function NextTick(s: State): State {
    s.(localTick := (s.localTick + 1) % U64)
  }

  /** The running task is charged one tick. */
  function Charge(s: State): State
    requires s.running in s.tasks
  {
    var t := s.tasks[s.running];
    if t.status != Running then s
    else SetTask(s, s.running, t.(
           totalRuntime := t.totalRuntime + 1,
           sliceRemaining := if t.sliceRemaining > 0 then t.sliceRemaining - 1 else 0))
  }

  /** A tick preempts if a sleeper woke, or if the running task has used up its slice. */
  predicate MustPreempt(s: State, woke: bool)
    requires s.running in s.tasks
  {
    || woke
    || (s.tasks[s.running].status == Running && s.tasks[s.running].sliceRemaining == 0)
  }

  ghost predicate TickEnabled(s: State, order: seq<TaskId>) {
    && WakeOrder(NextTick(s), order)
    && var s1 := WakeAll(NextTick(s), order);
       && s1.running in s1.tasks
       && (MustPreempt(Charge(s1), order != []) ==> Schedulable(Charge(s1)))
  }

  ghost function Tick(s: State, order: seq<TaskId>): State
    requires TickEnabled(s, order)
  {
    var s1 := Charge(WakeAll(NextTick(s), order));
    if MustPreempt(s1, order != []) then Schedule(s1) else s1
  }

  // ---------------------------------------------------------------------------------------------
  // Sleep, Block, Wakeup, AddTask
  // ---------------------------------------------------------------------------------------------

  /** Milliseconds to ticks, rounded up, in 64-bit unsigned arithmetic. */
  function SleepTicks(ms: nat, hz: nat): (ticks: nat) {
    var ticks := (ms * hz + MS_PER_SECOND - 1) % U64 / MS_PER_SECOND;
    if ticks == 0 then 1 else ticks
  }

  function GoToSleep(s: State, ms: nat, hz: nat): State
    requires s.running in s.tasks
  {
    var p := s.running;
    var s1 := SetTask(s, p, s.tasks[p].(wakeTick := (s.localTick + SleepTicks(ms, hz)) % U64));
    var s2 := SetStatus(Dequeue(s1, p), p, Sleeping);
    s2.(sleeping := s2.sleeping + multiset{p})
  }

  /** `Sleep(0)` only yields. */
  function Sleep(s: State, ms: nat, hz: nat): State
    requires s.running in s.tasks
    requires if ms == 0 then Schedulable(s) else Schedulable(GoToSleep(s, ms, hz))
  {
    if ms == 0 then Schedule(s) else Schedule(GoToSleep(s, ms, hz))
  }

  function Waiting(s: State, r: ResourceId): seq<TaskId> {
    if r in s.blocked then s.blocked[r] else []
  }

  function GoToBlocked(s: State, r: ResourceId): State
    requires s.running in s.tasks
  {
    var p := s.running;
    SetTask(s, p, s.tasks[p].(status := Blocked, blockedOn := r))
    .(blocked := s.blocked[r := Waiting(s, r) + [p]])
  }

  function Block(s: State, r: ResourceId): State
    requires s.running in s.tasks && Schedulable(GoToBlocked(s, r))
  {
    Schedule(GoToBlocked(s, r))
  }

  function Unblock(s: State, p: TaskId): State
    requires p in s.tasks
  {
    Enqueue(SetTask(s, p, s.tasks[p].(status := Ready, blockedOn := 0)), p)
  }

  /** The tasks of the waiting list become ready in their order. */
  function UnblockAll(s: State, q: seq<TaskId>): (r: State)
    requires AllKnown(s, q)
    decreases |q|
  {
    if q == [] then s
    else
      var s1 := Unblock(s, q[0]);
      assert forall i :: 0 <= i < |q[1..]| ==> q[1..][i] == q[i + 1];
      UnblockAll(s1, q[1..])
  }

  function Wakeup(s: State, r: ResourceId): State
    requires AllKnown(s, Waiting(s, r))
  {
    if r !in s.blocked then s
    else
      var s1 := UnblockAll(s, s.blocked[r]);
      s1.(blocked := s1.blocked - {r})
  }

  function AddTask(s: State, p: TaskId, t: Task): State
    requires t.status == UnInit
  {
    Enqueue(SetTask(s, p, t.(status := Ready)), p)
  }

  // ---------------------------------------------------------------------------------------------
  // Runs
  // ---------------------------------------------------------------------------------------------

  datatype Op =
    | OpYield
    | OpTick(order: seq<TaskId>)
    | OpSleep(ms: nat)
    | OpBlock(resource: ResourceId)
    | OpWakeup(resource: ResourceId)
    | OpAdd(id: TaskId, task: Task)

  /**
   What the kernel asks of a caller: only a task other than idle sleeps or blocks, though idle may
   yield by `Sleep(0)` once the core schedules, and a new task is not idle. The order of a tick is
   one in which the heap can give up the due tasks.
   */
  ghost predicate Callable(s: State, op: Op) {
    match op
    case OpYield => true
    case OpTick(order) => WakeOrder(NextTick(s), order)
    case OpSleep(ms) => s.running != s.idle || (ms == 0 && s.totalSchedules > 0)
    case OpBlock(_) => s.running != s.idle
    case OpWakeup(_) => true
    case OpAdd(p, t) => p !in s.tasks && t.status == UnInit && t.policy != IdlePolicy
  }

  /** What Schedule asserts of its choice: it is ready, and a current task that is not ready is left. */
  predicate ScheduleAsserts(s: State)
    requires Schedulable(s)
  {
    var (s1, pick) := Pick(Requeue(s));
    var (s2, next) := Fallback(s1, pick);
    && s2.tasks[next].status == Ready
    && (s2.running in s2.tasks && s2.tasks[s2.running].status != Ready ==> next != s2.running)
  }

  predicate ScheduleOk(s: State) {
    Schedulable(s) && ScheduleAsserts(s)
  }

  /** What Sleep and Block assert on entry. */
  predicate CurrentRuns(s: State) {
    s.running in s.tasks && s.tasks[s.running].status == Running
  }

  /** What Wakeup asserts of each task it takes from the waiting list, at the time it takes it. */
  ghost predicate WakeupAsserts(s: State, r: ResourceId, q: seq<TaskId>)
    decreases |q|
  {
    q == [] ||
    (q[0] in s.tasks && s.tasks[q[0]].status == Blocked && s.tasks[q[0]].blockedOn == r
     && WakeupAsserts(Unblock(s, q[0]), r, q[1..]))
  }

  /** The operation runs to its end: its loops finish, every task it follows exists, its assertions hold. */
  ghost predicate Completes(s: State, op: Op, hz: nat) {
    match op
    case OpYield => ScheduleOk(s)
    case OpTick(order) =>
      && TickEnabled(s, order)
      && var s1 := Charge(WakeAll(NextTick(s), order));
         MustPreempt(s1, order != []) ==> ScheduleOk(s1)
    case OpSleep(ms) => CurrentRuns(s) && (if ms == 0 then ScheduleOk(s) else ScheduleOk(GoToSleep(s, ms, hz)))
    case OpBlock(r) => CurrentRuns(s) && ScheduleOk(GoToBlocked(s, r))
    case OpWakeup(r) => AllKnown(s, Waiting(s, r)) && WakeupAsserts(s, r, Waiting(s, r))
    case OpAdd(p, t) => t.status == UnInit
  }

  ghost function Do(s: State, op: Op, hz: nat): State
    requires Completes(s, op, hz)
  {
    match op
    case OpYield => Schedule(s)
    case OpTick(order) => Tick(s, order)
    case OpSleep(ms) => Sleep(s, ms, hz)
    case OpBlock(r) => Block(s, r)
    case OpWakeup(r) => Wakeup(s, r)
    case OpAdd(p, t) => AddTask(s, p, t)
  }

  ghost predicate Run(s: State, ops: seq<Op>, hz: nat)
    decreases |ops|
  {
    ops == [] ||
    (Callable(s, ops[0]) && Completes(s, ops[0], hz) && Run(Do(s, ops[0], hz), ops[1..], hz))
  }

  ghost function Exec(s: State, ops: seq<Op>, hz: nat): State
    requires Run(s, ops, hz)
    decreases |ops|
  {
    if ops == [] then s else Exec(Do(s, ops[0], hz), ops[1..], hz)
  }

  /** `InitCurrentCore`: the idle task is ready and stands in for the running one. */
  predicate Init(s: State) {
    && s.tasks.Keys == {s.idle} && s.tasks[s.idle].status == Ready && s.tasks[s.idle].policy == IdlePolicy
    && s.fifo == [] && s.rr == [] && s.idleSlot == Some(s.idle)
    && s.sleeping == multiset{} && s.blocked == map[]
    && s.localTick == 0 && s.totalSchedules == 0 && s.running == s.idle
  }
}
