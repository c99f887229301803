/**
 The spin lock (src/include/spinlock.hpp) as a step machine over any number of cores. Every
 atomic access is one step, and a core may call Lock or UnLock whenever it is between calls,
 whether or not it holds the lock.
 */
module SpinLock {

  import opened Basics

  datatype Result = Locked | Recursive | Unlocked | NotOwned

  /** Where a core stands. `intr` is the interrupt status Lock found and has to bring back. */
  datatype Pc =
    | Outside(last: Option<Result>)
    | LockDisable(intr: bool)
    | LockTest(intr: bool)
    | LockCheck(intr: bool)
    | LockStoreId(intr: bool)
    | LockSave(intr: bool)
    | UnlockTest
    | UnlockCheck
    | UnlockStoreId
    | UnlockClear
    | UnlockRestore

  /**
   `holding` records that the core won the flag and has not cleared it since; no step reads it.
   */
  datatype Core = Core(pc: Pc, interrupts: bool, holding: bool)

  /** `coreId` is None for the reserved value, the largest `size_t`. */
  datatype State = State(locked: bool, coreId: Option<nat>, savedIntr: bool, cores: seq<Core>)

  datatype Action = CallLock | CallUnlock | Advance

  datatype Step = Step(core: nat, action: Action)

  predicate Enabled(s: State, step: Step) {
    && step.core < |s.cores|
    && (step.action == Advance <==> !s.cores[step.core].pc.Outside?)
  }

  function Goto(s: State, c: nat, pc: Pc): State
    requires c < |s.cores|
  {
    s.(cores := s.cores[c := s.cores[c].(pc := pc)])
  }

  function SetHolding(s: State, c: nat, holding: bool): State
    requires c < |s.cores|
  {
    s.(cores := s.cores[c := s.cores[c].(holding := holding)])
  }

  function SetInterrupts(s: State, c: nat, on: bool): State
    requires c < |s.cores|
  {
    s.(cores := s.cores[c := s.cores[c].(interrupts := on)])
  }

  function Apply(s: State, step: Step): State
    requires Enabled(s, step)
  {
    var c := step.core;
    match step.action
    case CallLock => Goto(s, c, LockDisable(s.cores[c].interrupts))
    case CallUnlock => Goto(s, c, UnlockTest)
    case Advance => Proceed(s, c)
  }

  function Proceed(s: State, c: nat): State
    requires c < |s.cores| && !s.cores[c].pc.Outside?
  {
    match s.cores[c].pc
    case LockDisable(intr) => Goto(SetInterrupts(s, c, false), c, LockTest(intr))
    case LockTest(intr) =>
      if s.locked then Goto(s, c, LockCheck(intr))
      else Goto(SetHolding(s, c, true), c, LockStoreId(intr)).(locked := true)
    case LockCheck(intr) =>
      if s.coreId == Some(c)
      then Goto(if intr then SetInterrupts(s, c, true) else s, c, Outside(Some(Recursive)))
      else Goto(s, c, LockTest(intr))
    case LockStoreId(intr) => Goto(s, c, LockSave(intr)).(coreId := Some(c))
    case LockSave(intr) => Goto(s, c, Outside(Some(Locked))).(savedIntr := intr)
    case UnlockTest => Goto(s, c, if s.locked then UnlockCheck else Outside(Some(NotOwned)))
    case UnlockCheck => Goto(s, c, if s.coreId == Some(c) then UnlockStoreId else Outside(Some(NotOwned)))
    case UnlockStoreId => Goto(s, c, UnlockClear).(coreId := None)
    case UnlockClear => Goto(SetHolding(s, c, false), c, UnlockRestore).(locked := false)
    case UnlockRestore => Goto(if s.savedIntr then SetInterrupts(s, c, true) else s, c, Outside(Some(Unlocked)))
  }

  predicate Init(s: State) {
    && !s.locked && s.coreId == None && !s.savedIntr
    && forall c :: 0 <= c < |s.cores| ==> s.cores[c].pc == Outside(None) && !s.cores[c].holding
  }

  ghost predicate Runnable(s: State, schedule: seq<Step>)
    decreases |schedule|
  {
    schedule == [] || (Enabled(s, schedule[0]) && Runnable(Apply(s, schedule[0]), schedule[1..]))
  }

  ghost function Exec(s: State, schedule: seq<Step>): (r: State)
    requires Runnable(s, schedule)
    ensures |r.cores| == |s.cores|
    decreases |schedule|
  {
    if schedule == [] then s else Exec(Apply(s, schedule[0]), schedule[1..])
  }

  // ---------------------------------------------------------------------------------------------
  // The invariant
  // ---------------------------------------------------------------------------------------------

  /** What one core's program point says about the lock. */
  predicate CoreOk(s: State, c: nat)
    requires c < |s.cores|
  {
    var core := s.cores[c];
    && (core.holding ==> s.locked && !core.interrupts)
    && (core.holding && !core.pc.LockStoreId? && !core.pc.UnlockClear? ==> s.coreId == Some(c))
    && (!core.holding || core.pc.LockStoreId? || core.pc.UnlockClear? ==> s.coreId != Some(c))
    && match core.pc
       case Outside(_) => true
       case LockDisable(intr) => intr == core.interrupts
       case LockTest(intr) => !core.interrupts && (core.holding ==> !intr)
       case LockCheck(intr) => !core.interrupts && (core.holding ==> !intr)
       case LockStoreId(_) => core.holding && s.coreId == None
       case LockSave(_) => core.holding
       case UnlockStoreId => core.holding
       case UnlockClear => core.holding && s.coreId == None
       case UnlockRestore => !core.holding
       case _ => true
  }

  ghost predicate Inv(s: State) {
    && (forall c :: 0 <= c < |s.cores| ==> CoreOk(s, c))
    && (forall c, d :: 0 <= c < d < |s.cores| ==> !(s.cores[c].holding && s.cores[d].holding))
    && (s.locked ==> exists c :: 0 <= c < |s.cores| && s.cores[c].holding)
    && (s.coreId.Some? ==> s.coreId.value < |s.cores|)
  }

  lemma FreeMeansUnheld(s: State)
    requires Inv(s) && !s.locked
    ensures s.coreId == None
    ensures forall c :: 0 <= c < |s.cores| ==> !s.cores[c].holding
  {
    forall c | 0 <= c < |s.cores|
      ensures !s.cores[c].holding
    {
      assert CoreOk(s, c);
    }
    assert s.coreId.Some? ==> CoreOk(s, s.coreId.value);
  }

  /** A step keeps what the core's own program point says about the lock. */
  lemma OwnCoreOk(s: State, step: Step)
    requires Inv(s) && Enabled(s, step)
    ensures step.core < |Apply(s, step).cores| && CoreOk(Apply(s, step), step.core)
  {
    assert CoreOk(s, step.core);
    if !s.locked {
      FreeMeansUnheld(s);
    }
  }

  /** No step disturbs what another core's program point says about the lock. */
  lemma OtherCoreOk(s: State, step: Step, d: nat)
    requires Inv(s) && Enabled(s, step) && d < |s.cores| && d != step.core
    ensures d < |Apply(s, step).cores| && CoreOk(Apply(s, step), d)
  {
    var c := step.core;
    assert CoreOk(s, c) && CoreOk(s, d);
    if !s.locked {
      FreeMeansUnheld(s);
    }
    assert Apply(s, step).cores[d] == s.cores[d];
    assert s.cores[c].holding ==> !s.cores[d].holding;
  }

  lemma StepInv(s: State, step: Step)
    requires Inv(s) && Enabled(s, step)
    ensures Inv(Apply(s, step))
  {
    hide CoreOk;
    var s' := Apply(s, step);
    CoreCount(s, step);
    forall d | 0 <= d < |s'.cores|
      ensures CoreOk(s', d)
    {
      if d == step.core {
        OwnCoreOk(s, step);
      } else {
        OtherCoreOk(s, step, d);
      }
    }
    StepHolder(s, step);
  }

  lemma CoreCount(s: State, step: Step)
    requires Inv(s) && Enabled(s, step)
    ensures |Apply(s, step).cores| == |s.cores|
    ensures Apply(s, step).coreId.Some? ==> Apply(s, step).coreId.value < |s.cores|
  {
  }

  /** The holder stays the only one, and only it can leave the flag clear. */
  lemma StepHolder(s: State, step: Step)
    requires Inv(s) && Enabled(s, step)
    ensures var s' := Apply(s, step);
            && |s'.cores| == |s.cores|
            && (forall c, d :: 0 <= c < d < |s'.cores| ==> !(s'.cores[c].holding && s'.cores[d].holding))
            && (s'.locked ==> exists c :: 0 <= c < |s'.cores| && s'.cores[c].holding)
  {
    var c, s' := step.core, Apply(s, step);
    assert CoreOk(s, c);
    if !s.locked {
      FreeMeansUnheld(s);
      assert s'.locked ==> s'.cores[c].holding;
    } else {
      var w :| 0 <= w < |s.cores| && s.cores[w].holding;
      assert forall d :: 0 <= d < |s.cores| && s.cores[d].holding ==> d == w;
      assert s'.locked ==> s'.cores[w].holding;
    }
  }

  lemma InitInv(s: State)
    requires Init(s)
    ensures Inv(s)
  {
  }

  lemma {:induction false} RunInv(s: State, schedule: seq<Step>)
    requires Inv(s) && Runnable(s, schedule)
    ensures Inv(Exec(s, schedule))
    decreases |schedule|
  {
    if schedule != [] {
      StepInv(s, schedule[0]);
      RunInv(Apply(s, schedule[0]), schedule[1..]);
    }
  }

  // ---------------------------------------------------------------------------------------------
  // What every interleaving guarantees
  // ---------------------------------------------------------------------------------------------

  /** At most one core holds the lock, the flag is set exactly while one does, and it is not interruptible. */
  lemma MutualExclusion(s0: State, schedule: seq<Step>, c: nat, d: nat)
    requires Init(s0) && Runnable(s0, schedule) && c < |s0.cores| && d < |s0.cores|
    ensures var s := Exec(s0, schedule);
            && (s.cores[c].holding && s.cores[d].holding ==> c == d)
            && (s.locked <==> exists e :: 0 <= e < |s.cores| && s.cores[e].holding)
            && (s.cores[c].holding ==> !s.cores[c].interrupts)
  {
    InitInv(s0);
    RunInv(s0, schedule);
    var s := Exec(s0, schedule);
    assert CoreOk(s, c);
    if e :| 0 <= e < |s.cores| && s.cores[e].holding {
      assert CoreOk(s, e);
    }
  }

  /** While spinning, Lock reports a recursive lock exactly if the core already holds it, and takes it only if not. */
  lemma LockVerdict(s: State, c: nat)
    requires Inv(s) && c < |s.cores|
    ensures s.cores[c].pc.LockCheck? ==>
              (Proceed(s, c).cores[c].pc == Outside(Some(Recursive)) <==> s.cores[c].holding)
    ensures s.cores[c].pc.LockTest? ==>
              (Proceed(s, c).cores[c].pc.LockStoreId? <==> forall d :: 0 <= d < |s.cores| ==> !s.cores[d].holding)
    ensures s.cores[c].pc.LockSave? ==>
              && Proceed(s, c).cores[c].pc == Outside(Some(Locked))
              && Proceed(s, c).cores[c].holding && Proceed(s, c).coreId == Some(c)
  {
    assert CoreOk(s, c);
    if d :| 0 <= d < |s.cores| && s.cores[d].holding {
      assert CoreOk(s, d);
    }
  }

  /** UnLock goes on to release the lock exactly if the core holds it, and otherwise fails and changes nothing. */
  lemma UnlockVerdict(s: State, c: nat)
    requires Inv(s) && c < |s.cores| && (s.cores[c].pc.UnlockTest? || s.cores[c].pc.UnlockCheck?)
    ensures var s' := Proceed(s, c);
            && s' == s.(cores := s.cores[c := s.cores[c].(pc := s'.cores[c].pc)])
            && (s'.cores[c].pc == Outside(Some(NotOwned)) ==> !s.cores[c].holding)
            && (s.cores[c].pc.UnlockCheck? && !s.cores[c].holding ==> s'.cores[c].pc == Outside(Some(NotOwned)))
            && (s'.cores[c].pc.UnlockStoreId? ==> s.cores[c].holding)
  {
    assert CoreOk(s, c);
  }

  /** Nobody but the holder ends its hold, and only by clearing the flag. */
  lemma HoldIsKept(s: State, step: Step, c: nat)
    requires Inv(s) && Enabled(s, step) && c < |s.cores| && s.cores[c].holding
    ensures var s' := Apply(s, step);
            && s'.cores[c].holding != (step == Step(c, Advance) && s.cores[c].pc.UnlockClear?)
            && (step.core != c ==> s'.locked && s'.coreId == s.coreId)
  {
    assert CoreOk(s, c);
    assert CoreOk(s, step.core);
    if step.core != c {
      assert !s.cores[step.core].holding;
    }
  }

  // ---------------------------------------------------------------------------------------------
  // A core by itself
  // ---------------------------------------------------------------------------------------------

  /** Core `c` goes on by itself, for at most `n` steps, until its call returns. */
  function RunAlone(s: State, c: nat, n: nat): State
    requires c < |s.cores|
    decreases n
  {
    if n == 0 || s.cores[c].pc.Outside? then s else RunAlone(Proceed(s, c), c, n - 1)
  }

  function With(s: State, c: nat, locked: bool, id: Option<nat>, saved: bool, core: Core): State
    requires c < |s.cores|
  {
    State(locked, id, saved, s.cores[c := core])
  }

  /** One step of a core that goes on by itself, spelled out. */
  lemma AloneStep(s: State, c: nat, n: nat, locked: bool, id: Option<nat>, saved: bool, core: Core, s': State)
    requires c < |s.cores| && n > 0 && !core.pc.Outside?
    requires s' == Proceed(With(s, c, locked, id, saved, core), c)
    ensures RunAlone(With(s, c, locked, id, saved, core), c, n) == RunAlone(s', c, n - 1)
    ensures s' == With(s, c, s'.locked, s'.coreId, s'.savedIntr, s'.cores[c])
  {
    assert s'.cores == s.cores[c := s'.cores[c]];
  }

  /** An undisturbed Lock takes a free lock, switches interrupts off and remembers how they were. */
  lemma LockAlone(s: State, c: nat, n: nat)
    requires c < |s.cores| && s.cores[c].pc.Outside? && !s.locked && n >= 4
    ensures RunAlone(Apply(s, Step(c, CallLock)), c, n)
         == With(s, c, true, Some(c), s.cores[c].interrupts, Core(Outside(Some(Locked)), false, true))
  {
    hide RunAlone;
    var intr, h := s.cores[c].interrupts, s.cores[c].holding;
    var s0 := Apply(s, Step(c, CallLock));
    assert s0.cores == s.cores[c := Core(LockDisable(intr), intr, h)];
    AloneStep(s, c, n, false, s.coreId, s.savedIntr, Core(LockDisable(intr), intr, h),
              With(s, c, false, s.coreId, s.savedIntr, Core(LockTest(intr), false, h)));
    AloneStep(s, c, n - 1, false, s.coreId, s.savedIntr, Core(LockTest(intr), false, h),
              With(s, c, true, s.coreId, s.savedIntr, Core(LockStoreId(intr), false, true)));
    AloneStep(s, c, n - 2, true, s.coreId, s.savedIntr, Core(LockStoreId(intr), false, true),
              With(s, c, true, Some(c), s.savedIntr, Core(LockSave(intr), false, true)));
    AloneStep(s, c, n - 3, true, Some(c), s.savedIntr, Core(LockSave(intr), false, true),
              With(s, c, true, Some(c), intr, Core(Outside(Some(Locked)), false, true)));
    Returned(With(s, c, true, Some(c), intr, Core(Outside(Some(Locked)), false, true)), c, n - 4);
  }

  /** An undisturbed UnLock by the holder frees the lock and brings the interrupts back. */
  lemma UnlockAlone(s: State, c: nat, n: nat)
    requires c < |s.cores| && s.cores[c].pc.Outside? && s.locked && s.coreId == Some(c) && n >= 5
    ensures RunAlone(Apply(s, Step(c, CallUnlock)), c, n)
         == With(s, c, false, None, s.savedIntr,
                 Core(Outside(Some(Unlocked)), s.cores[c].interrupts || s.savedIntr, false))
  {
    hide RunAlone;
    var intr, h := s.cores[c].interrupts, s.cores[c].holding;
    var s0 := Apply(s, Step(c, CallUnlock));
    assert s0.cores == s.cores[c := Core(UnlockTest, intr, h)];
    AloneStep(s, c, n, true, Some(c), s.savedIntr, Core(UnlockTest, intr, h),
              With(s, c, true, Some(c), s.savedIntr, Core(UnlockCheck, intr, h)));
    AloneStep(s, c, n - 1, true, Some(c), s.savedIntr, Core(UnlockCheck, intr, h),
              With(s, c, true, Some(c), s.savedIntr, Core(UnlockStoreId, intr, h)));
    ReleaseAlone(s, c, n - 2, intr, h);
  }

  lemma ReleaseAlone(s: State, c: nat, n: nat, intr: bool, h: bool)
    requires c < |s.cores| && n >= 3
    ensures RunAlone(With(s, c, true, Some(c), s.savedIntr, Core(UnlockStoreId, intr, h)), c, n)
         == With(s, c, false, None, s.savedIntr, Core(Outside(Some(Unlocked)), intr || s.savedIntr, false))
  {
    hide RunAlone;
    AloneStep(s, c, n, true, Some(c), s.savedIntr, Core(UnlockStoreId, intr, h),
              With(s, c, true, None, s.savedIntr, Core(UnlockClear, intr, h)));
    AloneStep(s, c, n - 1, true, None, s.savedIntr, Core(UnlockClear, intr, h),
              With(s, c, false, None, s.savedIntr, Core(UnlockRestore, intr, false)));
    var end := With(s, c, false, None, s.savedIntr, Core(Outside(Some(Unlocked)), intr || s.savedIntr, false));
    AloneStep(s, c, n - 2, false, None, s.savedIntr, Core(UnlockRestore, intr, false), end);
    Returned(end, c, n - 3);
  }

  lemma Returned(s: State, c: nat, n: nat)
    requires c < |s.cores| && s.cores[c].pc.Outside?
    ensures RunAlone(s, c, n) == s
  {
  }

  /** A core that takes a free lock and gives it back undisturbed has its interrupt flag as before. */
  lemma PairRestores(s: State, c: nat, n: nat)
    requires c < |s.cores| && s.cores[c].pc.Outside? && !s.locked && n >= 5
    ensures var m := RunAlone(Apply(s, Step(c, CallLock)), c, n);
            && c < |m.cores| && m.cores[c].pc == Outside(Some(Locked)) && !m.cores[c].interrupts
            && RunAlone(Apply(m, Step(c, CallUnlock)), c, n)
               == With(s, c, false, None, s.cores[c].interrupts,
                       Core(Outside(Some(Unlocked)), s.cores[c].interrupts, false))
  {
    hide RunAlone;
    LockAlone(s, c, n);
    var m := With(s, c, true, Some(c), s.cores[c].interrupts, Core(Outside(Some(Locked)), false, true));
    UnlockAlone(m, c, n);
    assert m.cores[c := Core(Outside(Some(Unlocked)), s.cores[c].interrupts, false)]
        == s.cores[c := Core(Outside(Some(Unlocked)), s.cores[c].interrupts, false)];
  }

  // ---------------------------------------------------------------------------------------------
  // The interrupt flag under contention
  // ---------------------------------------------------------------------------------------------

  /** The interrupt states that Lock calls write into the lock in the course of a schedule. */
  ghost function Saves(s: State, schedule: seq<Step>): seq<bool>
    requires Runnable(s, schedule)
    decreases |schedule|
  {
    if schedule == [] then []
    else
      var step := schedule[0];
      var pc := s.cores[step.core].pc;
      (if step.action == Advance && pc.LockSave? then [pc.intr] else []) + Saves(Apply(s, step), schedule[1..])
  }

  lemma {:induction false} SavedLast(s: State, schedule: seq<Step>)
    requires Runnable(s, schedule)
    ensures var saves := Saves(s, schedule);
            Exec(s, schedule).savedIntr == if saves == [] then s.savedIntr else saves[|saves| - 1]
    decreases |schedule|
  {
    if schedule != [] {
      SavedLast(Apply(s, schedule[0]), schedule[1..]);
    }
  }

  /** While core `c` holds the lock and has saved its interrupt state, nobody replaces it. */
  lemma SavedWhileHeld(s: State, step: Step, c: nat)
    requires Inv(s) && Enabled(s, step) && c < |s.cores| && s.cores[c].holding && !s.cores[c].pc.LockSave?
    ensures Apply(s, step).savedIntr == s.savedIntr
  {
    assert CoreOk(s, step.core);
    assert step.core != c ==> !s.cores[step.core].holding;
  }

  lemma {:induction false} OthersLeave(s: State, schedule: seq<Step>, c: nat)
    requires Runnable(s, schedule) && c < |s.cores| && forall i :: 0 <= i < |schedule| ==> schedule[i].core != c
    ensures Exec(s, schedule).cores[c] == s.cores[c]
    decreases |schedule|
  {
    if schedule != [] {
      assert schedule[0].core != c;
      OthersLeave(Apply(s, schedule[0]), schedule[1..], c);
    }
  }

  /**
   UnLock reads the saved interrupt state after it has cleared the flag. Whatever the other cores
   do in between, core `c` gets back the state it saved exactly if none of them saved its own
   meanwhile or the last that did saved the same.
   */
  lemma RestoreExactly(s: State, s1: State, others: seq<Step>, s2: State, c: nat)
    requires Inv(s) && c < |s.cores| && s.cores[c].pc.UnlockClear? && s1 == Proceed(s, c)
    requires Runnable(s1, others) && s2 == Exec(s1, others)
    requires forall i :: 0 <= i < |others| ==> others[i].core != c
    ensures c < |s2.cores| && s2.cores[c].pc.UnlockRestore?
    ensures var saves := Saves(s1, others);
            Proceed(s2, c).cores[c].interrupts == s.savedIntr <==> saves == [] || saves[|saves| - 1] == s.savedIntr
  {
    hide Runnable, Exec, Saves;
    assert CoreOk(s, c);
    SavedLast(s1, others);
    OthersLeave(s1, others, c);
  }

  /** The core is inside Lock, on its way to taking a lock it does not hold yet, and found `intr`. */
  predicate Taking(core: Core, intr: bool) {
    || (!core.holding && (core.pc == LockDisable(intr) || core.pc == LockTest(intr) || core.pc == LockCheck(intr)))
    || (core.holding && (core.pc == LockStoreId(intr) || core.pc == LockSave(intr)))
  }

  /** The core is taking the lock, or holds it and has saved the interrupt state it found. */
  predicate Remembered(s: State, c: nat, intr: bool)
    requires c < |s.cores|
  {
    var core := s.cores[c];
    Taking(core, intr) || (core.holding && !core.pc.LockStoreId? && !core.pc.LockSave? && s.savedIntr == intr)
  }

  /** Core `c` does not clear the flag in the course of the schedule. */
  ghost predicate NeverClears(s: State, schedule: seq<Step>, c: nat)
    requires Runnable(s, schedule) && c < |s.cores|
    decreases |schedule|
  {
    schedule == []
    || (!(schedule[0].core == c && s.cores[c].pc.UnlockClear?)
        && NeverClears(Apply(s, schedule[0]), schedule[1..], c))
  }

  lemma StepRemembers(s: State, step: Step, c: nat, intr: bool)
    requires Inv(s) && Enabled(s, step) && c < |s.cores| && Remembered(s, c, intr)
    requires !(step.core == c && s.cores[c].pc.UnlockClear?)
    ensures Remembered(Apply(s, step), c, intr)
  {
    hide Inv;
    assert CoreOk(s, c) && CoreOk(s, step.core) by { CoresOk(s, c, step.core); }
    if step.core != c {
      OneHolder(s, c, step.core);
      assert Apply(s, step).cores[c] == s.cores[c];
    }
  }

  lemma CoresOk(s: State, c: nat, d: nat)
    requires Inv(s) && c < |s.cores| && d < |s.cores|
    ensures CoreOk(s, c) && CoreOk(s, d)
  {
  }

  lemma OneHolder(s: State, c: nat, d: nat)
    requires Inv(s) && c < |s.cores| && d < |s.cores| && c != d
    ensures s.cores[c].holding ==> !s.cores[d].holding
  {
  }

  lemma {:induction false} RunRemembers(s: State, schedule: seq<Step>, c: nat, intr: bool)
    requires Inv(s) && Runnable(s, schedule) && c < |s.cores| && NeverClears(s, schedule, c) && Remembered(s, c, intr)
    ensures Inv(Exec(s, schedule)) && Remembered(Exec(s, schedule), c, intr)
    decreases |schedule|
  {
    hide Inv, Remembered, Apply, Enabled;
    if schedule != [] {
      StepInv(s, schedule[0]);
      StepRemembers(s, schedule[0], c, intr);
      CoreCount(s, schedule[0]);
      RunRemembers(Apply(s, schedule[0]), schedule[1..], c, intr);
    }
  }

  /**
   From the call of Lock to the end of UnLock: whatever is scheduled until core `c` clears the flag
   and then until it reads the saved state, it ends with the interrupt state it had when it called
   Lock exactly if no other core saved its own in between the two, or the last saved the same.
   */
  lemma PairRestoresExactly(s0: State, before: seq<Step>, s: State, c: nat, first: seq<Step>, held: State,
                            others: seq<Step>, end: State)
    requires Init(s0) && Runnable(s0, before) && s == Exec(s0, before)
    requires c < |s.cores| && s.cores[c].pc.Outside? && !s.cores[c].holding
    requires Runnable(Apply(s, Step(c, CallLock)), first) && held == Exec(Apply(s, Step(c, CallLock)), first)
    requires NeverClears(Apply(s, Step(c, CallLock)), first, c) && held.cores[c].pc.UnlockClear?
    requires Runnable(Proceed(held, c), others) && end == Exec(Proceed(held, c), others)
    requires forall i :: 0 <= i < |others| ==> others[i].core != c
    ensures end.cores[c].pc.UnlockRestore?
    ensures var saves := Saves(Proceed(held, c), others);
            var restored := Proceed(end, c).cores[c].interrupts == s.cores[c].interrupts;
            restored <==> saves == [] || saves[|saves| - 1] == s.cores[c].interrupts
  {
    hide Runnable, Exec, Saves, Inv, Proceed, NeverClears;
    InitInv(s0);
    RunInv(s0, before);
    var s1, intr := Apply(s, Step(c, CallLock)), s.cores[c].interrupts;
    StepInv(s, Step(c, CallLock));
    assert s1.cores[c] == s.cores[c].(pc := LockDisable(intr));
    RunRemembers(s1, first, c, intr);
    RestoreExactly(held, Proceed(held, c), others, end, c);
  }

  lemma {:induction false} AloneSchedule(s: State, c: nat, n: nat) returns (schedule: seq<Step>)
    requires c < |s.cores|
    ensures Runnable(s, schedule) && Exec(s, schedule) == RunAlone(s, c, n)
    decreases n
  {
    if n == 0 || s.cores[c].pc.Outside? {
      schedule := [];
    } else {
      var rest := AloneSchedule(Proceed(s, c), c, n - 1);
      schedule := [Step(c, Advance)] + rest;
      assert schedule[1..] == rest;
    }
  }

  /** A call that goes on by itself for `n` steps, after what came before it. */
  lemma Continue(s0: State, before: seq<Step>, s: State, call: Step, n: nat) returns (schedule: seq<Step>)
    requires Runnable(s0, before) && Exec(s0, before) == s && Enabled(s, call)
    ensures Runnable(s0, schedule) && Exec(s0, schedule) == RunAlone(Apply(s, call), call.core, n)
  {
    var rest := AloneSchedule(Apply(s, call), call.core, n);
    assert ([call] + rest)[1..] == rest;
    Sequence(s0, before, [call] + rest);
    schedule := before + ([call] + rest);
  }

  lemma {:induction false} Sequence(s: State, a: seq<Step>, b: seq<Step>)
    requires Runnable(s, a) && Runnable(Exec(s, a), b)
    ensures Runnable(s, a + b) && Exec(s, a + b) == Exec(Exec(s, a), b)
    decreases |a|
  {
    if a == [] {
      assert a + b == b;
    } else {
      assert (a + b)[1..] == a[1..] + b;
      Sequence(Apply(s, a[0]), a[1..], b);
    }
  }

  /** An UnLock by the holder that stops right after it has cleared the flag. */
  lemma ClearAlone(s: State, c: nat)
    requires c < |s.cores| && s.cores[c].pc.Outside? && s.locked && s.coreId == Some(c)
    ensures RunAlone(Apply(s, Step(c, CallUnlock)), c, 4)
         == With(s, c, false, None, s.savedIntr, Core(UnlockRestore, s.cores[c].interrupts, false))
  {
    hide RunAlone;
    var intr, h, saved := s.cores[c].interrupts, s.cores[c].holding, s.savedIntr;
    assert Apply(s, Step(c, CallUnlock)).cores == s.cores[c := Core(UnlockTest, intr, h)];
    var end := With(s, c, false, None, saved, Core(UnlockRestore, intr, false));
    AloneStep(s, c, 4, true, Some(c), saved, Core(UnlockTest, intr, h),
              With(s, c, true, Some(c), saved, Core(UnlockCheck, intr, h)));
    AloneStep(s, c, 3, true, Some(c), saved, Core(UnlockCheck, intr, h),
              With(s, c, true, Some(c), saved, Core(UnlockStoreId, intr, h)));
    AloneStep(s, c, 2, true, Some(c), saved, Core(UnlockStoreId, intr, h),
              With(s, c, true, None, saved, Core(UnlockClear, intr, h)));
    AloneStep(s, c, 1, true, None, saved, Core(UnlockClear, intr, h), end);
    assert RunAlone(end, c, 0) == end by { NoneAlone(end, c); }
  }

  lemma NoneAlone(s: State, c: nat)
    requires c < |s.cores|
    ensures RunAlone(s, c, 0) == s
  {
  }

  /**
   Core 0 has interrupts on and core 1 off. Core 0 takes the lock and gives it back, core 1 takes
   it just before core 0 reads the saved state: core 0 is left with its interrupts off.
   */
  lemma InterruptsCanStayOff() returns (s0: State, schedule: seq<Step>)
    ensures Init(s0) && |s0.cores| == 2 && s0.cores[0].interrupts && Runnable(s0, schedule)
    ensures Exec(s0, schedule).cores[0] == Core(Outside(Some(Unlocked)), false, false)
  {
    hide Runnable, Exec, RunAlone;
    s0 := State(false, None, false, [Core(Outside(None), true, false), Core(Outside(None), false, false)]);
    NoStep(s0);
    LockAlone(s0, 0, 4);
    var s1 := With(s0, 0, true, Some(0), true, Core(Outside(Some(Locked)), false, true));
    var a := Continue(s0, [], s0, Step(0, CallLock), 4);
    ClearAlone(s1, 0);
    var s2 := With(s1, 0, false, None, true, Core(UnlockRestore, false, false));
    var b := Continue(s0, a, s1, Step(0, CallUnlock), 4);
    LockAlone(s2, 1, 4);
    var s3 := With(s2, 1, true, Some(1), false, Core(Outside(Some(Locked)), false, true));
    var c := Continue(s0, b, s2, Step(1, CallLock), 4);
    schedule := LastStep(s0, c, s3);
  }

  lemma LastStep(s0: State, before: seq<Step>, s: State) returns (schedule: seq<Step>)
    requires Runnable(s0, before) && Exec(s0, before) == s && |s.cores| > 0 && s.cores[0].pc.UnlockRestore?
    ensures Runnable(s0, schedule) && Exec(s0, schedule) == Proceed(s, 0)
  {
    var last := [Step(0, Advance)];
    assert last[1..] == [];
    Sequence(s0, before, last);
    schedule := before + last;
  }

  lemma NoStep(s: State)
    ensures Runnable(s, []) && Exec(s, []) == s
  {
  }
}
