/** Where the ring does not behave as a bounded queue, each shown by a run. */
module MpmcLimits {
  import opened Basics
  import opened MpmcQueue

  lemma Prepend<T>(s: State<T>, step: Step<T>, rest: seq<Step<T>>)
    requires Enabled(s, step) && Runnable(Apply(s, step), rest)
    ensures Runnable(s, [step] + rest) && Exec(s, [step] + rest) == Exec(Apply(s, step), rest)
  {
    assert ([step] + rest)[1..] == rest;
  }

  /** Thread `t` goes on for `n` steps. */
  function Steps(t: nat, n: nat): seq<Step<int>> {
    if n == 0 then [] else [Step(t, Advance)] + Steps(t, n - 1)
  }

  predicate Next(s: State<int>, s': State<int>, t: nat) {
    Enabled(s, Step(t, Advance)) && Apply(s, Step(t, Advance)) == s'
  }

  lemma NoSteps(s: State<int>, t: nat)
    ensures Runnable(s, Steps(t, 0)) && Exec(s, Steps(t, 0)) == s
  {
  }

  lemma OneStep(s: State<int>, s': State<int>, t: nat, n: nat)
    requires Next(s, s', t) && Runnable(s', Steps(t, n))
    ensures Runnable(s, Steps(t, n + 1)) && Exec(s, Steps(t, n + 1)) == Exec(s', Steps(t, n))
  {
    Prepend(s, Step(t, Advance), Steps(t, n));
  }

  /** A call of `push` or `pop` starts at a thread that is at rest. */
  lemma Starts(s: State<int>, call: Step<int>, n: nat)
    requires Cap(s) > 0 && call.tid < |s.threads| && AtRest(s.threads[call.tid])
    requires call.action.StartPush? || call.action.StartPop?
    requires var pc := if call.action.StartPush? then PushLoadPos(call.action.item) else PopLoadPos;
             Runnable(Goto(s, call.tid, pc), Steps(call.tid, n))
    ensures var pc := if call.action.StartPush? then PushLoadPos(call.action.item) else PopLoadPos;
            && Runnable(s, [call] + Steps(call.tid, n))
            && Exec(s, [call] + Steps(call.tid, n)) == Exec(Goto(s, call.tid, pc), Steps(call.tid, n))
  {
    Prepend(s, call, Steps(call.tid, n));
  }

  /** What a push reads: the counter, then the sequence number of its cell. */
  lemma PushReads(s: State<int>, t: nat, item: int)
    requires Cap(s) > 0 && t < |s.threads|
    ensures Next(Goto(s, t, PushLoadPos(item)), Goto(s, t, PushLoadSeq(item, s.head)), t)
    ensures CellAt(s, s.head).sequence == s.head ==>
              Next(Goto(s, t, PushLoadSeq(item, s.head)), Goto(s, t, PushCas(item, s.head)), t)
    ensures CellAt(s, s.head).sequence < s.head ==>
              Next(Goto(s, t, PushLoadSeq(item, s.head)), Goto(s, t, PushDone(false)), t)
  {
    hide Slot;
  }

  function PushWon(s: State<int>, t: nat, item: int): State<int>
    requires t < |s.threads|
  {
    Goto(s, t, PushWrite(item, s.head)).(head := s.head + 1, pushed := s.pushed + [item])
  }

  lemma PushWins(s: State<int>, t: nat, item: int)
    requires Cap(s) > 0 && t < |s.threads|
    ensures Next(Goto(s, t, PushCas(item, s.head)), PushWon(s, t, item), t)
  {
  }

  lemma PopReads(s: State<int>, t: nat)
    requires Cap(s) > 0 && t < |s.threads|
    ensures Next(Goto(s, t, PopLoadPos), Goto(s, t, PopLoadSeq(s.tail)), t)
    ensures CellAt(s, s.tail).sequence == s.tail + 1 ==>
              Next(Goto(s, t, PopLoadSeq(s.tail)), Goto(s, t, PopCas(s.tail)), t)
    ensures CellAt(s, s.tail).sequence < s.tail + 1 ==>
              Next(Goto(s, t, PopLoadSeq(s.tail)), Goto(s, t, PopDone(None)), t)
  {
    hide Slot;
  }

  lemma PopWins(s: State<int>, t: nat)
    requires Cap(s) > 0 && t < |s.threads|
    ensures Next(Goto(s, t, PopCas(s.tail)), Goto(s, t, PopMove(s.tail)).(tail := s.tail + 1), t)
  {
  }

  function ClaimSteps(t: nat, item: int): seq<Step<int>> {
    [Step(t, StartPush(item))] + Steps(t, 3)
  }

  /** A producer that wins the next ticket and then stalls before it writes. */
  lemma StalledPush(s: State<int>, t: nat, item: int)
    requires Cap(s) > 0 && t < |s.threads| && AtRest(s.threads[t])
    requires CellAt(s, s.head).sequence == s.head
    ensures Runnable(s, ClaimSteps(t, item))
    ensures Exec(s, ClaimSteps(t, item)) == PushWon(s, t, item)
  {
    hide Runnable, Exec, Next, Goto, PushWon, Steps;
    PushReads(s, t, item);
    PushWins(s, t, item);
    NoSteps(PushWon(s, t, item), t);
    OneStep(Goto(s, t, PushCas(item, s.head)), PushWon(s, t, item), t, 0);
    OneStep(Goto(s, t, PushLoadSeq(item, s.head)), Goto(s, t, PushCas(item, s.head)), t, 1);
    OneStep(Goto(s, t, PushLoadPos(item)), Goto(s, t, PushLoadSeq(item, s.head)), t, 2);
    Starts(s, Step(t, StartPush(item)), 3);
  }

  /** The steps of one thread that push `item`, when the cell is free for it. */
  function PushSteps(t: nat, item: int): seq<Step<int>> {
    ClaimSteps(t, item) + Steps(t, 2)
  }

  function Stored(s: State<int>, t: nat, item: int): State<int>
    requires Cap(s) > 0 && t < |s.threads|
  {
    s.(cells := s.cells[Slot(s.head, Cap(s)) := Cell(s.head + 1, item)], head := s.head + 1,
       threads := s.threads[t := PushDone(true)], pushed := s.pushed + [item])
  }

  lemma WholePush(s: State<int>, t: nat, item: int)
    requires Cap(s) > 0 && t < |s.threads| && AtRest(s.threads[t])
    requires CellAt(s, s.head).sequence == s.head
    ensures Runnable(s, PushSteps(t, item)) && Exec(s, PushSteps(t, item)) == Stored(s, t, item)
  {
    hide Runnable, Exec, Steps, ClaimSteps;
    StalledPush(s, t, item);
    PushStores(s, t, item);
    Sequence(s, ClaimSteps(t, item), Steps(t, 2));
  }

  lemma PushStores(s: State<int>, t: nat, item: int)
    requires Cap(s) > 0 && t < |s.threads|
    ensures Runnable(PushWon(s, t, item), Steps(t, 2))
    ensures Exec(PushWon(s, t, item), Steps(t, 2)) == Stored(s, t, item)
  {
    hide Runnable, Exec, Steps, Slot;
    var w, done := PushWon(s, t, item), Stored(s, t, item);
    var half := Goto(SetData(w, s.head, item), t, PushStore(item, s.head));
    assert Next(w, half, t);
    assert Next(half, done, t) by {
      var end := Apply(half, Step(t, Advance));
      assert end.cells == done.cells && end.threads == done.threads;
    }
    NoSteps(done, t);
    OneStep(half, done, t, 0);
    OneStep(w, half, t, 1);
  }

  lemma {:induction false} Sequence<T>(s: State<T>, a: seq<Step<T>>, b: seq<Step<T>>)
    requires Runnable(s, a) && Runnable(Exec(s, a), b)
    ensures Runnable(s, a + b) && Exec(s, a + b) == Exec(Exec(s, a), b)
    decreases |a|
  {
    if a == [] {
      assert a + b == b;
    } else {
      assert (a + b)[1..] == a[1..] + b;
      Sequence(Apply(s, a[0]), a[1..], b);
    }
  }

  ghost predicate NeverOverfills(cap: nat) {
    forall s: State<int>, schedule: seq<Step<int>> ::
      Init(s) && Cap(s) == cap && Runnable(s, schedule) ==>
        Exec(s, schedule).head <= Exec(s, schedule).tail + cap
  }

  /**
   The class admits a capacity of one. Then `pos + 1` (published) and `pos + Capacity` (free for
   the next lap) are the same number, and a second push overwrites the first item.
   */
  lemma CapacityOneOverwrites()
    ensures exists s: State<int>, schedule: seq<Step<int>> ::
              && Init(s) && Cap(s) == 1 && Runnable(s, schedule)
              && Exec(s, schedule).pushed == [7, 8] && Exec(s, schedule).tail == 0
              && Exec(s, schedule).cells[0].data == 8
  {
    hide Runnable, Exec, PushSteps;
    var s := State([Cell(0, 0)], 0, 0, [Thread.Idle], [], []);
    WholePush(s, 0, 7);
    var s1 := Exec(s, PushSteps(0, 7));
    assert CellAt(s1, s1.head) == s1.cells[0];
    WholePush(s1, 0, 8);
    Sequence(s, PushSteps(0, 7), PushSteps(0, 8));
    var schedule := PushSteps(0, 7) + PushSteps(0, 8);
    assert Exec(s, schedule).pushed == [7, 8];
  }

  /** The bound `head <= tail + Capacity` holds on every run exactly for capacities of two or more. */
  lemma OverfillsExactlyAtCapacityOne(cap: nat)
    requires cap > 0
    ensures NeverOverfills(cap) <==> cap >= 2
  {
    if cap >= 2 {
      forall s: State<int>, schedule: seq<Step<int>> |
        Init(s) && Cap(s) == cap && Runnable(s, schedule)
        ensures Exec(s, schedule).head <= Exec(s, schedule).tail + cap
      {
        NoLossNoDuplication(s, schedule);
      }
    } else {
      CapacityOneOverwrites();
      var s: State<int>, schedule: seq<Step<int>> :|
        && Init(s) && Cap(s) == 1 && Runnable(s, schedule)
        && Exec(s, schedule).pushed == [7, 8] && Exec(s, schedule).tail == 0
        && Exec(s, schedule).cells[0].data == 8;
      HeadCountsPushes(s, schedule);
    }
  }

  lemma {:induction false} HeadCountsPushes<T>(s: State<T>, schedule: seq<Step<T>>)
    requires s.head == |s.pushed| && Runnable(s, schedule)
    ensures Exec(s, schedule).head == |Exec(s, schedule).pushed|
    decreases |schedule|
  {
    if schedule != [] {
      HeadCountsPushes(Apply(s, schedule[0]), schedule[1..]);
    }
  }

  function PopSteps(t: nat): seq<Step<int>> {
    [Step(t, StartPop)] + Steps(t, 2)
  }

  lemma FailingPop(s: State<int>, t: nat)
    requires Cap(s) > 0 && t < |s.threads| && AtRest(s.threads[t])
    requires CellAt(s, s.tail).sequence == s.tail
    ensures Runnable(s, PopSteps(t)) && Exec(s, PopSteps(t)) == Goto(s, t, PopDone(None))
  {
    hide Runnable, Exec, Next, Goto, Steps;
    PopReads(s, t);
    NoSteps(Goto(s, t, PopDone(None)), t);
    OneStep(Goto(s, t, PopLoadSeq(s.tail)), Goto(s, t, PopDone(None)), t, 0);
    OneStep(Goto(s, t, PopLoadPos), Goto(s, t, PopLoadSeq(s.tail)), t, 1);
    Starts(s, Step(t, StartPop), 2);
  }

  /**
   A pop may report an empty queue while a published item sits behind a ticket whose producer
   has not yet stored its sequence number: `PopFailsExactly` is the exact condition.
   */
  lemma PopCanMissAnItem() returns (s0: State<int>, schedule: seq<Step<int>>)
    ensures Init(s0) && Cap(s0) == 2 && |s0.threads| == 3 && Runnable(s0, schedule)
    ensures var s := Exec(s0, schedule);
            s.threads[2] == PopDone(None) && s.tail == 0 && Published(s, 1) && s.pushed == [7, 8]
  {
    hide Runnable, Exec, Steps, PushSteps, ClaimSteps, PopSteps, ClaimPopSteps, TryPushSteps;
    s0 := State([Cell(0, 0), Cell(1, 0)], 0, 0, [Thread.Idle, Thread.Idle, Thread.Idle], [], []);
    var a, b, c := ClaimSteps(0, 7), PushSteps(1, 8), PopSteps(2);
    StalledPush(s0, 0, 7);
    var s1 := State(s0.cells, 1, 0, [PushWrite(7, 0), Thread.Idle, Thread.Idle], [7], []);
    assert Exec(s0, a) == s1;
    WholePush(s1, 1, 8);
    var s2 := State([Cell(0, 0), Cell(2, 8)], 2, 0, [PushWrite(7, 0), PushDone(true), Thread.Idle], [7, 8], []);
    assert Exec(s1, b) == s2;
    FailingPop(s2, 2);
    Chain(s0, s1, s2, a, b, c);
    schedule := a + b + c;
  }

  function ClaimPopSteps(t: nat): seq<Step<int>> {
    [Step(t, StartPop)] + Steps(t, 3)
  }

  /** A consumer that wins the next ticket and then stalls before it moves the item out. */
  lemma StalledPop(s: State<int>, t: nat)
    requires Cap(s) > 0 && t < |s.threads| && AtRest(s.threads[t])
    requires CellAt(s, s.tail).sequence == s.tail + 1
    ensures Runnable(s, ClaimPopSteps(t))
    ensures Exec(s, ClaimPopSteps(t)) == Goto(s, t, PopMove(s.tail)).(tail := s.tail + 1)
  {
    hide Runnable, Exec, Next, Goto, Steps;
    var won := Goto(s, t, PopMove(s.tail)).(tail := s.tail + 1);
    PopReads(s, t);
    PopWins(s, t);
    NoSteps(won, t);
    OneStep(Goto(s, t, PopCas(s.tail)), won, t, 0);
    OneStep(Goto(s, t, PopLoadSeq(s.tail)), Goto(s, t, PopCas(s.tail)), t, 1);
    OneStep(Goto(s, t, PopLoadPos), Goto(s, t, PopLoadSeq(s.tail)), t, 2);
    Starts(s, Step(t, StartPop), 3);
  }

  function TryPushSteps(t: nat, item: int): seq<Step<int>> {
    [Step(t, StartPush(item))] + Steps(t, 2)
  }

  lemma FailingPush(s: State<int>, t: nat, item: int)
    requires Cap(s) > 0 && t < |s.threads| && AtRest(s.threads[t])
    requires CellAt(s, s.head).sequence < s.head
    ensures Runnable(s, TryPushSteps(t, item)) && Exec(s, TryPushSteps(t, item)) == Goto(s, t, PushDone(false))
  {
    hide Runnable, Exec, Next, Goto, Steps;
    PushReads(s, t, item);
    NoSteps(Goto(s, t, PushDone(false)), t);
    OneStep(Goto(s, t, PushLoadSeq(item, s.head)), Goto(s, t, PushDone(false)), t, 0);
    OneStep(Goto(s, t, PushLoadPos(item)), Goto(s, t, PushLoadSeq(item, s.head)), t, 1);
    Starts(s, Step(t, StartPush(item)), 2);
  }

  /**
   A push may report a full queue while one of its two places is free, behind a consumer that has
   taken its ticket and not yet released its cell: `PushFailsExactly` is the exact condition.
   */
  lemma PushCanMissRoom() returns (s0: State<int>, schedule: seq<Step<int>>)
    ensures Init(s0) && Cap(s0) == 2 && |s0.threads| == 3 && Runnable(s0, schedule)
    ensures var s := Exec(s0, schedule);
            s.threads[2] == PushDone(false) && s.head - s.tail == 1 && s.pushed == [7, 8]
  {
    hide Runnable, Exec, Steps, PushSteps, ClaimSteps, PopSteps, ClaimPopSteps, TryPushSteps;
    s0 := State([Cell(0, 0), Cell(1, 0)], 0, 0, [Thread.Idle, Thread.Idle, Thread.Idle], [], []);
    var a, b, c, d := PushSteps(0, 7), PushSteps(0, 8), ClaimPopSteps(1), TryPushSteps(2, 9);
    WholePush(s0, 0, 7);
    var s1 := State([Cell(1, 7), Cell(1, 0)], 1, 0, [PushDone(true), Thread.Idle, Thread.Idle], [7], []);
    assert Exec(s0, a) == s1;
    WholePush(s1, 0, 8);
    var s2 := State([Cell(1, 7), Cell(2, 8)], 2, 0, [PushDone(true), Thread.Idle, Thread.Idle], [7, 8], []);
    assert Exec(s1, b) == s2;
    StalledPop(s2, 1);
    var s3 := State(s2.cells, 2, 1, [PushDone(true), PopMove(0), Thread.Idle], [7, 8], []);
    assert Exec(s2, c) == s3;
    assert CellAt(s3, 2) == s3.cells[0];
    FailingPush(s3, 2, 9);
    Chain(s0, s1, s2, a, b, c);
    Sequence(s0, a + b + c, d);
    schedule := a + b + c + d;
  }

  lemma Chain(s0: State<int>, s1: State<int>, s2: State<int>, a: seq<Step<int>>, b: seq<Step<int>>, c: seq<Step<int>>)
    requires Runnable(s0, a) && Exec(s0, a) == s1 && Runnable(s1, b) && Exec(s1, b) == s2 && Runnable(s2, c)
    ensures Runnable(s0, a + b + c) && Exec(s0, a + b + c) == Exec(s2, c)
  {
    Sequence(s0, a, b);
    Sequence(s0, a + b, c);
  }
}
