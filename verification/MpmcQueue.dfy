/**
 The bounded multi-producer multi-consumer ring (3rd/MPMCQueue/include/MPMCQueue.hpp), as a
 step machine: any number of threads, each atomic load, compare-exchange and store one step,
 interleaved in any order. Counters are unbounded naturals.
 */
module MpmcQueue {
  import opened Arith
  import opened Basics
  import opened Bits

  datatype Cell<+T> = Cell(sequence: nat, data: T)

  /** Where a thread stands inside `enqueue_impl`, `pop` or `size`. `Done` holds the last result. */
  datatype Thread<+T> =
    | Idle
    | PushLoadPos(item: T)
    | PushLoadSeq(item: T, pos: nat)
    | PushCas(item: T, pos: nat)
    | PushWrite(item: T, pos: nat)
    | PushStore(item: T, pos: nat)
    | PushDone(ok: bool)
    | PopLoadPos
    | PopLoadSeq(pos: nat)
    | PopCas(pos: nat)
    | PopMove(pos: nat)
    | PopStore(pos: nat, got: T)
    | PopDone(result: Option<T>)
    | SizeLoadHead
    | SizeLoadTail(seenHead: nat)
    | SizeDone(size: nat)

  /**
   `pushed[p]` is the item whose producer won ticket `p`; `popped` logs, in the order of the
   moves, which item each consumer moved out of its cell. Neither is read by a step.
   */
  datatype Delivery<+T> = Delivery(ticket: nat, item: T)

  datatype State<+T> = State(
    cells: seq<Cell<T>>,
    head: nat,
    tail: nat,
    threads: seq<Thread<T>>,
    pushed: seq<T>,
    popped: seq<Delivery<T>>)

  /** What the scheduler lets a thread do next. `Fail` is a compare-exchange that fails spuriously. */
  datatype Action<+T> = StartPush(item: T) | StartPop | StartSize | Advance | Fail

  datatype Step<+T> = Step(tid: nat, action: Action<T>)

  function Cap<T>(s: State<T>): nat {
    |s.cells|
  }

  /** The cell of ticket `pos` in a ring of `n`: for a power of two, `pos & (n - 1)`. */
  function Slot(pos: nat, n: nat): (i: nat)
    requires n > 0
    ensures i < n
    decreases pos
  {
    if pos < n then pos else Slot(pos - n, n)
  }

  function CellAt<T>(s: State<T>, pos: nat): Cell<T>
    requires Cap(s) > 0
  {
    s.cells[Slot(pos, Cap(s))]
  }

  function SetSequence<T>(s: State<T>, pos: nat, seqno: nat): State<T>
    requires Cap(s) > 0
  {
    s.(cells := s.cells[Slot(pos, Cap(s)) := CellAt(s, pos).(sequence := seqno)])
  }

  function SetData<T>(s: State<T>, pos: nat, item: T): State<T>
    requires Cap(s) > 0
  {
    s.(cells := s.cells[Slot(pos, Cap(s)) := CellAt(s, pos).(data := item)])
  }

  function Goto<T>(s: State<T>, t: nat, pc: Thread<T>): State<T>
    requires t < |s.threads|
  {
    s.(threads := s.threads[t := pc])
  }

  predicate AtRest<T>(pc: Thread<T>) {
    pc.Idle? || pc.PushDone? || pc.PopDone? || pc.SizeDone?
  }

  predicate Enabled<T>(s: State<T>, step: Step<T>) {
    && Cap(s) > 0
    && step.tid < |s.threads|
    && match step.action {
         case StartPush(_) => AtRest(s.threads[step.tid])
         case StartPop => AtRest(s.threads[step.tid])
         case StartSize => AtRest(s.threads[step.tid])
         case Advance => !AtRest(s.threads[step.tid])
         case Fail => s.threads[step.tid].PushCas? || s.threads[step.tid].PopCas?
       }
  }

  function Apply<T>(s: State<T>, step: Step<T>): State<T>
    requires Enabled(s, step)
  {
    var t := step.tid;
    match step.action
    case StartPush(item) => Goto(s, t, PushLoadPos(item))
    case StartPop => Goto(s, t, PopLoadPos)
    case StartSize => Goto(s, t, SizeLoadHead)
    case Advance => Proceed(s, t)
    case Fail =>
      // A failed compare-exchange leaves the current counter in `pos` and retries the loop.
      if s.threads[t].PushCas?
      then Goto(s, t, PushLoadSeq(s.threads[t].item, s.head))
      else Goto(s, t, PopLoadSeq(s.tail))
  }

  /** One atomic step of thread `t`. */
  function Proceed<T>(s: State<T>, t: nat): State<T>
    requires Cap(s) > 0 && t < |s.threads| && !AtRest(s.threads[t])
  {
    match s.threads[t]
    case PushLoadPos(item) => Goto(s, t, PushLoadSeq(item, s.head))
    case PushLoadSeq(item, pos) =>
      var diff: int := CellAt(s, pos).sequence - pos;
      Goto(s, t, if diff == 0 then PushCas(item, pos)
                 else if diff < 0 then PushDone(false)
                 else PushLoadPos(item))
    case PushCas(item, pos) =>
      if s.head == pos
      then Goto(s, t, PushWrite(item, pos)).(head := pos + 1, pushed := s.pushed + [item])
      else Goto(s, t, PushLoadSeq(item, s.head))
    case PushWrite(item, pos) => Goto(SetData(s, pos, item), t, PushStore(item, pos))
    case PushStore(item, pos) => Goto(SetSequence(s, pos, pos + 1), t, PushDone(true))
    case PopLoadPos => Goto(s, t, PopLoadSeq(s.tail))
    case PopLoadSeq(pos) =>
      var diff: int := CellAt(s, pos).sequence - (pos + 1);
      Goto(s, t, if diff == 0 then PopCas(pos)
                 else if diff < 0 then PopDone(None)
                 else PopLoadPos)
    case PopCas(pos) =>
      if s.tail == pos
      then Goto(s, t, PopMove(pos)).(tail := pos + 1)
      else Goto(s, t, PopLoadSeq(s.tail))
    case PopMove(pos) =>
      var item := CellAt(s, pos).data;
      Goto(s, t, PopStore(pos, item)).(popped := s.popped + [Delivery(pos, item)])
    case PopStore(pos, item) => Goto(SetSequence(s, pos, pos + Cap(s)), t, PopDone(Some(item)))
    case SizeLoadHead => Goto(s, t, SizeLoadTail(s.head))
    case SizeLoadTail(h) => Goto(s, t, SizeDone(if h >= s.tail then h - s.tail else 0))
  }

  /** The constructor: cell `i` starts free for ticket `i`, and no call is in flight. */
  predicate Init<T(==)>(s: State<T>) {
    && Cap(s) > 0
    && s.head == 0 && s.tail == 0 && s.pushed == [] && s.popped == []
    && (forall i :: 0 <= i < Cap(s) ==> s.cells[i].sequence == i)
    && (forall t :: 0 <= t < |s.threads| ==> s.threads[t].Idle?)
  }

  ghost predicate Runnable<T>(s: State<T>, schedule: seq<Step<T>>)
    decreases |schedule|
  {
    schedule == [] || (Enabled(s, schedule[0]) && Runnable(Apply(s, schedule[0]), schedule[1..]))
  }

  ghost function Exec<T>(s: State<T>, schedule: seq<Step<T>>): (r: State<T>)
    requires Runnable(s, schedule)
    ensures Cap(r) == Cap(s) && |r.threads| == |s.threads|
    decreases |schedule|
  {
    if schedule == [] then s else Exec(Apply(s, schedule[0]), schedule[1..])
  }

  // ---------------------------------------------------------------------------------------------
  // The invariant
  // ---------------------------------------------------------------------------------------------

  /** The thread holds ticket `p` and has not yet published the item. */
  predicate Writing<T>(pc: Thread<T>, p: nat) {
    (pc.PushWrite? || pc.PushStore?) && pc.pos == p
  }

  /** The thread holds ticket `p` and has not yet handed the cell back. */
  predicate Moving<T>(pc: Thread<T>, p: nat) {
    (pc.PopMove? || pc.PopStore?) && pc.pos == p
  }

  predicate AtMove<T>(pc: Thread<T>, p: nat) {
    pc.PopMove? && pc.pos == p
  }

  predicate InFlight<T>(pc: Thread<T>) {
    pc.PushWrite? || pc.PushStore? || pc.PopMove? || pc.PopStore?
  }

  ghost predicate SomeoneWriting<T>(s: State<T>, p: nat) {
    exists t :: 0 <= t < |s.threads| && Writing(s.threads[t], p)
  }

  ghost predicate SomeoneMoving<T>(s: State<T>, p: nat) {
    exists t :: 0 <= t < |s.threads| && Moving(s.threads[t], p)
  }

  /** Ticket `p` went through the queue and its cell is free for ticket `p + Cap`. */
  ghost predicate Released<T>(s: State<T>, p: nat)
    requires Cap(s) > 0
  {
    p < s.tail && CellAt(s, p).sequence >= p + Cap(s)
  }

  /** The phase of the cell last claimed by ticket `p`: being written, published, or recycled. */
  ghost predicate PhaseOk<T>(s: State<T>, p: nat)
    requires Cap(s) > 0 && p < |s.pushed|
  {
    Phase(s, p, CellAt(s, p))
  }

  ghost predicate Phase<T>(s: State<T>, p: nat, c: Cell<T>)
    requires Cap(s) > 0 && p < |s.pushed|
  {
    || (c.sequence == p && s.tail <= p && SomeoneWriting(s, p))
    || (c.sequence == p + 1 && c.data == s.pushed[p] && (p < s.tail ==> SomeoneMoving(s, p)))
    || (c.sequence == p + Cap(s) && p < s.tail && !SomeoneMoving(s, p))
  }

  /** The cell whose next ticket is `q`: still in its first lap, or in the phase of its last ticket. */
  ghost predicate TicketOk<T>(s: State<T>, q: nat)
    requires Cap(s) > 0 && |s.pushed| == s.head && q < s.head + Cap(s)
  {
    if q < Cap(s) then CellAt(s, q).sequence == q else PhaseOk(s, q - Cap(s))
  }

  ghost predicate CellsOk<T>(s: State<T>)
    requires Cap(s) > 0 && |s.pushed| == s.head
  {
    forall q: nat | s.head <= q < s.head + Cap(s) :: TicketOk(s, q)
  }

  ghost predicate ThreadOk<T>(s: State<T>, pc: Thread<T>)
    requires Cap(s) > 0 && |s.pushed| == s.head
  {
    match pc
    case PushLoadSeq(_, pos) => pos <= s.head
    case PushCas(_, pos) => pos <= s.head && CellAt(s, pos).sequence >= pos
    case PushWrite(item, pos) =>
      s.tail <= pos < s.head && CellAt(s, pos).sequence == pos && s.pushed[pos] == item
    case PushStore(item, pos) =>
      && s.tail <= pos < s.head && CellAt(s, pos).sequence == pos && s.pushed[pos] == item
      && CellAt(s, pos).data == item
    case PopLoadSeq(pos) => pos <= s.tail
    case PopCas(pos) => pos <= s.tail && CellAt(s, pos).sequence >= pos + 1
    case PopMove(pos) =>
      && pos < s.tail && s.head <= pos + Cap(s) && CellAt(s, pos).sequence == pos + 1
      && pos < s.head && CellAt(s, pos).data == s.pushed[pos]
    case PopStore(pos, item) =>
      && pos < s.tail && s.head <= pos + Cap(s) && CellAt(s, pos).sequence == pos + 1
      && pos < s.head && item == s.pushed[pos]
    case SizeLoadTail(h) => h <= s.head
    case _ => true
  }

  ghost predicate ThreadsOk<T>(s: State<T>)
    requires Cap(s) > 0 && |s.pushed| == s.head
  {
    forall t :: 0 <= t < |s.threads| ==> ThreadOk(s, s.threads[t])
  }

  /** Two threads would own the same ticket on the same side of the queue. */
  predicate Clash<T>(a: Thread<T>, b: Thread<T>) {
    || ((a.PushWrite? || a.PushStore?) && Writing(b, a.pos))
    || ((a.PopMove? || a.PopStore?) && Moving(b, a.pos))
  }

  ghost predicate Exclusive<T>(s: State<T>) {
    forall t, u :: 0 <= t < u < |s.threads| ==> !Clash(s.threads[t], s.threads[u])
  }

  ghost predicate Delivered<T>(s: State<T>, p: nat) {
    exists i :: 0 <= i < |s.popped| && s.popped[i].ticket == p
  }

  /** Every delivery is of a claimed ticket, once, with the item pushed under that ticket. */
  ghost predicate DeliveriesOk<T>(s: State<T>)
    requires |s.pushed| == s.head && s.tail <= s.head
  {
    && (forall i :: 0 <= i < |s.popped| ==>
          s.popped[i].ticket < s.tail && s.popped[i].item == s.pushed[s.popped[i].ticket])
    && (forall i, j :: 0 <= i < j < |s.popped| ==> s.popped[i].ticket != s.popped[j].ticket)
    && (forall p: nat | p < s.tail :: !Delivered(s, p) <==> AwaitsMove(s, p))
  }

  ghost predicate AwaitsMove<T>(s: State<T>, p: nat) {
    exists t :: 0 <= t < |s.threads| && AtMove(s.threads[t], p)
  }

  ghost predicate Inv<T>(s: State<T>) {
    && Cap(s) >= 2
    && |s.pushed| == s.head
    && s.tail <= s.head <= s.tail + Cap(s)
    && CellsOk(s)
    && ThreadsOk(s)
    && Exclusive(s)
    && DeliveriesOk(s)
  }

  // ---------------------------------------------------------------------------------------------
  // Every step keeps the invariant
  // ---------------------------------------------------------------------------------------------

  lemma {:induction false} SlotIsRemainder(pos: nat, n: nat)
    requires n > 0
    ensures Slot(pos, n) == pos % n
    decreases pos
  {
    if pos < n {
      DivModUnique(pos, n, 0, pos);
    } else {
      SlotIsRemainder(pos - n, n);
      ModStep(pos - n, n);
    }
  }

  /** For the capacities the class admits, the cell of a ticket is found by a mask. */
  lemma SlotIsMask(pos: nat, n: nat)
    requires IsPow2(n)
    ensures Slot(pos, n) == And(pos, n - 1)
  {
    var k: nat :| n == Pow2(k);
    AndRemainder(pos, k);
    SlotIsRemainder(pos, n);
  }

  /** Two tickets less than a lap apart use the same cell only if they are the same ticket. */
  lemma {:induction false} SameCell(n: nat, p: nat, q: nat)
    requires n > 0 && Slot(p, n) == Slot(q, n) && p <= q < p + n
    ensures p == q
    decreases p
  {
    if p >= n {
      SameCell(n, p - n, q - n);
    }
  }

  /** Who holds which ticket after thread `t` moved and the others did not. */
  lemma OwnersChanged<T>(s: State<T>, s': State<T>, t: nat)
    requires t < |s.threads| && |s'.threads| == |s.threads|
    requires s'.threads == s.threads[t := s'.threads[t]]
    ensures forall p: nat | Writing(s.threads[t], p) == Writing(s'.threads[t], p) ::
              SomeoneWriting(s', p) <==> SomeoneWriting(s, p)
    ensures forall p: nat | Moving(s.threads[t], p) == Moving(s'.threads[t], p) ::
              SomeoneMoving(s', p) <==> SomeoneMoving(s, p)
    ensures forall p: nat | AtMove(s.threads[t], p) == AtMove(s'.threads[t], p) ::
              AwaitsMove(s', p) <==> AwaitsMove(s, p)
  {
    assert forall u :: 0 <= u < |s.threads| && u != t ==> s.threads[u] == s'.threads[u];
  }

  /** A ticket has one owner, so it is free once that owner lets go of it. */
  lemma LastOwnerLeft<T>(s: State<T>, s': State<T>, t: nat, p: nat)
    requires t < |s.threads| && |s'.threads| == |s.threads|
    requires s'.threads == s.threads[t := s'.threads[t]]
    requires Exclusive(s) && Moving(s.threads[t], p)
    ensures !Moving(s'.threads[t], p) ==> !SomeoneMoving(s', p)
    ensures !AtMove(s'.threads[t], p) ==> !AwaitsMove(s', p)
  {
    forall u | 0 <= u < |s.threads| && u != t
      ensures !Moving(s'.threads[u], p)
    {
      assert !Clash(s.threads[if u < t then u else t], s.threads[if u < t then t else u]);
    }
  }

  lemma Apart<T>(s: State<T>, t: nat, u: nat)
    requires Exclusive(s) && t < |s.threads| && u < |s.threads| && t != u
    ensures !Clash(s.threads[t], s.threads[u])
  {
    assert !Clash(s.threads[if u < t then u else t], s.threads[if u < t then t else u]);
  }

  /** The tickets of the current lap are each in a phase of their cell. */
  lemma CurrentPhase<T>(s: State<T>, p: nat)
    requires Inv(s) && p < s.head <= p + Cap(s)
    ensures PhaseOk(s, p)
  {
    assert TicketOk(s, p + Cap(s));
  }

  /** The cell of the next push is free, or its previous ticket is still on its way through. */
  lemma HeadCell<T>(s: State<T>)
    requires Inv(s)
    ensures CellAt(s, s.head).sequence <= s.head
    ensures CellAt(s, s.head).sequence == s.head ==>
              s.head < s.tail + Cap(s) && (s.head >= Cap(s) ==> !SomeoneMoving(s, s.head - Cap(s)))
    ensures CellAt(s, s.head).sequence < s.head ==>
              s.head >= Cap(s) && !Released(s, s.head - Cap(s))
  {
    assert TicketOk(s, s.head);
    if s.head >= Cap(s) {
      assert Slot(s.head, Cap(s)) == Slot(s.head - Cap(s), Cap(s));
    }
  }

  /** A cell has at least reached the phase of every ticket that ever claimed it. */
  lemma {:induction false} SequenceFloor<T>(s: State<T>, p: nat)
    requires Inv(s) && p < s.head
    ensures CellAt(s, p).sequence >= p
    ensures p < s.tail ==> CellAt(s, p).sequence >= p + 1
    decreases s.head - p
  {
    if s.head <= p + Cap(s) {
      CurrentPhase(s, p);
    } else {
      SequenceFloor(s, p + Cap(s));
    }
  }

  lemma GotoInv<T>(s: State<T>, t: nat, pc: Thread<T>)
    requires Inv(s) && t < |s.threads|
    requires !InFlight(s.threads[t]) && !InFlight(pc)
    requires ThreadOk(s, pc)
    ensures Inv(Goto(s, t, pc))
  {
    var s' := Goto(s, t, pc);
    OwnersChanged(s, s', t);
    forall q: nat | s'.head <= q < s'.head + Cap(s')
      ensures TicketOk(s', q)
    {
      assert TicketOk(s, q);
    }
    forall u | 0 <= u < |s'.threads|
      ensures ThreadOk(s', s'.threads[u])
    {
      assert ThreadOk(s, s'.threads[u]);
    }
    DeliveriesKept(s, s');
  }

  lemma DeliveriesKept<T>(s: State<T>, s': State<T>)
    requires Inv(s) && s'.popped == s.popped && s'.tail == s.tail && s.pushed <= s'.pushed
    requires |s'.pushed| == s'.head
    requires forall p: nat :: AwaitsMove(s', p) <==> AwaitsMove(s, p)
    ensures DeliveriesOk(s')
  {
    forall p: nat | p < s'.tail
      ensures !Delivered(s', p) <==> AwaitsMove(s', p)
    {
      assert Delivered(s', p) <==> Delivered(s, p);
    }
  }

  /** The push about to claim the next ticket finds its cell free, so the ring has room. */
  lemma PushHasRoom<T>(s: State<T>, t: nat)
    requires Inv(s) && t < |s.threads| && s.threads[t].PushCas? && s.threads[t].pos == s.head
    ensures CellAt(s, s.head).sequence == s.head && s.head < s.tail + Cap(s)
    ensures s.head >= Cap(s) ==> !SomeoneMoving(s, s.head - Cap(s))
  {
    assert ThreadOk(s, s.threads[t]);
    HeadCell(s);
  }

  lemma ClaimPushCells<T>(s: State<T>, t: nat)
    requires Inv(s) && t < |s.threads| && s.threads[t].PushCas? && s.threads[t].pos == s.head
    ensures |Proceed(s, t).pushed| == Proceed(s, t).head && CellsOk(Proceed(s, t))
  {
    hide Exclusive, ThreadsOk, DeliveriesOk;
    var s', pos := Proceed(s, t), s.head;
    PushHasRoom(s, t);
    OwnersChanged(s, s', t);
    assert Writing(s'.threads[t], pos);
    forall q: nat | s'.head <= q < s'.head + Cap(s')
      ensures TicketOk(s', q)
    {
      if q < s.head + Cap(s) { assert TicketOk(s, q); }
    }
  }

  lemma ClaimPushThreads<T>(s: State<T>, t: nat)
    requires Inv(s) && t < |s.threads| && s.threads[t].PushCas? && s.threads[t].pos == s.head
    ensures |Proceed(s, t).pushed| == Proceed(s, t).head && ThreadsOk(Proceed(s, t)) && Exclusive(Proceed(s, t))
  {
    hide CellsOk, DeliveriesOk;
    var s', pos := Proceed(s, t), s.head;
    PushHasRoom(s, t);
    forall u | 0 <= u < |s'.threads|
      ensures ThreadOk(s', s'.threads[u]) && (u != t ==> !Writing(s.threads[u], pos))
    {
      assert ThreadOk(s, s.threads[u]);
      assert pos >= Cap(s) ==> !Moving(s.threads[u], pos - Cap(s));
    }
  }

  lemma ClaimPushInv<T>(s: State<T>, t: nat)
    requires Inv(s) && t < |s.threads| && s.threads[t].PushCas? && s.threads[t].pos == s.head
    ensures Inv(Proceed(s, t))
  {
    hide CellsOk, ThreadsOk, Exclusive, DeliveriesOk;
    var s' := Proceed(s, t);
    PushHasRoom(s, t);
    ClaimPushCells(s, t);
    ClaimPushThreads(s, t);
    OwnersChanged(s, s', t);
    DeliveriesKept(s, s');
  }

  /** A writer and any other owner of a ticket never share a cell. */
  lemma WriterAlone<T>(s: State<T>, t: nat, u: nat)
    requires Inv(s) && t < |s.threads| && u < |s.threads| && t != u
    requires InFlight(s.threads[t]) && InFlight(s.threads[u])
    ensures Slot(s.threads[t].pos, Cap(s)) != Slot(s.threads[u].pos, Cap(s))
  {
    var a, b := s.threads[t], s.threads[u];
    assert ThreadOk(s, a) && ThreadOk(s, b);
    Apart(s, t, u);
    Apart(s, u, t);
    if Slot(a.pos, Cap(s)) == Slot(b.pos, Cap(s)) {
      SameCell(Cap(s), if a.pos < b.pos then a.pos else b.pos, if a.pos < b.pos then b.pos else a.pos);
    }
  }

  /** What an update of the cell of an owned ticket means for the other cells and threads. */
  lemma OthersUntouched<T>(s: State<T>, t: nat, c: Cell<T>)
    requires Inv(s) && t < |s.threads| && InFlight(s.threads[t])
    requires c.sequence >= CellAt(s, s.threads[t].pos).sequence
    ensures var s' := s.(cells := s.cells[Slot(s.threads[t].pos, Cap(s)) := c]);
            && (forall u | 0 <= u < |s.threads| && u != t :: ThreadOk(s', s.threads[u]))
            && (forall q: nat | s.head <= q < s.head + Cap(s) && q != s.threads[t].pos + Cap(s) ::
                  CellAt(s', q) == CellAt(s, q))
  {
    var pos := s.threads[t].pos;
    assert ThreadOk(s, s.threads[t]);
    forall u | 0 <= u < |s.threads| && u != t
      ensures ThreadOk(s.(cells := s.cells[Slot(pos, Cap(s)) := c]), s.threads[u])
    {
      assert ThreadOk(s, s.threads[u]);
      if InFlight(s.threads[u]) { WriterAlone(s, t, u); }
    }
    forall q: nat | s.head <= q < s.head + Cap(s) && q != pos + Cap(s)
      ensures Slot(q, Cap(s)) != Slot(pos, Cap(s))
    {
      var n := pos + Cap(s);
      assert Slot(n, Cap(s)) == Slot(pos, Cap(s));
      if Slot(q, Cap(s)) == Slot(n, Cap(s)) {
        SameCell(Cap(s), if q < n then q else n, if q < n then n else q);
      }
    }
  }

  /** A cell that `t` did not touch stays in its phase. */
  lemma TicketKept<T>(s: State<T>, s': State<T>, t: nat, q: nat)
    requires Inv(s) && t < |s.threads| && |s'.threads| == |s.threads|
    requires s'.threads == s.threads[t := s'.threads[t]]
    requires Cap(s') == Cap(s) && s'.head == s.head && s'.tail == s.tail && s'.pushed == s.pushed
    requires s.head <= q < s.head + Cap(s) && CellAt(s', q) == CellAt(s, q)
    requires q >= Cap(s) ==>
               && Writing(s.threads[t], q - Cap(s)) == Writing(s'.threads[t], q - Cap(s))
               && Moving(s.threads[t], q - Cap(s)) == Moving(s'.threads[t], q - Cap(s))
    ensures TicketOk(s', q)
  {
    hide ThreadsOk, Exclusive, DeliveriesOk;
    assert TicketOk(s, q);
    OwnersChanged(s, s', t);
    if q >= Cap(s) {
      assert Slot(q, Cap(s)) == Slot(q - Cap(s), Cap(s));
    }
  }

  /** The owner of a ticket rewrites its cell: if that cell is in a phase again, all are. */
  lemma CellRewritten<T>(s: State<T>, s': State<T>, t: nat, c: Cell<T>)
    requires Inv(s) && t < |s.threads| && InFlight(s.threads[t]) && |s'.threads| == |s.threads|
    requires s'.threads == s.threads[t := s'.threads[t]]
    requires s'.cells == s.cells[Slot(s.threads[t].pos, Cap(s)) := c]
    requires s'.head == s.head && s'.tail == s.tail && s'.pushed == s.pushed
    requires s.threads[t].pos < s.head && c.sequence >= CellAt(s, s.threads[t].pos).sequence
    requires forall p: nat | p != s.threads[t].pos ::
               && Writing(s.threads[t], p) == Writing(s'.threads[t], p)
               && Moving(s.threads[t], p) == Moving(s'.threads[t], p)
    requires Phase(s', s.threads[t].pos, c)
    ensures CellsOk(s')
  {
    hide ThreadsOk, Exclusive, DeliveriesOk;
    var pos := s.threads[t].pos;
    OthersUntouched(s, t, c);
    forall q: nat | s'.head <= q < s'.head + Cap(s')
      ensures TicketOk(s', q)
    {
      if q != pos + Cap(s) {
        assert CellAt(s', q) == CellAt(s.(cells := s'.cells), q);
        TicketKept(s, s', t, q);
      }
    }
  }

  lemma WriteDataInv<T>(s: State<T>, t: nat)
    requires Inv(s) && t < |s.threads| && s.threads[t].PushWrite?
    ensures Inv(Proceed(s, t))
  {
    hide CellsOk, Exclusive, DeliveriesOk, Slot;
    var s', pc := Proceed(s, t), s.threads[t];
    assert ThreadOk(s, pc);
    OthersUntouched(s, t, CellAt(s, pc.pos).(data := pc.item));
    CellRewritten(s, s', t, CellAt(s, pc.pos).(data := pc.item));
    StillExclusive(s, s', t);
    OwnersChanged(s, s', t);
    DeliveriesKept(s, s');
  }

  lemma StillExclusive<T>(s: State<T>, s': State<T>, t: nat)
    requires Exclusive(s) && t < |s.threads| && |s'.threads| == |s.threads|
    requires s'.threads == s.threads[t := s'.threads[t]]
    requires forall p: nat :: Writing(s'.threads[t], p) ==> Writing(s.threads[t], p)
    requires forall p: nat :: Moving(s'.threads[t], p) ==> Moving(s.threads[t], p)
    ensures Exclusive(s')
  {
    forall u, v | 0 <= u < v < |s'.threads|
      ensures !Clash(s'.threads[u], s'.threads[v])
    {
      assert !Clash(s.threads[u], s.threads[v]);
      assert InFlight(s'.threads[u]) ==>
          Writing(s'.threads[u], s'.threads[u].pos) || Moving(s'.threads[u], s'.threads[u].pos);
    }
  }

  lemma PublishInv<T>(s: State<T>, t: nat)
    requires Inv(s) && t < |s.threads| && s.threads[t].PushStore?
    ensures Inv(Proceed(s, t))
  {
    hide CellsOk, Exclusive, DeliveriesOk, Slot;
    var s', pc := Proceed(s, t), s.threads[t];
    assert ThreadOk(s, pc);
    OthersUntouched(s, t, CellAt(s, pc.pos).(sequence := pc.pos + 1));
    CellRewritten(s, s', t, CellAt(s, pc.pos).(sequence := pc.pos + 1));
    StillExclusive(s, s', t);
    OwnersChanged(s, s', t);
    DeliveriesKept(s, s');
  }

  /** The pop about to claim the next ticket finds it published. */
  lemma PopHasItem<T>(s: State<T>, t: nat)
    requires Inv(s) && t < |s.threads| && s.threads[t].PopCas? && s.threads[t].pos == s.tail
    ensures s.tail < s.head && CellAt(s, s.tail) == Cell(s.tail + 1, s.pushed[s.tail])
  {
    assert ThreadOk(s, s.threads[t]);
    HeadCell(s);
    assert s.tail < s.head;
    CurrentPhase(s, s.tail);
  }

  lemma ClaimPopCells<T>(s: State<T>, t: nat)
    requires Inv(s) && t < |s.threads| && s.threads[t].PopCas? && s.threads[t].pos == s.tail
    ensures CellsOk(Proceed(s, t))
  {
    hide Exclusive, ThreadsOk, DeliveriesOk;
    var s', pos := Proceed(s, t), s.tail;
    PopHasItem(s, t);
    OwnersChanged(s, s', t);
    assert Moving(s'.threads[t], pos);
    forall q: nat | s'.head <= q < s'.head + Cap(s')
      ensures TicketOk(s', q)
    {
      assert TicketOk(s, q);
    }
  }

  lemma ClaimPopThreads<T>(s: State<T>, t: nat)
    requires Inv(s) && t < |s.threads| && s.threads[t].PopCas? && s.threads[t].pos == s.tail
    ensures ThreadsOk(Proceed(s, t)) && Exclusive(Proceed(s, t))
  {
    hide CellsOk, DeliveriesOk;
    var s', pos := Proceed(s, t), s.tail;
    PopHasItem(s, t);
    forall u | 0 <= u < |s'.threads|
      ensures ThreadOk(s', s'.threads[u]) && !Moving(s.threads[u], pos)
    {
      assert ThreadOk(s, s.threads[u]);
    }
  }

  lemma ClaimPopDeliveries<T>(s: State<T>, t: nat)
    requires Inv(s) && t < |s.threads| && s.threads[t].PopCas? && s.threads[t].pos == s.tail
    ensures Proceed(s, t).tail <= Proceed(s, t).head && DeliveriesOk(Proceed(s, t))
  {
    hide CellsOk, ThreadsOk, Exclusive;
    var s', pos := Proceed(s, t), s.tail;
    PopHasItem(s, t);
    OwnersChanged(s, s', t);
    assert AtMove(s'.threads[t], pos);
    forall p: nat | p < s'.tail
      ensures !Delivered(s', p) <==> AwaitsMove(s', p)
    {
      assert Delivered(s', p) <==> Delivered(s, p);
    }
  }

  lemma ClaimPopInv<T>(s: State<T>, t: nat)
    requires Inv(s) && t < |s.threads| && s.threads[t].PopCas? && s.threads[t].pos == s.tail
    ensures Inv(Proceed(s, t))
  {
    hide CellsOk, ThreadsOk, Exclusive, DeliveriesOk;
    PopHasItem(s, t);
    ClaimPopCells(s, t);
    ClaimPopThreads(s, t);
    ClaimPopDeliveries(s, t);
  }

  lemma MoveDataInv<T>(s: State<T>, t: nat)
    requires Inv(s) && t < |s.threads| && s.threads[t].PopMove?
    ensures Inv(Proceed(s, t))
  {
    var s', pos := Proceed(s, t), s.threads[t].pos;
    assert ThreadOk(s, s.threads[t]);
    assert AtMove(s.threads[t], pos);
    OwnersChanged(s, s', t);
    LastOwnerLeft(s, s', t, pos);
    forall q: nat | s'.head <= q < s'.head + Cap(s')
      ensures TicketOk(s', q)
    {
      TicketKept(s, s', t, q);
    }
    forall u | 0 <= u < |s'.threads|
      ensures ThreadOk(s', s'.threads[u])
    {
      assert ThreadOk(s, s.threads[u]);
    }
    StillExclusive(s, s', t);
    DeliveryAdded(s, s', pos);
  }

  lemma DeliveryAdded<T>(s: State<T>, s': State<T>, pos: nat)
    requires Inv(s) && s'.pushed == s.pushed && s'.tail == s.tail && s'.head == s.head
    requires pos < s.tail && s'.popped == s.popped + [Delivery(pos, s.pushed[pos])]
    requires AwaitsMove(s, pos) && !AwaitsMove(s', pos)
    requires forall p: nat | p != pos :: AwaitsMove(s', p) <==> AwaitsMove(s, p)
    ensures DeliveriesOk(s')
  {
    assert !Delivered(s, pos);
    assert s'.popped[|s.popped|].ticket == pos;
    forall p: nat | p < s'.tail
      ensures !Delivered(s', p) <==> AwaitsMove(s', p)
    {
      if p != pos { DeliveredElsewhere(s, s', p); }
    }
  }

  lemma DeliveredElsewhere<T>(s: State<T>, s': State<T>, p: nat)
    requires |s'.popped| == |s.popped| + 1 && s'.popped[..|s.popped|] == s.popped
    requires s'.popped[|s.popped|].ticket != p
    ensures Delivered(s', p) <==> Delivered(s, p)
  {
    if i :| 0 <= i < |s.popped| && s.popped[i].ticket == p {
      assert s'.popped[i].ticket == p;
    }
    if i :| 0 <= i < |s'.popped| && s'.popped[i].ticket == p {
      assert s.popped[i].ticket == p;
    }
  }

  lemma RecycleInv<T>(s: State<T>, t: nat)
    requires Inv(s) && t < |s.threads| && s.threads[t].PopStore?
    ensures Inv(Proceed(s, t))
  {
    hide CellsOk, Exclusive, DeliveriesOk, Slot;
    var s', pos := Proceed(s, t), s.threads[t].pos;
    assert ThreadOk(s, s.threads[t]);
    OthersUntouched(s, t, CellAt(s, pos).(sequence := pos + Cap(s)));
    LastOwnerLeft(s, s', t, pos);
    CellRewritten(s, s', t, CellAt(s, pos).(sequence := pos + Cap(s)));
    StillExclusive(s, s', t);
    OwnersChanged(s, s', t);
    DeliveriesKept(s, s');
  }

  lemma StepInv<T>(s: State<T>, step: Step<T>)
    requires Inv(s) && Enabled(s, step)
    ensures Inv(Apply(s, step))
  {
    var t, s' := step.tid, Apply(s, step);
    var pc := s.threads[t];
    assert ThreadOk(s, pc);
    hide Inv, CellAt;
    match step.action
    case StartPush(_) => GotoInv(s, t, s'.threads[t]);
    case StartPop => GotoInv(s, t, s'.threads[t]);
    case StartSize => GotoInv(s, t, s'.threads[t]);
    case Fail => GotoInv(s, t, s'.threads[t]);
    case Advance =>
      if pc.PushCas? && pc.pos == s.head {
        ClaimPushInv(s, t);
      } else if pc.PopCas? && pc.pos == s.tail {
        ClaimPopInv(s, t);
      } else if pc.PushWrite? {
        WriteDataInv(s, t);
      } else if pc.PushStore? {
        PublishInv(s, t);
      } else if pc.PopMove? {
        MoveDataInv(s, t);
      } else if pc.PopStore? {
        RecycleInv(s, t);
      } else {
        GotoInv(s, t, s'.threads[t]);
      }
  }

  lemma InitInv<T>(s: State<T>)
    requires Init(s) && Cap(s) >= 2
    ensures Inv(s)
  {
    forall q: nat | s.head <= q < s.head + Cap(s)
      ensures TicketOk(s, q)
    {
    }
  }

  lemma {:induction false} RunInv<T>(s: State<T>, schedule: seq<Step<T>>)
    requires Inv(s) && Runnable(s, schedule)
    ensures Inv(Exec(s, schedule))
    decreases |schedule|
  {
    if schedule != [] {
      StepInv(s, schedule[0]);
      RunInv(Apply(s, schedule[0]), schedule[1..]);
    }
  }

  // ---------------------------------------------------------------------------------------------
  // What every run guarantees
  // ---------------------------------------------------------------------------------------------

  /** No item is lost, duplicated or handed out under another ticket, and the ring never overfills. */
  lemma NoLossNoDuplication<T>(s0: State<T>, schedule: seq<Step<T>>)
    requires Init(s0) && Cap(s0) >= 2 && Runnable(s0, schedule)
    ensures var s := Exec(s0, schedule);
            && s.tail <= s.head == |s.pushed| && s.head - s.tail <= Cap(s)
            && (forall i :: 0 <= i < |s.popped| ==>
                  s.popped[i].ticket < s.tail && s.popped[i].item == s.pushed[s.popped[i].ticket])
            && (forall i, j :: 0 <= i < j < |s.popped| ==> s.popped[i].ticket != s.popped[j].ticket)
            && ((forall t :: 0 <= t < |s.threads| ==> !s.threads[t].PopMove?) ==>
                  forall p: nat | p < s.tail :: Delivered(s, p))
  {
    InitInv(s0);
    RunInv(s0, schedule);
  }

  /** No two threads are ever inside the write or move window of the same cell. */
  lemma CellsAreExclusive<T>(s0: State<T>, schedule: seq<Step<T>>, t: nat, u: nat)
    requires Init(s0) && Cap(s0) >= 2 && Runnable(s0, schedule)
    requires var s := Exec(s0, schedule);
             t < |s.threads| && u < |s.threads| && t != u && InFlight(s.threads[t]) && InFlight(s.threads[u])
    ensures var s := Exec(s0, schedule);
            Slot(s.threads[t].pos, Cap(s)) != Slot(s.threads[u].pos, Cap(s))
  {
    InitInv(s0);
    RunInv(s0, schedule);
    WriterAlone(Exec(s0, schedule), t, u);
  }

  /** A cell's sequence number, the head and the tail only grow. */
  lemma CountersGrow<T>(s: State<T>, step: Step<T>, i: nat)
    requires Inv(s) && Enabled(s, step) && i < Cap(s)
    ensures var s' := Apply(s, step);
            && Cap(s') == Cap(s) && s'.head >= s.head && s'.tail >= s.tail
            && s'.cells[i].sequence >= s.cells[i].sequence
  {
    assert ThreadOk(s, s.threads[step.tid]);
  }

  /** Ticket `p` has been published, and maybe consumed since. */
  ghost predicate Published<T>(s: State<T>, p: nat)
    requires Cap(s) > 0
  {
    p < s.head && CellAt(s, p).sequence >= p + 1
  }

  /** A push gives up exactly when its ticket is the next one and that cell is not yet released. */
  lemma PushFailsExactly<T>(s: State<T>, t: nat)
    requires Inv(s) && t < |s.threads| && s.threads[t].PushLoadSeq?
    ensures Proceed(s, t).threads[t] == PushDone(false) <==>
              s.threads[t].pos == s.head && s.head >= Cap(s) && !Released(s, s.head - Cap(s))
  {
    var pos := s.threads[t].pos;
    assert ThreadOk(s, s.threads[t]);
    if pos < s.head {
      SequenceFloor(s, pos);
    } else {
      HeadCell(s);
      if s.head >= Cap(s) && CellAt(s, pos).sequence == pos {
        CurrentPhase(s, s.head - Cap(s));
      }
    }
  }

  /** A pop gives up exactly when its ticket is the next one and it is not yet published. */
  lemma PopFailsExactly<T>(s: State<T>, t: nat)
    requires Inv(s) && t < |s.threads| && s.threads[t].PopLoadSeq?
    ensures Proceed(s, t).threads[t] == PopDone(None) <==>
              s.threads[t].pos == s.tail && !Published(s, s.tail)
  {
    var pos := s.threads[t].pos;
    assert ThreadOk(s, s.threads[t]);
    if pos < s.tail {
      SequenceFloor(s, pos);
    } else {
      HeadCell(s);
    }
  }

  ghost predicate Quiet<T>(s: State<T>) {
    forall t :: 0 <= t < |s.threads| ==> !InFlight(s.threads[t])
  }

  /** With no ticket in flight, a fresh push fails exactly on a full queue, a fresh pop on an empty one. */
  lemma QuietFailures<T>(s: State<T>, t: nat)
    requires Inv(s) && Quiet(s) && t < |s.threads|
    ensures s.threads[t].PushLoadSeq? && s.threads[t].pos == s.head ==>
              (Proceed(s, t).threads[t] == PushDone(false) <==> s.head == s.tail + Cap(s))
    ensures s.threads[t].PopLoadSeq? && s.threads[t].pos == s.tail ==>
              (Proceed(s, t).threads[t] == PopDone(None) <==> s.tail == s.head)
  {
    if s.threads[t].PushLoadSeq? && s.threads[t].pos == s.head {
      PushFailsExactly(s, t);
      if s.head >= Cap(s) { CurrentPhase(s, s.head - Cap(s)); }
    }
    if s.threads[t].PopLoadSeq? && s.threads[t].pos == s.tail {
      PopFailsExactly(s, t);
      if s.tail < s.head { CurrentPhase(s, s.tail); }
    }
  }

  /** `size` never exceeds the number of items queued when it reads the tail. */
  lemma SizeIsSafe<T>(s: State<T>, t: nat)
    requires Inv(s) && t < |s.threads| && s.threads[t].SizeLoadTail?
    ensures Proceed(s, t).threads[t].SizeDone?
    ensures Proceed(s, t).threads[t].size <= s.head - s.tail <= Cap(s)
    ensures s.threads[t].seenHead == s.head ==> Proceed(s, t).threads[t].size == s.head - s.tail
  {
    assert ThreadOk(s, s.threads[t]);
  }

  // ---------------------------------------------------------------------------------------------
  // Linearizability: the successful calls behave as one atomic bounded FIFO queue
  // ---------------------------------------------------------------------------------------------

  datatype Event<+T> = Enq(tid: nat, item: T) | Deq(tid: nat)

  /** The queue a reader sees: the items of the claimed and not yet popped tickets. */
  ghost function Abstract<T>(s: State<T>): seq<T>
    requires s.tail <= |s.pushed|
  {
    s.pushed[s.tail..]
  }

  /** A successful compare-exchange is where its call takes effect. */
  ghost function Effect<T>(s: State<T>, step: Step<T>): Option<Event<T>>
    requires Enabled(s, step)
  {
    var pc := s.threads[step.tid];
    if step.action.Advance? && pc.PushCas? && pc.pos == s.head then Some(Enq(step.tid, pc.item))
    else if step.action.Advance? && pc.PopCas? && pc.pos == s.tail then Some(Deq(step.tid))
    else None
  }

  ghost function Effects<T>(s: State<T>, schedule: seq<Step<T>>): seq<Event<T>>
    requires Runnable(s, schedule)
    decreases |schedule|
  {
    if schedule == [] then []
    else
      var rest := Effects(Apply(s, schedule[0]), schedule[1..]);
      match Effect(s, schedule[0])
      case None => rest
      case Some(e) => [e] + rest
  }

  /** The atomic queue accepts the events: no enqueue when full, no dequeue when empty. */
  ghost predicate Legal<T>(cap: nat, q: seq<T>, events: seq<Event<T>>)
    decreases |events|
  {
    events == [] ||
    match events[0]
    case Enq(_, x) => |q| < cap && Legal(cap, q + [x], events[1..])
    case Deq(_) => |q| > 0 && Legal(cap, q[1..], events[1..])
  }

  ghost function Replay<T>(cap: nat, q: seq<T>, events: seq<Event<T>>): seq<T>
    requires Legal(cap, q, events)
    decreases |events|
  {
    if events == [] then q
    else match events[0]
      case Enq(_, x) => Replay(cap, q + [x], events[1..])
      case Deq(_) => Replay(cap, q[1..], events[1..])
  }

  /** The items the atomic queue hands to thread `t`, in order. */
  ghost function HandedTo<T>(cap: nat, q: seq<T>, events: seq<Event<T>>, t: nat): seq<T>
    requires Legal(cap, q, events)
    decreases |events|
  {
    if events == [] then []
    else match events[0]
      case Enq(_, x) => HandedTo(cap, q + [x], events[1..], t)
      case Deq(u) => (if u == t then [q[0]] else []) + HandedTo(cap, q[1..], events[1..], t)
  }

  /** The items thread `t` enqueues, in order. */
  ghost function TakenFrom<T>(events: seq<Event<T>>, t: nat): seq<T>
    decreases |events|
  {
    if events == [] then []
    else (if events[0].Enq? && events[0].tid == t then [events[0].item] else [])
         + TakenFrom(events[1..], t)
  }

  /** What the step makes a call of thread `t` return: an item popped, or an item accepted. */
  ghost function PopReturn<T>(s: State<T>, step: Step<T>, t: nat): seq<T>
    requires Enabled(s, step)
  {
    if step.tid != t || AtRest(s.threads[t]) then []
    else match Apply(s, step).threads[t]
      case PopDone(Some(item)) => [item]
      case _ => []
  }

  ghost function PushReturn<T>(s: State<T>, step: Step<T>, t: nat): seq<T>
    requires Enabled(s, step)
  {
    if step.tid != t || !s.threads[t].PushStore? then []
    else match Apply(s, step).threads[t]
      case PushDone(true) => [s.threads[t].item]
      case _ => []
  }

  ghost function PopReturns<T>(s: State<T>, schedule: seq<Step<T>>, t: nat): seq<T>
    requires Runnable(s, schedule)
    decreases |schedule|
  {
    if schedule == [] then []
    else PopReturn(s, schedule[0], t) + PopReturns(Apply(s, schedule[0]), schedule[1..], t)
  }

  ghost function PushReturns<T>(s: State<T>, schedule: seq<Step<T>>, t: nat): seq<T>
    requires Runnable(s, schedule)
    decreases |schedule|
  {
    if schedule == [] then []
    else PushReturn(s, schedule[0], t) + PushReturns(Apply(s, schedule[0]), schedule[1..], t)
  }

  /** The item a call of `t` that already took effect has still to return. */
  ghost function Owed<T>(s: State<T>, t: nat): seq<T>
    requires |s.pushed| == s.head
  {
    if t >= |s.threads| then []
    else match s.threads[t]
      case PopMove(pos) => if pos < s.head then [s.pushed[pos]] else []
      case PopStore(_, item) => [item]
      case _ => []
  }

  ghost function Accepted<T>(s: State<T>, t: nat): seq<T> {
    if t >= |s.threads| then []
    else match s.threads[t]
      case PushWrite(item, _) => [item]
      case PushStore(item, _) => [item]
      case _ => []
  }

  /** One step is one legal operation of the atomic queue, or none. */
  lemma StepRefines<T>(s: State<T>, step: Step<T>)
    requires Inv(s) && Enabled(s, step)
    ensures var s' := Apply(s, step);
            && Inv(s') && Cap(s') == Cap(s)
            && match Effect(s, step)
               case None => Abstract(s') == Abstract(s)
               case Some(Enq(_, x)) => |Abstract(s)| < Cap(s) && Abstract(s') == Abstract(s) + [x]
               case Some(Deq(_)) => |Abstract(s)| > 0 && Abstract(s') == Abstract(s)[1..]
  {
    StepInv(s, step);
    assert ThreadOk(s, s.threads[step.tid]);
    HeadCell(s);
  }

  ghost function Taken<T>(effect: Option<Event<T>>, t: nat): seq<T> {
    match effect case Some(Enq(u, x)) => if u == t then [x] else [] case _ => []
  }

  ghost function Handed<T>(q: seq<T>, effect: Option<Event<T>>, t: nat): seq<T>
    requires effect.Some? && effect.value.Deq? ==> |q| > 0
  {
    match effect case Some(Deq(u)) => if u == t then [q[0]] else [] case _ => []
  }

  /** A pop owes its caller what the atomic queue handed to it, until it returns exactly that. */
  lemma StepPops<T>(s: State<T>, step: Step<T>, t: nat)
    requires Enabled(s, step) && |s.pushed| == s.head && s.tail <= s.head
    requires ThreadOk(s, s.threads[step.tid]) && (t < |s.threads| ==> ThreadOk(s, s.threads[t]))
    requires Effect(s, step) == Some(Deq(step.tid)) ==> s.tail < s.head
    requires |Apply(s, step).pushed| == Apply(s, step).head
    ensures Owed(s, t) + Handed(Abstract(s), Effect(s, step), t)
            == PopReturn(s, step, t) + Owed(Apply(s, step), t)
  {
    var s' := Apply(s, step);
    if t != step.tid {
      assert t < |s.threads| ==> s'.threads[t] == s.threads[t];
    } else if step.action.Advance? {
      AdvancePops(s, t);
    }
  }

  lemma AdvancePops<T>(s: State<T>, t: nat)
    requires Enabled(s, Step(t, Advance)) && |s.pushed| == s.head && s.tail <= s.head
    requires ThreadOk(s, s.threads[t])
    requires Effect(s, Step(t, Advance)) == Some(Deq(t)) ==> s.tail < s.head
    requires |Proceed(s, t).pushed| == Proceed(s, t).head
    ensures Owed(s, t) + Handed(Abstract(s), Effect(s, Step(t, Advance)), t)
            == PopReturn(s, Step(t, Advance), t) + Owed(Proceed(s, t), t)
  {
    var pc, s' := s.threads[t], Proceed(s, t);
    if pc.PopCas? && pc.pos == s.tail {
      assert Owed(s', t) == [s.pushed[s.tail]];
    } else if pc.PopMove? {
      assert Owed(s, t) == Owed(s', t) == [s.pushed[pc.pos]];
    } else if pc.PopStore? {
      assert Owed(s', t) == [];
    } else {
      assert Owed(s, t) == Owed(s', t) == [];
    }
  }

  lemma StepPushes<T>(s: State<T>, step: Step<T>, t: nat)
    requires Enabled(s, step)
    ensures Accepted(s, t) + Taken(Effect(s, step), t)
            == PushReturn(s, step, t) + Accepted(Apply(s, step), t)
  {
    var s' := Apply(s, step);
    if t != step.tid {
      assert t < |s.threads| ==> s'.threads[t] == s.threads[t];
    }
  }

  /** The atomic queue goes through the effects of the run, from the ring's queue to the ring's queue. */
  ghost predicate Simulated<T>(s: State<T>, schedule: seq<Step<T>>)
    requires Inv(s) && Runnable(s, schedule) && Inv(Exec(s, schedule))
  {
    && Legal(Cap(s), Abstract(s), Effects(s, schedule))
    && Replay(Cap(s), Abstract(s), Effects(s, schedule)) == Abstract(Exec(s, schedule))
  }

  /** What the calls of `t` return is what the atomic queue handed to `t`. */
  ghost predicate PopsAgree<T>(s: State<T>, schedule: seq<Step<T>>, t: nat)
    requires Inv(s) && Runnable(s, schedule) && Inv(Exec(s, schedule)) && Simulated(s, schedule)
  {
    Owed(s, t) + HandedTo(Cap(s), Abstract(s), Effects(s, schedule), t)
    == PopReturns(s, schedule, t) + Owed(Exec(s, schedule), t)
  }

  /** What the calls of `t` report as accepted is what the atomic queue took from `t`. */
  ghost predicate PushesAgree<T>(s: State<T>, schedule: seq<Step<T>>, t: nat)
    requires Runnable(s, schedule)
  {
    Accepted(s, t) + TakenFrom(Effects(s, schedule), t)
    == PushReturns(s, schedule, t) + Accepted(Exec(s, schedule), t)
  }

  lemma Glue<T>(owed: seq<T>, h: seq<T>, h': seq<T>, r: seq<T>, mid: seq<T>, r': seq<T>, end: seq<T>)
    requires owed + h == r + mid && mid + h' == r' + end
    ensures owed + (h + h') == (r + r') + end
  {
    assert owed + (h + h') == (owed + h) + h' == r + (mid + h') == (r + r') + end;
  }

  lemma {:induction false} PushesExplained<T>(s: State<T>, schedule: seq<Step<T>>, t: nat)
    requires Runnable(s, schedule)
    ensures PushesAgree(s, schedule, t)
    decreases |schedule|
  {
    if schedule != [] {
      var s1, rest := Apply(s, schedule[0]), schedule[1..];
      StepPushes(s, schedule[0], t);
      PushesExplained(s1, rest, t);
      var e, f, effect := Effects(s, schedule), Effects(s1, rest), Effect(s, schedule[0]);
      assert TakenFrom(e, t) == Taken(effect, t) + TakenFrom(f, t) by {
        if effect.Some? { assert e[1..] == f; }
      }
      Glue(Accepted(s, t), Taken(effect, t), TakenFrom(f, t), PushReturn(s, schedule[0], t),
           Accepted(s1, t), PushReturns(s1, rest, t), Accepted(Exec(s1, rest), t));
    }
  }

  lemma {:induction false} RunSimulated<T>(s: State<T>, schedule: seq<Step<T>>)
    requires Inv(s) && Runnable(s, schedule)
    ensures Inv(Exec(s, schedule)) && Simulated(s, schedule)
    decreases |schedule|
  {
    if schedule != [] {
      var s1, rest := Apply(s, schedule[0]), schedule[1..];
      StepRefines(s, schedule[0]);
      RunSimulated(s1, rest);
      var e, f := Effects(s, schedule), Effects(s1, rest);
      if Effect(s, schedule[0]).Some? { assert e[1..] == f; }
    }
  }

  lemma {:induction false} PopsExplained<T>(s: State<T>, schedule: seq<Step<T>>, t: nat)
    requires Inv(s) && Runnable(s, schedule)
    ensures Inv(Exec(s, schedule)) && Simulated(s, schedule) && PopsAgree(s, schedule, t)
    decreases |schedule|
  {
    RunSimulated(s, schedule);
    if schedule != [] {
      var s1, rest := Apply(s, schedule[0]), schedule[1..];
      StepRefines(s, schedule[0]);
      assert ThreadOk(s, s.threads[schedule[0].tid]);
      assert t < |s.threads| ==> ThreadOk(s, s.threads[t]);
      StepPops(s, schedule[0], t);
      PopsExplained(s1, rest, t);
      HandedSplit(s, schedule, t);
      Glue(Owed(s, t), Handed(Abstract(s), Effect(s, schedule[0]), t),
           HandedTo(Cap(s1), Abstract(s1), Effects(s1, rest), t), PopReturn(s, schedule[0], t),
           Owed(s1, t), PopReturns(s1, rest, t), Owed(Exec(s1, rest), t));
    }
  }

  lemma HandedSplit<T>(s: State<T>, schedule: seq<Step<T>>, t: nat)
    requires schedule != [] && Runnable(s, schedule) && s.tail <= |s.pushed|
    requires var s1 := Apply(s, schedule[0]);
             && Cap(s1) == Cap(s) && s1.tail <= |s1.pushed|
             && match Effect(s, schedule[0])
                case None => Abstract(s1) == Abstract(s)
                case Some(Enq(_, x)) => Abstract(s1) == Abstract(s) + [x]
                case Some(Deq(_)) => |Abstract(s)| > 0 && Abstract(s1) == Abstract(s)[1..]
    requires Legal(Cap(s), Abstract(s), Effects(s, schedule))
    requires Legal(Cap(s), Abstract(Apply(s, schedule[0])), Effects(Apply(s, schedule[0]), schedule[1..]))
    ensures HandedTo(Cap(s), Abstract(s), Effects(s, schedule), t)
            == Handed(Abstract(s), Effect(s, schedule[0]), t)
               + HandedTo(Cap(s), Abstract(Apply(s, schedule[0])), Effects(Apply(s, schedule[0]), schedule[1..]), t)
  {
    var e, f := Effects(s, schedule), Effects(Apply(s, schedule[0]), schedule[1..]);
    if Effect(s, schedule[0]).Some? { assert e[1..] == f; }
  }

  /**
   Every run of any number of threads is explained by an atomic FIFO queue of the ring's
   capacity: the effects are legal in the order in which they happen, they leave the queue the
   ring holds, and the calls of each thread return what that queue handed to it and report as
   accepted what it took from it, up to the one call of the thread still in flight.
   */
  lemma Linearizable<T>(s0: State<T>, schedule: seq<Step<T>>)
    requires Init(s0) && Cap(s0) >= 2 && Runnable(s0, schedule)
    ensures Inv(s0) && Inv(Exec(s0, schedule)) && Abstract(s0) == []
    ensures Simulated(s0, schedule)
    ensures forall t: nat :: PopsAgree(s0, schedule, t)
    ensures forall t: nat :: PushesAgree(s0, schedule, t)
  {
    InitInv(s0);
    RunSimulated(s0, schedule);
    forall t: nat
      ensures PopsAgree(s0, schedule, t) && PushesAgree(s0, schedule, t)
    {
      PopsExplained(s0, schedule, t);
      PushesExplained(s0, schedule, t);
    }
  }
}
