/**
 The boot allocator: Bmalloc (3rd/bmalloc/src/include/bmalloc.hpp) over BumpAllocator
 (3rd/bmalloc/src/include/bump.hpp). Addresses and sizes are 64-bit words and every sum wraps
 as `uintptr_t` does. A null pointer is address 0.
 */
module Bmalloc {

  import opened Arith
  import opened Basics
  import opened Bits

  const MAX_ALIGN: nat := 16
  const POINTER_SIZE: nat := 8

  type Byte = x: nat | x < 256

  /** Memory the allocator or its clients wrote; a byte nobody wrote reads as 0. */
  type Memory = map<nat, Byte>

  datatype State = State(start: Word, end: Word, current: Word, used: Word, free: Word, mem: Memory)

  type Word = x: nat | x < 0x1_0000_0000_0000_0000

  function Wrap(v: nat): Word {
    v % U64
  }

  lemma WrapOnce(v: nat)
    requires v < 2 * U64
    ensures Wrap(v) == if v < U64 then v else v - U64
  {
  }

  /** `v & ~(a - 1)` on 64-bit words. */
  function RoundDown(v: nat, a: nat): nat
    requires 0 < a <= U64
  {
    And(v, U64 - a)
  }

  function AlignUp(v: nat, a: nat): nat
    requires 0 < a <= U64
  {
    RoundDown(Wrap(v + (a - 1)), a)
  }

  // ---------------------------------------------------------------------------------------------
  // Memory
  // ---------------------------------------------------------------------------------------------

  function Read(mem: Memory, a: nat): Byte {
    if a in mem then mem[a] else 0
  }

  function Store(mem: Memory, a: nat, bytes: seq<Byte>): (r: Memory)
    ensures forall x: nat :: Read(r, x) == if a <= x < a + |bytes| then bytes[x - a] else Read(mem, x)
    decreases |bytes|
  {
    if bytes == [] then mem else Store(mem[a := bytes[0]], a + 1, bytes[1..])
  }

  /** The little-endian bytes of a word. */
  function Bytes(v: nat, n: nat): (r: seq<Byte>)
    ensures |r| == n
  {
    if n == 0 then [] else [v % 256] + Bytes(v / 256, n - 1)
  }

  function Load(mem: Memory, a: nat, n: nat): nat
    decreases n
  {
    if n == 0 then 0 else Read(mem, a) + 256 * Load(mem, a + 1, n - 1)
  }

  lemma {:induction false} LoadBytes(mem: Memory, a: nat, v: nat, n: nat)
    requires v < Pow2(8 * n)
    requires forall x: nat :: a <= x < a + n ==> Read(mem, x) == Bytes(v, n)[x - a]
    ensures Load(mem, a, n) == v
    decreases n
  {
    if n > 0 {
      PowStep(n);
      LoadBytes(mem, a + 1, v / 256, n - 1);
    }
  }

  lemma {:induction false} LoadFrame(mem: Memory, mem': Memory, a: nat, n: nat)
    requires forall x: nat :: a <= x < a + n ==> Read(mem', x) == Read(mem, x)
    ensures Load(mem', a, n) == Load(mem, a, n)
    decreases n
  {
    if n > 0 {
      LoadFrame(mem, mem', a + 1, n - 1);
    }
  }

  lemma PowStep(n: nat)
    requires n > 0
    ensures Pow2(8 * n) == 256 * Pow2(8 * (n - 1))
  {
    assert Pow2(8 * n) == 2 * Pow2(8 * n - 1) == 4 * Pow2(8 * n - 2);
    assert Pow2(8 * n - 2) == 2 * Pow2(8 * n - 3) == 4 * Pow2(8 * n - 4);
    assert Pow2(8 * n - 4) == 2 * Pow2(8 * n - 5) == 4 * Pow2(8 * n - 6);
    assert Pow2(8 * n - 6) == 2 * Pow2(8 * n - 7) == 4 * Pow2(8 * n - 8);
  }

  lemma WordIsPow2()
    ensures U64 == Pow2(64) == Pow2(8 * POINTER_SIZE)
  {
    PowStep(1);
    PowStep(2);
    PowStep(3);
    PowStep(4);
    PowStep(5);
    PowStep(6);
    PowStep(7);
    PowStep(8);
  }

  function Zeroes(n: nat): seq<Byte> {
    seq(n, i => 0)
  }

  // ---------------------------------------------------------------------------------------------
  // The operations
  // ---------------------------------------------------------------------------------------------

  function Fresh(start: Word, bytes: Word): State {
    State(start, Wrap(start + bytes), start, 0, bytes, map[])
  }

  function Alloc(s: State, bytes: Word): (State, nat) {
    var cur := AlignUp(s.current, MAX_ALIGN);
    var next := Wrap(cur + bytes);
    if bytes == 0 || next > s.end then (s, 0)
    else
      (s.(current := next,
          used := Wrap(next + (U64 - s.start)),
          free := if s.end > next then s.end - next else 0),
       cur)
  }

  function Calloc(s: State, num: Word, size: Word): (State, nat) {
    if num == 0 || size == 0 || num > (U64 - 1) / size then (s, 0)
    else
      var (s', p) := Alloc(s, Wrap(num * size));
      if p == 0 then (s', 0)
      else (s'.(mem := Store(s'.mem, p, Zeroes(Wrap(num * size)))), p)
  }

  function Extra(alignment: Word): nat
    requires alignment > 0
  {
    Wrap(alignment - 1 + POINTER_SIZE)
  }

  function AlignedAlloc(s: State, alignment: Word, size: Word): (State, nat) {
    if alignment == 0 || And(alignment, alignment - 1) != 0 || size == 0 then (s, 0)
    else
      var (s', raw) := Alloc(s, Wrap(size + Extra(alignment)));
      if raw == 0 then (s', 0)
      else
        var p := RoundDown(Wrap(raw + Extra(alignment)), alignment);
        (s'.(mem := Store(s'.mem, SavedAt(p), Bytes(raw, POINTER_SIZE))), p)
  }

  /** Where `aligned_alloc` keeps the raw pointer of the block it returned as `p`. */
  function SavedAt(p: nat): nat {
    Wrap(p + (U64 - POINTER_SIZE))
  }

  /** What `aligned_free` hands to the allocator beneath, which ignores it. */
  function FreedBy(s: State, p: nat): nat {
    if p == 0 then 0 else Load(s.mem, SavedAt(p), POINTER_SIZE)
  }

  // ---------------------------------------------------------------------------------------------
  // One allocation
  // ---------------------------------------------------------------------------------------------

  /** An arena is a nonempty address range that does not start at null and does not wrap. */
  predicate Ready(s: State) {
    && 0 < s.start <= s.current <= s.end < U64
    && s.used == s.current - s.start && s.free == s.end - s.current
  }

  /** The address the next allocation would get if addresses did not wrap. */
  function Ideal(s: State): nat {
    s.current + (MAX_ALIGN - s.current % MAX_ALIGN) % MAX_ALIGN
  }

  predicate Fits(s: State, bytes: nat) {
    Ideal(s) + bytes < U64
  }

  lemma RoundDownIs(v: nat, a: nat)
    requires v < U64 && 0 < a < U64 && IsPow2(a)
    ensures RoundDown(v, a) == v - v % a
  {
    WordIsPow2();
    var j: nat :| a == Pow2(j);
    PowMonotone(j);
    AndMask(v, j, 64);
  }

  lemma {:induction false} PowGrows(j: nat, k: nat)
    requires j <= k
    ensures Pow2(j) <= Pow2(k)
    decreases k - j
  {
    if j < k {
      PowGrows(j + 1, k);
    }
  }

  lemma PowMonotone(j: nat)
    requires Pow2(j) < U64
    ensures j <= 64
  {
    WordIsPow2();
    if j > 64 {
      PowGrows(64, j);
    }
  }

  lemma NextMultiple(c: nat)
    ensures (c + 15) - (c + 15) % 16 == c + (16 - c % 16) % 16
  {
  }

  lemma AlignUpIs(s: State)
    ensures AlignUp(s.current, MAX_ALIGN) == if Ideal(s) < U64 then Ideal(s) else 0
    ensures Ideal(s) % MAX_ALIGN == 0 && s.current <= Ideal(s) <= U64
  {
    hide And;
    var v := s.current + 15;
    WrapOnce(v);
    assert MAX_ALIGN == Pow2(4);
    RoundDownIs(Wrap(v), MAX_ALIGN);
    NextMultiple(s.current);
  }

  /**
   An allocation whose sum does not wrap succeeds exactly when the aligned block fits, returns
   that block, and keeps `used + free` equal to the length of the arena.
   */
  lemma AllocExact(s: State, bytes: Word)
    requires Ready(s) && Fits(s, bytes)
    ensures var (s', p) := Alloc(s, bytes);
            && Ready(s') && s'.mem == s.mem && s'.start == s.start && s'.end == s.end
            && (p != 0 <==> bytes > 0 && Ideal(s) + bytes <= s.end)
            && (p == 0 ==> s' == s)
            && (p != 0 ==> p == Ideal(s) && p % MAX_ALIGN == 0 && s.current <= p && s'.current == p + bytes)
  {
    hide AlignUp, Ideal, Wrap;
    AlignUpIs(s);
    var next := AlignUp(s.current, MAX_ALIGN) + bytes;
    WrapOnce(next);
    WrapOnce(Wrap(next) + (U64 - s.start));
  }

  /** A block that is handed out lies in the arena if and only if the sum did not wrap. */
  lemma InsideIffNoWrap(s: State, bytes: Word)
    requires Ready(s) && Alloc(s, bytes).1 != 0
    ensures var p := Alloc(s, bytes).1;
            s.start <= p && p + bytes <= s.end <==> Fits(s, bytes)
  {
    hide AlignUp, Ideal, Wrap;
    AlignUpIs(s);
    var next := AlignUp(s.current, MAX_ALIGN) + bytes;
    WrapOnce(next);
    WrapOnce(Wrap(next) + (U64 - s.start));
  }

  /** The wrap is reachable: a 16-byte arena hands out a block of almost 2^64 bytes. */
  lemma HugeRequestSucceeds(s: State, bytes: Word)
    requires s == Fresh(16, 16) && bytes == U64 - 8
    ensures Ready(s) && !Fits(s, bytes)
    ensures Alloc(s, bytes).1 == 16 && Alloc(s, bytes).0.current == 8
  {
    hide AlignUp;
    AlignUpIs(s);
  }

  /** The overflow test of `calloc` refuses exactly the products that do not fit in a word. */
  lemma CallocTest(num: nat, size: nat)
    requires size > 0
    ensures num > (U64 - 1) / size <==> num * size >= U64
  {
    var q := (U64 - 1) / size;
    if num > q {
      assert num * size >= (q + 1) * size;
    } else {
      assert num * size <= q * size;
    }
  }

  /** `calloc` refuses an overflowing product without a trace and hands out only zeroed blocks. */
  lemma CallocZeroes(s: State, num: Word, size: Word)
    ensures var (s', p) := Calloc(s, num, size);
            && (num * size >= U64 ==> (s', p) == (s, 0))
            && (p != 0 ==> forall x: nat :: p <= x < p + num * size ==> Read(s'.mem, x) == 0)
  {
    hide Alloc;
    if size > 0 {
      CallocTest(num, size);
    }
    assert num * size < U64 ==> Wrap(num * size) == num * size;
  }

  predicate PowerOfTwo(a: nat) {
    a != 0 && And(a, a - 1) == 0
  }

  /**
   An aligned allocation that does not wrap gives an aligned payload inside its raw block, with
   the raw pointer saved in the eight bytes of the raw block just before the payload.
   */
  lemma AlignedExact(s: State, alignment: Word, size: Word)
    requires Ready(s) && PowerOfTwo(alignment) && size > 0
    requires size + alignment - 1 + POINTER_SIZE < U64 && Fits(s, size + alignment - 1 + POINTER_SIZE)
    ensures var (s', p) := AlignedAlloc(s, alignment, size);
            var length := size + alignment - 1 + POINTER_SIZE;
            var raw := Alloc(s, length).1;
            && s'.(mem := s.mem) == Alloc(s, length).0
            && (p == 0 <==> raw == 0) && (p == 0 ==> s' == s)
            && (p != 0 ==>
                  && p % alignment == 0 && raw + POINTER_SIZE <= p && p + size <= raw + length
                  && SavedAt(p) == p - POINTER_SIZE
                  && s'.mem == Store(s.mem, p - POINTER_SIZE, Bytes(raw, POINTER_SIZE)))
  {
    hide Alloc, And, Fits, Wrap;
    var length := size + alignment - 1 + POINTER_SIZE;
    WrapOnce(alignment - 1 + POINTER_SIZE);
    WrapOnce(length);
    AllocExact(s, length);
    var raw := Alloc(s, length).1;
    if raw != 0 {
      var v := raw + Extra(alignment);
      WrapOnce(v);
      PowerTest(alignment);
      RoundDownIs(v, alignment);
      RoundsBelow(v, alignment);
      var p := v - v % alignment;
      WrapOnce(p + (U64 - POINTER_SIZE));
    }
  }

  /**
   Of every arena, and of any request it grants: the payload and the saved pointer before it lie
   in the part of the arena that is then in use if and only if no sum wrapped.
   */
  lemma AlignedInsideIffNoWrap(s: State, alignment: Word, size: Word)
    requires Ready(s) && AlignedAlloc(s, alignment, size).1 != 0
    ensures var (s', p) := AlignedAlloc(s, alignment, size);
            var length := size + alignment - 1 + POINTER_SIZE;
            s.start + POINTER_SIZE <= p && p + size <= s'.current <==> length < U64 && Fits(s, length)
  {
    hide Alloc, And, Wrap, Ideal, RoundDown;
    var length := size + alignment - 1 + POINTER_SIZE;
    if length < U64 && Fits(s, length) {
      AlignedExact(s, alignment, size);
      AllocExact(s, length);
    } else {
      AlignedWraps(s, alignment, size);
    }
  }

  lemma AlignedWraps(s: State, alignment: Word, size: Word)
    requires Ready(s) && AlignedAlloc(s, alignment, size).1 != 0
    requires var length := size + alignment - 1 + POINTER_SIZE; length >= U64 || !Fits(s, length)
    ensures AlignedAlloc(s, alignment, size).1 + size > AlignedAlloc(s, alignment, size).0.current
  {
    hide Alloc, And, Wrap, Ideal, RoundDown;
    var length := size + alignment - 1 + POINTER_SIZE;
    var inner := if length < U64 then length else length - U64;
    PowerTest(alignment);
    HalfWord(alignment);
    WrapOnce(alignment - 1 + POINTER_SIZE);
    WrapOnce(length);
    var raw := Alloc(s, inner).1;
    AllocEnds(s, inner);
    var v := raw + Extra(alignment);
    WrapOnce(v);
    RoundDownIs(Wrap(v), alignment);
    RoundsBelow(Wrap(v), alignment);
    if v >= U64 {
      assert Wrap(v) < alignment;
      SmallRemainder(Wrap(v), alignment);
      assert false;
    }
  }

  lemma SmallRemainder(v: nat, a: nat)
    requires v < a
    ensures v % a == v
  {
  }

  /** A power of two that is a word is at most half of the words. */
  lemma HalfWord(a: Word)
    requires IsPow2(a)
    ensures 2 * a <= U64
  {
    WordIsPow2();
    var j: nat :| a == Pow2(j);
    if j >= 64 {
      PowGrows(64, j);
    }
    PowGrows(j + 1, 64);
  }

  /** Where a granted request starts and ends, wrapped or not. */
  lemma AllocEnds(s: State, bytes: Word)
    requires Ready(s) && Alloc(s, bytes).1 != 0
    ensures var (s', p) := Alloc(s, bytes);
            && p == Ideal(s) <= U64 - MAX_ALIGN
            && s'.current == (if Fits(s, bytes) then p + bytes else p + bytes - U64)
  {
    hide AlignUp, Ideal, Wrap;
    AlignUpIs(s);
    WrapOnce(AlignUp(s.current, MAX_ALIGN) + bytes);
  }

  /** The wrap is reachable: of an arena that ends at 32, a request for all but 4096 bytes gets address 4096. */
  lemma HugeAlignedRequestSucceeds(s: State, alignment: Word, size: Word)
    requires s == Fresh(16, 16) && alignment == 4096 && size == U64 - 4096
    ensures Ready(s) && s.end == 32 && Fits(s, Wrap(size + Extra(alignment)))
    ensures var (s', p) := AlignedAlloc(s, alignment, size);
            p == 4096 && SavedAt(p) == 4088 && s'.current == 23
  {
    hide And, Alloc, RoundDown, Store, Bytes, Pow2, IsPow2, Wrap, Fresh, Ideal, Ready;
    PageIsPow2();
    PowerTest(4096);
    SmallSums();
    SmallArena();
    AllocExact(s, 7);
    RoundDownIs(4119, 4096);
  }

  lemma SmallArena()
    ensures Ready(Fresh(16, 16)) && Fresh(16, 16).end == 32 && Ideal(Fresh(16, 16)) == 16
  {
  }

  lemma SmallSums()
    ensures Wrap(4095 + POINTER_SIZE) == 4103 && Wrap(U64 - 4096 + 4103) == 7
    ensures Wrap(16 + 4103) == 4119 && Wrap(4096 + (U64 - POINTER_SIZE)) == 4088
  {
  }

  lemma PageIsPow2()
    ensures 4096 == Pow2(12) && IsPow2(4096)
  {
    assert Pow2(4) == 16 && Pow2(8) == 16 * Pow2(4) && Pow2(12) == 16 * Pow2(8);
  }

  lemma RoundsBelow(v: nat, a: nat)
    requires a > 0
    ensures (v - v % a) % a == 0 && v - a < v - v % a <= v
  {
    DivModUnique(v - v % a, a, v / a, 0);
  }

  // ---------------------------------------------------------------------------------------------
  // Runs
  // ---------------------------------------------------------------------------------------------

  /** What a client asks for, or a byte it writes. */
  datatype Op =
    | Malloc(size: Word)
    | ZeroAlloc(num: Word, size: Word)
    | AlignedMalloc(alignment: Word, size: Word)
    | Write(addr: nat, value: Byte)

  /** A block that was handed out: the raw range it came from and the payload inside it. */
  datatype Block = Block(raw: nat, length: nat, ptr: nat, size: nat, alignment: nat, saved: bool)

  datatype Client = Client(s: State, blocks: seq<Block>)

  function Given(c: Client, s: State, b: Block): Client {
    Client(s, if b.ptr == 0 then c.blocks else c.blocks + [b])
  }

  function Do(c: Client, op: Op): Client {
    match op
    case Malloc(size) =>
      var (s, p) := Alloc(c.s, size);
      Given(c, s, Block(p, size, p, size, MAX_ALIGN, false))
    case ZeroAlloc(num, size) =>
      var (s, p) := Calloc(c.s, num, size);
      Given(c, s, Block(p, num * size, p, num * size, MAX_ALIGN, false))
    case AlignedMalloc(alignment, size) =>
      var (s, p) := AlignedAlloc(c.s, alignment, size);
      if p == 0 then c.(s := s)
      else
        var length := Wrap(size + Extra(alignment));
        Given(c, s, Block(Alloc(c.s, length).1, length, p, size, alignment, true))
    case Write(addr, value) => c.(s := c.s.(mem := c.s.mem[addr := value]))
  }

  predicate InPayload(b: Block, a: nat) {
    b.ptr <= a < b.ptr + b.size
  }

  /** The sums of a request do not wrap, and clients write only into payloads they were given. */
  predicate Allowed(c: Client, op: Op) {
    match op
    case Malloc(size) => Fits(c.s, size)
    case ZeroAlloc(num, size) => num * size < U64 ==> Fits(c.s, num * size)
    case AlignedMalloc(alignment, size) =>
      alignment > 0 ==>
        && size + alignment - 1 + POINTER_SIZE < U64
        && Fits(c.s, size + alignment - 1 + POINTER_SIZE)
    case Write(addr, _) => exists i :: 0 <= i < |c.blocks| && InPayload(c.blocks[i], addr)
  }

  predicate AllAllowed(c: Client, ops: seq<Op>)
    decreases |ops|
  {
    ops == [] || (Allowed(c, ops[0]) && AllAllowed(Do(c, ops[0]), ops[1..]))
  }

  function Run(c: Client, ops: seq<Op>): Client
    decreases |ops|
  {
    if ops == [] then c else Run(Do(c, ops[0]), ops[1..])
  }

  predicate Aligned(p: nat, a: nat) {
    a > 0 && p % a == 0
  }

  /** A block lies in the used part of the arena and keeps its raw pointer where it was saved. */
  predicate BlockOk(s: State, b: Block) {
    && s.start <= b.raw && 0 < b.size && b.raw + b.length <= s.current
    && b.raw <= b.ptr && b.ptr + b.size <= b.raw + b.length
    && Aligned(b.ptr, b.alignment)
    && (b.saved ==> b.raw + POINTER_SIZE <= b.ptr && Load(s.mem, b.ptr - POINTER_SIZE, POINTER_SIZE) == b.raw)
  }

  ghost predicate Safe(c: Client) {
    && Ready(c.s)
    && (forall i :: 0 <= i < |c.blocks| ==> BlockOk(c.s, c.blocks[i]))
    && (forall i, j :: 0 <= i < j < |c.blocks| ==> c.blocks[i].raw + c.blocks[i].length <= c.blocks[j].raw)
  }

  /** Everything below the old allocation pointer reads as before. */
  ghost predicate Untouched(s: State, s': State) {
    forall x: nat :: x < s.current ==> Read(s'.mem, x) == Read(s.mem, x)
  }

  predicate SameArena(s: State, s': State) {
    s'.start == s.start && s'.end == s.end
  }

  lemma KeepBlock(s: State, s': State, b: Block)
    requires BlockOk(s, b) && s'.start == s.start && s.current <= s'.current && Untouched(s, s')
    ensures BlockOk(s', b)
  {
    if b.saved {
      LoadFrame(s.mem, s'.mem, b.ptr - POINTER_SIZE, POINTER_SIZE);
    }
  }

  lemma GivenSafe(c: Client, s': State, b: Block)
    requires Safe(c) && Ready(s') && s'.start == c.s.start && s'.end == c.s.end
    requires c.s.current <= s'.current && Untouched(c.s, s')
    requires b.ptr != 0 ==> BlockOk(s', b) && c.s.current <= b.raw
    ensures Safe(Given(c, s', b))
  {
    forall i | 0 <= i < |c.blocks|
      ensures BlockOk(s', c.blocks[i])
    {
      KeepBlock(c.s, s', c.blocks[i]);
    }
  }

  lemma MallocSafe(c: Client, size: Word)
    requires Safe(c) && Allowed(c, Malloc(size))
    ensures Safe(Do(c, Malloc(size))) && Untouched(c.s, Do(c, Malloc(size)).s)
    ensures SameArena(c.s, Do(c, Malloc(size)).s)
  {
    hide Alloc, Safe, Fits;
    SafeReady(c);
    AllocExact(c.s, size);
    var (s', p) := Alloc(c.s, size);
    GivenSafe(c, s', Block(p, size, p, size, MAX_ALIGN, false));
  }

  lemma SafeReady(c: Client)
    requires Safe(c)
    ensures Ready(c.s)
  {
  }

  lemma CallocSafe(c: Client, num: Word, size: Word)
    requires Safe(c) && Allowed(c, ZeroAlloc(num, size))
    ensures Safe(Do(c, ZeroAlloc(num, size))) && Untouched(c.s, Do(c, ZeroAlloc(num, size)).s)
    ensures SameArena(c.s, Do(c, ZeroAlloc(num, size)).s)
  {
    hide Alloc, Safe, Fits, Wrap;
    SafeReady(c);
    var (s', p) := Calloc(c.s, num, size);
    if num > 0 && size > 0 {
      CallocTest(num, size);
      if num * size < U64 {
        assert num * size > 0;
        WrapOnce(num * size);
        AllocExact(c.s, num * size);
      }
    }
    GivenSafe(c, s', Block(p, num * size, p, num * size, MAX_ALIGN, false));
  }

  lemma AlignedBlock(s: State, alignment: Word, size: Word)
    requires Ready(s) && PowerOfTwo(alignment) && size > 0
    requires size + alignment - 1 + POINTER_SIZE < U64 && Fits(s, size + alignment - 1 + POINTER_SIZE)
    ensures var (s', p) := AlignedAlloc(s, alignment, size);
            var length := size + alignment - 1 + POINTER_SIZE;
            var raw := Alloc(s, length).1;
            && Ready(s') && s'.start == s.start && s'.end == s.end && s.current <= s'.current
            && Untouched(s, s') && (p == 0 ==> s' == s) && length == Wrap(size + Extra(alignment))
            && (p != 0 ==> s.current <= raw && BlockOk(s', Block(raw, length, p, size, alignment, true)))
  {
    hide Alloc, Fits, Wrap, And, AlignedAlloc, Load, RoundDown, Ideal, PowerOfTwo;
    var length := size + alignment - 1 + POINTER_SIZE;
    AlignedExact(s, alignment, size);
    AllocExact(s, length);
    WrapOnce(alignment - 1 + POINTER_SIZE);
    WrapOnce(length);
    var (s', p) := AlignedAlloc(s, alignment, size);
    if p != 0 {
      SavedPointer(s.mem, s'.mem, p, Alloc(s, length).1);
    }
  }

  lemma AlignedSafe(c: Client, alignment: Word, size: Word)
    requires Safe(c) && Allowed(c, AlignedMalloc(alignment, size))
    ensures Safe(Do(c, AlignedMalloc(alignment, size))) && Untouched(c.s, Do(c, AlignedMalloc(alignment, size)).s)
    ensures SameArena(c.s, Do(c, AlignedMalloc(alignment, size)).s)
  {
    hide Alloc, Safe, Fits, Wrap, And, AlignedAlloc, Load, Ready, BlockOk, Ideal;
    SafeReady(c);
    var (s', p) := AlignedAlloc(c.s, alignment, size);
    if PowerOfTwo(alignment) && size > 0 {
      AlignedBlock(c.s, alignment, size);
      var length := size + alignment - 1 + POINTER_SIZE;
      GivenSafe(c, s', Block(Alloc(c.s, length).1, length, p, size, alignment, true));
    } else {
      AlignedRefuses(c.s, alignment, size);
    }
  }

  lemma AlignedRefuses(s: State, alignment: Word, size: Word)
    requires !PowerOfTwo(alignment) || size == 0
    ensures AlignedAlloc(s, alignment, size) == (s, 0)
  {
  }

  lemma SavedPointer(mem: Memory, mem': Memory, p: nat, raw: nat)
    requires p >= POINTER_SIZE && raw < U64
    requires mem' == Store(mem, p - POINTER_SIZE, Bytes(raw, POINTER_SIZE))
    ensures Load(mem', p - POINTER_SIZE, POINTER_SIZE) == raw
  {
    hide Load, Bytes, Pow2;
    WordIsPow2();
    LoadBytes(mem', p - POINTER_SIZE, raw, POINTER_SIZE);
  }

  /** A write into the payload of `k` misses the saved pointer of `b`, be it the same block or not. */
  lemma WriteKeepsBlock(s: State, b: Block, k: Block, addr: nat, value: Byte)
    requires BlockOk(s, b) && BlockOk(s, k) && InPayload(k, addr)
    requires b == k || b.raw + b.length <= k.raw || k.raw + k.length <= b.raw
    ensures BlockOk(s.(mem := s.mem[addr := value]), b)
  {
    hide Load, Aligned;
    if b.saved {
      LoadFrame(s.mem, s.mem[addr := value], b.ptr - POINTER_SIZE, POINTER_SIZE);
    }
  }

  lemma WriteSafe(c: Client, addr: nat, value: Byte)
    requires Safe(c) && Allowed(c, Write(addr, value))
    ensures Safe(Do(c, Write(addr, value))) && SameArena(c.s, Do(c, Write(addr, value)).s)
  {
    hide BlockOk;
    var s' := Do(c, Write(addr, value)).s;
    var k :| 0 <= k < |c.blocks| && InPayload(c.blocks[k], addr);
    forall i | 0 <= i < |c.blocks|
      ensures BlockOk(s', c.blocks[i])
    {
      assert i < k ==> c.blocks[i].raw + c.blocks[i].length <= c.blocks[k].raw;
      assert k < i ==> c.blocks[k].raw + c.blocks[k].length <= c.blocks[i].raw;
      WriteKeepsBlock(c.s, c.blocks[i], c.blocks[k], addr, value);
    }
  }

  lemma OpSafe(c: Client, op: Op)
    requires Safe(c) && Allowed(c, op)
    ensures Safe(Do(c, op)) && SameArena(c.s, Do(c, op).s)
    ensures !op.Write? ==> Untouched(c.s, Do(c, op).s)
  {
    match op
    case Malloc(size) => MallocSafe(c, size);
    case ZeroAlloc(num, size) => CallocSafe(c, num, size);
    case AlignedMalloc(alignment, size) => AlignedSafe(c, alignment, size);
    case Write(addr, value) => WriteSafe(c, addr, value);
  }

  /**
   Whatever is allocated and written, the blocks of a run lie in the arena, are aligned and
   pairwise disjoint, and the saved pointers survive.
   */
  lemma {:induction false} RunSafe(c: Client, ops: seq<Op>)
    requires Safe(c) && AllAllowed(c, ops)
    ensures Safe(Run(c, ops)) && SameArena(c.s, Run(c, ops).s)
    decreases |ops|
  {
    if ops != [] {
      OpSafe(c, ops[0]);
      RunSafe(Do(c, ops[0]), ops[1..]);
    }
  }

  /** The run theorem from a fresh arena, in the client's terms. */
  lemma ArenaGuarantees(start: Word, bytes: Word, ops: seq<Op>, i: nat, j: nat)
    requires 0 < start && start + bytes < U64
    requires AllAllowed(Client(Fresh(start, bytes), []), ops)
    requires i <= j < |Run(Client(Fresh(start, bytes), []), ops).blocks|
    ensures var c := Run(Client(Fresh(start, bytes), []), ops);
            var a, b := c.blocks[i], c.blocks[j];
            && start <= a.ptr && b.ptr + b.size <= c.s.end && (i < j ==> a.ptr + a.size <= b.ptr)
            && Aligned(a.ptr, a.alignment) && Aligned(b.ptr, b.alignment)
            && (a.saved ==> FreedBy(c.s, a.ptr) == a.raw) && (b.saved ==> FreedBy(c.s, b.ptr) == b.raw)
            && c.s.used + c.s.free == c.s.end - c.s.start
  {
    hide Do, Run, AllAllowed, Wrap, Load, Aligned, Safe;
    var c0 := Client(Fresh(start, bytes), []);
    FreshSafe(start, bytes);
    RunSafe(c0, ops);
    SafeBlocks(Run(c0, ops), i, j);
  }

  lemma FreshSafe(start: Word, bytes: Word)
    requires 0 < start && start + bytes < U64
    ensures Safe(Client(Fresh(start, bytes), []))
  {
    WrapOnce(start + bytes);
  }

  lemma SafeBlocks(c: Client, i: nat, j: nat)
    requires Safe(c) && i <= j < |c.blocks|
    ensures var a, b := c.blocks[i], c.blocks[j];
            && c.s.start <= a.ptr && b.ptr + b.size <= c.s.end && (i < j ==> a.ptr + a.size <= b.ptr)
            && Aligned(a.ptr, a.alignment) && Aligned(b.ptr, b.alignment)
            && (a.saved ==> FreedBy(c.s, a.ptr) == a.raw) && (b.saved ==> FreedBy(c.s, b.ptr) == b.raw)
            && c.s.used + c.s.free == c.s.end - c.s.start
  {
    hide Load, Aligned, Wrap;
    assert BlockOk(c.s, c.blocks[i]) && BlockOk(c.s, c.blocks[j]);
    WrapOnce(c.blocks[i].ptr + (U64 - POINTER_SIZE));
    WrapOnce(c.blocks[j].ptr + (U64 - POINTER_SIZE));
  }

  // ---------------------------------------------------------------------------------------------
  // The allocator object
  // ---------------------------------------------------------------------------------------------

  class Allocator {
    var start: Word
    var end: Word
    var current: Word
    var used: Word
    var free: Word
    var mem: Memory

    ghost function View(): State
      reads this
    {
      State(start, end, current, used, free, mem)
    }

    constructor (startAddr: Word, bytes: Word)
      ensures View() == Fresh(startAddr, bytes)
    {
      start, end, current := startAddr, Wrap(startAddr + bytes), startAddr;
      used, free, mem := 0, bytes, map[];
    }

    method AllocImpl(bytes: Word) returns (p: nat)
      modifies this
      ensures (View(), p) == Alloc(old(View()), bytes)
    {
      if bytes == 0 {
        return 0;
      }
      var cur := AlignUp(current, MAX_ALIGN);
      var next := Wrap(cur + bytes);
      if next > end {
        return 0;
      }
      current := next;
      used := Wrap(current + (U64 - start));
      free := if end > current then end - current else 0;
      return cur;
    }

    method SetBytes(p: nat, value: Byte, n: nat)
      modifies this`mem
      ensures mem == Store(old(mem), p, seq(n, i => value))
    {
      var i := 0;
      ghost var bytes := seq(n, i => value);
      while i < n
        invariant 0 <= i <= n
        invariant Store(mem, p + i, bytes[i..]) == Store(old(mem), p, bytes)
      {
        assert bytes[i..][0] == value && bytes[i..][1..] == bytes[i + 1..];
        mem := mem[p + i := value];
        i := i + 1;
      }
    }

    method ZeroedAlloc(num: Word, size: Word) returns (p: nat)
      modifies this
      ensures (View(), p) == Calloc(old(View()), num, size)
    {
      if num == 0 || size == 0 {
        return 0;
      }
      if num > (U64 - 1) / size {
        return 0;
      }
      var total := Wrap(num * size);
      p := AllocImpl(total);
      if p != 0 {
        assert Zeroes(total) == seq(total, i => 0);
        SetBytes(p, 0, total);
      }
    }

    method AllocAligned(alignment: Word, size: Word) returns (p: nat)
      modifies this
      ensures (View(), p) == AlignedAlloc(old(View()), alignment, size)
    {
      if alignment == 0 || And(alignment, alignment - 1) != 0 {
        return 0;
      }
      if size == 0 {
        return 0;
      }
      var extra := Wrap(alignment - 1 + POINTER_SIZE);
      var raw := AllocImpl(Wrap(size + extra));
      if raw == 0 {
        return 0;
      }
      p := RoundDown(Wrap(raw + extra), alignment);
      mem := Store(mem, SavedAt(p), Bytes(raw, POINTER_SIZE));
    }

    /** Freeing changes nothing; `freed` is the pointer that reaches the allocator beneath. */
    method FreeAligned(p: nat) returns (freed: nat)
      ensures freed == FreedBy(View(), p)
    {
      if p == 0 {
        return 0;
      }
      freed := Load(mem, SavedAt(p), POINTER_SIZE);
    }
  }
}
