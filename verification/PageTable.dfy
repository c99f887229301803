/**
 Page tables (src/virtual_memory.cpp) as words in memory: a table is a page of 512 entries, an
 entry of a table above the leaf level points at another table. The entry format is the one of
 3rd/cpu_io/include/riscv64/virtual_memory.hpp; the number of levels is a parameter.
 */
module PageTable {

  import opened Basics

  const ENTRIES: nat := 512
  const PAGE: nat := 4096
  const ATTRIBUTES: nat := 1024
  const TABLE_FLAGS: nat := 1

  type Index = i: nat | i < 512

  type Path = seq<Index>

  type Pte = nat

  type Table = s: seq<Pte> | |s| == 512 witness seq(512, i => 0)

  /** The live tables by address. */
  type Memory = map<nat, Table>

  /** What the next calls of `aligned_alloc` will return; `None` and the empty list are null. */
  type Supply = seq<Option<nat>>

  // ---------------------------------------------------------------------------------------------
  // Entries and addresses
  // ---------------------------------------------------------------------------------------------

  function Encode(pa: nat, flags: nat): Pte {
    (pa / PAGE) * ATTRIBUTES + flags % ATTRIBUTES
  }

  function Phys(e: Pte): nat {
    (e / ATTRIBUTES) * PAGE
  }

  predicate Valid(e: Pte) {
    e % 2 == 1
  }

  function Pow512(n: nat): (r: nat)
    ensures r > 0
  {
    if n == 0 then 1 else 512 * Pow512(n - 1)
  }

  function Vpn(va: nat, level: nat): Index {
    (va / PAGE / Pow512(level)) % 512
  }

  /** The indices a walk from a table of this level uses, topmost first. */
  function PathOf(va: nat, level: nat): (r: Path)
    ensures |r| == level + 1
  {
    [Vpn(va, level)] + if level == 0 then [] else PathOf(va, level - 1)
  }

  // ---------------------------------------------------------------------------------------------
  // Tables
  // ---------------------------------------------------------------------------------------------

  function EmptyTable(): (r: Table)
    ensures forall i :: 0 <= i < 512 ==> r[i] == 0
  {
    seq(512, i => 0)
  }

  function Get(mem: Memory, t: nat): Table {
    if t in mem then mem[t] else EmptyTable()
  }

  function Put(mem: Memory, t: nat, i: Index, e: Pte): Memory {
    mem[t := Get(mem, t)[i := e]]
  }

  predicate Has(mem: Memory, t: nat, i: Index) {
    Valid(Get(mem, t)[i])
  }

  function Kid(mem: Memory, t: nat, i: Index): nat {
    Phys(Get(mem, t)[i])
  }

  /** The entry a hardware walk ends at, or 0 when an entry on the way is invalid. */
  function Leaf(mem: Memory, t: nat, path: Path): Pte
    requires path != []
    decreases |path|
  {
    if |path| == 1 then Get(mem, t)[path[0]]
    else if Has(mem, t, path[0]) then Leaf(mem, Kid(mem, t, path[0]), path[1..])
    else 0
  }

  // ---------------------------------------------------------------------------------------------
  // Operations on one directory
  // ---------------------------------------------------------------------------------------------

  function Rest(supply: Supply): Supply {
    if supply == [] then [] else supply[1..]
  }

  function NextPage(supply: Supply): Option<nat> {
    if supply == [] then None else supply[0]
  }

  /** A zeroed table `n`, entered at index `i` of table `t`. */
  function Linked(mem: Memory, t: nat, i: Index, n: nat): Memory {
    Put(mem[n := EmptyTable()], t, i, Encode(n, TABLE_FLAGS))
  }

  /** `table` is the leaf table the search ended at. */
  datatype Search = Search(mem: Memory, supply: Supply, table: Option<nat>)

  function Find(mem: Memory, t: nat, path: Path, allocate: bool, supply: Supply): Search
    requires path != []
    decreases |path|
  {
    if |path| == 1 then Search(mem, supply, Some(t))
    else if Has(mem, t, path[0]) then Find(mem, Kid(mem, t, path[0]), path[1..], allocate, supply)
    else if !allocate then Search(mem, supply, None)
    else
      match NextPage(supply)
      case None => Search(mem, Rest(supply), None)
      case Some(n) => Find(Linked(mem, t, path[0], n), n, path[1..], allocate, Rest(supply))
  }

  /** The new memory, the rest of the supply and whether the call succeeded. */
  datatype Outcome = Outcome(mem: Memory, supply: Supply, ok: bool)

  function MapPage(mem: Memory, root: nat, level: nat, va: nat, pa: nat, flags: nat, supply: Supply): Outcome {
    var s := Find(mem, root, PathOf(va, level), true, supply);
    match s.table
    case None => Outcome(s.mem, s.supply, false)
    case Some(a) =>
      var e := Get(s.mem, a)[Vpn(va, 0)];
      if Valid(e) && Phys(e) == pa && e % ATTRIBUTES == flags then Outcome(s.mem, s.supply, true)
      else Outcome(Put(s.mem, a, Vpn(va, 0), Encode(pa, flags)), s.supply, true)
  }

  function UnmapPage(mem: Memory, root: nat, level: nat, va: nat): (Memory, bool) {
    match Find(mem, root, PathOf(va, level), false, []).table
    case None => (mem, false)
    case Some(a) =>
      if Valid(Get(mem, a)[Vpn(va, 0)]) then (Put(mem, a, Vpn(va, 0), 0), true) else (mem, false)
  }

  function GetMapping(mem: Memory, root: nat, level: nat, va: nat): Option<nat> {
    match Find(mem, root, PathOf(va, level), false, []).table
    case None => None
    case Some(a) =>
      var e := Get(mem, a)[Vpn(va, 0)];
      if Valid(e) then Some(Phys(e)) else None
  }

  // ---------------------------------------------------------------------------------------------
  // Cloning and destroying
  // ---------------------------------------------------------------------------------------------

  /** Entries `i` and up of `src` copied to `dst`, both tables of level `level`. */
  function CloneFrom(mem: Memory, src: nat, dst: nat, level: nat, i: nat, copy: bool, supply: Supply): Outcome
    requires i <= 512
    decreases level, 512 - i
  {
    if i == 512 then Outcome(mem, supply, true)
    else if !Has(mem, src, i) then CloneFrom(mem, src, dst, level, i + 1, copy, supply)
    else if level == 0 then
      var mem' := if copy then Put(mem, dst, i, Get(mem, src)[i]) else mem;
      CloneFrom(mem', src, dst, level, i + 1, copy, supply)
    else
      match NextPage(supply)
      case None => Outcome(mem, Rest(supply), false)
      case Some(n) =>
        var sub := CloneFrom(mem[n := EmptyTable()], Kid(mem, src, i), n, level - 1, 0, copy, Rest(supply));
        if !sub.ok then Outcome(sub.mem - {n}, sub.supply, false)
        else
          var mem' := Put(sub.mem, dst, i, Encode(n, TABLE_FLAGS));
          CloneFrom(mem', src, dst, level, i + 1, copy, sub.supply)
  }

  /** Live tables, and the addresses that were handed to `aligned_free` while destroying. */
  datatype Heap = Heap(mem: Memory, freed: multiset<nat>)

  function Release(h: Heap, a: nat): Heap {
    Heap(h.mem - {a}, h.freed + multiset{a})
  }

  /** Entries `i` and up of `t` freed and zeroed. */
  function FreeFrom(h: Heap, t: nat, level: nat, i: nat, pages: bool): Heap
    requires i <= 512
    decreases level, 512 - i
  {
    if i == 512 then h
    else if !Has(h.mem, t, i) then FreeFrom(h, t, level, i + 1, pages)
    else
      var a := Kid(h.mem, t, i);
      var h' :=
        if level > 0 then FreeTable(h, a, level - 1, pages)
        else if pages then Release(h, a)
        else h;
      FreeFrom(h'.(mem := Put(h'.mem, t, i, 0)), t, level, i + 1, pages)
  }

  function FreeTable(h: Heap, t: nat, level: nat, pages: bool): Heap
    decreases level, 513
  {
    Release(FreeFrom(h, t, level, 0, pages), t)
  }

  /** The memory after cloning a directory, and the root of the clone. */
  function CloneDirectory(mem: Memory, src: nat, level: nat, copy: bool, supply: Supply): (Memory, Option<nat>) {
    match NextPage(supply)
    case None => (mem, None)
    case Some(dst) =>
      var r := CloneFrom(mem[dst := EmptyTable()], src, dst, level, 0, copy, Rest(supply));
      if r.ok then (r.mem, Some(dst))
      else (DestroyDirectory(Heap(r.mem, multiset{}), dst, level, false).mem, None)
  }

  function DestroyDirectory(h: Heap, root: nat, level: nat, pages: bool): Heap {
    if root == 0 then h else FreeTable(h, root, level, pages)
  }
}
