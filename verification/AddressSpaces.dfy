/**
 All page directories of the kernel together. Any sequence of operations on any number of
 directories, with any allocation failures, behaves like independent finite maps.
 */
module AddressSpaces {

  import opened Basics
  import opened PageTable
  import opened PageTree
  import opened PageMap
  import opened PageShape
  import PageClone
  import PageFree
  import PageLeak

  datatype System = System(mem: Memory, roots: set<nat>)

  /** `supply` is what the allocator returns to this call. */
  datatype Op =
    | Map(root: nat, va: nat, pa: nat, flags: nat, supply: Supply)
    | Unmap(root: nat, va: nat)
    | Clone(root: nat, copy: bool, supply: Supply)
    | Destroy(root: nat, pages: bool)

  /** `root` is the new directory of a successful clone. */
  datatype Result = Result(ok: bool, root: nat)

  function Do(s: System, level: nat, op: Op): (System, Result) {
    match op
    case Map(root, va, pa, flags, supply) =>
      var r := MapPage(s.mem, root, level, va, pa, flags, supply);
      (s.(mem := r.mem), Result(r.ok, 0))
    case Unmap(root, va) =>
      var (mem, ok) := UnmapPage(s.mem, root, level, va);
      (s.(mem := mem), Result(ok, 0))
    case Clone(root, copy, supply) =>
      var (mem, dst) := CloneDirectory(s.mem, root, level, copy, supply);
      if dst.Some? then (System(mem, s.roots + {dst.value}), Result(true, dst.value))
      else (s.(mem := mem), Result(false, 0))
    case Destroy(root, pages) =>
      var h := DestroyDirectory(Heap(s.mem, multiset{}), root, level, pages);
      (System(h.mem, s.roots - {root}), Result(true, 0))
  }

  /** Callers name a live directory, and free frames only when no table lives in one. */
  ghost predicate Callable(s: System, level: nat, op: Op) {
    && op.root in s.roots
    && (op.Map? || op.Clone? ==> FreshSupply(s.mem, op.supply))
    && (op.Destroy? && op.pages ==> PageFree.Aside(s.mem, op.root, level))
  }

  ghost predicate Inv(s: System, level: nat) {
    && (forall t :: t in s.roots ==> Tree(s.mem, t, level))
    && (forall t, u :: t in s.roots && u in s.roots && t != u ==> Apart(s.mem, t, u, level))
  }

  /** Every live table belongs to a directory. */
  ghost predicate NoLeak(s: System, level: nat) {
    forall a :: a in s.mem ==> Owned(s, level, a)
  }

  ghost predicate Owned(s: System, level: nat, a: nat) {
    exists t :: t in s.roots && Reaches(s.mem, t, level, a)
  }

  // ---------------------------------------------------------------------------------------------
  // The specification
  // ---------------------------------------------------------------------------------------------

  /** A directory: its translations and the tables it has. */
  datatype Dir = Dir(space: Space, shape: Shape)

  type Spaces = map<nat, Dir>

  ghost function DirOf(mem: Memory, t: nat, level: nat): Dir {
    Dir(View(mem, t, level), ShapeOf(mem, t, level))
  }

  ghost function Meaning(s: System, level: nat): Spaces {
    map t | t in s.roots :: DirOf(s.mem, t, level)
  }

  /** The pages given suffice for the root and every table below it. */
  predicate CloneFits(shape: Shape, level: nat, supply: Supply) {
    1 + PageLeak.Size(shape, level, 0) <= Given(supply)
  }

  /** What an operation does, told from the finite maps, the shapes and the arguments alone. */
  function SpecDo(m: Spaces, level: nat, op: Op): (Spaces, Result)
    requires op.root in m
  {
    var d := m[op.root];
    match op
    case Map(root, va, pa, flags, supply) =>
      var path := PathOf(va, level);
      var ok := Missing(d.shape, path) <= Given(supply);
      var space := if ok then WithPage(d.space, PageOf(va, level), pa, flags) else d.space;
      (m[root := Dir(space, Extended(d.shape, path, Given(supply)))], Result(ok, 0))
    case Unmap(root, va) =>
      var v := PageOf(va, level);
      (m[root := d.(space := d.space - {v})], Result(v in d.space, 0))
    case Clone(root, copy, supply) =>
      if CloneFits(d.shape, level, supply) then
        var n := NextPage(supply).value;
        (m[n := d.(space := if copy then d.space else map[])], Result(true, n))
      else (m, Result(false, 0))
    case Destroy(root, _) => (m - {root}, Result(true, 0))
  }

  /**
   A clone leaks if the pages run out, but neither at once nor along the first entries of the one
   table below the root in which they do.
   */
  predicate Leaks(m: Spaces, level: nat, op: Op)
    requires op.root in m
  {
    && op.Clone? && !CloneFits(m[op.root].shape, level, op.supply)
    && !CleanFailure(m[op.root].shape, level, Given(op.supply))
  }

  predicate CleanFailure(shape: Shape, level: nat, given: nat) {
    given == 0 || PageLeak.RootClean(shape, level, 0, given - 1)
  }

  // ---------------------------------------------------------------------------------------------
  // One directory changes, the others do not
  // ---------------------------------------------------------------------------------------------

  lemma DirSame(mem: Memory, mem': Memory, t: nat, level: nat)
    requires Same(mem, mem', t, level)
    ensures DirOf(mem', t, level) == DirOf(mem, t, level)
  {
    hide View, ShapeOf;
    ViewSame(mem, mem', t, level);
    ShapeSame(mem, mem', t, level);
  }

  /** A table that no directory owns is never owned again, and never freed. */
  ghost predicate LeaksStay(s: System, s': System, level: nat) {
    forall a :: a in s.mem && !Owned(s, level, a) ==> a in s'.mem && !Owned(s', level, a)
  }

  lemma LeakStays(s: System, mem': Memory, level: nat, t: nat, a: nat)
    requires Inv(s, level) && t in s.roots && Touch(s.mem, mem', t, level) && a in s.mem && !Owned(s, level, a)
    ensures a in mem' && !Owned(s.(mem := mem'), level, a)
  {
    hide Reaches, Tree;
    forall u | u in s.roots
      ensures !Reaches(mem', u, level, a)
    {
      assert !Reaches(s.mem, u, level, a);
      if u != t {
        OthersSame(s.mem, mem', t, u, level);
        SameReaches(s.mem, mem', u, level, a);
      }
    }
  }

  lemma RootChanged(s: System, mem': Memory, level: nat, t: nat)
    requires Inv(s, level) && t in s.roots && Touch(s.mem, mem', t, level)
    ensures Inv(s.(mem := mem'), level)
    ensures Meaning(s.(mem := mem'), level) == Meaning(s, level)[t := DirOf(mem', t, level)]
    ensures LeaksStay(s, s.(mem := mem'), level)
  {
    forall u | u in s.roots && u != t
      ensures Tree(mem', u, level) && Same(s.mem, mem', u, level)
      ensures Apart(mem', t, u, level) && Apart(mem', u, t, level) && DirOf(mem', u, level) == DirOf(s.mem, u, level)
    {
      OthersSame(s.mem, mem', t, u, level);
      DirSame(s.mem, mem', u, level);
    }
    forall a | a in s.mem && !Owned(s, level, a)
      ensures a in mem' && !Owned(s.(mem := mem'), level, a)
    {
      LeakStays(s, mem', level, t, a);
    }
    forall u, v | u in s.roots && v in s.roots && u != v
      ensures Apart(mem', u, v, level)
    {
      if u != t && v != t {
        SameApart(s.mem, mem', u, v, level);
      }
    }
  }

  lemma SameApart(mem: Memory, mem': Memory, t: nat, u: nat, level: nat)
    requires Apart(mem, t, u, level) && Same(mem, mem', t, level) && Same(mem, mem', u, level)
    ensures Apart(mem', t, u, level)
  {
    forall a | Reaches(mem', t, level, a)
      ensures !Reaches(mem', u, level, a)
    {
      SameReaches(mem, mem', t, level, a);
      SameReaches(mem, mem', u, level, a);
    }
  }

  lemma StillOwned(s: System, mem': Memory, level: nat, t: nat, a: nat)
    requires Inv(s, level) && t in s.roots && Effect(s.mem, mem', t, level)
    requires if a in s.mem then Owned(s, level, a) else a in mem'
    ensures Owned(s.(mem := mem'), level, a)
  {
    hide Reaches, Tree, View;
    if a in s.mem {
      var u :| u in s.roots && Reaches(s.mem, u, level, a);
      if u != t {
        OthersSame(s.mem, mem', t, u, level);
        SameReaches(s.mem, mem', u, level, a);
      }
      assert Reaches(mem', u, level, a);
    } else {
      assert Reaches(mem', t, level, a);
    }
  }

  lemma RootOwns(s: System, mem': Memory, level: nat, t: nat)
    requires Inv(s, level) && NoLeak(s, level) && t in s.roots && Effect(s.mem, mem', t, level)
    ensures NoLeak(s.(mem := mem'), level)
  {
    hide Inv, Effect, Owned;
    forall a | a in mem'
      ensures Owned(s.(mem := mem'), level, a)
    {
      StillOwned(s, mem', level, t, a);
    }
  }

  // ---------------------------------------------------------------------------------------------
  // Clone
  // ---------------------------------------------------------------------------------------------

  /** The system with an empty directory `n` beside the live ones. */
  function WithRoot(s: System, n: nat): System {
    System(s.mem[n := EmptyTable()], s.roots + {n})
  }

  ghost predicate Alone(mem: Memory, n: nat, level: nat) {
    forall a :: Reaches(mem, n, level, a) <==> a == n
  }

  lemma WithRootInv(s: System, level: nat, n: nat)
    requires Inv(s, level) && n !in s.mem && n != 0
    ensures n !in s.roots && Inv(WithRoot(s, n), level) && Alone(WithRoot(s, n).mem, n, level)
    ensures forall t :: t in s.roots ==> Same(s.mem, WithRoot(s, n).mem, t, level)
  {
    hide Reaches;
    var s1 := WithRoot(s, n);
    EmptyTree(s1.mem, n, level);
    if n in s.roots {
      RootLive(s, level, n);
    }
    forall t | t in s.roots
      ensures Same(s.mem, s1.mem, t, level) && Tree(s1.mem, t, level)
      ensures Apart(s1.mem, t, n, level) && Apart(s1.mem, n, t, level)
    {
      PageClone.NewTable(s.mem, t, level, n);
    }
    forall t, u | t in s.roots && u in s.roots && t != u
      ensures Apart(s1.mem, t, u, level)
    {
      SameApart(s.mem, s1.mem, t, u, level);
    }
  }

  lemma RootLive(s: System, level: nat, t: nat)
    requires Inv(s, level) && t in s.roots
    ensures t in s.mem && t != 0
  {
    assert Tree(s.mem, t, level);
  }

  lemma WithRootOwned(s: System, level: nat, n: nat)
    requires Inv(s, level) && n !in s.mem && n != 0 && NoLeak(s, level)
    ensures NoLeak(WithRoot(s, n), level)
  {
    hide Inv, Reaches;
    var s1 := WithRoot(s, n);
    WithRootInv(s, level, n);
    forall a | a in s1.mem
      ensures Owned(s1, level, a)
    {
      if a == n {
        assert Reaches(s1.mem, n, level, n);
      } else {
        assert Owned(s, level, a);
        var t :| t in s.roots && Reaches(s.mem, t, level, a);
        SameReaches(s.mem, s1.mem, t, level, a);
      }
    }
  }

  lemma CloneReady(s: System, level: nat, src: nat, n: nat, supply: Supply)
    requires Inv(s, level) && src in s.roots && n !in s.mem && n != 0 && FreshSupply(WithRoot(s, n).mem, supply)
    ensures PageClone.Ready(WithRoot(s, n).mem, src, n, level, 0, supply)
  {
    hide Reaches;
    WithRootInv(s, level, n);
    assert forall j: Index :: !Has(WithRoot(s, n).mem, n, j);
  }

  lemma SupplyLeft(mem: Memory, supply: Supply)
    requires FreshSupply(mem, supply) && NextPage(supply).Some?
    ensures FreshSupply(mem[NextPage(supply).value := EmptyTable()], Rest(supply))
  {
    var mem1 := mem[supply[0].value := EmptyTable()];
    forall k | 0 <= k < |supply| - 1
      ensures Usable(mem1, supply[1..][k])
    {
      assert Usable(mem, supply[k + 1]) && supply[0] != supply[k + 1];
    }
  }

  lemma ClonedView(mem: Memory, mem': Memory, src: nat, dst: nat, level: nat, copy: bool)
    requires PageClone.Done(mem, mem', src, dst, level, 0, copy)
    ensures View(mem', dst, level) == if copy then View(mem, src, level) else map[]
  {
    hide View, Leaf, PathOf, PageOf, Phys, Pow512;
    var space, space' := View(mem, src, level), View(mem', dst, level);
    forall v: nat
      ensures v in space' <==> copy && v in space
      ensures v in space' && v in space ==> space'[v] == space[v]
    {
      if v < Pow512(level + 1) {
        PageStart(v, level);
        ViewAt(mem, src, level, v * PAGE);
        ViewAt(mem', dst, level, v * PAGE);
        var q := PathOf(v * PAGE, level);
        assert PageClone.Copied(copy, Leaf(mem, src, q), Leaf(mem', dst, q));
      }
    }
    assert space' == if copy then space else map[];
  }

  /** A clone succeeds exactly if the pages fit, and one that fails leaves the memory exactly if it fails cleanly. */
  lemma CloneExactly(s: System, level: nat, src: nat, copy: bool, supply: Supply)
    requires Inv(s, level) && src in s.roots && FreshSupply(s.mem, supply)
    ensures var (mem', dst) := CloneDirectory(s.mem, src, level, copy, supply);
            var shape := ShapeOf(s.mem, src, level);
            && (dst.Some? <==> CloneFits(shape, level, supply))
            && (dst.Some? ==> dst == NextPage(supply) && ShapeOf(mem', dst.value, level) == shape)
            && (dst.None? ==> (mem' == s.mem <==> CleanFailure(shape, level, Given(supply))))
  {
    hide Inv, Reaches, Tree, CloneFrom, FreeTable, PageClone.Ready, PageClone.Done, Touch, ShapeOf, Complete, Alone;
    if NextPage(supply).Some? {
      var n := NextPage(supply).value;
      var mem1 := WithRoot(s, n).mem;
      FirstUsable(s.mem, supply);
      WithRootInv(s, level, n);
      SupplyLeft(s.mem, supply);
      CloneReady(s, level, src, n, Rest(supply));
      PageLeak.CloneFromExactly(mem1, src, n, level, 0, copy, Rest(supply));
      ShapeSame(s.mem, mem1, src, level);
      var r := CloneFrom(mem1, src, n, level, 0, copy, Rest(supply));
      if r.ok {
        assert ShapeOf(r.mem, n, level).kids == ShapeOf(mem1, src, level).kids;
      } else {
        UndoneExactly(s.mem, r.mem, level, n);
      }
    }
  }

  lemma UndoneExactly(mem: Memory, mem2: Memory, level: nat, n: nat)
    requires n !in mem && n != 0 && Alone(mem[n := EmptyTable()], n, level)
    requires Touch(mem[n := EmptyTable()], mem2, n, level)
    ensures DestroyDirectory(Heap(mem2, multiset{}), n, level, false).mem == mem
       <==> Complete(mem[n := EmptyTable()], mem2, n, level)
  {
    hide Reaches, Tree, FreeTable;
    PageFree.FreeTableDone(Heap(mem2, multiset{}), n, level, false);
    var mem' := mem2 - Reach(mem2, n, level);
    assert Reaches(mem2, n, level, n) by { PageFree.ReachesSelf(mem2, n, level); }
    assert forall a :: a in mem ==> a in mem' && mem'[a] == mem[a];
    assert mem' == mem <==> mem'.Keys == mem.Keys;
  }

  /** A clone that succeeds adds a directory; one that fails changes no directory. */
  lemma CloneRefines(s: System, level: nat, src: nat, copy: bool, supply: Supply)
    requires Inv(s, level) && src in s.roots && FreshSupply(s.mem, supply)
    ensures var op := Clone(src, copy, supply);
            var (s', r) := Do(s, level, op);
            && Inv(s', level) && (Meaning(s', level), r) == SpecDo(Meaning(s, level), level, op)
            && (r.ok ==> r.root !in s.roots)
            && (NoLeak(s', level) <==> NoLeak(s, level) && !Leaks(Meaning(s, level), level, op))
            && Kept(s.mem, s'.mem)
  {
    hide Inv, NoLeak, View, Reaches, Tree, Leaf, CloneFrom, PageClone.Ready, PageClone.Done, Touch, ShapeOf, LeaksStay,
         DestroyDirectory, CleanFailure, CloneFits;
    CloneExactly(s, level, src, copy, supply);
    if NextPage(supply).Some? {
      var n := NextPage(supply).value;
      assert Usable(s.mem, supply[0]);
      WithRootInv(s, level, n);
      SupplyLeft(s.mem, supply);
      CloneReady(s, level, src, n, Rest(supply));
      var r := CloneFrom(WithRoot(s, n).mem, src, n, level, 0, copy, Rest(supply));
      PageClone.CloneFromDone(WithRoot(s, n).mem, src, n, level, 0, copy, Rest(supply));
      if r.ok {
        CloneOk(s, r.mem, level, src, n, copy);
      } else {
        CloneUndone(s, r.mem, level, n);
      }
    }
  }

  /** Every table that was live is live and holds what it held. */
  ghost predicate Kept(mem: Memory, mem': Memory) {
    forall a :: a in mem ==> a in mem' && mem'[a] == mem[a]
  }

  lemma FreshMeaning(s: System, s1: System, level: nat, n: nat)
    requires s1.roots == s.roots + {n} && n !in s.roots
    requires forall t :: t in s.roots ==> Same(s.mem, s1.mem, t, level)
    ensures Meaning(s1, level) == Meaning(s, level)[n := DirOf(s1.mem, n, level)]
  {
    forall t | t in s.roots
      ensures DirOf(s1.mem, t, level) == DirOf(s.mem, t, level)
    {
      DirSame(s.mem, s1.mem, t, level);
    }
  }

  lemma FreshLeaks(s: System, level: nat, n: nat)
    requires n !in s.mem && Alone(WithRoot(s, n).mem, n, level)
    requires forall t :: t in s.roots ==> Same(s.mem, WithRoot(s, n).mem, t, level)
    ensures LeaksStay(s, WithRoot(s, n), level)
  {
    hide Reaches;
    var s1 := WithRoot(s, n);
    forall a | a in s.mem && !Owned(s, level, a)
      ensures !Owned(s1, level, a)
    {
      forall t | t in s1.roots
        ensures !Reaches(s1.mem, t, level, a)
      {
        if t in s.roots {
          SameReaches(s.mem, s1.mem, t, level, a);
        }
      }
    }
  }

  lemma NoLeakBefore(s: System, s1: System, s2: System, level: nat)
    requires LeaksStay(s, s1, level) && LeaksStay(s1, s2, level) && NoLeak(s2, level)
    ensures NoLeak(s, level)
  {
    hide Owned;
  }

  lemma CloneKeeps(mem: Memory, mem': Memory, level: nat, n: nat)
    requires n !in mem && Touch(mem[n := EmptyTable()], mem', n, level) && Alone(mem[n := EmptyTable()], n, level)
    ensures Kept(mem, mem')
  {
  }

  lemma DoneEffect(mem: Memory, mem': Memory, src: nat, n: nat, level: nat, copy: bool)
    requires PageClone.Done(mem, mem', src, n, level, 0, copy)
    ensures Effect(mem, mem', n, level)
  {
  }

  lemma CloneOk(s: System, mem': Memory, level: nat, src: nat, n: nat, copy: bool)
    requires Inv(s, level) && n !in s.mem && n != 0 && src in s.roots
    requires PageClone.Done(WithRoot(s, n).mem, mem', src, n, level, 0, copy)
    ensures var s' := System(mem', s.roots + {n});
            && Inv(s', level) && Kept(s.mem, mem')
            && Meaning(s', level)
               == Meaning(s, level)[n := Dir(if copy then View(s.mem, src, level) else map[], ShapeOf(mem', n, level))]
            && (NoLeak(s', level) <==> NoLeak(s, level))
  {
    hide Inv, NoLeak, View, Reaches, Tree, Leaf, Touch, Alone, Kept, PageClone.Done, Same, Complete, ShapeOf, LeaksStay;
    var s1 := WithRoot(s, n);
    WithRootInv(s, level, n);
    DoneEffect(s1.mem, mem', src, n, level, copy);
    CloneKeeps(s.mem, mem', level, n);
    RootChanged(s1, mem', level, n);
    FreshMeaning(s, s1, level, n);
    ClonedView(s1.mem, mem', src, n, level, copy);
    ViewSame(s.mem, s1.mem, src, level);
    CloneOwners(s, mem', level, n);
  }

  lemma CloneOwners(s: System, mem': Memory, level: nat, n: nat)
    requires Inv(s, level) && n !in s.mem && n != 0 && Effect(WithRoot(s, n).mem, mem', n, level)
    ensures NoLeak(System(mem', s.roots + {n}), level) <==> NoLeak(s, level)
  {
    hide Inv, NoLeak, View, Reaches, Touch, Alone, Same, Complete, ShapeOf, LeaksStay;
    var s1 := WithRoot(s, n);
    WithRootInv(s, level, n);
    RootChanged(s1, mem', level, n);
    FreshLeaks(s, level, n);
    if NoLeak(s, level) {
      WithRootOwned(s, level, n);
      RootOwns(s1, mem', level, n);
    }
    if NoLeak(s1.(mem := mem'), level) {
      NoLeakBefore(s, s1, s1.(mem := mem'), level);
    }
  }

  /** Destroying the unfinished clone takes away only tables that were not live before. */
  lemma CloneUndone(s: System, mem': Memory, level: nat, n: nat)
    requires Inv(s, level) && n !in s.mem && n != 0 && Touch(WithRoot(s, n).mem, mem', n, level)
    ensures var h := DestroyDirectory(Heap(mem', multiset{}), n, level, false);
            && Kept(s.mem, h.mem)
            && Inv(s.(mem := h.mem), level) && Meaning(s.(mem := h.mem), level) == Meaning(s, level)
            && (NoLeak(s.(mem := h.mem), level) <==> NoLeak(s, level) && h.mem == s.mem)
  {
    hide Inv, Reaches, Tree, View, NoLeak, ShapeOf;
    WithRootInv(s, level, n);
    PageFree.FreeTableDone(Heap(mem', multiset{}), n, level, false);
    var h := DestroyDirectory(Heap(mem', multiset{}), n, level, false);
    assert Kept(s.mem, h.mem);
    KeptAll(s, h.mem, level);
  }

  lemma KeptAll(s: System, mem': Memory, level: nat)
    requires Inv(s, level) && Kept(s.mem, mem')
    ensures Inv(s.(mem := mem'), level) && Meaning(s.(mem := mem'), level) == Meaning(s, level)
    ensures NoLeak(s.(mem := mem'), level) <==> NoLeak(s, level) && mem' == s.mem
  {
    hide Reaches, View, ShapeOf;
    forall t | t in s.roots
      ensures Same(s.mem, mem', t, level) && Tree(mem', t, level) && DirOf(mem', t, level) == DirOf(s.mem, t, level)
      ensures forall a :: Reaches(mem', t, level, a) == Reaches(s.mem, t, level, a)
    {
      forall a | Reaches(s.mem, t, level, a)
        ensures a in s.mem && a in mem' && mem'[a] == s.mem[a]
      {
        ReachedLive(s.mem, t, level, a);
      }
      SameTree(s.mem, mem', t, level);
      DirSame(s.mem, mem', t, level);
      forall a: nat
        ensures Reaches(mem', t, level, a) == Reaches(s.mem, t, level, a)
      {
        SameReaches(s.mem, mem', t, level, a);
      }
    }
    forall t, u | t in s.roots && u in s.roots && t != u
      ensures Apart(mem', t, u, level)
    {
      SameApart(s.mem, mem', t, u, level);
    }
    KeptOwners(s, mem', level);
  }

  lemma KeptOwners(s: System, mem': Memory, level: nat)
    requires Inv(s, level) && Kept(s.mem, mem')
    requires forall t, a :: t in s.roots ==> Reaches(mem', t, level, a) == Reaches(s.mem, t, level, a)
    ensures NoLeak(s.(mem := mem'), level) <==> NoLeak(s, level) && mem' == s.mem
  {
    hide Owned, Reaches, Inv;
    var s' := s.(mem := mem');
    forall a: nat
      ensures Owned(s', level, a) == Owned(s, level, a) && (Owned(s, level, a) ==> a in s.mem)
    {
      SameOwner(s, mem', level, a);
    }
    if NoLeak(s', level) {
      assert forall a :: a in mem' ==> Owned(s', level, a);
      assert mem'.Keys == s.mem.Keys;
      assert mem' == s.mem;
    }
  }

  lemma SameOwner(s: System, mem': Memory, level: nat, a: nat)
    requires Inv(s, level) && forall t :: t in s.roots ==> Reaches(mem', t, level, a) == Reaches(s.mem, t, level, a)
    ensures Owned(s.(mem := mem'), level, a) == Owned(s, level, a) && (Owned(s, level, a) ==> a in s.mem)
  {
    hide Reaches, Tree;
    if Owned(s, level, a) {
      var t :| t in s.roots && Reaches(s.mem, t, level, a);
      ReachedLive(s.mem, t, level, a);
    }
  }

  // ---------------------------------------------------------------------------------------------
  // Destroy
  // ---------------------------------------------------------------------------------------------

  /** Destroying removes one directory, leaves the others as they were, and frees every table of it once. */
  lemma DestroyRefines(s: System, level: nat, root: nat, pages: bool)
    requires Inv(s, level) && Callable(s, level, Destroy(root, pages))
    ensures var s' := Do(s, level, Destroy(root, pages)).0;
            && Inv(s', level) && Meaning(s', level) == Meaning(s, level) - {root}
            && (NoLeak(s', level) <==> NoLeak(s, level))
  {
    hide Reaches, Tree, View, NoLeak, ShapeOf;
    var s' := Do(s, level, Destroy(root, pages)).0;
    RootLive(s, level, root);
    PageFree.FreeTableDone(Heap(s.mem, multiset{}), root, level, pages);
    assert s'.mem == s.mem - Reach(s.mem, root, level);
    forall t | t in s'.roots
      ensures Same(s.mem, s'.mem, t, level) && Tree(s'.mem, t, level)
      ensures DirOf(s'.mem, t, level) == DirOf(s.mem, t, level)
    {
      forall a | Reaches(s.mem, t, level, a)
        ensures a in s.mem && a in s'.mem && s'.mem[a] == s.mem[a]
      {
        ReachedLive(s.mem, t, level, a);
        assert Apart(s.mem, t, root, level);
      }
      SameTree(s.mem, s'.mem, t, level);
      DirSame(s.mem, s'.mem, t, level);
    }
    forall t, u | t in s'.roots && u in s'.roots && t != u
      ensures Apart(s'.mem, t, u, level)
    {
      SameApart(s.mem, s'.mem, t, u, level);
    }
    if NoLeak(s, level) {
      DestroyOwned(s, s', level, root);
    }
    if NoLeak(s', level) {
      DestroyLeaks(s, s', level, root);
    }
  }

  lemma DestroyLeaks(s: System, s': System, level: nat, root: nat)
    requires NoLeak(s', level) && s' == System(s.mem - Reach(s.mem, root, level), s.roots - {root}) && root in s.roots
    requires forall t :: t in s'.roots ==> Same(s.mem, s'.mem, t, level)
    ensures NoLeak(s, level)
  {
    hide Reaches;
    forall a | a in s.mem
      ensures Owned(s, level, a)
    {
      if !Reaches(s.mem, root, level, a) {
        assert a in s'.mem && Owned(s', level, a);
        var t :| t in s'.roots && Reaches(s'.mem, t, level, a);
        SameReaches(s.mem, s'.mem, t, level, a);
      }
    }
  }

  lemma DestroyOwned(s: System, s': System, level: nat, root: nat)
    requires NoLeak(s, level) && s' == System(s.mem - Reach(s.mem, root, level), s.roots - {root})
    requires forall t :: t in s'.roots ==> Same(s.mem, s'.mem, t, level)
    ensures NoLeak(s', level)
  {
    hide Reaches;
    forall a | a in s'.mem
      ensures Owned(s', level, a)
    {
      assert Owned(s, level, a);
      var t :| t in s.roots && Reaches(s.mem, t, level, a);
      SameReaches(s.mem, s'.mem, t, level, a);
    }
  }

  /** Each table of the directory is handed to `aligned_free` once, and each mapped frame if asked for. */
  lemma DestroyFreesOnce(s: System, level: nat, root: nat, pages: bool)
    requires Inv(s, level) && Callable(s, level, Destroy(root, pages))
    ensures DestroyDirectory(Heap(s.mem, multiset{}), root, level, pages).freed
         == multiset(Reach(s.mem, root, level))
            + if pages then PageFree.FramesFrom(s.mem, root, level, 0) else multiset{}
  {
    RootLive(s, level, root);
    PageFree.FreeTableDone(Heap(s.mem, multiset{}), root, level, pages);
  }

  /** Destroying a fresh clone brings back the memory from before the clone. */
  lemma CloneThenDestroy(s: System, level: nat, src: nat, copy: bool, supply: Supply)
    requires Inv(s, level) && src in s.roots && FreshSupply(s.mem, supply)
    requires CloneDirectory(s.mem, src, level, copy, supply).1.Some?
    ensures var (mem, dst) := CloneDirectory(s.mem, src, level, copy, supply);
            DestroyDirectory(Heap(mem, multiset{}), dst.value, level, false).mem == s.mem
  {
    hide Inv, Reaches, Tree, CloneFrom, FreeTable, PageClone.Ready;
    var n := NextPage(supply).value;
    var mem1 := WithRoot(s, n).mem;
    assert Usable(s.mem, supply[0]);
    WithRootInv(s, level, n);
    SupplyLeft(s.mem, supply);
    CloneReady(s, level, src, n, Rest(supply));
    PageClone.CloneFromDone(mem1, src, n, level, 0, copy, Rest(supply));
    var mem := CloneFrom(mem1, src, n, level, 0, copy, Rest(supply)).mem;
    PageFree.FreeTableDone(Heap(mem, multiset{}), n, level, false);
    DoneEffect(mem1, mem, src, n, level, copy);
    assert mem - Reach(mem, n, level) == s.mem;
  }

  // ---------------------------------------------------------------------------------------------
  // Runs
  // ---------------------------------------------------------------------------------------------

  /**
   Every operation returns and does to the directories what the specification says, and leaves
   every table owned exactly if every table was and the operation is no clone that leaks.
   */
  lemma OpRefines(s: System, level: nat, op: Op)
    requires Inv(s, level) && Callable(s, level, op)
    ensures var (s', r) := Do(s, level, op);
            && Inv(s', level) && (Meaning(s', level), r) == SpecDo(Meaning(s, level), level, op)
            && (NoLeak(s', level) <==> NoLeak(s, level) && !Leaks(Meaning(s, level), level, op))
            && (op.Clone? && r.ok ==> r.root !in s.roots)
  {
    hide Reaches, Tree, View, NoLeak, PageOf, Leaf, MapPage, UnmapPage, CloneDirectory, DestroyDirectory, FreshSupply,
         ShapeOf, Missing, Extended, Given, PathOf, LeaksStay, WithPage;
    assert Tree(s.mem, op.root, level);
    match op
    case Map(root, va, pa, flags, supply) =>
      MapPageExactly(s.mem, root, level, va, pa, flags, supply);
      ChangeRefines(s, MapPage(s.mem, root, level, va, pa, flags, supply).mem, level, root);
    case Unmap(root, va) =>
      UnmapPageRefines(s.mem, root, level, va);
      UnmapPageShape(s.mem, root, level, va);
      ChangeRefines(s, UnmapPage(s.mem, root, level, va).0, level, root);
    case Clone(root, copy, supply) =>
      CloneRefines(s, level, root, copy, supply);
    case Destroy(root, pages) =>
      DestroyRefines(s, level, root, pages);
  }

  lemma ChangeRefines(s: System, mem': Memory, level: nat, t: nat)
    requires Inv(s, level) && t in s.roots && Effect(s.mem, mem', t, level)
    ensures Inv(s.(mem := mem'), level)
    ensures Meaning(s.(mem := mem'), level) == Meaning(s, level)[t := DirOf(mem', t, level)]
    ensures NoLeak(s.(mem := mem'), level) <==> NoLeak(s, level)
  {
    hide Inv, NoLeak, View, ShapeOf, Complete, LeaksStay, Touch;
    RootChanged(s, mem', level, t);
    if NoLeak(s, level) {
      RootOwns(s, mem', level, t);
    }
    if NoLeak(s.(mem := mem'), level) {
      NoLeakBack(s, s.(mem := mem'), level);
    }
  }

  lemma NoLeakBack(s: System, s': System, level: nat)
    requires LeaksStay(s, s', level) && NoLeak(s', level)
    ensures NoLeak(s, level)
  {
    hide Owned;
  }

  ghost predicate AllCallable(s: System, level: nat, ops: seq<Op>)
    decreases |ops|
  {
    ops == [] || (Callable(s, level, ops[0]) && AllCallable(Do(s, level, ops[0]).0, level, ops[1..]))
  }

  function Run(s: System, level: nat, ops: seq<Op>): System
    decreases |ops|
  {
    if ops == [] then s else Run(Do(s, level, ops[0]).0, level, ops[1..])
  }

  function Results(s: System, level: nat, ops: seq<Op>): seq<Result>
    decreases |ops|
  {
    if ops == [] then []
    else
      var (s', r) := Do(s, level, ops[0]);
      [r] + Results(s', level, ops[1..])
  }

  /** The directories of the specification after the operations, which name live ones. */
  function SpecRun(m: Spaces, level: nat, ops: seq<Op>): Spaces
    decreases |ops|
  {
    if ops == [] || ops[0].root !in m then m else SpecRun(SpecDo(m, level, ops[0]).0, level, ops[1..])
  }

  function SpecResults(m: Spaces, level: nat, ops: seq<Op>): seq<Result>
    decreases |ops|
  {
    if ops == [] || ops[0].root !in m then []
    else
      var (m', r) := SpecDo(m, level, ops[0]);
      [r] + SpecResults(m', level, ops[1..])
  }

  /** No operation of the run is a clone that leaks. */
  predicate NeverLeaks(m: Spaces, level: nat, ops: seq<Op>)
    decreases |ops|
  {
    ops == [] || ops[0].root !in m
    || (!Leaks(m, level, ops[0]) && NeverLeaks(SpecDo(m, level, ops[0]).0, level, ops[1..]))
  }

  /**
   Over any run, the directories and every result are those of the specification, and no table is
   leaked exactly if none was before and no clone of the run leaks.
   */
  lemma {:induction false} RunRefines(s: System, level: nat, ops: seq<Op>)
    requires Inv(s, level) && AllCallable(s, level, ops)
    ensures Inv(Run(s, level, ops), level)
    ensures Meaning(Run(s, level, ops), level) == SpecRun(Meaning(s, level), level, ops)
    ensures Results(s, level, ops) == SpecResults(Meaning(s, level), level, ops)
    ensures NoLeak(Run(s, level, ops), level) <==> NoLeak(s, level) && NeverLeaks(Meaning(s, level), level, ops)
    decreases |ops|
  {
    hide Inv, View, Do, SpecDo, NoLeak, Leaks, ShapeOf;
    if ops != [] {
      OpRefines(s, level, ops[0]);
      RunRefines(Do(s, level, ops[0]).0, level, ops[1..]);
    }
  }

  /** After any run a lookup in any directory answers as its finite map does. */
  lemma LookupAfterRun(s: System, level: nat, ops: seq<Op>, root: nat, va: nat)
    requires Inv(s, level) && AllCallable(s, level, ops)
    ensures root in Run(s, level, ops).roots <==> root in SpecRun(Meaning(s, level), level, ops)
    ensures root in Run(s, level, ops).roots ==>
              var space := SpecRun(Meaning(s, level), level, ops)[root].space;
              GetMapping(Run(s, level, ops).mem, root, level, va)
                == if PageOf(va, level) in space then Some(space[PageOf(va, level)].pa) else None
  {
    hide Inv, View, Do, SpecDo, GetMapping, SpecRun, Run, AllCallable, PageOf, ShapeOf;
    RunRefines(s, level, ops);
    GetMappingRefines(Run(s, level, ops).mem, root, level, va);
  }
}
