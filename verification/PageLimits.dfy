/** A clone that fails and leaves a table behind, at literal addresses. */
module PageLimits {

  import opened Basics
  import opened PageTable
  import opened PageTree
  import opened PageMap
  import opened AddressSpaces
  import PageLeak

  function Pointer(n: nat): Pte {
    Encode(n, TABLE_FLAGS)
  }

  /** Three levels: the root at 4096, one table at 8192 with two leaf tables below it. */
  function Two(): Memory {
    map[4096 := EmptyTable()[0 := Pointer(8192)],
        8192 := EmptyTable()[0 := Pointer(12288)][1 := Pointer(16384)],
        12288 := EmptyTable(),
        16384 := EmptyTable()]
  }

  predicate Extends(mem: Memory) {
    forall a :: a in Two() ==> a in mem && mem[a] == Two()[a]
  }

  lemma Entries(mem: Memory)
    requires Extends(mem)
    ensures forall i: Index :: Has(mem, 4096, i) <==> i == 0
    ensures forall i: Index :: Has(mem, 8192, i) <==> i <= 1
    ensures forall i: Index :: !Has(mem, 12288, i) && !Has(mem, 16384, i)
    ensures Kid(mem, 4096, 0) == 8192 && Kid(mem, 8192, 0) == 12288 && Kid(mem, 8192, 1) == 16384
  {
    hide Encode, Phys, Valid;
    PointerRoundTrip(8192);
    PointerRoundTrip(12288);
    PointerRoundTrip(16384);
    assert !Valid(0) by { Zero(); }
    assert 4096 in Two() && 8192 in Two() && 12288 in Two() && 16384 in Two();
    assert mem[4096] == EmptyTable()[0 := Pointer(8192)];
    assert mem[8192] == EmptyTable()[0 := Pointer(12288)][1 := Pointer(16384)];
  }

  lemma Zero()
    ensures !Valid(0)
  {
  }

  lemma MiddleTree(mem: Memory)
    requires mem == Two()
    ensures Tree(mem, 8192, 1) && forall a :: Reaches(mem, 8192, 1, a) <==> a in {8192, 12288, 16384}
  {
    hide Pointer;
    Entries(mem);
    EmptyTree(mem, 12288, 0);
    EmptyTree(mem, 16384, 0);
    forall i: Index, a: nat
      ensures ReachesBy(mem, 8192, 1, i, a) <==> (i == 0 && a == 12288) || (i == 1 && a == 16384)
    {
    }
    forall a: nat
      ensures Reaches(mem, 8192, 1, a) <==> a in {8192, 12288, 16384}
    {
      assert ReachesBy(mem, 8192, 1, 0, 12288) && ReachesBy(mem, 8192, 1, 1, 16384);
    }
  }

  lemma WholeTree(mem: Memory)
    requires mem == Two()
    ensures Tree(mem, 4096, 2) && forall a :: Reaches(mem, 4096, 2, a) <==> a in mem
  {
    hide Pointer;
    Entries(mem);
    MiddleTree(mem);
    forall i: Index, a: nat
      ensures ReachesBy(mem, 4096, 2, i, a) <==> i == 0 && a in {8192, 12288, 16384}
    {
    }
    forall a: nat
      ensures Reaches(mem, 4096, 2, a) <==> a in mem
    {
      assert a in {8192, 12288, 16384} ==> ReachesBy(mem, 4096, 2, 0, a);
    }
  }

  // ---------------------------------------------------------------------------------------------
  // The clone, step by step
  // ---------------------------------------------------------------------------------------------

  lemma {:induction false} NothingToClone(mem: Memory, src: nat, dst: nat, level: nat, i: nat, copy: bool,
                                          supply: Supply)
    requires i <= 512 && forall j: Index :: i <= j ==> !Has(mem, src, j)
    ensures CloneFrom(mem, src, dst, level, i, copy, supply) == Outcome(mem, supply, true)
    decreases 512 - i
  {
    if i < 512 {
      NothingToClone(mem, src, dst, level, i + 1, copy, supply);
    }
  }

  lemma {:induction false} NothingToFree(h: Heap, t: nat, level: nat, i: nat, pages: bool)
    requires i <= 512 && forall j: Index :: i <= j ==> !Has(h.mem, t, j)
    ensures FreeFrom(h, t, level, i, pages) == h
    decreases 512 - i
  {
    if i < 512 {
      NothingToFree(h, t, level, i + 1, pages);
    }
  }

  /** The middle table of the clone, filled with one leaf table when the pages run out. */
  function Filled(mem: Memory): Memory {
    Put(mem[24576 := EmptyTable()][28672 := EmptyTable()], 24576, 0, Pointer(28672))
  }

  lemma MiddleFails(mem: Memory, copy: bool)
    requires Extends(mem)
    ensures CloneFrom(mem[24576 := EmptyTable()], 8192, 24576, 1, 0, copy, [Some(28672), None])
         == Outcome(Filled(mem), [], false)
  {
    hide Encode;
    var mem1 := mem[24576 := EmptyTable()];
    var mem2 := mem1[28672 := EmptyTable()];
    Entries(mem1);
    Entries(mem2);
    NothingToClone(mem2, 12288, 28672, 0, 0, copy, [None]);
    Entries(Filled(mem));
    var two: Supply, one: Supply := [Some(28672), None], [None];
    assert two[1..] == one && one[1..] == [];
    assert CloneFrom(Filled(mem), 8192, 24576, 1, 1, copy, one) == Outcome(Filled(mem), [], false);
    PageLeak.CloneUnfolds(mem1, 8192, 24576, 1, 0, copy, two);
  }

  function FourPages(): Supply {
    [Some(20480), Some(24576), Some(28672), None]
  }

  lemma CloneFails(copy: bool)
    ensures CloneDirectory(Two(), 4096, 2, copy, FourPages())
         == (Filled(Two()[20480 := EmptyTable()]) - {24576} - {20480}, None)
  {
    hide Pointer, Filled, Two;
    var mem := Two()[20480 := EmptyTable()];
    assert Extends(mem) by { TwoExtends(mem); }
    Entries(mem);
    MiddleFails(mem, copy);
    assert FourPages()[1..] == [Some(24576), Some(28672), None];
    assert FourPages()[1..][1..] == [Some(28672), None];
    var rest := Filled(mem) - {24576};
    assert CloneFrom(mem, 4096, 20480, 2, 0, copy, FourPages()[1..]) == Outcome(rest, [], false);
    RootStaysEmpty(mem);
    NothingToFree(Heap(rest, multiset{}), 20480, 2, 0, false);
  }

  lemma TwoExtends(mem: Memory)
    requires mem == Two()[20480 := EmptyTable()]
    ensures Extends(mem)
  {
  }

  lemma RootStaysEmpty(mem: Memory)
    requires 20480 in mem && mem[20480] == EmptyTable()
    ensures forall j: Index :: !Has(Filled(mem) - {24576}, 20480, j)
  {
    var rest := Filled(mem) - {24576};
    assert 20480 in rest && rest[20480] == EmptyTable();
  }

  /**
   The allocator gives three pages and then none: the clone takes its root, its middle table and
   one leaf table. It frees the root and the middle table, and the leaf table stays live and out of
   reach of every directory.
   */
  lemma FailedCloneLeaks(copy: bool)
    ensures var s, op := System(Two(), {4096}), Clone(4096, copy, FourPages());
            && Inv(s, 2) && NoLeak(s, 2) && Callable(s, 2, op)
            && var (s', r) := Do(s, 2, op);
               !r.ok && 28672 in s'.mem && !Owned(s', 2, 28672) && 20480 !in s'.mem && 24576 !in s'.mem
  {
    hide Reaches, Tree, CloneDirectory;
    var s, op := System(Two(), {4096}), Clone(4096, copy, FourPages());
    WholeTree(s.mem);
    assert forall a :: a in s.mem ==> Owned(s, 2, a);
    assert FreshSupply(s.mem, FourPages()) by {
      forall k | 0 <= k < 4
        ensures Usable(s.mem, FourPages()[k])
      {
      }
    }
    CloneFails(copy);
    var (s', r) := Do(s, 2, op);
    assert 28672 in s'.mem && 28672 !in s.mem;
    CloneRefines(s, 2, 4096, copy, FourPages());
    KeptAll(s, s'.mem, 2);
    OutOfReach(s, s'.mem, 28672);
  }

  lemma OutOfReach(s: System, mem': Memory, a: nat)
    requires s == System(Two(), {4096}) && Tree(s.mem, 4096, 2) && Kept(s.mem, mem') && a !in s.mem
    ensures !Owned(s.(mem := mem'), 2, a)
  {
    hide Reaches;
    forall x | Reaches(s.mem, 4096, 2, x)
      ensures x in s.mem && x in mem' && mem'[x] == s.mem[x]
    {
      ReachedLive(s.mem, 4096, 2, x);
    }
    SameReaches(s.mem, mem', 4096, 2, a);
  }
}
