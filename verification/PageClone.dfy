/** Cloning a page directory: a fresh tree with the same translations, or with none. */
module PageClone {

  import opened Basics
  import opened PageTable
  import opened PageTree
  import opened PageMap

  /** The leaf entry `new` is the clone of `old`: copied when valid, and else invalid. */
  predicate Copied(copy: bool, old_: Pte, new_: Pte) {
    if copy && Valid(old_) then new_ == old_ else !Valid(new_)
  }

  /** Two directories that may be cloned from and to, with nothing in the target from entry `i` on. */
  ghost predicate Ready(mem: Memory, src: nat, dst: nat, level: nat, i: nat, supply: Supply) {
    && Tree(mem, src, level) && Tree(mem, dst, level) && Apart(mem, dst, src, level)
    && (forall j: Index :: i <= j ==> !Has(mem, dst, j))
    && FreshSupply(mem, supply)
  }

  /** The target after cloning entries `i` and up. */
  ghost predicate Done(mem: Memory, mem': Memory, src: nat, dst: nat, level: nat, i: nat, copy: bool) {
    && Effect(mem, mem', dst, level)
    && (forall q: Path :: |q| == level + 1 && q[0] < i ==> Leaf(mem', dst, q) == Leaf(mem, dst, q))
    && (forall q: Path :: |q| == level + 1 && i <= q[0] ==> Copied(copy, Leaf(mem, src, q), Leaf(mem', dst, q)))
  }

  /** One entry further: the source is as it was and the target has grown by entry `i` only. */
  ghost predicate Stepped(mem: Memory, mem': Memory, src: nat, dst: nat, level: nat, i: Index, copy: bool) {
    && Effect(mem, mem', dst, level)
    && (forall q: Path :: |q| == level + 1 && q[0] != i ==> Leaf(mem', dst, q) == Leaf(mem, dst, q))
    && (forall q: Path :: |q| == level + 1 && q[0] == i ==> Copied(copy, Leaf(mem, src, q), Leaf(mem', dst, q)))
    && (forall j: Index :: j != i ==> Has(mem', dst, j) == Has(mem, dst, j))
  }

  // ---------------------------------------------------------------------------------------------
  // One entry
  // ---------------------------------------------------------------------------------------------

  lemma StepSkip(mem: Memory, src: nat, dst: nat, level: nat, i: Index, copy: bool)
    requires Tree(mem, dst, level) && !Has(mem, src, i) && !Has(mem, dst, i)
    ensures Stepped(mem, mem, src, dst, level, i, copy)
  {
    EffectRefl(mem, dst, level);
    forall q: Path | |q| == level + 1 && q[0] == i
      ensures Copied(copy, Leaf(mem, src, q), Leaf(mem, dst, q))
    {
    }
  }

  lemma StepLeaf(mem: Memory, src: nat, dst: nat, i: Index, copy: bool)
    requires Tree(mem, dst, 0) && Has(mem, src, i) && !Has(mem, dst, i)
    ensures Stepped(mem, if copy then Put(mem, dst, i, Get(mem, src)[i]) else mem, src, dst, 0, i, copy)
  {
    EffectRefl(mem, dst, 0);
  }

  /** The new table is out of reach of everything that was live. */
  lemma NewTable(mem: Memory, t: nat, level: nat, n: nat)
    requires Tree(mem, t, level) && n !in mem
    ensures Same(mem, mem[n := EmptyTable()], t, level) && Tree(mem[n := EmptyTable()], t, level)
    ensures !Reaches(mem[n := EmptyTable()], t, level, n)
  {
    var mem' := mem[n := EmptyTable()];
    forall a | Reaches(mem, t, level, a)
      ensures a in mem && a in mem' && mem'[a] == mem[a]
    {
      ReachedLive(mem, t, level, a);
    }
    SameTree(mem, mem', t, level);
    SameReaches(mem, mem', t, level, n);
    if Reaches(mem, t, level, n) {
      ReachedLive(mem, t, level, n);
    }
  }

  lemma KidReady(mem: Memory, src: nat, dst: nat, level: nat, i: Index, supply: Supply)
    requires level > 0 && Ready(mem, src, dst, level, i, supply) && Has(mem, src, i) && NextPage(supply).Some?
    ensures var n := NextPage(supply).value;
            Ready(mem[n := EmptyTable()], Kid(mem, src, i), n, level - 1, 0, Rest(supply))
  {
    var n := NextPage(supply).value;
    var mem1 := mem[n := EmptyTable()];
    assert Usable(mem, supply[0]);
    NewTable(mem, Kid(mem, src, i), level - 1, n);
    EmptyTree(mem1, n, level - 1);
    forall k | 0 <= k < |supply| - 1
      ensures Usable(mem1, supply[1..][k])
    {
      assert Usable(mem, supply[k + 1]) && supply[0] != supply[k + 1];
    }
  }

  /** The clone of a subtree, built beside the live tables and then entered in the target. */
  lemma LinkKid(mem: Memory, mem1: Memory, mem2: Memory, dst: nat, level: nat, i: Index, n: nat)
    requires level > 0 && Tree(mem, dst, level) && !Has(mem, dst, i) && Usable(mem, Some(n))
    requires mem1 == mem[n := EmptyTable()] && Effect(mem1, mem2, n, level - 1)
    ensures var mem' := Put(mem2, dst, i, Encode(n, TABLE_FLAGS));
            && Same(mem2, mem', n, level - 1)
            && Replaced(mem, mem', dst, level, i, Encode(n, TABLE_FLAGS))
  {
    var mem' := Put(mem2, dst, i, Encode(n, TABLE_FLAGS));
    PointerRoundTrip(n);
    EmptyTree(mem1, n, level - 1);
    forall a | Reaches(mem2, n, level - 1, a)
      ensures a !in mem && a in mem2 && a in mem' && mem'[a] == mem2[a]
    {
      ReachedLive(mem2, n, level - 1, a);
    }
    SameTree(mem2, mem', n, level - 1);
    forall j: Index | j != i && Has(mem, dst, j)
      ensures Same(mem, mem', Kid(mem, dst, j), level - 1)
    {
      forall a | Reaches(mem, Kid(mem, dst, j), level - 1, a)
        ensures a in mem && a in mem' && mem'[a] == mem[a]
      {
        ReachedLive(mem, Kid(mem, dst, j), level - 1, a);
        assert ReachesBy(mem, dst, level, j, a) && !ReachesBy(mem, dst, level, j, dst);
      }
    }
    forall a | Reaches(mem', n, level - 1, a)
      ensures Elsewhere(mem, dst, level, i, a)
    {
      SameReaches(mem2, mem', n, level - 1, a);
      NotLiveElsewhere(mem, dst, level, i, a);
    }
  }

  lemma NotLiveElsewhere(mem: Memory, t: nat, level: nat, i: Index, a: nat)
    requires level > 0 && Tree(mem, t, level) && a !in mem
    ensures Elsewhere(mem, t, level, i, a)
  {
    forall j: Index
      ensures !ReachesBy(mem, t, level, j, a)
    {
      if ReachesBy(mem, t, level, j, a) {
        ReachedLive(mem, Kid(mem, t, j), level - 1, a);
      }
    }
  }

  lemma LinkEffect(mem: Memory, mem1: Memory, mem2: Memory, dst: nat, level: nat, i: Index, n: nat)
    requires level > 0 && Tree(mem, dst, level) && !Has(mem, dst, i) && Usable(mem, Some(n))
    requires mem1 == mem[n := EmptyTable()] && Effect(mem1, mem2, n, level - 1)
    ensures Effect(mem, Put(mem2, dst, i, Encode(n, TABLE_FLAGS)), dst, level)
  {
    var e := Encode(n, TABLE_FLAGS);
    var mem' := Put(mem2, dst, i, e);
    LinkKid(mem, mem1, mem2, dst, level, i, n);
    ReplacedTree(mem, mem', dst, level, i, e);
    PointerRoundTrip(n);
    EmptyTree(mem1, n, level - 1);
    forall a: nat
      ensures Reaches(mem', dst, level, a) ==> Reaches(mem, dst, level, a) || a !in mem
      ensures Reaches(mem, dst, level, a) || (a in mem' && a !in mem) ==> Reaches(mem', dst, level, a)
    {
      SameReaches(mem2, mem', n, level - 1, a);
      if Reaches(mem', dst, level, a) && a != dst {
        var j := Via(mem', dst, level, a);
        ReplacedReachesBy(mem, mem', dst, level, i, e, j, a);
        assert ReachesBy(mem, dst, level, j, a) || a !in mem;
      }
      if Reaches(mem, dst, level, a) && a != dst {
        var j := Via(mem, dst, level, a);
        ReplacedReachesBy(mem, mem', dst, level, i, e, j, a);
        assert ReachesBy(mem', dst, level, j, a);
      }
      if a in mem' && a !in mem {
        assert Reaches(mem2, n, level - 1, a);
        ReplacedReachesBy(mem, mem', dst, level, i, e, i, a);
        assert ReachesBy(mem', dst, level, i, a);
      }
    }
  }

  lemma StepKid(mem: Memory, mem1: Memory, mem2: Memory, src: nat, dst: nat, level: nat, i: Index, n: nat, copy: bool)
    requires level > 0 && Tree(mem, src, level) && Tree(mem, dst, level)
    requires Has(mem, src, i) && !Has(mem, dst, i) && Usable(mem, Some(n))
    requires mem1 == mem[n := EmptyTable()] && Done(mem1, mem2, Kid(mem, src, i), n, level - 1, 0, copy)
    ensures Stepped(mem, Put(mem2, dst, i, Encode(n, TABLE_FLAGS)), src, dst, level, i, copy)
  {
    var e := Encode(n, TABLE_FLAGS);
    var mem' := Put(mem2, dst, i, e);
    LinkKid(mem, mem1, mem2, dst, level, i, n);
    LinkEffect(mem, mem1, mem2, dst, level, i, n);
    PointerRoundTrip(n);
    NewTable(mem, Kid(mem, src, i), level - 1, n);
    forall q: Path | |q| == level + 1
      ensures q[0] != i ==> Leaf(mem', dst, q) == Leaf(mem, dst, q)
      ensures q[0] == i ==> Copied(copy, Leaf(mem, src, q), Leaf(mem', dst, q))
    {
      ReplacedLeaf(mem, mem', dst, level, i, e, q);
      if q[0] == i {
        SameLeaf(mem2, mem', n, level - 1, q[1..]);
        SameLeaf(mem, mem1, Kid(mem, src, i), level - 1, q[1..]);
        assert Copied(copy, Leaf(mem1, Kid(mem, src, i), q[1..]), Leaf(mem2, n, q[1..]));
      }
    }
  }

  // ---------------------------------------------------------------------------------------------
  // All entries
  // ---------------------------------------------------------------------------------------------

  /** The source does not notice a step, so the rest can be cloned. */
  lemma ReadyNext(mem: Memory, mem': Memory, src: nat, dst: nat, level: nat, i: Index, copy: bool, supply: Supply,
                  supply': Supply)
    requires Ready(mem, src, dst, level, i, supply) && Stepped(mem, mem', src, dst, level, i, copy)
    requires FreshSupply(mem', supply')
    ensures Ready(mem', src, dst, level, i + 1, supply') && Same(mem, mem', src, level)
  {
    OthersSame(mem, mem', dst, src, level);
  }

  lemma DoneNext(mem: Memory, mem1: Memory, mem2: Memory, src: nat, dst: nat, level: nat, i: Index, copy: bool)
    requires Stepped(mem, mem1, src, dst, level, i, copy) && Done(mem1, mem2, src, dst, level, i + 1, copy)
    requires Same(mem, mem1, src, level)
    ensures Done(mem, mem2, src, dst, level, i, copy)
  {
    EffectTrans(mem, mem1, mem2, dst, level);
    forall q: Path | |q| == level + 1
      ensures q[0] < i ==> Leaf(mem2, dst, q) == Leaf(mem, dst, q)
      ensures i <= q[0] ==> Copied(copy, Leaf(mem, src, q), Leaf(mem2, dst, q))
    {
      SameLeaf(mem, mem1, src, level, q);
    }
  }

  lemma FailedKid(mem: Memory, mem1: Memory, mem2: Memory, dst: nat, level: nat, n: nat)
    requires level > 0 && Tree(mem, dst, level) && Usable(mem, Some(n))
    requires mem1 == mem[n := EmptyTable()] && Touch(mem1, mem2, n, level - 1)
    ensures Touch(mem, mem2 - {n}, dst, level)
  {
    var mem' := mem2 - {n};
    EmptyTree(mem1, n, level - 1);
    assert forall a :: a in mem ==> a in mem' && mem'[a] == mem[a];
    forall a | Reaches(mem, dst, level, a)
      ensures a in mem && a in mem' && mem'[a] == mem[a]
    {
      ReachedLive(mem, dst, level, a);
    }
    SameTree(mem, mem', dst, level);
    forall a: nat
      ensures Reaches(mem', dst, level, a) == Reaches(mem, dst, level, a)
    {
      SameReaches(mem, mem', dst, level, a);
    }
  }

  /**
   Cloning the rest of a table: on success the target holds the clone and the allocator's
   supply is still fresh; on failure the target is still a tree. Nothing else changes.
   */
  lemma {:induction false} CloneFromDone(mem: Memory, src: nat, dst: nat, level: nat, i: nat, copy: bool,
                                         supply: Supply)
    requires i <= 512 && Ready(mem, src, dst, level, i, supply)
    ensures var r := CloneFrom(mem, src, dst, level, i, copy, supply);
            && (r.ok ==> Done(mem, r.mem, src, dst, level, i, copy) && FreshSupply(r.mem, r.supply))
            && (!r.ok ==> Touch(mem, r.mem, dst, level))
    decreases level, 512 - i, 2
  {
    var r := CloneFrom(mem, src, dst, level, i, copy, supply);
    if i == 512 {
      EffectRefl(mem, dst, level);
    } else if !Has(mem, src, i) {
      StepSkip(mem, src, dst, level, i, copy);
      CloneOn(mem, mem, src, dst, level, i, copy, supply, supply);
    } else if level == 0 {
      StepLeaf(mem, src, dst, i, copy);
      var mem1 := if copy then Put(mem, dst, i, Get(mem, src)[i]) else mem;
      assert mem1.Keys == mem.Keys;
      CloneOn(mem, mem1, src, dst, level, i, copy, supply, supply);
    } else if NextPage(supply).Some? {
      CloneKidThenRest(mem, src, dst, level, i, copy, supply);
    } else {
      EffectRefl(mem, dst, level);
    }
  }

  lemma {:induction false} CloneOn(mem: Memory, mem1: Memory, src: nat, dst: nat, level: nat, i: Index, copy: bool,
                                   supply: Supply, supply1: Supply)
    requires Ready(mem, src, dst, level, i, supply) && Stepped(mem, mem1, src, dst, level, i, copy)
    requires FreshSupply(mem1, supply1)
    ensures var r := CloneFrom(mem1, src, dst, level, i + 1, copy, supply1);
            && (r.ok ==> Done(mem, r.mem, src, dst, level, i, copy) && FreshSupply(r.mem, r.supply))
            && (!r.ok ==> Touch(mem, r.mem, dst, level))
    decreases level, 512 - i, 0
  {
    hide CloneFrom, Reaches, Tree, Leaf, FreshSupply, Confined, Grown, Complete;
    var r := CloneFrom(mem1, src, dst, level, i + 1, copy, supply1);
    ReadyNext(mem, mem1, src, dst, level, i, copy, supply, supply1);
    CloneFromDone(mem1, src, dst, level, i + 1, copy, supply1);
    if r.ok {
      DoneNext(mem, mem1, r.mem, src, dst, level, i, copy);
    } else {
      TouchTrans(mem, mem1, r.mem, dst, level);
    }
  }

  lemma {:induction false} CloneKidThenRest(mem: Memory, src: nat, dst: nat, level: nat, i: Index, copy: bool,
                                            supply: Supply)
    requires Ready(mem, src, dst, level, i, supply)
    requires level > 0 && Has(mem, src, i) && NextPage(supply).Some?
    ensures var r := CloneFrom(mem, src, dst, level, i, copy, supply);
            && (r.ok ==> Done(mem, r.mem, src, dst, level, i, copy) && FreshSupply(r.mem, r.supply))
            && (!r.ok ==> Touch(mem, r.mem, dst, level))
    decreases level, 512 - i, 1
  {
    hide Reaches, Tree, Leaf, Confined, Grown, Complete, Done, Touch, Apart;
    var n := NextPage(supply).value;
    var mem1 := mem[n := EmptyTable()];
    assert Usable(mem, supply[0]);
    KidReady(mem, src, dst, level, i, supply);
    CloneFromDone(mem1, Kid(mem, src, i), n, level - 1, 0, copy, Rest(supply));
    var sub := CloneFrom(mem1, Kid(mem, src, i), n, level - 1, 0, copy, Rest(supply));
    if sub.ok {
      StepKid(mem, mem1, sub.mem, src, dst, level, i, n, copy);
      DstLive(mem, mem1, sub.mem, src, dst, n, level, i, copy);
      var mem2 := Put(sub.mem, dst, i, Encode(n, TABLE_FLAGS));
      assert mem2.Keys == sub.mem.Keys;
      CloneOn(mem, mem2, src, dst, level, i, copy, supply, sub.supply);
    } else {
      FailedKid(mem, mem1, sub.mem, dst, level, n);
    }
  }

  lemma DstLive(mem: Memory, mem1: Memory, mem2: Memory, src: nat, dst: nat, n: nat, level: nat, i: Index, copy: bool)
    requires level > 0 && Tree(mem, dst, level) && mem1 == mem[n := EmptyTable()]
    requires Done(mem1, mem2, Kid(mem, src, i), n, level - 1, 0, copy)
    ensures dst in mem2
  {
    assert mem1.Keys <= mem2.Keys;
  }
}
