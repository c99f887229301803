/**
 The shape of a page directory: the tables under a root form a tree, and what a change confined
 to one subtree does to the whole tree and to every other tree in memory.
 */
module PageTree {

  import opened PageTable

  /** Table `a` is `t` or below it; `level` is the level of `t`. */
  ghost predicate Reaches(mem: Memory, t: nat, level: nat, a: nat)
    decreases level
  {
    a == t || (level > 0 && exists i: Index :: ReachesBy(mem, t, level, i, a))
  }

  ghost predicate ReachesBy(mem: Memory, t: nat, level: nat, i: Index, a: nat)
    requires level > 0
    decreases level, 0
  {
    Has(mem, t, i) && Reaches(mem, Kid(mem, t, i), level - 1, a)
  }

  /** Every reachable table is live and reachable in one way only. */
  ghost predicate Tree(mem: Memory, t: nat, level: nat)
    decreases level
  {
    && t in mem && t != 0
    && (level > 0 ==>
          && (forall i: Index :: Has(mem, t, i) ==> Tree(mem, Kid(mem, t, i), level - 1))
          && (forall i: Index :: !ReachesBy(mem, t, level, i, t))
          && (forall i: Index, j: Index, a ::
                ReachesBy(mem, t, level, i, a) && ReachesBy(mem, t, level, j, a) ==> i == j))
  }

  ghost function Reach(mem: Memory, t: nat, level: nat): set<nat> {
    set a | a in mem.Keys && Reaches(mem, t, level, a)
  }

  /** No table is under both roots. */
  ghost predicate Apart(mem: Memory, t: nat, u: nat, level: nat) {
    forall a :: Reaches(mem, t, level, a) ==> !Reaches(mem, u, level, a)
  }

  /** Everything under `t` is as before. */
  ghost predicate Same(mem: Memory, mem': Memory, t: nat, level: nat) {
    forall a :: Reaches(mem, t, level, a) ==> a in mem && a in mem' && mem'[a] == mem[a]
  }

  /** Nothing outside `t`'s tree changed. */
  ghost predicate Confined(mem: Memory, mem': Memory, t: nat, level: nat) {
    forall a :: a in mem && !Reaches(mem, t, level, a) ==> a in mem' && mem'[a] == mem[a]
  }

  /** `t` reaches what it reached before or tables that were not live before. */
  ghost predicate Grown(mem: Memory, mem': Memory, t: nat, level: nat) {
    forall a :: Reaches(mem', t, level, a) ==> Reaches(mem, t, level, a) || a !in mem
  }

  /** `t` reaches all it reached before and every table that was not live before. */
  ghost predicate Complete(mem: Memory, mem': Memory, t: nat, level: nat) {
    forall a :: Reaches(mem, t, level, a) || (a in mem' && a !in mem) ==> Reaches(mem', t, level, a)
  }

  /** The tree of `t` is still a tree and nothing else was touched. */
  ghost predicate Touch(mem: Memory, mem': Memory, t: nat, level: nat) {
    && Tree(mem', t, level)
    && mem.Keys <= mem'.Keys
    && Confined(mem, mem', t, level)
    && Grown(mem, mem', t, level)
  }

  /** What an operation on the tree of `t` leaves behind if it neither frees nor leaks a table. */
  ghost predicate Effect(mem: Memory, mem': Memory, t: nat, level: nat) {
    Touch(mem, mem', t, level) && Complete(mem, mem', t, level)
  }

  // ---------------------------------------------------------------------------------------------
  // Framing
  // ---------------------------------------------------------------------------------------------

  lemma Via(mem: Memory, t: nat, level: nat, a: nat) returns (i: Index)
    requires Reaches(mem, t, level, a) && a != t
    ensures level > 0 && ReachesBy(mem, t, level, i, a)
  {
    i :| ReachesBy(mem, t, level, i, a);
  }

  lemma ReachedLive(mem: Memory, t: nat, level: nat, a: nat)
    requires Tree(mem, t, level) && Reaches(mem, t, level, a)
    ensures a in mem && a != 0
    decreases level
  {
    if a != t {
      var i := Via(mem, t, level, a);
      ReachedLive(mem, Kid(mem, t, i), level - 1, a);
    }
  }

  lemma SameKid(mem: Memory, mem': Memory, t: nat, level: nat, i: Index)
    requires level > 0 && Same(mem, mem', t, level)
    ensures Has(mem', t, i) == Has(mem, t, i)
    ensures Has(mem, t, i) ==> Kid(mem', t, i) == Kid(mem, t, i) && Same(mem, mem', Kid(mem, t, i), level - 1)
  {
    assert Reaches(mem, t, level, t);
    if Has(mem, t, i) {
      forall a | Reaches(mem, Kid(mem, t, i), level - 1, a)
        ensures a in mem && a in mem' && mem'[a] == mem[a]
      {
        assert ReachesBy(mem, t, level, i, a);
        assert Reaches(mem, t, level, a);
      }
    }
  }

  lemma {:induction false} SameReaches(mem: Memory, mem': Memory, t: nat, level: nat, a: nat)
    requires Same(mem, mem', t, level)
    ensures Reaches(mem', t, level, a) == Reaches(mem, t, level, a)
    decreases level
  {
    if level > 0 {
      forall i: Index
        ensures ReachesBy(mem', t, level, i, a) == ReachesBy(mem, t, level, i, a)
      {
        SameKid(mem, mem', t, level, i);
        if Has(mem, t, i) {
          SameReaches(mem, mem', Kid(mem, t, i), level - 1, a);
        }
      }
    }
  }

  lemma SameReachesBy(mem: Memory, mem': Memory, t: nat, level: nat, i: Index, a: nat)
    requires level > 0 && Same(mem, mem', t, level)
    ensures ReachesBy(mem', t, level, i, a) == ReachesBy(mem, t, level, i, a)
  {
    SameKid(mem, mem', t, level, i);
    if Has(mem, t, i) {
      SameReaches(mem, mem', Kid(mem, t, i), level - 1, a);
    }
  }

  lemma {:induction false} SameTree(mem: Memory, mem': Memory, t: nat, level: nat)
    requires Tree(mem, t, level) && Same(mem, mem', t, level)
    ensures Tree(mem', t, level)
    decreases level
  {
    assert Reaches(mem, t, level, t);
    if level > 0 {
      forall i: Index | Has(mem', t, i)
        ensures Tree(mem', Kid(mem', t, i), level - 1)
      {
        SameKid(mem, mem', t, level, i);
        SameTree(mem, mem', Kid(mem, t, i), level - 1);
      }
      forall i: Index, a: nat
        ensures ReachesBy(mem', t, level, i, a) == ReachesBy(mem, t, level, i, a)
      {
        SameReachesBy(mem, mem', t, level, i, a);
      }
    }
  }

  lemma {:induction false} SameLeaf(mem: Memory, mem': Memory, t: nat, level: nat, path: Path)
    requires Same(mem, mem', t, level) && |path| == level + 1
    ensures Leaf(mem', t, path) == Leaf(mem, t, path)
    decreases level
  {
    assert Reaches(mem, t, level, t);
    if level > 0 {
      SameKid(mem, mem', t, level, path[0]);
      if Has(mem, t, path[0]) {
        SameLeaf(mem, mem', Kid(mem, t, path[0]), level - 1, path[1..]);
      }
    }
  }

  // ---------------------------------------------------------------------------------------------
  // Changing one subtree
  // ---------------------------------------------------------------------------------------------

  /** Table `a` is neither `t` nor in a subtree of `t` other than the one at entry `i`. */
  ghost predicate Elsewhere(mem: Memory, t: nat, level: nat, i: Index, a: nat)
    requires level > 0
  {
    a != t && forall j: Index :: j != i ==> !ReachesBy(mem, t, level, j, a)
  }

  /**
   Entry `i` of `t` now holds `e`; the other subtrees of `t` are as before, and the new subtree
   under `e`, if any, is a tree that shares nothing with them.
   */
  ghost predicate Replaced(mem: Memory, mem': Memory, t: nat, level: nat, i: Index, e: Pte)
    requires level > 0
  {
    && t in mem && t in mem' && mem'[t] == mem[t][i := e]
    && (forall j: Index :: j != i && Has(mem, t, j) ==> Same(mem, mem', Kid(mem, t, j), level - 1))
    && (Valid(e) ==>
          && Tree(mem', Phys(e), level - 1)
          && (forall a :: Reaches(mem', Phys(e), level - 1, a) ==> Elsewhere(mem, t, level, i, a)))
  }

  lemma ReplacedReachesBy(mem: Memory, mem': Memory, t: nat, level: nat, i: Index, e: Pte, j: Index, a: nat)
    requires level > 0 && Replaced(mem, mem', t, level, i, e)
    ensures j != i ==> ReachesBy(mem', t, level, j, a) == ReachesBy(mem, t, level, j, a)
    ensures ReachesBy(mem', t, level, i, a) <==> Valid(e) && Reaches(mem', Phys(e), level - 1, a)
    ensures ReachesBy(mem', t, level, i, a) ==> Elsewhere(mem, t, level, i, a)
  {
    if j != i && Has(mem, t, j) {
      SameReaches(mem, mem', Kid(mem, t, j), level - 1, a);
    }
  }

  lemma ReplacedTree(mem: Memory, mem': Memory, t: nat, level: nat, i: Index, e: Pte)
    requires level > 0 && Tree(mem, t, level) && Replaced(mem, mem', t, level, i, e)
    ensures Tree(mem', t, level)
  {
    forall j: Index | Has(mem', t, j)
      ensures Tree(mem', Kid(mem', t, j), level - 1)
    {
      if j != i {
        SameTree(mem, mem', Kid(mem, t, j), level - 1);
      }
    }
    forall j: Index, a: nat
      ensures ReachesBy(mem', t, level, j, a) ==>
                if j == i then Elsewhere(mem, t, level, i, a) else ReachesBy(mem, t, level, j, a)
    {
      ReplacedReachesBy(mem, mem', t, level, i, e, j, a);
    }
  }

  lemma ReplacedLeaf(mem: Memory, mem': Memory, t: nat, level: nat, i: Index, e: Pte, path: Path)
    requires level > 0 && Replaced(mem, mem', t, level, i, e) && |path| == level + 1
    ensures path[0] != i ==> Leaf(mem', t, path) == Leaf(mem, t, path)
    ensures path[0] == i ==> Leaf(mem', t, path) == if Valid(e) then Leaf(mem', Phys(e), path[1..]) else 0
  {
    if path[0] != i && Has(mem, t, path[0]) {
      SameLeaf(mem, mem', Kid(mem, t, path[0]), level - 1, path[1..]);
    }
  }

  /** An operation on a subtree is an operation on the tree. */
  lemma LiftReplaced(mem: Memory, mem': Memory, t: nat, level: nat, i: Index)
    requires level > 0 && Tree(mem, t, level) && Has(mem, t, i)
    requires Effect(mem, mem', Kid(mem, t, i), level - 1)
    ensures Replaced(mem, mem', t, level, i, mem[t][i])
  {
    var kid := Kid(mem, t, i);
    assert !ReachesBy(mem, t, level, i, t);
    forall j: Index | j != i && Has(mem, t, j)
      ensures Same(mem, mem', Kid(mem, t, j), level - 1)
    {
      OtherKidSame(mem, mem', t, level, i, j);
    }
    forall a | Reaches(mem', kid, level - 1, a)
      ensures Elsewhere(mem, t, level, i, a)
    {
      if Reaches(mem, kid, level - 1, a) {
        assert ReachesBy(mem, t, level, i, a);
      } else {
        forall j: Index
          ensures !ReachesBy(mem, t, level, j, a)
        {
          if ReachesBy(mem, t, level, j, a) {
            ReachedLive(mem, Kid(mem, t, j), level - 1, a);
          }
        }
      }
    }
  }

  lemma OtherKidSame(mem: Memory, mem': Memory, t: nat, level: nat, i: Index, j: Index)
    requires level > 0 && Tree(mem, t, level) && Has(mem, t, i) && j != i && Has(mem, t, j)
    requires Confined(mem, mem', Kid(mem, t, i), level - 1)
    ensures Same(mem, mem', Kid(mem, t, j), level - 1)
  {
    forall a | Reaches(mem, Kid(mem, t, j), level - 1, a)
      ensures a in mem && a in mem' && mem'[a] == mem[a]
    {
      ReachedLive(mem, Kid(mem, t, j), level - 1, a);
      assert ReachesBy(mem, t, level, j, a);
      assert !ReachesBy(mem, t, level, i, a);
    }
  }

  lemma Lift(mem: Memory, mem': Memory, t: nat, level: nat, i: Index)
    requires level > 0 && Tree(mem, t, level) && Has(mem, t, i)
    requires Effect(mem, mem', Kid(mem, t, i), level - 1)
    ensures Effect(mem, mem', t, level)
  {
    LiftReplaced(mem, mem', t, level, i);
    ReplacedTree(mem, mem', t, level, i, mem[t][i]);
    forall a | a in mem && !Reaches(mem, t, level, a)
      ensures a in mem' && mem'[a] == mem[a]
    {
      assert !ReachesBy(mem, t, level, i, a);
    }
    forall a: nat
      ensures Reaches(mem', t, level, a) ==> Reaches(mem, t, level, a) || a !in mem
      ensures Reaches(mem, t, level, a) || (a in mem' && a !in mem) ==> Reaches(mem', t, level, a)
    {
      LiftReach(mem, mem', t, level, i, a);
    }
  }

  lemma LiftReach(mem: Memory, mem': Memory, t: nat, level: nat, i: Index, a: nat)
    requires level > 0 && Tree(mem, t, level) && Has(mem, t, i)
    requires Effect(mem, mem', Kid(mem, t, i), level - 1) && Replaced(mem, mem', t, level, i, mem[t][i])
    ensures Reaches(mem', t, level, a) ==> Reaches(mem, t, level, a) || a !in mem
    ensures Reaches(mem, t, level, a) || (a in mem' && a !in mem) ==> Reaches(mem', t, level, a)
  {
    if Reaches(mem', t, level, a) && a != t {
      var j := Via(mem', t, level, a);
      ReplacedReachesBy(mem, mem', t, level, i, mem[t][i], j, a);
      assert ReachesBy(mem, t, level, j, a) || a !in mem;
    }
    if Reaches(mem, t, level, a) && a != t {
      var j := Via(mem, t, level, a);
      ReplacedReachesBy(mem, mem', t, level, i, mem[t][i], j, a);
      assert ReachesBy(mem', t, level, j, a);
    }
    if a in mem' && a !in mem {
      ReplacedReachesBy(mem, mem', t, level, i, mem[t][i], i, a);
      assert ReachesBy(mem', t, level, i, a);
    }
  }

  lemma EffectTrans(mem: Memory, mem1: Memory, mem2: Memory, t: nat, level: nat)
    requires Effect(mem, mem1, t, level) && Effect(mem1, mem2, t, level)
    ensures Effect(mem, mem2, t, level)
  {
  }

  lemma TouchTrans(mem: Memory, mem1: Memory, mem2: Memory, t: nat, level: nat)
    requires Touch(mem, mem1, t, level) && Touch(mem1, mem2, t, level)
    ensures Touch(mem, mem2, t, level)
  {
  }

  lemma EffectRefl(mem: Memory, t: nat, level: nat)
    requires Tree(mem, t, level)
    ensures Effect(mem, mem, t, level)
  {
  }

  /** An operation on one directory leaves every directory apart from it as it was, and apart. */
  lemma OthersSame(mem: Memory, mem': Memory, t: nat, u: nat, level: nat)
    requires Touch(mem, mem', t, level) && Tree(mem, u, level) && Apart(mem, t, u, level)
    ensures Same(mem, mem', u, level) && Tree(mem', u, level) && Apart(mem', t, u, level)
  {
    forall a | Reaches(mem, u, level, a)
      ensures a in mem && a in mem' && mem'[a] == mem[a]
    {
      ReachedLive(mem, u, level, a);
    }
    SameTree(mem, mem', u, level);
    forall a | Reaches(mem', t, level, a)
      ensures !Reaches(mem', u, level, a)
    {
      SameReaches(mem, mem', u, level, a);
      if Reaches(mem, u, level, a) {
        ReachedLive(mem, u, level, a);
      }
    }
  }
}
