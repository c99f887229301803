/** Destroying a page directory: each reachable table is freed once and nothing else changes. */
module PageFree {

  import opened PageTable
  import opened PageTree

  /** The frames under the valid leaf entries, entry `i` and up, each as often as it is mapped. */
  ghost function FramesFrom(mem: Memory, t: nat, level: nat, i: nat): multiset<nat>
    requires i <= 512
    decreases level, 512 - i
  {
    if i == 512 then multiset{} else FramesAt(mem, t, level, i) + FramesFrom(mem, t, level, i + 1)
  }

  ghost function FramesAt(mem: Memory, t: nat, level: nat, i: Index): multiset<nat>
    decreases level, 512 - i, 0
  {
    if !Has(mem, t, i) then multiset{}
    else if level == 0 then multiset{Kid(mem, t, i)}
    else FramesFrom(mem, Kid(mem, t, i), level - 1, 0)
  }

  /** No mapped frame holds a live table; only then may the frames be freed. */
  ghost predicate Aside(mem: Memory, t: nat, level: nat) {
    forall q: Path :: |q| == level + 1 && Valid(Leaf(mem, t, q)) ==> Phys(Leaf(mem, t, q)) !in mem
  }

  // ---------------------------------------------------------------------------------------------
  // Framing
  // ---------------------------------------------------------------------------------------------

  lemma {:induction false} FramesSame(mem: Memory, mem': Memory, t: nat, level: nat, i: nat)
    requires i <= 512
    requires forall j: Index :: i <= j ==> Get(mem', t)[j] == Get(mem, t)[j]
    requires level > 0 ==>
               forall j: Index :: i <= j && Has(mem, t, j) ==> Same(mem, mem', Kid(mem, t, j), level - 1)
    ensures FramesFrom(mem', t, level, i) == FramesFrom(mem, t, level, i)
    decreases level, 512 - i
  {
    if i < 512 {
      FramesSame(mem, mem', t, level, i + 1);
      if level > 0 && Has(mem, t, i) {
        FramesSameTree(mem, mem', Kid(mem, t, i), level - 1);
      }
    }
  }

  lemma {:induction false} FramesSameTree(mem: Memory, mem': Memory, t: nat, level: nat)
    requires Same(mem, mem', t, level)
    ensures FramesFrom(mem', t, level, 0) == FramesFrom(mem, t, level, 0)
    decreases level, 513
  {
    assert Reaches(mem, t, level, t);
    forall j: Index | level > 0 && Has(mem, t, j)
      ensures Same(mem, mem', Kid(mem, t, j), level - 1)
    {
      SameKid(mem, mem', t, level, j);
    }
    FramesSame(mem, mem', t, level, 0);
  }

  lemma AsideKid(mem: Memory, t: nat, level: nat, i: Index)
    requires level > 0 && Aside(mem, t, level) && Has(mem, t, i)
    ensures Aside(mem, Kid(mem, t, i), level - 1)
  {
    forall q: Path | |q| == level && Valid(Leaf(mem, Kid(mem, t, i), q))
      ensures Phys(Leaf(mem, Kid(mem, t, i), q)) !in mem
    {
      var p: Path := [i] + q;
      assert p[1..] == q;
      assert Leaf(mem, t, p) == Leaf(mem, Kid(mem, t, i), q);
    }
  }

  lemma Union(a: set<nat>, b: set<nat>)
    requires a !! b
    ensures multiset(a + b) == multiset(a) + multiset(b)
  {
  }

  // ---------------------------------------------------------------------------------------------
  // One entry
  // ---------------------------------------------------------------------------------------------

  /** The tree after the subtree at entry `i` was freed and the entry zeroed. */
  ghost function Pruned(mem: Memory, t: nat, level: nat, i: Index): Memory
    requires level > 0
  {
    Put(mem - Reach(mem, Kid(mem, t, i), level - 1), t, i, 0)
  }

  lemma PruneReplaces(mem: Memory, t: nat, level: nat, i: Index)
    requires level > 0 && Tree(mem, t, level) && Has(mem, t, i)
    ensures Replaced(mem, Pruned(mem, t, level, i), t, level, i, 0)
  {
    var kid, mem' := Kid(mem, t, i), Pruned(mem, t, level, i);
    assert !ReachesBy(mem, t, level, i, t);
    forall j: Index | j != i && Has(mem, t, j)
      ensures Same(mem, mem', Kid(mem, t, j), level - 1)
    {
      forall a | Reaches(mem, Kid(mem, t, j), level - 1, a)
        ensures a in mem && a in mem' && mem'[a] == mem[a]
      {
        ReachedLive(mem, Kid(mem, t, j), level - 1, a);
        assert ReachesBy(mem, t, level, j, a);
        assert !ReachesBy(mem, t, level, i, a) && !ReachesBy(mem, t, level, j, t);
      }
    }
  }

  lemma PruneReach(mem: Memory, t: nat, level: nat, i: Index)
    requires level > 0 && Tree(mem, t, level) && Has(mem, t, i)
    ensures var kid, mem' := Kid(mem, t, i), Pruned(mem, t, level, i);
            && Tree(mem', t, level)
            && (forall a ::
                  Reaches(mem, t, level, a) <==> Reaches(mem', t, level, a) || Reaches(mem, kid, level - 1, a))
            && (forall a :: Reaches(mem', t, level, a) ==> !Reaches(mem, kid, level - 1, a))
  {
    var kid, mem' := Kid(mem, t, i), Pruned(mem, t, level, i);
    PruneReplaces(mem, t, level, i);
    ReplacedTree(mem, mem', t, level, i, 0);
    forall a: nat
      ensures Reaches(mem, t, level, a) <==> Reaches(mem', t, level, a) || Reaches(mem, kid, level - 1, a)
      ensures Reaches(mem', t, level, a) ==> !Reaches(mem, kid, level - 1, a)
    {
      assert Reaches(mem, kid, level - 1, a) ==> ReachesBy(mem, t, level, i, a);
      assert !ReachesBy(mem, t, level, i, t);
      if Reaches(mem, t, level, a) && a != t {
        var j := Via(mem, t, level, a);
        ReplacedReachesBy(mem, mem', t, level, i, 0, j, a);
        assert j != i ==> ReachesBy(mem', t, level, j, a);
      }
      if Reaches(mem', t, level, a) && a != t {
        var j := Via(mem', t, level, a);
        ReplacedReachesBy(mem, mem', t, level, i, 0, j, a);
        assert ReachesBy(mem, t, level, j, a);
      }
    }
  }

  lemma PruneAside(mem: Memory, t: nat, level: nat, i: Index)
    requires level > 0 && Tree(mem, t, level) && Has(mem, t, i) && Aside(mem, t, level)
    ensures Aside(Pruned(mem, t, level, i), t, level)
  {
    var mem' := Pruned(mem, t, level, i);
    PruneReplaces(mem, t, level, i);
    forall q: Path | |q| == level + 1 && Valid(Leaf(mem', t, q))
      ensures Phys(Leaf(mem', t, q)) !in mem'
    {
      ReplacedLeaf(mem, mem', t, level, i, 0, q);
      assert Leaf(mem', t, q) == Leaf(mem, t, q);
    }
  }

  lemma PruneEntries(mem: Memory, t: nat, level: nat, i: Index)
    requires level > 0 && Tree(mem, t, level) && Has(mem, t, i)
    ensures forall j: Index :: Has(Pruned(mem, t, level, i), t, j) <==> j != i && Has(mem, t, j)
  {
    PruneReplaces(mem, t, level, i);
    assert !Valid(0);
  }

  lemma PruneFrames(mem: Memory, t: nat, level: nat, i: Index)
    requires level > 0 && Tree(mem, t, level) && Has(mem, t, i)
    ensures FramesFrom(Pruned(mem, t, level, i), t, level, i + 1) == FramesFrom(mem, t, level, i + 1)
  {
    PruneReplaces(mem, t, level, i);
    FramesSame(mem, Pruned(mem, t, level, i), t, level, i + 1);
  }

  // ---------------------------------------------------------------------------------------------
  // All entries
  // ---------------------------------------------------------------------------------------------

  /** Everything below `t` is gone and was freed once, with the mapped frames if asked for. */
  ghost predicate Emptied(h: Heap, h': Heap, t: nat, level: nat, i: nat, pages: bool)
    requires i <= 512
  {
    && (forall a :: a in h'.mem <==> a in h.mem && (a == t || !Reaches(h.mem, t, level, a)))
    && (forall a :: a in h'.mem && a != t ==> h'.mem[a] == h.mem[a])
    && h'.freed == h.freed + multiset(Reach(h.mem, t, level) - {t})
                   + if pages then FramesFrom(h.mem, t, level, i) else multiset{}
  }

  ghost predicate Freeable(h: Heap, t: nat, level: nat, i: nat, pages: bool) {
    && Tree(h.mem, t, level)
    && (forall j: Index :: j < i ==> !Has(h.mem, t, j))
    && (pages ==> Aside(h.mem, t, level))
  }

  lemma {:induction false} FreeTableDone(h: Heap, t: nat, level: nat, pages: bool)
    requires Tree(h.mem, t, level) && (pages ==> Aside(h.mem, t, level))
    ensures var h' := FreeTable(h, t, level, pages);
            && h'.mem == h.mem - Reach(h.mem, t, level)
            && h'.freed == h.freed + multiset(Reach(h.mem, t, level))
                           + if pages then FramesFrom(h.mem, t, level, 0) else multiset{}
    decreases level, 513
  {
    FreeFromDone(h, t, level, 0, pages);
    var h1 := FreeFrom(h, t, level, 0, pages);
    var r := Reach(h.mem, t, level);
    assert Reaches(h.mem, t, level, t) && t in r;
    Union(r - {t}, {t});
    assert r == (r - {t}) + {t};
    assert (h1.mem - {t}) == h.mem - r;
  }

  lemma {:induction false} FreeFromDone(h: Heap, t: nat, level: nat, i: nat, pages: bool)
    requires i <= 512 && Freeable(h, t, level, i, pages)
    ensures Emptied(h, FreeFrom(h, t, level, i, pages), t, level, i, pages)
    decreases level, 512 - i
  {
    if i == 512 {
      assert forall j: Index :: !Has(h.mem, t, j);
      assert forall a :: Reaches(h.mem, t, level, a) <==> a == t;
      assert Reach(h.mem, t, level) - {t} == {};
    } else if !Has(h.mem, t, i) {
      FreeFromDone(h, t, level, i + 1, pages);
    } else if level == 0 {
      FreeLeaf(h, t, i, pages);
    } else {
      FreeKid(h, t, level, i, pages);
    }
  }

  lemma ClearEntry(h: Heap, t: nat, i: Index, pages: bool)
    requires Freeable(h, t, 0, i, pages)
    ensures Freeable(h.(mem := Put(h.mem, t, i, 0)), t, 0, i + 1, pages)
    ensures FramesFrom(Put(h.mem, t, i, 0), t, 0, i + 1) == FramesFrom(h.mem, t, 0, i + 1)
  {
    var mem' := Put(h.mem, t, i, 0);
    assert forall j: Index :: Get(mem', t)[j] == if j == i then 0 else Get(h.mem, t)[j];
    forall j: Index | j < i + 1
      ensures !Has(mem', t, j)
    {
      assert Get(mem', t)[j] == if j == i then 0 else Get(h.mem, t)[j];
      assert j < i ==> !Has(h.mem, t, j);
    }
    if pages {
      forall q: Path | |q| == 1 && Valid(Leaf(mem', t, q))
        ensures Phys(Leaf(mem', t, q)) !in mem'
      {
        assert Leaf(mem', t, q) == Leaf(h.mem, t, q);
      }
    }
    FramesSame(h.mem, mem', t, 0, i + 1);
  }

  lemma {:induction false} FreeLeaf(h: Heap, t: nat, i: Index, pages: bool)
    requires Freeable(h, t, 0, i, pages) && Has(h.mem, t, i)
    ensures Emptied(h, FreeFrom(h, t, 0, i, pages), t, 0, i, pages)
    decreases 0 as nat, 512 - i, 0
  {
    var a := Kid(h.mem, t, i);
    var q: Path := [i];
    assert Leaf(h.mem, t, q) == Get(h.mem, t)[i];
    var h1 := if pages then Release(h, a) else h;
    assert h1.mem == h.mem;
    ClearEntry(h1, t, i, pages);
    var h2 := h1.(mem := Put(h.mem, t, i, 0));
    FreeFromDone(h2, t, 0, i + 1, pages);
    assert Reach(h2.mem, t, 0) - {t} == {} == Reach(h.mem, t, 0) - {t};
    assert FramesFrom(h.mem, t, 0, i) == multiset{a} + FramesFrom(h.mem, t, 0, i + 1);
  }

  lemma {:induction false} FreeKid(h: Heap, t: nat, level: nat, i: Index, pages: bool)
    requires level > 0 && Freeable(h, t, level, i, pages) && Has(h.mem, t, i)
    ensures Emptied(h, FreeFrom(h, t, level, i, pages), t, level, i, pages)
    decreases level, 512 - i, 0
  {
    var kid := Kid(h.mem, t, i);
    if pages {
      AsideKid(h.mem, t, level, i);
      PruneAside(h.mem, t, level, i);
    }
    FreeTableDone(h, kid, level - 1, pages);
    var h1 := FreeTable(h, kid, level - 1, pages);
    var h2 := h1.(mem := Pruned(h.mem, t, level, i));
    PruneReplaces(h.mem, t, level, i);
    PruneReach(h.mem, t, level, i);
    PruneEntries(h.mem, t, level, i);
    FreeFromDone(h2, t, level, i + 1, pages);
    JoinKid(h, h2, FreeFrom(h2, t, level, i + 1, pages), t, level, i, pages);
  }

  lemma JoinKid(h: Heap, h2: Heap, h3: Heap, t: nat, level: nat, i: Index, pages: bool)
    requires level > 0 && Tree(h.mem, t, level) && Has(h.mem, t, i) && h2.mem == Pruned(h.mem, t, level, i)
    requires h2.freed == h.freed + multiset(Reach(h.mem, Kid(h.mem, t, i), level - 1))
                         + if pages then FramesFrom(h.mem, Kid(h.mem, t, i), level - 1, 0) else multiset{}
    requires Emptied(h2, h3, t, level, i + 1, pages)
    ensures Emptied(h, h3, t, level, i, pages)
  {
    hide FramesFrom, FramesAt, Reaches, Tree;
    PruneFrames(h.mem, t, level, i);
    FramesSplit(h.mem, t, level, i);
    PruneSets(h.mem, t, level, i);
    PruneKeys(h.mem, t, level, i);
    PruneReach(h.mem, t, level, i);
  }

  lemma FramesSplit(mem: Memory, t: nat, level: nat, i: Index)
    requires level > 0 && Has(mem, t, i)
    ensures FramesFrom(mem, t, level, i)
         == FramesFrom(mem, Kid(mem, t, i), level - 1, 0) + FramesFrom(mem, t, level, i + 1)
  {
  }

  lemma PruneKeys(mem: Memory, t: nat, level: nat, i: Index)
    requires level > 0 && Tree(mem, t, level) && Has(mem, t, i)
    ensures var mem' := Pruned(mem, t, level, i);
            && (forall a :: a in mem' <==> a in mem && !Reaches(mem, Kid(mem, t, i), level - 1, a))
            && (forall a :: a in mem' && a != t ==> mem'[a] == mem[a])
  {
    assert !ReachesBy(mem, t, level, i, t);
  }

  lemma PruneSets(mem: Memory, t: nat, level: nat, i: Index)
    requires level > 0 && Tree(mem, t, level) && Has(mem, t, i)
    ensures multiset(Reach(mem, t, level) - {t})
         == multiset(Reach(mem, Kid(mem, t, i), level - 1))
            + multiset(Reach(Pruned(mem, t, level, i), t, level) - {t})
  {
    hide Reaches, Tree;
    var mem' := Pruned(mem, t, level, i);
    var r, r', rk := Reach(mem, t, level), Reach(mem', t, level), Reach(mem, Kid(mem, t, i), level - 1);
    PruneReach(mem, t, level, i);
    PruneKeys(mem, t, level, i);
    forall a | Reaches(mem', t, level, a)
      ensures a in mem'
    {
      ReachedLive(mem', t, level, a);
    }
    ReachesSelf(mem', t, level);
    assert r - {t} == rk + (r' - {t});
    Union(rk, r' - {t});
  }

  lemma ReachesSelf(mem: Memory, t: nat, level: nat)
    ensures Reaches(mem, t, level, t)
  {
  }
}
