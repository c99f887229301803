/** How often destroying directories with their pages frees a mapped frame. */
module PageFrames {

  import opened PageTable
  import opened PageTree
  import opened PageFree
  import opened PageMap
  import opened AddressSpaces
  import PageClone

  /** A walk along `q` ends at a valid entry for frame `f`. */
  predicate Maps(mem: Memory, t: nat, level: nat, q: Path, f: nat) {
    |q| == level + 1 && Valid(Leaf(mem, t, q)) && Phys(Leaf(mem, t, q)) == f
  }

  ghost predicate MapsFrom(mem: Memory, t: nat, level: nat, i: nat, f: nat) {
    exists q: Path :: Maps(mem, t, level, q, f) && i <= q[0]
  }

  /** No two walks from entry `i` on end at frame `f`. */
  ghost predicate Single(mem: Memory, t: nat, level: nat, i: nat, f: nat) {
    forall q: Path, r: Path ::
      Maps(mem, t, level, q, f) && i <= q[0] && Maps(mem, t, level, r, f) && i <= r[0] ==> q == r
  }

  // ---------------------------------------------------------------------------------------------
  // Frames are counted by the walks that end at them
  // ---------------------------------------------------------------------------------------------

  ghost predicate MapsAt(mem: Memory, t: nat, level: nat, i: Index, f: nat) {
    exists q: Path :: Maps(mem, t, level, q, f) && q[0] == i
  }

  ghost predicate SingleAt(mem: Memory, t: nat, level: nat, i: Index, f: nat) {
    forall q: Path, r: Path ::
      Maps(mem, t, level, q, f) && q[0] == i && Maps(mem, t, level, r, f) && r[0] == i ==> q == r
  }

  lemma MapsBelow(mem: Memory, t: nat, level: nat, i: Index, q: Path, f: nat)
    requires level > 0 && Has(mem, t, i) && |q| == level
    ensures Maps(mem, t, level, [i] + q, f) == Maps(mem, Kid(mem, t, i), level - 1, q, f)
  {
    assert ([i] + q)[1..] == q;
  }

  /** A walk through entry `i` is a walk of the table below it. */
  lemma SplitWalk(mem: Memory, t: nat, level: nat, q: Path, f: nat)
    requires level > 0 && Maps(mem, t, level, q, f)
    ensures Has(mem, t, q[0]) && Maps(mem, Kid(mem, t, q[0]), level - 1, q[1..], f) && q == [q[0]] + q[1..]
  {
    assert !Valid(0);
  }

  lemma {:induction false} EntryCounted(mem: Memory, t: nat, level: nat, i: Index, f: nat)
    ensures f in FramesAt(mem, t, level, i) <==> MapsAt(mem, t, level, i, f)
    ensures FramesAt(mem, t, level, i)[f] <= 1 <==> SingleAt(mem, t, level, i, f)
    decreases level, 512 - i, 0
  {
    hide Leaf, Phys;
    if level == 0 {
      LeafEntry(mem, t, i, f);
    } else if Has(mem, t, i) {
      FramesCounted(mem, Kid(mem, t, i), level - 1, 0, f);
      KidWalks(mem, t, level, i, f);
    } else {
      forall q: Path | Maps(mem, t, level, q, f)
        ensures q[0] != i
      {
        SplitWalk(mem, t, level, q, f);
      }
    }
  }

  lemma LeafEntry(mem: Memory, t: nat, i: Index, f: nat)
    ensures f in FramesAt(mem, t, 0, i) <==> MapsAt(mem, t, 0, i, f)
    ensures FramesAt(mem, t, 0, i)[f] <= 1 && SingleAt(mem, t, 0, i, f)
  {
    var walk: Path := [i];
    assert Leaf(mem, t, walk) == Get(mem, t)[i];
    assert forall q: Path :: Maps(mem, t, 0, q, f) && q[0] == i ==> q == walk;
  }

  lemma KidWalks(mem: Memory, t: nat, level: nat, i: Index, f: nat)
    requires level > 0 && Has(mem, t, i)
    ensures MapsAt(mem, t, level, i, f) <==> MapsFrom(mem, Kid(mem, t, i), level - 1, 0, f)
    ensures SingleAt(mem, t, level, i, f) <==> Single(mem, Kid(mem, t, i), level - 1, 0, f)
  {
    hide Maps;
    var kid := Kid(mem, t, i);
    forall q: Path | Maps(mem, t, level, q, f) && |q| == level + 1 && q[0] == i
      ensures Maps(mem, kid, level - 1, q[1..], f) && q == [i] + q[1..]
    {
      SplitWalk(mem, t, level, q, f);
    }
    forall q: Path | Maps(mem, kid, level - 1, q, f) && |q| == level
      ensures Maps(mem, t, level, [i] + q, f) && ([i] + q)[0] == i && ([i] + q)[1..] == q
    {
      MapsBelow(mem, t, level, i, q, f);
    }
    WalkLengths(mem, t, level, kid, f);
    if MapsAt(mem, t, level, i, f) {
      var q: Path :| Maps(mem, t, level, q, f) && q[0] == i;
      assert Maps(mem, kid, level - 1, q[1..], f);
    }
    if MapsFrom(mem, kid, level - 1, 0, f) {
      var q: Path :| Maps(mem, kid, level - 1, q, f);
      assert Maps(mem, t, level, [i] + q, f);
    }
  }

  lemma WalkLengths(mem: Memory, t: nat, level: nat, kid: nat, f: nat)
    requires level > 0
    ensures forall q: Path :: Maps(mem, t, level, q, f) ==> |q| == level + 1
    ensures forall q: Path :: Maps(mem, kid, level - 1, q, f) ==> |q| == level
  {
  }

  /** A frame is counted once for every walk that ends at it. */
  lemma {:induction false} FramesCounted(mem: Memory, t: nat, level: nat, i: nat, f: nat)
    requires i <= 512
    ensures f in FramesFrom(mem, t, level, i) <==> MapsFrom(mem, t, level, i, f)
    ensures FramesFrom(mem, t, level, i)[f] <= 1 <==> Single(mem, t, level, i, f)
    decreases level, 512 - i
  {
    hide Maps, FramesAt;
    WalkLengths(mem, t, level + 1, t, f);
    if i < 512 {
      EntryCounted(mem, t, level, i, f);
      FramesCounted(mem, t, level, i + 1, f);
    }
  }

  // ---------------------------------------------------------------------------------------------
  // Two directories
  // ---------------------------------------------------------------------------------------------

  ghost function Frames(mem: Memory, t: nat, level: nat): multiset<nat> {
    FramesFrom(mem, t, level, 0)
  }

  /** Destroying one directory leaves the frames and the tables of another as they were. */
  lemma OtherFrames(s: System, level: nat, a: nat, b: nat)
    requires Inv(s, level) && a in s.roots && b in s.roots && a != b
    requires Aside(s.mem, a, level) && Aside(s.mem, b, level)
    ensures var mem := s.mem - Reach(s.mem, a, level);
            && Same(s.mem, mem, b, level) && Tree(mem, b, level) && Aside(mem, b, level)
            && Reach(mem, b, level) == Reach(s.mem, b, level) && Frames(mem, b, level) == Frames(s.mem, b, level)
  {
    hide Reaches, Tree, Leaf, FramesFrom;
    var mem := s.mem - Reach(s.mem, a, level);
    assert Apart(s.mem, b, a, level) && Tree(s.mem, b, level);
    forall x | Reaches(s.mem, b, level, x)
      ensures x in s.mem && x in mem && mem[x] == s.mem[x]
    {
      ReachedLive(s.mem, b, level, x);
    }
    SameTree(s.mem, mem, b, level);
    FramesSameTree(s.mem, mem, b, level);
    forall x: nat
      ensures Reaches(mem, b, level, x) == Reaches(s.mem, b, level, x)
    {
      SameReaches(s.mem, mem, b, level, x);
    }
    forall q: Path | |q| == level + 1
      ensures Leaf(mem, b, q) == Leaf(s.mem, b, q)
    {
      SameLeaf(s.mem, mem, b, level, q);
    }
  }

  function Heaped(s: System): Heap {
    Heap(s.mem, multiset{})
  }

  lemma DestroyBoth(s: System, level: nat, a: nat, b: nat)
    requires Inv(s, level) && a in s.roots && b in s.roots && a != b
    requires Aside(s.mem, a, level) && Aside(s.mem, b, level)
    ensures DestroyDirectory(DestroyDirectory(Heaped(s), a, level, true), b, level, true).freed
         == multiset(Reach(s.mem, a, level)) + multiset(Reach(s.mem, b, level))
            + Frames(s.mem, a, level) + Frames(s.mem, b, level)
  {
    hide Reaches, Tree, FramesFrom, FreeTable, Aside, Inv, Same;
    RootLive(s, level, a);
    RootLive(s, level, b);
    RootTree(s, level, a);
    FreeTableDone(Heaped(s), a, level, true);
    OtherFrames(s, level, a, b);
    FreeTableDone(FreeTable(Heaped(s), a, level, true), b, level, true);
  }

  lemma RootTree(s: System, level: nat, t: nat)
    requires Inv(s, level) && t in s.roots
    ensures Tree(s.mem, t, level)
  {
  }

  /** Frame `f` is mapped at most once in the two directories together. */
  ghost predicate SingleInBoth(mem: Memory, a: nat, b: nat, level: nat, f: nat) {
    && Single(mem, a, level, 0, f) && Single(mem, b, level, 0, f)
    && !(MapsFrom(mem, a, level, 0, f) && MapsFrom(mem, b, level, 0, f))
  }

  /** Destroying two directories with their pages frees no frame twice exactly if none is mapped twice. */
  lemma FreedOnceExactly(s: System, level: nat, a: nat, b: nat, f: nat)
    requires Inv(s, level) && a in s.roots && b in s.roots && a != b && f !in s.mem
    requires Aside(s.mem, a, level) && Aside(s.mem, b, level)
    ensures DestroyDirectory(DestroyDirectory(Heaped(s), a, level, true), b, level, true).freed[f] <= 1
       <==> SingleInBoth(s.mem, a, b, level, f)
  {
    hide Reaches, FramesFrom, FreeTable, Aside, Inv, Single, MapsFrom;
    DestroyBoth(s, level, a, b);
    FramesCounted(s.mem, a, level, 0, f);
    FramesCounted(s.mem, b, level, 0, f);
  }

  // ---------------------------------------------------------------------------------------------
  // Clones share their frames
  // ---------------------------------------------------------------------------------------------

  lemma CopiedWalks(mem: Memory, mem': Memory, src: nat, dst: nat, level: nat, f: nat)
    requires PageClone.Done(mem, mem', src, dst, level, 0, true)
    ensures MapsFrom(mem', dst, level, 0, f) <==> MapsFrom(mem, src, level, 0, f)
  {
    hide Leaf, Phys;
    forall q: Path | |q| == level + 1
      ensures Maps(mem', dst, level, q, f) == Maps(mem, src, level, q, f)
    {
      assert PageClone.Copied(true, Leaf(mem, src, q), Leaf(mem', dst, q));
    }
  }

  /** After a clone that copies the mappings, destroying both directories with pages frees every mapped frame twice. */
  lemma ClonedFramesFreedTwice(s: System, level: nat, src: nat, supply: Supply, f: nat)
    requires Inv(s, level) && src in s.roots && FreshSupply(s.mem, supply) && MapsFrom(s.mem, src, level, 0, f)
    requires var (s', r) := Do(s, level, Clone(src, true, supply));
             r.ok && f !in s'.mem && Aside(s'.mem, src, level) && Aside(s'.mem, r.root, level)
    ensures var (s', r) := Do(s, level, Clone(src, true, supply));
            DestroyDirectory(DestroyDirectory(Heaped(s'), src, level, true), r.root, level, true).freed[f] > 1
  {
    hide Inv, Reaches, Tree, Leaf, CloneFrom, FreeTable, Aside, FramesFrom, MapsFrom, Single, PageClone.Ready,
         PageClone.Done;
    var n := NextPage(supply).value;
    var s1 := WithRoot(s, n);
    var (s', r) := Do(s, level, Clone(src, true, supply));
    assert Usable(s.mem, supply[0]);
    CloneRefines(s, level, src, true, supply);
    WithRootInv(s, level, n);
    SupplyLeft(s.mem, supply);
    CloneReady(s, level, src, n, Rest(supply));
    PageClone.CloneFromDone(s1.mem, src, n, level, 0, true, Rest(supply));
    WalksKept(s, s1.mem, level, src, f);
    CopiedWalks(s1.mem, s'.mem, src, n, level, f);
    WalksKept(s, s'.mem, level, src, f);
    FreedOnceExactly(s', level, src, n, f);
  }

  lemma WalksKept(s: System, mem': Memory, level: nat, t: nat, f: nat)
    requires Inv(s, level) && t in s.roots && Kept(s.mem, mem')
    ensures MapsFrom(mem', t, level, 0, f) <==> MapsFrom(s.mem, t, level, 0, f)
  {
    hide Leaf, Phys, Reaches, Tree;
    RootTree(s, level, t);
    forall a | Reaches(s.mem, t, level, a)
      ensures a in s.mem && a in mem' && mem'[a] == s.mem[a]
    {
      ReachedLive(s.mem, t, level, a);
    }
    forall q: Path | |q| == level + 1
      ensures Maps(mem', t, level, q, f) == Maps(s.mem, t, level, q, f)
    {
      SameLeaf(s.mem, mem', t, level, q);
    }
  }
}
