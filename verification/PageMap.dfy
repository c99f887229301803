/** Mapping, unmapping and looking up pages: the tables refine a finite map. */
module PageMap {

  import opened Arith
  import opened Basics
  import opened PageTable
  import opened PageTree

  /** Pages the allocator hands out are aligned, not null, not live, and never the same twice. */
  ghost predicate FreshSupply(mem: Memory, supply: Supply) {
    && (forall k :: 0 <= k < |supply| ==> Usable(mem, supply[k]))
    && (forall k, m :: 0 <= k < m < |supply| && supply[k].Some? ==> supply[k] != supply[m])
  }

  predicate Usable(mem: Memory, page: Option<nat>) {
    page.Some? ==> page.value !in mem && page.value != 0 && page.value % PAGE == 0
  }

  // ---------------------------------------------------------------------------------------------
  // The entry format
  // ---------------------------------------------------------------------------------------------

  lemma LowBit(f: nat, r: nat)
    ensures (f * ATTRIBUTES + r) % 2 == r % 2
  {
    assert f * ATTRIBUTES + r == r + 2 * (f * 512);
  }

  /** Writing an entry and reading it back gives the page frame and the attribute bits. */
  lemma EncodeRoundTrip(pa: nat, flags: nat)
    ensures var e := Encode(pa, flags);
            && Phys(e) == pa - pa % PAGE
            && e % ATTRIBUTES == flags % ATTRIBUTES
            && (Valid(e) <==> flags % 2 == 1)
  {
    var f, r := pa / PAGE, flags % ATTRIBUTES;
    DivModUnique(Encode(pa, flags), ATTRIBUTES, f, r);
    LowBit(f, r);
    LowBit(flags / ATTRIBUTES, r);
  }

  lemma PhysAligned(e: Pte)
    ensures Phys(e) % PAGE == 0
  {
  }

  lemma PointerRoundTrip(n: nat)
    requires n % PAGE == 0
    ensures Valid(Encode(n, TABLE_FLAGS)) && Phys(Encode(n, TABLE_FLAGS)) == n
  {
    EncodeRoundTrip(n, TABLE_FLAGS);
  }

  // ---------------------------------------------------------------------------------------------
  // The search
  // ---------------------------------------------------------------------------------------------

  lemma EmptyTree(mem: Memory, n: nat, level: nat)
    requires n in mem && n != 0 && mem[n] == EmptyTable()
    ensures Tree(mem, n, level)
    ensures forall a :: Reaches(mem, n, level, a) <==> a == n
  {
    assert forall i: Index :: !Has(mem, n, i);
  }

  lemma EmptyLeaf(mem: Memory, n: nat, path: Path)
    requires n in mem && mem[n] == EmptyTable() && path != []
    ensures Leaf(mem, n, path) == 0
  {
  }

  lemma AddTable(mem: Memory, t: nat, level: nat, i: Index, n: nat)
    requires level > 0 && Tree(mem, t, level) && !Has(mem, t, i) && Usable(mem, Some(n))
    ensures var mem' := Linked(mem, t, i, n);
            && Replaced(mem, mem', t, level, i, Encode(n, TABLE_FLAGS))
            && Has(mem', t, i) && Kid(mem', t, i) == n && mem'[n] == EmptyTable()
  {
    var mem' := Linked(mem, t, i, n);
    PointerRoundTrip(n);
    EmptyTree(mem', n, level - 1);
    forall j: Index
      ensures !ReachesBy(mem, t, level, j, n) && !ReachesBy(mem, t, level, j, t)
    {
      if ReachesBy(mem, t, level, j, n) {
        ReachedLive(mem, Kid(mem, t, j), level - 1, n);
      }
    }
    forall j: Index | j != i && Has(mem, t, j)
      ensures Same(mem, mem', Kid(mem, t, j), level - 1)
    {
      forall a | Reaches(mem, Kid(mem, t, j), level - 1, a)
        ensures a in mem && a in mem' && mem'[a] == mem[a]
      {
        ReachedLive(mem, Kid(mem, t, j), level - 1, a);
        assert ReachesBy(mem, t, level, j, a);
      }
    }
    assert Elsewhere(mem, t, level, i, n);
  }

  /** Linking an empty table changes no translation. */
  lemma AddTableEffect(mem: Memory, t: nat, level: nat, i: Index, n: nat)
    requires level > 0 && Tree(mem, t, level) && !Has(mem, t, i) && Usable(mem, Some(n))
    ensures Effect(mem, Linked(mem, t, i, n), t, level)
    ensures forall path: Path :: |path| == level + 1 ==> Leaf(Linked(mem, t, i, n), t, path) == Leaf(mem, t, path)
  {
    var mem' := Linked(mem, t, i, n);
    var e := Encode(n, TABLE_FLAGS);
    AddTable(mem, t, level, i, n);
    EmptyTree(mem', n, level - 1);
    ReplacedTree(mem, mem', t, level, i, e);
    forall a: nat
      ensures Reaches(mem', t, level, a) ==> Reaches(mem, t, level, a) || a !in mem
      ensures Reaches(mem, t, level, a) || (a in mem' && a !in mem) ==> Reaches(mem', t, level, a)
    {
      if Reaches(mem', t, level, a) && a != t {
        var j := Via(mem', t, level, a);
        ReplacedReachesBy(mem, mem', t, level, i, e, j, a);
        assert ReachesBy(mem, t, level, j, a) || a == n;
      }
      if Reaches(mem, t, level, a) && a != t {
        var j := Via(mem, t, level, a);
        ReplacedReachesBy(mem, mem', t, level, i, e, j, a);
        assert ReachesBy(mem', t, level, j, a);
      }
      if a == n {
        assert ReachesBy(mem', t, level, i, a);
      }
    }
    forall path: Path | |path| == level + 1
      ensures Leaf(mem', t, path) == Leaf(mem, t, path)
    {
      ReplacedLeaf(mem, mem', t, level, i, e, path);
      EmptyLeaf(mem', n, path[1..]);
    }
  }

  /** The leaf table on the path, when every entry above it is valid. */
  function LeafTable(mem: Memory, t: nat, path: Path): Option<nat>
    requires path != []
    decreases |path|
  {
    if |path| == 1 then Some(t)
    else if Has(mem, t, path[0]) then LeafTable(mem, Kid(mem, t, path[0]), path[1..])
    else None
  }

  lemma {:induction false} LeafTableHolds(mem: Memory, t: nat, path: Path)
    requires path != []
    ensures match LeafTable(mem, t, path)
            case None => Leaf(mem, t, path) == 0
            case Some(a) => Leaf(mem, t, path) == Get(mem, a)[path[|path| - 1]]
    decreases |path|
  {
    if |path| > 1 && Has(mem, t, path[0]) {
      LeafTableHolds(mem, Kid(mem, t, path[0]), path[1..]);
    }
  }

  lemma {:induction false} LeafTableReached(mem: Memory, t: nat, level: nat, path: Path)
    requires |path| == level + 1 && LeafTable(mem, t, path).Some?
    ensures Reaches(mem, t, level, LeafTable(mem, t, path).value)
    decreases level
  {
    if level > 0 {
      LeafTableReached(mem, Kid(mem, t, path[0]), level - 1, path[1..]);
      assert ReachesBy(mem, t, level, path[0], LeafTable(mem, t, path).value);
    }
  }

  lemma {:induction false} FindReads(mem: Memory, t: nat, path: Path, supply: Supply)
    requires path != []
    ensures Find(mem, t, path, false, supply) == Search(mem, supply, LeafTable(mem, t, path))
    decreases |path|
  {
    if |path| > 1 && Has(mem, t, path[0]) {
      FindReads(mem, Kid(mem, t, path[0]), path[1..], supply);
    }
  }

  lemma RestFresh(mem: Memory, supply: Supply)
    requires FreshSupply(mem, supply)
    ensures FreshSupply(mem, Rest(supply))
  {
    forall k | 0 <= k < |supply| - 1
      ensures Usable(mem, supply[1..][k])
    {
      assert Usable(mem, supply[k + 1]);
    }
  }

  lemma LinkedSupply(mem: Memory, t: nat, i: Index, supply: Supply)
    requires FreshSupply(mem, supply) && NextPage(supply).Some? && t in mem
    ensures FreshSupply(Linked(mem, t, i, NextPage(supply).value), Rest(supply))
  {
    var mem' := Linked(mem, t, i, supply[0].value);
    forall k | 0 <= k < |supply| - 1
      ensures Usable(mem', supply[1..][k])
    {
      assert Usable(mem, supply[k + 1]) && supply[0] != supply[k + 1];
    }
  }

  /**
   An allocating search changes no translation whatever the allocator does, keeps the tree,
   and when it succeeds ends at the leaf table.
   */
  lemma {:induction false} FindEffect(mem: Memory, t: nat, level: nat, path: Path, supply: Supply)
    requires Tree(mem, t, level) && |path| == level + 1 && FreshSupply(mem, supply)
    ensures var s := Find(mem, t, path, true, supply);
            && Effect(mem, s.mem, t, level)
            && (forall q: Path :: |q| == level + 1 ==> Leaf(s.mem, t, q) == Leaf(mem, t, q))
            && (s.table.Some? ==> s.table == LeafTable(s.mem, t, path))
            && FreshSupply(s.mem, s.supply)
    decreases level
  {
    var s := Find(mem, t, path, true, supply);
    if level == 0 {
    } else if Has(mem, t, path[0]) {
      FindBelow(mem, t, level, path, supply);
    } else if NextPage(supply).Some? {
      var n := NextPage(supply).value;
      var mem1 := Linked(mem, t, path[0], n);
      assert Usable(mem, supply[0]);
      AddTable(mem, t, level, path[0], n);
      AddTableEffect(mem, t, level, path[0], n);
      LinkedSupply(mem, t, path[0], supply);
      FindBelow(mem1, t, level, path, Rest(supply));
      EffectTrans(mem, mem1, s.mem, t, level);
    } else {
      RestFresh(mem, supply);
    }
  }

  lemma {:induction false} FindBelow(mem: Memory, t: nat, level: nat, path: Path, supply: Supply)
    requires Tree(mem, t, level) && |path| == level + 1 && FreshSupply(mem, supply)
    requires level > 0 && Has(mem, t, path[0])
    ensures var s := Find(mem, Kid(mem, t, path[0]), path[1..], true, supply);
            && Effect(mem, s.mem, t, level)
            && (forall q: Path :: |q| == level + 1 ==> Leaf(s.mem, t, q) == Leaf(mem, t, q))
            && (s.table.Some? ==> s.table == LeafTable(s.mem, t, path))
            && FreshSupply(s.mem, s.supply)
    decreases level, 0
  {
    var i, kid := path[0], Kid(mem, t, path[0]);
    var s := Find(mem, kid, path[1..], true, supply);
    FindEffect(mem, kid, level - 1, path[1..], supply);
    Lift(mem, s.mem, t, level, i);
    LiftReplaced(mem, s.mem, t, level, i);
    forall q: Path | |q| == level + 1
      ensures Leaf(s.mem, t, q) == Leaf(mem, t, q)
    {
      ReplacedLeaf(mem, s.mem, t, level, i, mem[t][i], q);
    }
  }

  lemma WriteEntry(mem: Memory, t: nat, i: Index, e: Pte)
    requires Tree(mem, t, 0)
    ensures Effect(mem, Put(mem, t, i, e), t, 0)
    ensures forall q: Path :: |q| == 1 ==> Leaf(Put(mem, t, i, e), t, q) == if q == [i] then e else Leaf(mem, t, q)
  {
    var mem' := Put(mem, t, i, e);
    assert mem'.Keys == mem.Keys;
    forall q: Path | |q| == 1
      ensures Leaf(mem', t, q) == if q == [i] then e else Leaf(mem, t, q)
    {
      assert q == [i] <==> q[0] == i;
    }
  }

  /** Writing a leaf entry changes the translation of that one path. */
  lemma {:induction false} WriteLeaf(mem: Memory, t: nat, level: nat, path: Path, e: Pte)
    requires Tree(mem, t, level) && |path| == level + 1 && LeafTable(mem, t, path).Some?
    ensures var mem' := Put(mem, LeafTable(mem, t, path).value, path[level], e);
            && Effect(mem, mem', t, level)
            && (forall q: Path :: |q| == level + 1 ==> Leaf(mem', t, q) == if q == path then e else Leaf(mem, t, q))
    decreases level
  {
    if level == 0 {
      assert path == [path[0]];
      WriteEntry(mem, t, path[0], e);
    } else {
      var i, kid := path[0], Kid(mem, t, path[0]);
      WriteLeaf(mem, kid, level - 1, path[1..], e);
      WriteBelow(mem, Put(mem, LeafTable(mem, kid, path[1..]).value, path[level], e), t, level, path, e);
    }
  }

  lemma WriteBelow(mem: Memory, mem': Memory, t: nat, level: nat, path: Path, e: Pte)
    requires level > 0 && Tree(mem, t, level) && |path| == level + 1 && Has(mem, t, path[0])
    requires Effect(mem, mem', Kid(mem, t, path[0]), level - 1)
    requires forall q: Path :: |q| == level ==>
               Leaf(mem', Kid(mem, t, path[0]), q) == if q == path[1..] then e else Leaf(mem, Kid(mem, t, path[0]), q)
    ensures Effect(mem, mem', t, level)
    ensures forall q: Path :: |q| == level + 1 ==> Leaf(mem', t, q) == if q == path then e else Leaf(mem, t, q)
  {
    hide Effect, Reaches, Replaced;
    var i := path[0];
    Lift(mem, mem', t, level, i);
    LiftReplaced(mem, mem', t, level, i);
    forall q: Path | |q| == level + 1
      ensures Leaf(mem', t, q) == if q == path then e else Leaf(mem, t, q)
    {
      ReplacedLeaf(mem, mem', t, level, i, mem[t][i], q);
      assert q == [q[0]] + q[1..] && path == [path[0]] + path[1..];
    }
  }

  // ---------------------------------------------------------------------------------------------
  // Page numbers
  // ---------------------------------------------------------------------------------------------

  /** The number of the page of `va` in the address space of a directory of this level. */
  function PageOf(va: nat, level: nat): (r: nat)
    ensures r < Pow512(level + 1)
  {
    (va / PAGE) % Pow512(level + 1)
  }

  lemma Regroup(p: nat, q: nat, d: nat, r: nat)
    requires d < 512 && r < p
    ensures p * (512 * q + d) + r == (512 * p) * q + (d * p + r)
    ensures d * p + r < 512 * p
  {
    assert d * p <= 511 * p;
  }

  lemma DigitStep(x: nat, p: nat)
    requires p > 0
    ensures x % (512 * p) == ((x / p) % 512) * p + x % p
  {
    var y, r := x / p, x % p;
    var d, q := y % 512, y / 512;
    assert x == p * (512 * q + d) + r;
    Regroup(p, q, d, r);
    DivModUnique(x, 512 * p, q, d * p + r);
  }

  lemma SplitUnique(p: nat, d: nat, r: nat, d': nat, r': nat)
    requires p > 0 && r < p && r' < p && d * p + r == d' * p + r'
    ensures d == d' && r == r'
  {
    DivModUnique(d * p + r, p, d, r);
    DivModUnique(d * p + r, p, d', r');
  }

  /** The page number below the topmost index. */
  function LowPages(va: nat, level: nat): (r: nat)
    ensures r < Pow512(level)
  {
    (va / PAGE) % Pow512(level)
  }

  lemma PageStep(va: nat, level: nat)
    ensures PageOf(va, level) == Vpn(va, level) * Pow512(level) + LowPages(va, level)
    ensures LowPages(va, level) == if level == 0 then 0 else PageOf(va, level - 1)
  {
    DigitStep(va / PAGE, Pow512(level));
  }

  lemma PathStep(va: nat, level: nat)
    ensures PathOf(va, level) == [Vpn(va, level)] + if level == 0 then [] else PathOf(va, level - 1)
  {
  }

  /** Two addresses take the same path exactly when they lie on the same page. */
  lemma {:induction false} SamePage(va: nat, vb: nat, level: nat)
    ensures PathOf(va, level) == PathOf(vb, level) <==> PageOf(va, level) == PageOf(vb, level)
    decreases level
  {
    hide Vpn, PageOf, LowPages, Pow512, PathOf;
    PageStep(va, level);
    PageStep(vb, level);
    PathStep(va, level);
    PathStep(vb, level);
    if PageOf(va, level) == PageOf(vb, level) {
      SplitUnique(Pow512(level), Vpn(va, level), LowPages(va, level), Vpn(vb, level), LowPages(vb, level));
    }
    if level > 0 {
      SamePage(va, vb, level - 1);
      assert PathOf(va, level)[1..] == PathOf(va, level - 1) && PathOf(vb, level)[1..] == PathOf(vb, level - 1);
    }
    assert PathOf(va, level)[0] == Vpn(va, level) && PathOf(vb, level)[0] == Vpn(vb, level);
  }

  lemma PageStart(v: nat, level: nat)
    requires v < Pow512(level + 1)
    ensures PageOf(v * PAGE, level) == v
  {
    assert v * PAGE / PAGE == v;
    DivModUnique(v, Pow512(level + 1), 0, v);
  }

  // ---------------------------------------------------------------------------------------------
  // The finite map a directory stands for
  // ---------------------------------------------------------------------------------------------

  datatype Frame = Frame(pa: nat, flags: nat)

  type Space = map<nat, Frame>

  function EntryFrame(e: Pte): Frame {
    Frame(Phys(e), e % ATTRIBUTES)
  }

  /** The translations of a directory by page number. */
  ghost function View(mem: Memory, t: nat, level: nat): (r: Space)
    ensures forall v :: v in r ==> 0 <= v < Pow512(level + 1)
  {
    map v: nat | v < Pow512(level + 1) && Valid(Leaf(mem, t, PathOf(v * PAGE, level)))
      :: EntryFrame(Leaf(mem, t, PathOf(v * PAGE, level)))
  }

  lemma ViewAt(mem: Memory, t: nat, level: nat, va: nat)
    ensures var e := Leaf(mem, t, PathOf(va, level));
            && (PageOf(va, level) in View(mem, t, level) <==> Valid(e))
            && (Valid(e) ==> View(mem, t, level)[PageOf(va, level)] == EntryFrame(e))
  {
    var v := PageOf(va, level);
    PageStart(v, level);
    SamePage(v * PAGE, va, level);
  }

  lemma ViewUnchanged(mem: Memory, mem': Memory, t: nat, level: nat)
    requires forall q: Path :: |q| == level + 1 ==> Leaf(mem', t, q) == Leaf(mem, t, q)
    ensures View(mem', t, level) == View(mem, t, level)
  {
    assert forall v: nat :: Leaf(mem', t, PathOf(v * PAGE, level)) == Leaf(mem, t, PathOf(v * PAGE, level));
  }

  lemma ViewSame(mem: Memory, mem': Memory, t: nat, level: nat)
    requires Same(mem, mem', t, level)
    ensures View(mem', t, level) == View(mem, t, level)
  {
    forall q: Path | |q| == level + 1
      ensures Leaf(mem', t, q) == Leaf(mem, t, q)
    {
      SameLeaf(mem, mem', t, level, q);
    }
    ViewUnchanged(mem, mem', t, level);
  }

  /** The map with one page set to an entry; an invalid entry removes the page. */
  function Updated(space: Space, v: nat, e: Pte): Space {
    if Valid(e) then space[v := EntryFrame(e)] else space - {v}
  }

  lemma ViewWritten(mem: Memory, mem': Memory, t: nat, level: nat, va: nat, e: Pte)
    requires forall q: Path :: |q| == level + 1 ==>
               Leaf(mem', t, q) == if q == PathOf(va, level) then e else Leaf(mem, t, q)
    ensures View(mem', t, level) == Updated(View(mem, t, level), PageOf(va, level), e)
  {
    hide View, Leaf, PathOf, PageOf, Phys, Pow512;
    var space, space' := Updated(View(mem, t, level), PageOf(va, level), e), View(mem', t, level);
    forall v: nat
      ensures v in space' <==> v in space
      ensures v in space' && v in space ==> space'[v] == space[v]
    {
      if v < Pow512(level + 1) {
        PageStart(v, level);
        SamePage(v * PAGE, va, level);
        ViewAt(mem, t, level, v * PAGE);
        ViewAt(mem', t, level, v * PAGE);
      }
    }
    assert space' == space;
  }

  // ---------------------------------------------------------------------------------------------
  // MapPage, UnmapPage and GetMapping against the finite map
  // ---------------------------------------------------------------------------------------------

  /** The finite map with a page mapped; without the valid bit the page becomes unmapped. */
  function WithPage(space: Space, v: nat, pa: nat, flags: nat): Space {
    if flags % 2 == 1 then space[v := Frame(pa - pa % PAGE, flags % ATTRIBUTES)] else space - {v}
  }

  lemma PathEnd(va: nat, level: nat)
    ensures PathOf(va, level)[level] == Vpn(va, 0)
  {
    if level > 0 {
      PathEnd(va, level - 1);
    }
  }

  /**
   A successful map sets one page of the finite map; a failed one, whatever was allocated before
   the failure, leaves every translation as it was. Either way the tables stay a tree.
   */
  lemma MapPageRefines(mem: Memory, t: nat, level: nat, va: nat, pa: nat, flags: nat, supply: Supply)
    requires Tree(mem, t, level) && FreshSupply(mem, supply)
    ensures var r := MapPage(mem, t, level, va, pa, flags, supply);
            var space := View(mem, t, level);
            && Effect(mem, r.mem, t, level) && FreshSupply(r.mem, r.supply)
            && (!r.ok ==> View(r.mem, t, level) == space)
            && (r.ok ==> View(r.mem, t, level) == WithPage(space, PageOf(va, level), pa, flags))
  {
    hide Find, Leaf, LeafTable, PathOf, Vpn, PageOf, View, Reaches, Tree, Phys, Encode, Confined, Grown, Complete;
    var path := PathOf(va, level);
    var s := Find(mem, t, path, true, supply);
    FindEffect(mem, t, level, path, supply);
    ViewUnchanged(mem, s.mem, t, level);
    if s.table.Some? {
      PathEnd(va, level);
      LeafTableHolds(s.mem, t, path);
      EncodeRoundTrip(pa, flags);
      MapWrites(s.mem, t, level, va, pa, flags);
      EffectTrans(mem, s.mem, MapPage(mem, t, level, va, pa, flags, supply).mem, t, level);
    }
  }

  /** The last step of MapPage, once the leaf table is there. */
  lemma MapWrites(mem: Memory, t: nat, level: nat, va: nat, pa: nat, flags: nat)
    requires Tree(mem, t, level) && LeafTable(mem, t, PathOf(va, level)).Some?
    ensures var a := LeafTable(mem, t, PathOf(va, level)).value;
            var e := Get(mem, a)[Vpn(va, 0)];
            var mem' := if Valid(e) && Phys(e) == pa && e % ATTRIBUTES == flags then mem
                        else Put(mem, a, Vpn(va, 0), Encode(pa, flags));
            && Effect(mem, mem', t, level) && mem'.Keys == mem.Keys
            && View(mem', t, level) == Updated(View(mem, t, level), PageOf(va, level), Encode(pa, flags))
  {
    hide Leaf, LeafTable, PathOf, Vpn, PageOf, View, Reaches, Tree, Phys, Encode, Confined, Grown, Complete;
    var path := PathOf(va, level);
    var a := LeafTable(mem, t, path).value;
    var e := Get(mem, a)[Vpn(va, 0)];
    PathEnd(va, level);
    LeafTableHolds(mem, t, path);
    LeafTableReached(mem, t, level, path);
    ReachedLive(mem, t, level, a);
    EncodeRoundTrip(pa, flags);
    if Valid(e) && Phys(e) == pa && e % ATTRIBUTES == flags {
      ViewAt(mem, t, level, va);
      PhysAligned(e);
      assert EntryFrame(e) == EntryFrame(Encode(pa, flags));
      EffectRefl(mem, t, level);
    } else {
      WriteLeaf(mem, t, level, path, Encode(pa, flags));
      ViewWritten(mem, Put(mem, a, Vpn(va, 0), Encode(pa, flags)), t, level, va, Encode(pa, flags));
    }
  }

  /** Unmapping succeeds exactly for a mapped page and removes that page from the finite map. */
  lemma UnmapPageRefines(mem: Memory, t: nat, level: nat, va: nat)
    requires Tree(mem, t, level)
    ensures var (mem', ok) := UnmapPage(mem, t, level, va);
            && Effect(mem, mem', t, level) && mem'.Keys == mem.Keys
            && (ok <==> PageOf(va, level) in View(mem, t, level))
            && View(mem', t, level) == View(mem, t, level) - {PageOf(va, level)}
  {
    hide Find, Leaf, LeafTable, PathOf, Vpn, PageOf, View, Reaches, Tree, Phys, Encode;
    var path := PathOf(va, level);
    FindReads(mem, t, path, []);
    LeafTableHolds(mem, t, path);
    PathEnd(va, level);
    ViewAt(mem, t, level, va);
    EffectRefl(mem, t, level);
    if Valid(Leaf(mem, t, path)) {
      var a := LeafTable(mem, t, path).value;
      LeafTableReached(mem, t, level, path);
      ReachedLive(mem, t, level, a);
      WriteLeaf(mem, t, level, path, 0);
      ViewWritten(mem, Put(mem, a, Vpn(va, 0), 0), t, level, va, 0);
    }
  }

  /** A lookup answers as the finite map does. */
  lemma GetMappingRefines(mem: Memory, t: nat, level: nat, va: nat)
    ensures var space, v := View(mem, t, level), PageOf(va, level);
            GetMapping(mem, t, level, va) == if v in space then Some(space[v].pa) else None
  {
    hide Find, Leaf, LeafTable, PathOf, Vpn, PageOf, View, Reaches, Tree, Phys, Encode;
    var path := PathOf(va, level);
    FindReads(mem, t, path, []);
    LeafTableHolds(mem, t, path);
    PathEnd(va, level);
    ViewAt(mem, t, level, va);
  }

  /** Mapping a page again as it is mapped writes nothing and allocates nothing. */
  lemma RemapIsSilent(mem: Memory, t: nat, level: nat, va: nat, pa: nat, flags: nat, supply: Supply)
    requires PageOf(va, level) in View(mem, t, level)
    requires View(mem, t, level)[PageOf(va, level)] == Frame(pa, flags)
    ensures MapPage(mem, t, level, va, pa, flags, supply) == Outcome(mem, supply, true)
  {
    var path := PathOf(va, level);
    ViewAt(mem, t, level, va);
    LeafTableHolds(mem, t, path);
    PathEnd(va, level);
    FindPresent(mem, t, path, supply);
  }

  lemma {:induction false} FindPresent(mem: Memory, t: nat, path: Path, supply: Supply)
    requires path != [] && LeafTable(mem, t, path).Some?
    ensures Find(mem, t, path, true, supply) == Search(mem, supply, LeafTable(mem, t, path))
    decreases |path|
  {
    if |path| > 1 {
      FindPresent(mem, Kid(mem, t, path[0]), path[1..], supply);
    }
  }

  // ---------------------------------------------------------------------------------------------
  // MapMMIO
  // ---------------------------------------------------------------------------------------------

  function PageAlign(a: nat): nat {
    a - a % PAGE
  }

  /** The end of the mapped range; the sums wrap at 64 bits. */
  function RangeEnd(phys: nat, size: nat): nat {
    PageAlign(((phys + size) % U64 + (PAGE - 1)) % U64)
  }

  /** The pages of [addr, end) mapped to themselves, up to the first failure. */
  function MapRange(mem: Memory, root: nat, level: nat, addr: nat, end: nat, flags: nat, supply: Supply): Outcome
    decreases end - addr
  {
    if addr >= end then Outcome(mem, supply, true)
    else
      var r := MapPage(mem, root, level, addr, addr, flags, supply);
      if !r.ok then r else MapRange(r.mem, root, level, addr + PAGE, end, flags, r.supply)
  }

  /** The finite map with the pages of [addr, end) mapped to themselves. */
  function WithRange(space: Space, level: nat, addr: nat, end: nat, flags: nat): Space
    decreases end - addr
  {
    if addr >= end then space
    else WithRange(WithPage(space, PageOf(addr, level), addr, flags), level, addr + PAGE, end, flags)
  }

  lemma {:induction false} MapRangeRefines(mem: Memory, t: nat, level: nat, addr: nat, end: nat, flags: nat,
                                           supply: Supply)
    requires Tree(mem, t, level) && FreshSupply(mem, supply)
    ensures var r := MapRange(mem, t, level, addr, end, flags, supply);
            && Effect(mem, r.mem, t, level) && FreshSupply(r.mem, r.supply)
            && (r.ok ==> View(r.mem, t, level) == WithRange(View(mem, t, level), level, addr, end, flags))
    decreases end - addr
  {
    hide View, PageOf, MapPage, FreshSupply, Confined, Grown, Complete, Reaches, Tree;
    if addr >= end {
      EffectRefl(mem, t, level);
    } else {
      var r := MapPage(mem, t, level, addr, addr, flags, supply);
      MapPageRefines(mem, t, level, addr, addr, flags, supply);
      if r.ok {
        MapRangeRefines(r.mem, t, level, addr + PAGE, end, flags, r.supply);
        EffectTrans(mem, r.mem, MapRange(mem, t, level, addr, end, flags, supply).mem, t, level);
      }
    }
  }

  /** A page outside the range keeps its translation. */
  lemma {:induction false} RangeElsewhere(space: Space, level: nat, addr: nat, end: nat, flags: nat, v: nat)
    requires flags % 2 == 1
    requires forall k: nat :: addr + k * PAGE < end ==> PageOf(addr + k * PAGE, level) != v
    ensures var r := WithRange(space, level, addr, end, flags);
            && (v in r <==> v in space) && (v in space ==> r[v] == space[v])
    decreases end - addr
  {
    hide PageOf;
    if addr < end {
      assert PageOf(addr + 0 * PAGE, level) != v;
      forall k: nat | addr + PAGE + k * PAGE < end
        ensures PageOf(addr + PAGE + k * PAGE, level) != v
      {
        assert PageOf(addr + (k + 1) * PAGE, level) != v;
      }
      RangeElsewhere(WithPage(space, PageOf(addr, level), addr, flags), level, addr + PAGE, end, flags, v);
    }
  }

  /** Page `k` of a range that is no longer than the address space is mapped to itself. */
  lemma {:induction false} RangeMapped(space: Space, level: nat, addr: nat, end: nat, flags: nat, k: nat)
    requires flags % 2 == 1 && addr % PAGE == 0 && addr + k * PAGE < end
    requires end - addr <= Pow512(level + 1) * PAGE
    ensures var r := WithRange(space, level, addr, end, flags);
            && PageOf(addr + k * PAGE, level) in r
            && r[PageOf(addr + k * PAGE, level)] == Frame(addr + k * PAGE, flags % ATTRIBUTES)
    decreases end - addr
  {
    hide PageOf, Pow512;
    var space' := WithPage(space, PageOf(addr, level), addr, flags);
    if k > 0 {
      assert addr + k * PAGE == (addr + PAGE) + (k - 1) * PAGE;
      RangeMapped(space', level, addr + PAGE, end, flags, k - 1);
    } else {
      forall m: nat | addr + PAGE + m * PAGE < end
        ensures PageOf(addr + PAGE + m * PAGE, level) != PageOf(addr, level)
      {
        DistinctPages(addr, level, m + 1, end);
      }
      RangeElsewhere(space', level, addr + PAGE, end, flags, PageOf(addr, level));
    }
  }

  lemma DistinctPages(addr: nat, level: nat, m: nat, end: nat)
    requires addr % PAGE == 0 && 0 < m && addr + m * PAGE < end && end - addr <= Pow512(level + 1) * PAGE
    ensures PageOf(addr + m * PAGE, level) != PageOf(addr, level)
  {
    var n, f := Pow512(level + 1), addr / PAGE;
    assert m < n;
    assert (addr + m * PAGE) / PAGE == f + m;
    if (f + m) % n == f % n {
      assert n * ((f + m) / n - f / n) == m;
      SmallMultiple(n, (f + m) / n - f / n);
    }
  }

  predicate Covered(phys: nat, size: nat, b: nat) {
    PageAlign(phys) <= b < RangeEnd(phys, size)
  }

  /** The range covers every byte of the request exactly when no sum wraps. */
  lemma RangeCovers(phys: nat, size: nat)
    requires phys < U64 && 0 < size < U64
    ensures (forall b: nat :: phys <= b < phys + size && b < U64 ==> Covered(phys, size, b))
       <==> phys + size + (PAGE - 1) < U64
  {
    if phys + size + (PAGE - 1) >= U64 {
      var b := if phys + size >= U64 then U64 - 1 else phys;
      assert !Covered(phys, size, b);
    }
  }
}
