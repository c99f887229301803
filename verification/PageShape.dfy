/**
 Which tables a directory has, apart from what they map, and how many pages of the allocator an
 operation takes: this decides from the arguments alone which calls succeed.
 */
module PageShape {

  import opened Basics
  import opened PageTable
  import opened PageTree
  import opened PageMap

  /** The tables below a table, by entry. */
  datatype Shape = Shape(kids: map<Index, Shape>)

  ghost function ShapeOf(mem: Memory, t: nat, level: nat): Shape
    decreases level
  {
    if level == 0 then Shape(map[])
    else Shape(map i: Index | 0 <= i < 512 && Has(mem, t, i) :: ShapeOf(mem, Kid(mem, t, i), level - 1))
  }

  /** The pages the allocator returns before its first null. */
  function Given(supply: Supply): nat {
    if NextPage(supply).None? then 0 else 1 + Given(Rest(supply))
  }

  /** The tables that are missing on a path. */
  function Missing(shape: Shape, path: Path): nat
    requires path != []
    decreases |path|
  {
    if |path| == 1 then 0
    else if path[0] in shape.kids then Missing(shape.kids[path[0]], path[1..])
    else |path| - 1
  }

  /** The tables with those that are missing on a path added from the top, as long as pages are given. */
  function Extended(shape: Shape, path: Path, given: nat): Shape
    requires path != []
    decreases |path|
  {
    if |path| == 1 then shape
    else if path[0] in shape.kids then
      Shape(shape.kids[path[0] := Extended(shape.kids[path[0]], path[1..], given)])
    else if given == 0 then shape
    else Shape(shape.kids[path[0] := Extended(Shape(map[]), path[1..], given - 1)])
  }

  // ---------------------------------------------------------------------------------------------
  // Shapes of trees
  // ---------------------------------------------------------------------------------------------

  lemma {:induction false} ShapeSame(mem: Memory, mem': Memory, t: nat, level: nat)
    requires Same(mem, mem', t, level)
    ensures ShapeOf(mem', t, level) == ShapeOf(mem, t, level)
    decreases level
  {
    if level > 0 {
      forall i: Index
        ensures Has(mem', t, i) == Has(mem, t, i)
        ensures Has(mem, t, i) ==> ShapeOf(mem', Kid(mem', t, i), level - 1) == ShapeOf(mem, Kid(mem, t, i), level - 1)
      {
        SameKid(mem, mem', t, level, i);
        if Has(mem, t, i) {
          ShapeSame(mem, mem', Kid(mem, t, i), level - 1);
        }
      }
      assert ShapeOf(mem', t, level).kids == ShapeOf(mem, t, level).kids;
    }
  }

  lemma ShapeEmpty(mem: Memory, n: nat, level: nat)
    requires n in mem && mem[n] == EmptyTable()
    ensures ShapeOf(mem, n, level) == Shape(map[])
  {
    assert forall i: Index :: !Has(mem, n, i);
  }

  lemma ShapeReplaced(mem: Memory, mem': Memory, t: nat, level: nat, i: Index, e: Pte)
    requires level > 0 && Replaced(mem, mem', t, level, i, e) && Valid(e)
    ensures ShapeOf(mem', t, level)
         == Shape(ShapeOf(mem, t, level).kids[i := ShapeOf(mem', Phys(e), level - 1)])
  {
    hide ShapeOf, Reaches, Tree;
    ShapeKids(mem, t, level);
    ShapeKids(mem', t, level);
    forall j: Index | j != i && Has(mem, t, j)
      ensures ShapeOf(mem', Kid(mem, t, j), level - 1) == ShapeOf(mem, Kid(mem, t, j), level - 1)
    {
      ShapeSame(mem, mem', Kid(mem, t, j), level - 1);
    }
    assert forall j: Index :: Get(mem', t)[j] == if j == i then e else Get(mem, t)[j];
    assert ShapeOf(mem', t, level).kids == ShapeOf(mem, t, level).kids[i := ShapeOf(mem', Phys(e), level - 1)];
  }

  lemma ShapeKids(mem: Memory, t: nat, level: nat)
    requires level > 0
    ensures forall i: Index :: i in ShapeOf(mem, t, level).kids <==> Has(mem, t, i)
    ensures forall i: Index :: Has(mem, t, i) ==>
              ShapeOf(mem, t, level).kids[i] == ShapeOf(mem, Kid(mem, t, i), level - 1)
  {
  }

  /** An operation on a subtree changes the shape there. */
  lemma ShapeLifted(mem: Memory, mem': Memory, t: nat, level: nat, i: Index)
    requires level > 0 && Tree(mem, t, level) && Has(mem, t, i) && Effect(mem, mem', Kid(mem, t, i), level - 1)
    ensures i in ShapeOf(mem, t, level).kids
    ensures ShapeOf(mem', t, level)
         == Shape(ShapeOf(mem, t, level).kids[i := ShapeOf(mem', Kid(mem, t, i), level - 1)])
  {
    hide ShapeOf, Effect, Reaches;
    ShapeKids(mem, t, level);
    LiftReplaced(mem, mem', t, level, i);
    ShapeReplaced(mem, mem', t, level, i, mem[t][i]);
  }

  // ---------------------------------------------------------------------------------------------
  // The search
  // ---------------------------------------------------------------------------------------------

  lemma {:induction false} FindCounts(mem: Memory, t: nat, level: nat, path: Path, supply: Supply)
    requires Tree(mem, t, level) && |path| == level + 1 && FreshSupply(mem, supply)
    ensures var s, shape := Find(mem, t, path, true, supply), ShapeOf(mem, t, level);
            && (s.table.Some? <==> Missing(shape, path) <= Given(supply))
            && (s.table.Some? ==> Given(s.supply) == Given(supply) - Missing(shape, path))
            && ShapeOf(s.mem, t, level) == Extended(shape, path, Given(supply))
    decreases level, 2
  {
    hide Reaches, Tree, FreshSupply, Confined, Grown, Complete, ShapeOf, Extended;
    ExtendedStep(ShapeOf(mem, t, level), path, Given(supply));
    if level > 0 {
      ShapeKids(mem, t, level);
      if Has(mem, t, path[0]) {
        FindBelowCounts(mem, t, level, path, supply);
      } else if NextPage(supply).Some? {
        FindLinked(mem, t, level, path, supply);
      }
    }
  }

  lemma ExtendedStep(shape: Shape, path: Path, given: nat)
    requires path != []
    ensures Extended(shape, path, given)
         == if |path| == 1 then shape
            else if path[0] in shape.kids then
              Shape(shape.kids[path[0] := Extended(shape.kids[path[0]], path[1..], given)])
            else if given == 0 then shape
            else Shape(shape.kids[path[0] := Extended(Shape(map[]), path[1..], given - 1)])
  {
  }

  lemma {:induction false} FindBelowCounts(mem: Memory, t: nat, level: nat, path: Path, supply: Supply)
    requires Tree(mem, t, level) && |path| == level + 1 && FreshSupply(mem, supply)
    requires level > 0 && Has(mem, t, path[0])
    ensures path[0] in ShapeOf(mem, t, level).kids
    ensures var s := Find(mem, Kid(mem, t, path[0]), path[1..], true, supply);
            var shape := ShapeOf(mem, t, level).kids[path[0]];
            && (s.table.Some? <==> Missing(shape, path[1..]) <= Given(supply))
            && (s.table.Some? ==> Given(s.supply) == Given(supply) - Missing(shape, path[1..]))
            && ShapeOf(s.mem, t, level)
               == Shape(ShapeOf(mem, t, level).kids[path[0] := Extended(shape, path[1..], Given(supply))])
    decreases level, 0
  {
    hide Reaches, FreshSupply, Confined, Grown, Complete, ShapeOf, Extended, Find, Effect;
    var kid := Kid(mem, t, path[0]);
    ShapeKids(mem, t, level);
    FindEffect(mem, kid, level - 1, path[1..], supply);
    FindCounts(mem, kid, level - 1, path[1..], supply);
    ShapeLifted(mem, Find(mem, kid, path[1..], true, supply).mem, t, level, path[0]);
  }

  lemma {:induction false} FindLinked(mem: Memory, t: nat, level: nat, path: Path, supply: Supply)
    requires Tree(mem, t, level) && |path| == level + 1 && FreshSupply(mem, supply)
    requires level > 0 && !Has(mem, t, path[0]) && NextPage(supply).Some?
    ensures var n := NextPage(supply).value;
            var s := Find(Linked(mem, t, path[0], n), n, path[1..], true, Rest(supply));
            && (s.table.Some? <==> level <= Given(supply))
            && (s.table.Some? ==> Given(s.supply) == Given(supply) - level)
            && ShapeOf(s.mem, t, level)
               == Shape(ShapeOf(mem, t, level).kids[path[0] := Extended(Shape(map[]), path[1..], Given(supply) - 1)])
    decreases level, 1
  {
    hide Reaches, Tree, FreshSupply, Confined, Grown, Complete, ShapeOf, Extended, Find, Replaced;
    var n := NextPage(supply).value;
    var mem1 := Linked(mem, t, path[0], n);
    assert Usable(mem, supply[0]) by { FirstUsable(mem, supply); }
    AddTable(mem, t, level, path[0], n);
    AddTableEffect(mem, t, level, path[0], n);
    PointerRoundTrip(n);
    ShapeReplaced(mem, mem1, t, level, path[0], Encode(n, TABLE_FLAGS));
    ShapeEmpty(mem1, n, level - 1);
    assert t in mem by { RootLive(mem, t, level); }
    LinkedSupply(mem, t, path[0], supply);
    FindBelowCounts(mem1, t, level, path, Rest(supply));
    assert Missing(Shape(map[]), path[1..]) == level - 1;
  }

  lemma FirstUsable(mem: Memory, supply: Supply)
    requires FreshSupply(mem, supply) && supply != []
    ensures Usable(mem, supply[0])
  {
  }

  lemma RootLive(mem: Memory, t: nat, level: nat)
    requires Tree(mem, t, level)
    ensures t in mem && t != 0
  {
  }

  /**
   An allocating search succeeds exactly if enough pages are given for the tables that are missing;
   it takes that many, and even when it fails the tables it has entered stay. It changes no
   translation, and when it succeeds ends at the leaf table.
   */
  lemma FindExactly(mem: Memory, t: nat, level: nat, path: Path, supply: Supply)
    requires Tree(mem, t, level) && |path| == level + 1 && FreshSupply(mem, supply)
    ensures var s, shape := Find(mem, t, path, true, supply), ShapeOf(mem, t, level);
            && (s.table.Some? <==> Missing(shape, path) <= Given(supply))
            && (s.table.Some? ==> Given(s.supply) == Given(supply) - Missing(shape, path))
            && (s.table.Some? ==> s.table == LeafTable(s.mem, t, path))
            && ShapeOf(s.mem, t, level) == Extended(shape, path, Given(supply))
            && Effect(mem, s.mem, t, level) && View(s.mem, t, level) == View(mem, t, level)
  {
    hide Find, Reaches, Tree, FreshSupply, Confined, Grown, Complete, ShapeOf, Extended, View, Leaf;
    FindCounts(mem, t, level, path, supply);
    FindEffect(mem, t, level, path, supply);
    ViewUnchanged(mem, Find(mem, t, path, true, supply).mem, t, level);
  }

  // ---------------------------------------------------------------------------------------------
  // MapPage, UnmapPage and MapMMIO
  // ---------------------------------------------------------------------------------------------

  /** Writing a leaf entry adds and removes no table. */
  lemma {:induction false} WriteShape(mem: Memory, t: nat, level: nat, path: Path, e: Pte)
    requires Tree(mem, t, level) && |path| == level + 1 && LeafTable(mem, t, path).Some?
    ensures ShapeOf(Put(mem, LeafTable(mem, t, path).value, path[level], e), t, level) == ShapeOf(mem, t, level)
    decreases level
  {
    hide Reaches, Confined, Grown, Complete, ShapeOf;
    if level == 0 {
      LeafShape(mem, t);
      LeafShape(Put(mem, LeafTable(mem, t, path).value, path[level], e), t);
    } else {
      var kid := Kid(mem, t, path[0]);
      var mem' := Put(mem, LeafTable(mem, t, path).value, path[level], e);
      WriteShape(mem, kid, level - 1, path[1..], e);
      WriteLeaf(mem, kid, level - 1, path[1..], e);
      ShapeLifted(mem, mem', t, level, path[0]);
      ShapeKids(mem, t, level);
      assert ShapeOf(mem, t, level).kids[path[0] := ShapeOf(mem', kid, level - 1)] == ShapeOf(mem, t, level).kids;
    }
  }

  lemma LeafShape(mem: Memory, t: nat)
    ensures ShapeOf(mem, t, 0) == Shape(map[])
  {
  }

  /**
   A map succeeds exactly if enough pages are given for the tables that its path misses, and then
   sets one page of the finite map; a failed one leaves every translation as it was.
   */
  lemma MapPageExactly(mem: Memory, t: nat, level: nat, va: nat, pa: nat, flags: nat, supply: Supply)
    requires Tree(mem, t, level) && FreshSupply(mem, supply)
    ensures var r := MapPage(mem, t, level, va, pa, flags, supply);
            var shape, path := ShapeOf(mem, t, level), PathOf(va, level);
            && (r.ok <==> Missing(shape, path) <= Given(supply))
            && (r.ok ==> Given(r.supply) == Given(supply) - Missing(shape, path))
            && ShapeOf(r.mem, t, level) == Extended(shape, path, Given(supply))
            && Effect(mem, r.mem, t, level) && FreshSupply(r.mem, r.supply)
            && View(r.mem, t, level)
               == (if r.ok then WithPage(View(mem, t, level), PageOf(va, level), pa, flags) else View(mem, t, level))
  {
    hide Find, Leaf, LeafTable, PathOf, Vpn, Reaches, Tree, Phys, Encode, Confined, Grown, Complete, ShapeOf, Missing,
         Extended, Given, FreshSupply, View, PageOf;
    MapPageRefines(mem, t, level, va, pa, flags, supply);
    var path := PathOf(va, level);
    FindExactly(mem, t, level, path, supply);
    var s := Find(mem, t, path, true, supply);
    if s.table.Some? {
      PathEnd(va, level);
      WriteShape(s.mem, t, level, path, Encode(pa, flags));
    }
  }

  lemma UnmapPageShape(mem: Memory, t: nat, level: nat, va: nat)
    requires Tree(mem, t, level)
    ensures ShapeOf(UnmapPage(mem, t, level, va).0, t, level) == ShapeOf(mem, t, level)
  {
    hide Find, Leaf, LeafTable, PathOf, Vpn, Reaches, Tree, Phys, ShapeOf;
    var path := PathOf(va, level);
    FindReads(mem, t, path, []);
    if LeafTable(mem, t, path).Some? {
      PathEnd(va, level);
      WriteShape(mem, t, level, path, 0);
    }
  }

  /** The address at which mapping the pages of [addr, end) stops, at or behind `end` if the pages suffice. */
  function StopsAt(shape: Shape, level: nat, addr: nat, end: nat, given: nat): (r: nat)
    ensures addr <= r
    decreases end - addr
  {
    var path := PathOf(addr, level);
    if addr >= end || Missing(shape, path) > given then addr
    else StopsAt(Extended(shape, path, given), level, addr + PAGE, end, given - Missing(shape, path))
  }

  /**
   Mapping a range maps its pages to themselves up to the first that takes more pages than are
   left, and succeeds exactly if there is none.
   */
  lemma {:induction false} MapRangeExactly(mem: Memory, t: nat, level: nat, addr: nat, end: nat, flags: nat,
                                           supply: Supply)
    requires Tree(mem, t, level) && FreshSupply(mem, supply)
    ensures var r := MapRange(mem, t, level, addr, end, flags, supply);
            var stop := StopsAt(ShapeOf(mem, t, level), level, addr, end, Given(supply));
            && Effect(mem, r.mem, t, level) && FreshSupply(r.mem, r.supply)
            && (r.ok <==> stop >= end)
            && View(r.mem, t, level) == WithRange(View(mem, t, level), level, addr, stop, flags)
    decreases end - addr
  {
    hide View, PageOf, PathOf, MapPage, FreshSupply, Confined, Grown, Complete, Reaches, Tree, ShapeOf, Missing,
         Extended, Given;
    MapRangeRefines(mem, t, level, addr, end, flags, supply);
    if addr < end {
      var r := MapPage(mem, t, level, addr, addr, flags, supply);
      MapPageExactly(mem, t, level, addr, addr, flags, supply);
      if r.ok {
        MapRangeExactly(r.mem, t, level, addr + PAGE, end, flags, r.supply);
      }
    }
  }
}
