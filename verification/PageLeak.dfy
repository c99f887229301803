/**
 When a clone succeeds, and what one that fails leaves behind. The code frees the table it was
 filling but not the finished tables below it.
 */
module PageLeak {

  import opened Basics
  import opened PageTable
  import opened PageTree
  import opened PageMap
  import opened PageShape
  import opened PageClone

  /** The tables below entries `i` and up of a table of this level. */
  function Size(shape: Shape, level: nat, i: nat): nat
    requires i <= 512
    decreases level, 512 - i
  {
    if level == 0 || i == 512 then 0
    else if i in shape.kids then 1 + Size(shape.kids[i], level - 1, 0) + Size(shape, level, i + 1)
    else Size(shape, level, i + 1)
  }

  /** The pages run out at the first valid entry of the table, or on the same terms below it. */
  predicate Spine(shape: Shape, level: nat, i: nat, given: nat)
    requires i <= 512
    decreases level, 512 - i
  {
    && level > 0 && i < 512
    && if i in shape.kids then given == 0 || Spine(shape.kids[i], level - 1, 0, given - 1)
       else Spine(shape, level, i + 1, given)
  }

  /** The same of the one table below the root in which the pages run out. */
  predicate RootClean(shape: Shape, level: nat, i: nat, given: nat)
    requires i <= 512
    decreases level, 512 - i
  {
    && level > 0 && i < 512
    && if i !in shape.kids then RootClean(shape, level, i + 1, given)
       else
         var size := 1 + Size(shape.kids[i], level - 1, 0);
         if size <= given then RootClean(shape, level, i + 1, given - size)
         else given == 0 || Spine(shape.kids[i], level - 1, 0, given - 1)
  }

  lemma {:induction false} SpineFails(shape: Shape, level: nat, i: nat, given: nat)
    requires i <= 512 && Spine(shape, level, i, given)
    ensures Size(shape, level, i) > given
    decreases level, 512 - i
  {
    if i !in shape.kids {
      SpineFails(shape, level, i + 1, given);
    } else if given > 0 {
      SpineFails(shape.kids[i], level - 1, 0, given - 1);
    }
  }

  // ---------------------------------------------------------------------------------------------
  // Cloning a table
  // ---------------------------------------------------------------------------------------------

  /** Which tables `dst` has: those of `src` from entry `i` on, and before that its own. */
  predicate Shaped(before: Shape, src: Shape, after: Shape, i: nat) {
    && (forall j: Index :: j in after.kids <==> j in (if j < i then before else src).kids)
    && (forall j: Index :: j in after.kids ==> after.kids[j] == (if j < i then before else src).kids[j])
  }

  /** What cloning entries `i` and up takes and leaves, told from the shape of the source. */
  ghost predicate Exact(mem: Memory, r: Outcome, src: nat, dst: nat, level: nat, i: nat, given: nat)
    requires i <= 512
  {
    var shape := ShapeOf(mem, src, level);
    && (r.ok <==> Size(shape, level, i) <= given)
    && (r.ok ==> Given(r.supply) == given - Size(shape, level, i))
    && (r.ok ==> Shaped(ShapeOf(mem, dst, level), shape, ShapeOf(r.mem, dst, level), i))
    && (!r.ok ==> (r.mem.Keys == mem.Keys <==> Spine(shape, level, i, given)))
    && (!r.ok ==> (Complete(mem, r.mem, dst, level) <==> RootClean(shape, level, i, given)))
  }

  /**
   Cloning the rest of a table succeeds exactly if the pages suffice for the tables below it, and
   then takes that many. If it fails, no table is left but those there were exactly along a spine,
   and none but those the target reaches exactly if the failure below the target is one.
   */
  lemma {:induction false} CloneFromExactly(mem: Memory, src: nat, dst: nat, level: nat, i: nat, copy: bool,
                                            supply: Supply)
    requires i <= 512 && Ready(mem, src, dst, level, i, supply)
    ensures var r := CloneFrom(mem, src, dst, level, i, copy, supply);
            && Exact(mem, r, src, dst, level, i, Given(supply))
            && (r.ok ==> Done(mem, r.mem, src, dst, level, i, copy) && FreshSupply(r.mem, r.supply))
            && (!r.ok ==> Touch(mem, r.mem, dst, level))
    decreases level, 512 - i, 2
  {
    hide Reaches, Tree, Leaf, Confined, Grown, Complete, ShapeOf, Apart, FreshSupply;
    CloneFromDone(mem, src, dst, level, i, copy, supply);
    if i == 512 {
      ShapedRefl(ShapeOf(mem, dst, level), ShapeOf(mem, src, level));
    } else if level == 0 {
      CloneLeaves(mem, src, dst, i, copy, supply);
    } else if !Has(mem, src, i) {
      SkipExactly(mem, src, dst, level, i, copy, supply);
    } else if NextPage(supply).Some? {
      KidExactly(mem, src, dst, level, i, copy, supply);
    } else {
      NoPage(mem, src, dst, level, i, copy, supply);
    }
  }

  lemma ShapedRefl(before: Shape, src: Shape)
    ensures Shaped(before, src, before, 512)
  {
  }

  lemma {:induction false} CloneLeaves(mem: Memory, src: nat, dst: nat, i: nat, copy: bool, supply: Supply)
    requires i <= 512
    ensures var r := CloneFrom(mem, src, dst, 0, i, copy, supply);
            r.ok && r.supply == supply && Exact(mem, r, src, dst, 0, i, Given(supply))
    decreases 512 - i
  {
    if i < 512 {
      var mem1 := if Has(mem, src, i) && copy then Put(mem, dst, i, Get(mem, src)[i]) else mem;
      CloneLeaves(mem1, src, dst, i + 1, copy, supply);
    }
  }

  lemma {:induction false} SkipExactly(mem: Memory, src: nat, dst: nat, level: nat, i: Index, copy: bool,
                                       supply: Supply)
    requires level > 0 && Ready(mem, src, dst, level, i, supply) && !Has(mem, src, i)
    ensures Exact(mem, CloneFrom(mem, src, dst, level, i, copy, supply), src, dst, level, i, Given(supply))
    decreases level, 512 - i, 1
  {
    hide Reaches, Tree, Leaf, Confined, Grown, Complete, ShapeOf, Apart, FreshSupply, Stepped, Given;
    ShapeKids(mem, src, level);
    ShapeKids(mem, dst, level);
    StepSkip(mem, src, dst, level, i, copy);
    ReadyNext(mem, mem, src, dst, level, i, copy, supply, supply);
    CloneFromExactly(mem, src, dst, level, i + 1, copy, supply);
  }

  lemma NoPage(mem: Memory, src: nat, dst: nat, level: nat, i: Index, copy: bool, supply: Supply)
    requires level > 0 && Ready(mem, src, dst, level, i, supply) && Has(mem, src, i) && NextPage(supply).None?
    ensures Exact(mem, CloneFrom(mem, src, dst, level, i, copy, supply), src, dst, level, i, Given(supply))
  {
    hide Reaches, Tree, Leaf, Confined, Grown, ShapeOf, Apart, FreshSupply;
    ShapeKids(mem, src, level);
    EffectRefl(mem, dst, level);
  }

  // ---------------------------------------------------------------------------------------------
  // One table below
  // ---------------------------------------------------------------------------------------------

  lemma {:induction false} KidExactly(mem: Memory, src: nat, dst: nat, level: nat, i: Index, copy: bool, supply: Supply)
    requires level > 0 && Ready(mem, src, dst, level, i, supply) && Has(mem, src, i) && NextPage(supply).Some?
    ensures Exact(mem, CloneFrom(mem, src, dst, level, i, copy, supply), src, dst, level, i, Given(supply))
    decreases level, 512 - i, 1
  {
    hide Reaches, Tree, Leaf, Confined, Grown, Complete, Done, Touch, Apart, ShapeOf, Exact, FreshSupply, CloneFrom;
    var n, kid := NextPage(supply).value, Kid(mem, src, i);
    var mem1 := mem[n := EmptyTable()];
    FirstUsable(mem, supply);
    KidReady(mem, src, dst, level, i, supply);
    var sub := CloneFrom(mem1, kid, n, level - 1, 0, copy, Rest(supply));
    CloneFromExactly(mem1, kid, n, level - 1, 0, copy, Rest(supply));
    KidShape(mem, mem1, src, level, i, n);
    CloneUnfolds(mem, src, dst, level, i, copy, supply);
    if sub.ok {
      KidFinished(mem, mem1, sub, src, dst, level, i, copy, supply);
    } else {
      KidFailed(mem, mem1, sub, src, dst, level, i, n, supply);
    }
  }

  /** One step of CloneFrom at a valid entry, spelled out. */
  lemma CloneUnfolds(mem: Memory, src: nat, dst: nat, level: nat, i: Index, copy: bool, supply: Supply)
    requires level > 0 && Has(mem, src, i) && NextPage(supply).Some?
    ensures var n := NextPage(supply).value;
            var sub := CloneFrom(mem[n := EmptyTable()], Kid(mem, src, i), n, level - 1, 0, copy, Rest(supply));
            CloneFrom(mem, src, dst, level, i, copy, supply)
            == if !sub.ok then Outcome(sub.mem - {n}, sub.supply, false)
               else CloneFrom(Put(sub.mem, dst, i, Encode(n, TABLE_FLAGS)), src, dst, level, i + 1, copy, sub.supply)
  {
  }

  lemma KidShape(mem: Memory, mem1: Memory, src: nat, level: nat, i: Index, n: nat)
    requires level > 0 && Tree(mem, src, level) && Has(mem, src, i) && n !in mem && mem1 == mem[n := EmptyTable()]
    ensures i in ShapeOf(mem, src, level).kids
    ensures ShapeOf(mem1, Kid(mem, src, i), level - 1) == ShapeOf(mem, src, level).kids[i]
  {
    hide Reaches, ShapeOf;
    ShapeKids(mem, src, level);
    NewTable(mem, Kid(mem, src, i), level - 1, n);
    ShapeSame(mem, mem1, Kid(mem, src, i), level - 1);
  }

  /** The pages run out below: only what that left behind counts. */
  lemma KidFailed(mem: Memory, mem1: Memory, sub: Outcome, src: nat, dst: nat, level: nat, i: Index, n: nat,
                  supply: Supply)
    requires level > 0 && Tree(mem, dst, level) && NextPage(supply) == Some(n) && Usable(mem, Some(n))
    requires mem1 == mem[n := EmptyTable()] && Touch(mem1, sub.mem, n, level - 1) && !sub.ok
    requires i in ShapeOf(mem, src, level).kids && Has(mem, src, i)
    requires ShapeOf(mem1, Kid(mem, src, i), level - 1) == ShapeOf(mem, src, level).kids[i]
    requires Exact(mem1, sub, Kid(mem, src, i), n, level - 1, 0, Given(Rest(supply)))
    ensures Exact(mem, Outcome(sub.mem - {n}, sub.supply, false), src, dst, level, i, Given(supply))
  {
    hide Reaches, Tree, ShapeOf, Confined, Grown, Complete;
    var mem' := sub.mem - {n};
    Remains(mem, mem1, sub.mem, dst, level, n);
    assert sub.mem.Keys == mem1.Keys <==> mem'.Keys == mem.Keys by {
      assert mem1.Keys == mem.Keys + {n};
      assert mem'.Keys == sub.mem.Keys - {n};
    }
  }

  lemma Remains(mem: Memory, mem1: Memory, mem2: Memory, dst: nat, level: nat, n: nat)
    requires level > 0 && Tree(mem, dst, level) && Usable(mem, Some(n))
    requires mem1 == mem[n := EmptyTable()] && Touch(mem1, mem2, n, level - 1)
    ensures Complete(mem, mem2 - {n}, dst, level) <==> (mem2 - {n}).Keys == mem.Keys
  {
    var mem' := mem2 - {n};
    EmptyTree(mem1, n, level - 1);
    assert forall a :: a in mem ==> a in mem' && mem'[a] == mem[a];
    forall a: nat
      ensures Reaches(mem, dst, level, a) ==> a in mem
    {
      if Reaches(mem, dst, level, a) {
        ReachedLive(mem, dst, level, a);
      }
    }
    forall a: nat
      ensures Reaches(mem', dst, level, a) == Reaches(mem, dst, level, a)
    {
      SameReaches(mem, mem', dst, level, a);
    }
  }

  /** The table below is finished and entered, so it is left behind or freed with the target. */
  lemma {:induction false} KidFinished(mem: Memory, mem1: Memory, sub: Outcome, src: nat, dst: nat, level: nat,
                                       i: Index, copy: bool, supply: Supply)
    requires level > 0 && Ready(mem, src, dst, level, i, supply) && Has(mem, src, i) && NextPage(supply).Some?
    requires mem1 == mem[NextPage(supply).value := EmptyTable()] && sub.ok && FreshSupply(sub.mem, sub.supply)
    requires Done(mem1, sub.mem, Kid(mem, src, i), NextPage(supply).value, level - 1, 0, copy)
    requires i in ShapeOf(mem, src, level).kids
    requires ShapeOf(mem1, Kid(mem, src, i), level - 1) == ShapeOf(mem, src, level).kids[i]
    requires Exact(mem1, sub, Kid(mem, src, i), NextPage(supply).value, level - 1, 0, Given(Rest(supply)))
    ensures var mem2 := Put(sub.mem, dst, i, Encode(NextPage(supply).value, TABLE_FLAGS));
            Exact(mem, CloneFrom(mem2, src, dst, level, i + 1, copy, sub.supply), src, dst, level, i, Given(supply))
    decreases level, 512 - i, 0
  {
    hide Reaches, Tree, Leaf, Confined, Grown, Complete, Done, Apart, ShapeOf, FreshSupply, CloneFrom, Exact, Stepped;
    var n := NextPage(supply).value;
    var mem2 := Put(sub.mem, dst, i, Encode(n, TABLE_FLAGS));
    FirstUsable(mem, supply);
    StepKid(mem, mem1, sub.mem, src, dst, level, i, n, copy);
    DstLive(mem, mem1, sub.mem, src, dst, n, level, i, copy);
    assert mem2.Keys == sub.mem.Keys;
    SupplyByKeys(sub.mem, mem2, sub.supply);
    ReadyNext(mem, mem2, src, dst, level, i, copy, supply, sub.supply);
    CloneFromExactly(mem2, src, dst, level, i + 1, copy, sub.supply);
    ShapeSame(mem, mem2, src, level);
    LinkedShape(mem, mem1, sub, src, dst, level, i, n, copy, Given(Rest(supply)));
    var r := CloneFrom(mem2, src, dst, level, i + 1, copy, sub.supply);
    assert Touch(mem2, r.mem, dst, level) by { DoneTouches(mem2, r, src, dst, level, i + 1, copy); }
    assert Effect(mem, mem2, dst, level) by { SteppedEffect(mem, mem2, src, dst, level, i, copy); }
    CompleteThrough(mem, mem2, r.mem, dst, level);
    assert n in mem2 && n !in mem by { NewInTarget(mem1, sub.mem, Kid(mem, src, i), n, level - 1, copy); }
    Combine(mem, mem1, mem2, sub, r, src, dst, level, i, supply);
  }

  lemma NewInTarget(mem1: Memory, mem2: Memory, kid: nat, n: nat, level: nat, copy: bool)
    requires n in mem1 && Done(mem1, mem2, kid, n, level, 0, copy)
    ensures n in mem2
  {
    assert mem1.Keys <= mem2.Keys;
  }

  lemma DoneTouches(mem: Memory, r: Outcome, src: nat, dst: nat, level: nat, i: nat, copy: bool)
    requires if r.ok then Done(mem, r.mem, src, dst, level, i, copy) else Touch(mem, r.mem, dst, level)
    ensures Touch(mem, r.mem, dst, level)
  {
  }

  lemma SteppedEffect(mem: Memory, mem': Memory, src: nat, dst: nat, level: nat, i: Index, copy: bool)
    requires Stepped(mem, mem', src, dst, level, i, copy)
    ensures Effect(mem, mem', dst, level)
  {
  }

  lemma SupplyByKeys(mem: Memory, mem': Memory, supply: Supply)
    requires FreshSupply(mem, supply) && mem'.Keys == mem.Keys
    ensures FreshSupply(mem', supply)
  {
    forall k | 0 <= k < |supply|
      ensures Usable(mem', supply[k])
    {
      assert Usable(mem, supply[k]);
    }
  }

  lemma CompleteThrough(mem: Memory, mem1: Memory, mem2: Memory, t: nat, level: nat)
    requires Effect(mem, mem1, t, level) && Touch(mem1, mem2, t, level)
    ensures Complete(mem, mem2, t, level) <==> Complete(mem1, mem2, t, level)
  {
    forall a | Reaches(mem1, t, level, a)
      ensures a in mem1
    {
      ReachedLive(mem1, t, level, a);
    }
  }

  lemma LinkedShape(mem: Memory, mem1: Memory, sub: Outcome, src: nat, dst: nat, level: nat, i: Index, n: nat,
                    copy: bool, given: nat)
    requires level > 0 && Tree(mem, dst, level) && !Has(mem, dst, i) && Usable(mem, Some(n))
    requires mem1 == mem[n := EmptyTable()] && sub.ok
    requires Done(mem1, sub.mem, Kid(mem, src, i), n, level - 1, 0, copy)
    requires Exact(mem1, sub, Kid(mem, src, i), n, level - 1, 0, given)
    ensures ShapeOf(Put(sub.mem, dst, i, Encode(n, TABLE_FLAGS)), dst, level)
         == Shape(ShapeOf(mem, dst, level).kids[i := ShapeOf(mem1, Kid(mem, src, i), level - 1)])
  {
    hide Reaches, Tree, Leaf, ShapeOf;
    var mem2 := Put(sub.mem, dst, i, Encode(n, TABLE_FLAGS));
    LinkKid(mem, mem1, sub.mem, dst, level, i, n);
    PointerRoundTrip(n);
    ShapeReplaced(mem, mem2, dst, level, i, Encode(n, TABLE_FLAGS));
    ShapeSame(sub.mem, mem2, n, level - 1);
    assert ShapeOf(sub.mem, n, level - 1).kids == ShapeOf(mem1, Kid(mem, src, i), level - 1).kids;
  }

  lemma Combine(mem: Memory, mem1: Memory, mem2: Memory, sub: Outcome, r: Outcome, src: nat, dst: nat, level: nat,
                i: Index, supply: Supply)
    requires level > 0 && NextPage(supply).Some? && sub.ok
    requires i in ShapeOf(mem, src, level).kids && ShapeOf(mem2, src, level) == ShapeOf(mem, src, level)
    requires ShapeOf(mem1, Kid(mem, src, i), level - 1) == ShapeOf(mem, src, level).kids[i]
    requires ShapeOf(mem2, dst, level)
          == Shape(ShapeOf(mem, dst, level).kids[i := ShapeOf(mem, src, level).kids[i]])
    requires Exact(mem1, sub, Kid(mem, src, i), NextPage(supply).value, level - 1, 0, Given(Rest(supply)))
    requires Exact(mem2, r, src, dst, level, i + 1, Given(sub.supply))
    requires Complete(mem, r.mem, dst, level) <==> Complete(mem2, r.mem, dst, level)
    requires mem2.Keys <= r.mem.Keys && NextPage(supply).value in mem2 && NextPage(supply).value !in mem
    ensures Exact(mem, r, src, dst, level, i, Given(supply))
  {
    hide ShapeOf, Complete;
    var kid := ShapeOf(mem, src, level).kids[i];
    if Spine(kid, level - 1, 0, Given(supply) - 1) {
      SpineFails(kid, level - 1, 0, Given(supply) - 1);
    }
    assert r.mem.Keys != mem.Keys;
  }
}
