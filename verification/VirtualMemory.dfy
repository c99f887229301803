/** The page-table code itself: loops over levels and entries that update the tables in place. */
module VirtualMemoryModel {

  import opened Basics
  import opened PageTable
  import opened PageTree
  import opened PageMap
  import PageClone
  import PageFree

  lemma FreeableKid(h: Heap, t: nat, level: nat, i: Index, pages: bool)
    requires level > 0 && PageFree.Freeable(h, t, level, i, pages) && Has(h.mem, t, i)
    ensures PageFree.Freeable(h, Kid(h.mem, t, i), level - 1, 0, pages)
  {
    if pages {
      PageFree.AsideKid(h.mem, t, level, i);
    }
  }

  /** After a subtree is freed the table that held it is live, and the rest can be freed. */
  lemma FreeableAfterKid(h: Heap, t: nat, level: nat, i: Index, pages: bool)
    requires level > 0 && PageFree.Freeable(h, t, level, i, pages) && Has(h.mem, t, i)
    ensures var h' := FreeTable(h, Kid(h.mem, t, i), level - 1, pages);
            t in h'.mem && PageFree.Freeable(h'.(mem := Put(h'.mem, t, i, 0)), t, level, i + 1, pages)
  {
    hide FreeTable, Reaches, Tree;
    FreeableKid(h, t, level, i, pages);
    PageFree.FreeTableDone(h, Kid(h.mem, t, i), level - 1, pages);
    PageFree.PruneKeys(h.mem, t, level, i);
    PageFree.PruneReach(h.mem, t, level, i);
    PageFree.PruneEntries(h.mem, t, level, i);
    PageFree.PruneReplaces(h.mem, t, level, i);
    if pages {
      PageFree.PruneAside(h.mem, t, level, i);
    }
    StillLive(h.mem, t, level, i);
  }

  lemma StillLive(mem: Memory, t: nat, level: nat, i: Index)
    requires level > 0 && Tree(mem, t, level) && Has(mem, t, i)
    ensures t in mem - Reach(mem, Kid(mem, t, i), level - 1)
  {
    assert !ReachesBy(mem, t, level, i, t);
  }

  lemma TreeKid(mem: Memory, t: nat, level: nat, i: Index)
    requires Tree(mem, t, level)
    ensures t in mem && (level > 0 && Has(mem, t, i) ==> Tree(mem, Kid(mem, t, i), level - 1))
  {
  }

  class VirtualMemory {
    /** The level of a root table, one less than the number of levels. */
    const top: nat
    var mem: Memory
    var supply: Supply
    var freed: multiset<nat>

    constructor (levels: nat, pages: Supply)
      requires levels >= 2
      ensures top == levels - 1 && mem == map[] && supply == pages && freed == multiset{}
    {
      top, mem, supply, freed := levels - 1, map[], pages, multiset{};
    }

    ghost function View(): Heap
      reads this
    {
      Heap(mem, freed)
    }

    method FindPageTableEntry(root: nat, va: nat, allocate: bool) returns (table: Option<nat>)
      requires Tree(mem, root, top) && (allocate ==> FreshSupply(mem, supply))
      modifies this`mem, this`supply
      ensures Search(mem, supply, table) == Find(old(mem), root, PathOf(va, top), allocate, old(supply))
    {
      hide Tree, FreshSupply, Vpn, Find, PathOf, Encode, Phys;
      var current, level := root, top;
      while level > 0
        invariant 0 <= level <= top && Tree(mem, current, level) && (allocate ==> FreshSupply(mem, supply))
        invariant Find(mem, current, PathOf(va, level), allocate, supply)
               == Find(old(mem), root, PathOf(va, top), allocate, old(supply))
      {
        var vpn := Vpn(va, level);
        TreeKid(mem, current, level, vpn);
        FindStep(mem, current, va, level, allocate, supply);
        var pte := mem[current][vpn];
        if Valid(pte) {
          current := Phys(pte);
        } else if allocate {
          var page := NextPage(supply);
          if page.None? {
            supply := Rest(supply);
            return None;
          }
          NextUsable(mem, supply);
          LinkedSupply(mem, current, vpn, supply);
          supply := Rest(supply);
          mem := mem[page.value := EmptyTable()];
          mem := mem[current := mem[current][vpn := Encode(page.value, TABLE_FLAGS)]];
          current := page.value;
          EmptyTree(mem, current, level - 1);
        } else {
          return None;
        }
        level := level - 1;
      }
      FindEnd(mem, current, va, allocate, supply);
      return Some(current);
    }

    method MapPage(root: nat, va: nat, pa: nat, flags: nat) returns (ok: bool)
      requires Tree(mem, root, top) && FreshSupply(mem, supply)
      modifies this`mem, this`supply
      ensures Outcome(mem, supply, ok) == PageTable.MapPage(old(mem), root, top, va, pa, flags, old(supply))
    {
      hide Find, Tree, FreshSupply, Vpn, Phys, Encode;
      var table := FindPageTableEntry(root, va, true);
      if table.None? {
        return false;
      }
      FoundLive(old(mem), root, top, va, old(supply));
      var pte := mem[table.value][Vpn(va, 0)];
      if Valid(pte) && Phys(pte) == pa && pte % ATTRIBUTES == flags {
        return true;
      }
      mem := mem[table.value := mem[table.value][Vpn(va, 0) := Encode(pa, flags)]];
      return true;
    }

    method UnmapPage(root: nat, va: nat) returns (ok: bool)
      requires Tree(mem, root, top)
      modifies this`mem, this`supply
      ensures (mem, ok) == PageTable.UnmapPage(old(mem), root, top, va) && supply == old(supply)
    {
      hide Find, Tree, Vpn;
      FindReads(mem, root, PathOf(va, top), supply);
      FindReads(mem, root, PathOf(va, top), []);
      var table := FindPageTableEntry(root, va, false);
      if table.None? {
        return false;
      }
      LeafLive(mem, root, top, PathOf(va, top));
      if !Valid(mem[table.value][Vpn(va, 0)]) {
        return false;
      }
      mem := mem[table.value := mem[table.value][Vpn(va, 0) := 0]];
      return true;
    }

    method GetMapping(root: nat, va: nat) returns (pa: Option<nat>)
      requires Tree(mem, root, top)
      modifies this`mem, this`supply
      ensures pa == PageTable.GetMapping(mem, root, top, va) && mem == old(mem) && supply == old(supply)
    {
      hide Find, Tree, Vpn;
      FindReads(mem, root, PathOf(va, top), supply);
      FindReads(mem, root, PathOf(va, top), []);
      var table := FindPageTableEntry(root, va, false);
      if table.None? {
        return None;
      }
      LeafLive(mem, root, top, PathOf(va, top));
      var pte := mem[table.value][Vpn(va, 0)];
      return if Valid(pte) then Some(Phys(pte)) else None;
    }

    method MapMMIO(root: nat, phys: nat, size: nat, flags: nat) returns (ok: bool)
      requires Tree(mem, root, top) && FreshSupply(mem, supply)
      modifies this`mem, this`supply
      ensures Outcome(mem, supply, ok)
           == MapRange(old(mem), root, top, PageAlign(phys), RangeEnd(phys, size), flags, old(supply))
    {
      hide Tree, FreshSupply, PageTable.MapPage, Confined, Grown, Complete;
      var addr, end := PageAlign(phys), RangeEnd(phys, size);
      while addr < end
        invariant Tree(mem, root, top) && FreshSupply(mem, supply)
        invariant MapRange(mem, root, top, addr, end, flags, supply)
               == MapRange(old(mem), root, top, PageAlign(phys), end, flags, old(supply))
      {
        MapPageRefines(mem, root, top, addr, addr, flags, supply);
        var mapped := MapPage(root, addr, addr, flags);
        if !mapped {
          return false;
        }
        addr := addr + PAGE;
      }
      return true;
    }

    method RecursiveFree(t: nat, level: nat, pages: bool)
      requires level <= top && PageFree.Freeable(View(), t, level, 0, pages)
      modifies this`mem, this`freed
      ensures View() == if level < top then FreeTable(old(View()), t, level, pages)
                        else FreeFrom(old(View()), t, level, 0, pages)
      decreases level
    {
      hide Tree, PageFree.Aside;
      ghost var all := FreeFrom(View(), t, level, 0, pages);
      var i := 0;
      while i < 512
        invariant 0 <= i <= 512 && PageFree.Freeable(View(), t, level, i, pages)
        invariant FreeFrom(View(), t, level, i, pages) == all
      {
        TreeKid(mem, t, level, i);
        ghost var h := View();
        var pte := mem[t][i];
        if Valid(pte) {
          var pa := Phys(pte);
          if level > 0 {
            FreeableKid(h, t, level, i, pages);
            FreeableAfterKid(h, t, level, i, pages);
            RecursiveFree(pa, level - 1, pages);
          } else {
            FreeableLeaf(h, t, i, pages);
            if pages {
              mem, freed := mem - {pa}, freed + multiset{pa};
            }
          }
          mem := mem[t := mem[t][i := 0]];
        }
        i := i + 1;
      }
      if level < top {
        mem, freed := mem - {t}, freed + multiset{t};
      }
    }

    method DestroyPageDirectory(root: nat, pages: bool)
      requires root != 0 ==> PageFree.Freeable(View(), root, top, 0, pages)
      modifies this`mem, this`freed
      ensures View() == DestroyDirectory(old(View()), root, top, pages)
    {
      if root == 0 {
        return;
      }
      RecursiveFree(root, top, pages);
      mem, freed := mem - {root}, freed + multiset{root};
    }

    method RecursiveClone(src: nat, dst: nat, level: nat, copy: bool) returns (ok: bool)
      requires PageClone.Ready(mem, src, dst, level, 0, supply)
      modifies this`mem, this`supply
      ensures Outcome(mem, supply, ok) == CloneFrom(old(mem), src, dst, level, 0, copy, old(supply))
      decreases level
    {
      hide PageClone.Ready, CloneFrom, Usable, Encode, Phys;
      var i := 0;
      while i < 512
        invariant 0 <= i <= 512 && PageClone.Ready(mem, src, dst, level, i, supply)
        invariant CloneFrom(mem, src, dst, level, i, copy, supply)
               == CloneFrom(old(mem), src, dst, level, 0, copy, old(supply))
      {
        ReadyLive(mem, src, dst, level, i, supply);
        ghost var before, pages := mem, supply;
        var pte := mem[src][i];
        if Valid(pte) {
          if level > 0 {
            var page := NextPage(supply);
            supply := Rest(supply);
            if page.None? {
              CloneStops(mem, src, dst, level, i, copy, pages);
              return false;
            }
            CloneKidStart(mem, src, dst, level, i, copy, pages);
            mem := mem[page.value := EmptyTable()];
            ok := RecursiveClone(Phys(pte), page.value, level - 1, copy);
            if !ok {
              mem := mem - {page.value};
              return false;
            }
            CloneKidNext(before, src, dst, level, i, copy, pages);
            mem := mem[dst := mem[dst][i := Encode(page.value, TABLE_FLAGS)]];
          } else {
            CloneLeafNext(mem, src, dst, i, copy, supply);
            if copy {
              mem := mem[dst := mem[dst][i := pte]];
            }
          }
        } else {
          CloneSkipNext(mem, src, dst, level, i, copy, supply);
        }
        i := i + 1;
      }
      CloneEnd(mem, src, dst, level, copy, supply);
      return true;
    }

    method ClonePageDirectory(src: nat, copy: bool) returns (dst: Option<nat>)
      requires Tree(mem, src, top) && FreshSupply(mem, supply)
      modifies this`mem, this`supply, this`freed
      ensures (mem, dst) == CloneDirectory(old(mem), src, top, copy, old(supply))
    {
      hide Tree, FreshSupply, Apart, CloneFrom, FreeTable;
      var page := NextPage(supply);
      if page.None? {
        supply := Rest(supply);
        return None;
      }
      NextUsable(mem, supply);
      RootReady(mem, src, top, supply);
      supply := Rest(supply);
      mem := mem[page.value := EmptyTable()];
      PageClone.CloneFromDone(mem, src, page.value, top, 0, copy, supply);
      var ok := RecursiveClone(src, page.value, top, copy);
      if !ok {
        PageFree.FreeTableDone(View(), page.value, top, false);
        PageFree.FreeTableDone(Heap(mem, multiset{}), page.value, top, false);
        DestroyPageDirectory(page.value, false);
        return None;
      }
      return page;
    }
  }

  // ---------------------------------------------------------------------------------------------
  // Facts the loops need
  // ---------------------------------------------------------------------------------------------

  lemma FindStep(mem: Memory, t: nat, va: nat, level: nat, allocate: bool, supply: Supply)
    requires level > 0
    ensures var i, rest := Vpn(va, level), PathOf(va, level - 1);
            Find(mem, t, PathOf(va, level), allocate, supply) ==
              if Has(mem, t, i) then Find(mem, Kid(mem, t, i), rest, allocate, supply)
              else if !allocate then Search(mem, supply, None)
              else
                match NextPage(supply)
                case None => Search(mem, Rest(supply), None)
                case Some(n) => Find(Linked(mem, t, i, n), n, rest, allocate, Rest(supply))
  {
    hide Vpn, Has, Kid, Linked;
    var path := PathOf(va, level);
    assert path[0] == Vpn(va, level) && path[1..] == PathOf(va, level - 1);
  }

  lemma FindEnd(mem: Memory, t: nat, va: nat, allocate: bool, supply: Supply)
    ensures Find(mem, t, PathOf(va, 0), allocate, supply) == Search(mem, supply, Some(t))
  {
  }

  lemma NextUsable(mem: Memory, supply: Supply)
    requires FreshSupply(mem, supply) && NextPage(supply).Some?
    ensures Usable(mem, NextPage(supply))
  {
  }

  lemma SameKeysSupply(mem: Memory, mem': Memory, supply: Supply)
    requires mem'.Keys == mem.Keys && FreshSupply(mem, supply)
    ensures FreshSupply(mem', supply)
  {
    forall k | 0 <= k < |supply|
      ensures Usable(mem', supply[k])
    {
      assert Usable(mem, supply[k]);
    }
  }

  lemma LeafLive(mem: Memory, t: nat, level: nat, path: Path)
    requires Tree(mem, t, level) && |path| == level + 1
    ensures LeafTable(mem, t, path).Some? ==> LeafTable(mem, t, path).value in mem
  {
    if LeafTable(mem, t, path).Some? {
      LeafTableReached(mem, t, level, path);
      ReachedLive(mem, t, level, LeafTable(mem, t, path).value);
    }
  }

  lemma FoundLive(mem: Memory, t: nat, level: nat, va: nat, supply: Supply)
    requires Tree(mem, t, level) && FreshSupply(mem, supply)
    ensures var s := Find(mem, t, PathOf(va, level), true, supply);
            s.table.Some? ==> s.table.value in s.mem
  {
    hide Find, PathOf, FreshSupply;
    FindEffect(mem, t, level, PathOf(va, level), supply);
    LeafLive(Find(mem, t, PathOf(va, level), true, supply).mem, t, level, PathOf(va, level));
  }

  lemma FreeableLeaf(h: Heap, t: nat, i: Index, pages: bool)
    requires PageFree.Freeable(h, t, 0, i, pages) && Has(h.mem, t, i)
    ensures PageFree.Freeable(h.(mem := Put(h.mem, t, i, 0)), t, 0, i + 1, pages)
    ensures pages ==> h.mem - {Kid(h.mem, t, i)} == h.mem
  {
    PageFree.ClearEntry(h, t, i, pages);
    var q: Path := [i];
    assert Leaf(h.mem, t, q) == Get(h.mem, t)[i];
  }

  lemma ReadyLive(mem: Memory, src: nat, dst: nat, level: nat, i: nat, supply: Supply)
    requires PageClone.Ready(mem, src, dst, level, i, supply)
    ensures src in mem && dst in mem
  {
  }

  lemma CloneEnd(mem: Memory, src: nat, dst: nat, level: nat, copy: bool, supply: Supply)
    ensures CloneFrom(mem, src, dst, level, 512, copy, supply) == Outcome(mem, supply, true)
  {
  }

  lemma CloneStops(mem: Memory, src: nat, dst: nat, level: nat, i: Index, copy: bool, supply: Supply)
    requires Has(mem, src, i) && level > 0 && NextPage(supply).None?
    ensures CloneFrom(mem, src, dst, level, i, copy, supply) == Outcome(mem, Rest(supply), false)
  {
  }

  lemma CloneSkipNext(mem: Memory, src: nat, dst: nat, level: nat, i: Index, copy: bool, supply: Supply)
    requires PageClone.Ready(mem, src, dst, level, i, supply) && !Has(mem, src, i)
    ensures PageClone.Ready(mem, src, dst, level, i + 1, supply)
    ensures CloneFrom(mem, src, dst, level, i, copy, supply) == CloneFrom(mem, src, dst, level, i + 1, copy, supply)
  {
    PageClone.StepSkip(mem, src, dst, level, i, copy);
    PageClone.ReadyNext(mem, mem, src, dst, level, i, copy, supply, supply);
  }

  lemma CloneLeafNext(mem: Memory, src: nat, dst: nat, i: Index, copy: bool, supply: Supply)
    requires PageClone.Ready(mem, src, dst, 0, i, supply) && Has(mem, src, i)
    ensures var mem' := if copy then Put(mem, dst, i, Get(mem, src)[i]) else mem;
            && PageClone.Ready(mem', src, dst, 0, i + 1, supply)
            && CloneFrom(mem, src, dst, 0, i, copy, supply) == CloneFrom(mem', src, dst, 0, i + 1, copy, supply)
  {
    var mem' := if copy then Put(mem, dst, i, Get(mem, src)[i]) else mem;
    PageClone.StepLeaf(mem, src, dst, i, copy);
    assert mem'.Keys == mem.Keys;
    SameKeysSupply(mem, mem', supply);
    PageClone.ReadyNext(mem, mem', src, dst, 0, i, copy, supply, supply);
  }

  /** The subtree at entry `i` can be cloned to the next page, and a failure there ends the clone. */
  lemma CloneKidStart(mem: Memory, src: nat, dst: nat, level: nat, i: Index, copy: bool, supply: Supply)
    requires PageClone.Ready(mem, src, dst, level, i, supply)
    requires Has(mem, src, i) && level > 0 && NextPage(supply).Some?
    ensures var n := NextPage(supply).value;
            var sub := CloneFrom(mem[n := EmptyTable()], Kid(mem, src, i), n, level - 1, 0, copy, Rest(supply));
            && PageClone.Ready(mem[n := EmptyTable()], Kid(mem, src, i), n, level - 1, 0, Rest(supply))
            && (!sub.ok ==>
                  CloneFrom(mem, src, dst, level, i, copy, supply) == Outcome(sub.mem - {n}, sub.supply, false))
  {
    PageClone.KidReady(mem, src, dst, level, i, supply);
  }

  lemma CloneKidNext(mem: Memory, src: nat, dst: nat, level: nat, i: Index, copy: bool, supply: Supply)
    requires PageClone.Ready(mem, src, dst, level, i, supply)
    requires Has(mem, src, i) && level > 0 && NextPage(supply).Some?
    requires CloneFrom(mem[NextPage(supply).value := EmptyTable()], Kid(mem, src, i), NextPage(supply).value,
                       level - 1, 0, copy, Rest(supply)).ok
    ensures var n := NextPage(supply).value;
            var sub := CloneFrom(mem[n := EmptyTable()], Kid(mem, src, i), n, level - 1, 0, copy, Rest(supply));
            var mem' := Put(sub.mem, dst, i, Encode(n, TABLE_FLAGS));
            && dst in sub.mem && PageClone.Ready(mem', src, dst, level, i + 1, sub.supply)
            && CloneFrom(mem, src, dst, level, i, copy, supply)
               == CloneFrom(mem', src, dst, level, i + 1, copy, sub.supply)
  {
    hide Tree, Apart, FreshSupply, PageClone.Done;
    var n := NextPage(supply).value;
    var mem1 := mem[n := EmptyTable()];
    NextUsable(mem, supply);
    PageClone.KidReady(mem, src, dst, level, i, supply);
    PageClone.CloneFromDone(mem1, Kid(mem, src, i), n, level - 1, 0, copy, Rest(supply));
    var sub := CloneFrom(mem1, Kid(mem, src, i), n, level - 1, 0, copy, Rest(supply));
    PageClone.StepKid(mem, mem1, sub.mem, src, dst, level, i, n, copy);
    PageClone.DstLive(mem, mem1, sub.mem, src, dst, n, level, i, copy);
    var mem' := Put(sub.mem, dst, i, Encode(n, TABLE_FLAGS));
    assert mem'.Keys == sub.mem.Keys;
    SameKeysSupply(sub.mem, mem', sub.supply);
    PageClone.ReadyNext(mem, mem', src, dst, level, i, copy, supply, sub.supply);
  }

  lemma RootReady(mem: Memory, src: nat, level: nat, supply: Supply)
    requires Tree(mem, src, level) && FreshSupply(mem, supply) && NextPage(supply).Some?
    ensures PageClone.Ready(mem[NextPage(supply).value := EmptyTable()], src, NextPage(supply).value, level, 0,
                            Rest(supply))
  {
    var n := NextPage(supply).value;
    var mem1 := mem[n := EmptyTable()];
    NextUsable(mem, supply);
    PageClone.NewTable(mem, src, level, n);
    EmptyTree(mem1, n, level);
    forall k | 0 <= k < |supply| - 1
      ensures Usable(mem1, supply[1..][k])
    {
      assert Usable(mem, supply[k + 1]) && supply[0] != supply[k + 1];
    }
  }
}
