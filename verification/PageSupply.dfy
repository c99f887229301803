/**
 The boot allocator as the source of pages: what `aligned_alloc(4096, 4096)` returns is what the
 page-table code relies on.
 */
module PageSupply {

  import opened Basics
  import opened PageTable
  import PageMap
  import Bits
  import B = Bmalloc

  /** A page is asked for `n` times. */
  function Requests(n: nat): seq<B.Op> {
    if n == 0 then [] else [B.AlignedMalloc(PAGE, PAGE)] + Requests(n - 1)
  }

  /** What the `n` calls return. */
  function Pages(c: B.Client, n: nat): Supply
    decreases n
  {
    if n == 0 then []
    else
      var p := B.AlignedAlloc(c.s, PAGE, PAGE).1;
      [if p == 0 then None else Some(p)] + Pages(B.Do(c, B.AlignedMalloc(PAGE, PAGE)), n - 1)
  }

  /** A page that is granted lies beyond everything handed out before. */
  lemma NextPageBeyond(c: B.Client)
    requires B.Safe(c) && B.Allowed(c, B.AlignedMalloc(PAGE, PAGE))
    ensures var c', p := B.Do(c, B.AlignedMalloc(PAGE, PAGE)), B.AlignedAlloc(c.s, PAGE, PAGE).1;
            && B.Safe(c') && c.s.current <= c'.s.current
            && (p != 0 ==> c.s.current <= p < c'.s.current && p % PAGE == 0)
  {
    hide B.Alloc, Bits.And, B.AlignedAlloc, B.Safe, B.Fits, B.Wrap, B.Ready, B.Load, B.Do;
    B.OpSafe(c, B.AlignedMalloc(PAGE, PAGE));
    B.SafeReady(c);
    B.PageIsPow2();
    Bits.PowerTest(PAGE);
    B.AlignedBlock(c.s, PAGE, PAGE);
    SameState(c);
  }

  lemma SameState(c: B.Client)
    ensures B.Do(c, B.AlignedMalloc(PAGE, PAGE)).s == B.AlignedAlloc(c.s, PAGE, PAGE).0
  {
    hide B.AlignedAlloc, B.Alloc, B.Extra, B.Wrap;
  }

  lemma {:induction false} PagesBeyond(c: B.Client, n: nat)
    requires B.Safe(c) && B.AllAllowed(c, Requests(n))
    ensures |Pages(c, n)| == n
    ensures forall k :: 0 <= k < n && Pages(c, n)[k].Some? ==>
              c.s.current <= Pages(c, n)[k].value && Pages(c, n)[k].value % PAGE == 0
    ensures forall k, m :: 0 <= k < m < n && Pages(c, n)[k].Some? ==> Pages(c, n)[k] != Pages(c, n)[m]
    decreases n
  {
    hide B.AlignedAlloc, B.Safe, B.Do, B.Allowed;
    if n > 0 {
      var c' := B.Do(c, B.AlignedMalloc(PAGE, PAGE));
      assert Requests(n)[1..] == Requests(n - 1);
      NextPageBeyond(c);
      PagesBeyond(c', n - 1);
      var first, rest := Pages(c, n)[0], Pages(c', n - 1);
      assert Pages(c, n) == [first] + rest;
    }
  }

  /**
   Whatever was allocated and written before, if the live tables are among the blocks handed out,
   the pages that follow are aligned, not null, not live and never the same twice.
   */
  lemma PagesAreFresh(c: B.Client, n: nat, mem: Memory)
    requires B.Safe(c) && B.AllAllowed(c, Requests(n))
    requires forall t :: t in mem ==> exists i :: 0 <= i < |c.blocks| && c.blocks[i].ptr == t
    ensures PageMap.FreshSupply(mem, Pages(c, n))
  {
    hide B.Do, B.AllAllowed, B.Load;
    PagesBeyond(c, n);
    forall t | t in mem
      ensures t < c.s.current
    {
      var i :| 0 <= i < |c.blocks| && c.blocks[i].ptr == t;
      assert B.BlockOk(c.s, c.blocks[i]);
    }
  }
}
