/**
 What the full check of libfdt accepts, for any bytes and any version: the items that
 fdt_next_tag steps over (3rd/dtc/libfdt/fdt.c), and the blobs that pass fdt_check_full
 (3rd/dtc/libfdt/fdt_check.c), both in terms of the bytes alone.
 */
module LibFdtWalk {

  import opened Basics
  import opened FdtBytes
  import opened FdtTree
  import opened FdtBlob
  import opened LibFdt
  import opened LibFdtProofs

  // ---------------------------------------------------------------------------------------------
  // One item
  // ---------------------------------------------------------------------------------------------

  /** How many bytes of the structure block can be read. */
  function Limit(h: Header): int {
    var rest := h.total - h.structAt;
    if h.version >= 17 && h.structSize < rest then h.structSize else rest
  }

  /** The checks of fdt_offset_ptr on wrapping sums amount to a plain bound. */
  lemma PtrExactly(h: Header, offset: int, len: nat)
    requires offset < U32 && len < U32
    ensures OffsetPtr(h, offset, len).Some? <==> offset >= 0 && offset + len <= Limit(h)
  {
    if offset >= 0 {
      Wraps(offset, h.structAt);
      Wraps(offset, len);
      Wraps((offset + h.structAt) % U32, len);
    }
  }

  lemma Wraps(a: nat, b: nat)
    requires a < U32 && b < U32
    ensures (a + b) % U32 == if a + b < U32 then a + b else a + b - U32
  {
  }

  /** The first zero byte of the structure block from `from` on stands at `z`. */
  ghost predicate FirstZero(h: Header, blob: Buf, from: nat, z: nat)
    requires h.total <= |blob|
  {
    && from <= z < Limit(h) && blob[h.structAt + z] == 0
    && forall a :: h.structAt + from <= a < h.structAt + z ==> blob[a] != 0
  }

  lemma {:induction false} SkipNameExactly(h: Header, blob: Buf, from: nat, z: nat)
    requires h.total <= |blob| && from <= h.total
    ensures SkipName(h, blob, from) == Some(z + 1) <==> FirstZero(h, blob, from, z)
    decreases h.total - from
  {
    hide OffsetPtr, Limit;
    PtrExactly(h, from, 1);
    if OffsetPtr(h, from, 1).Some? && blob[h.structAt + from] != 0 {
      SkipNameExactly(h, blob, from + 1, z);
    }
  }

  /** The item at `at` has this tag and its last byte just before `behind`. */
  ghost predicate Item(h: Header, blob: Buf, at: nat, tag: nat, behind: nat)
    requires h.total <= |blob|
  {
    && at + 4 <= Limit(h) && behind <= Limit(h) && tag == Word32(blob, h.structAt + at)
    && if tag == BEGIN_NODE then
         behind > 0 && FirstZero(h, blob, at + 4, behind - 1)
       else if tag == PROP then
         && at + 12 <= Limit(h)
         && var len := Word32(blob, h.structAt + at + 4);
            behind == at + 12 + len + (if h.version < 16 && len >= 8 && (at + 12) % 8 != 0 then 4 else 0)
       else
         tag in {END, END_NODE, NOP} && behind == at + 4
  }

  /** The item at `at` ends at most three bytes before `next`, a multiple of four. */
  ghost predicate Step(h: Header, blob: Buf, at: nat, tag: nat, next: nat)
    requires h.total <= |blob|
  {
    next % 4 == 0 && exists behind: nat :: Item(h, blob, at, tag, behind) && behind <= next < behind + 4
  }

  lemma AlignExactly(v: nat, next: nat)
    ensures Align(v, 4) == next <==> next % 4 == 0 && v <= next < v + 4
  {
  }

  lemma {:induction false} NextTagStops(h: Header, blob: Buf, at: nat)
    requires h.total <= |blob| && h.total <= INT_MAX && at < U32 && NextTag(h, blob, at).1 >= 0
    ensures Step(h, blob, at, NextTag(h, blob, at).0, NextTag(h, blob, at).1)
  {
    hide OffsetPtr, Limit, SkipName, Word32, Align, FirstZero;
    var (tag, next) := NextTag(h, blob, at);
    PtrExactly(h, at, 4);
    PtrExactly(h, at + 4, 4);
    var behind: nat;
    if tag == BEGIN_NODE {
      behind := SkipName(h, blob, at + 4).value;
      SkipNameExactly(h, blob, at + 4, behind - 1);
    } else if tag == PROP {
      var len := Word32(blob, h.structAt + at + 4);
      behind := at + 12 + len + (if h.version < 16 && len >= 8 && (at + 12) % 8 != 0 then 4 else 0);
      Wraps(at + 4, len);
    } else {
      behind := at + 4;
    }
    PtrExactly(h, at, behind - at);
    AlignExactly(behind, next);
    assert Item(h, blob, at, tag, behind);
  }

  lemma {:induction false} ItemIsNext(h: Header, blob: Buf, at: nat, tag: nat, behind: nat)
    requires h.total <= |blob| && h.total <= INT_MAX && Item(h, blob, at, tag, behind)
    ensures at < behind && at < U32 && NextTag(h, blob, at) == (tag, Align(behind, 4))
  {
    hide OffsetPtr, SkipName, Word32, Align, FirstZero;
    PtrExactly(h, at, 4);
    PtrExactly(h, at + 4, 4);
    if tag == BEGIN_NODE {
      assert at + 4 < behind by {
        ZeroBeyond(h, blob, at + 4, behind - 1);
      }
      SkipNameExactly(h, blob, at + 4, behind - 1);
    } else if tag == PROP {
      var len := Word32(blob, h.structAt + at + 4);
      Wraps(at + 4, len);
    }
    PtrExactly(h, at, behind - at);
  }

  lemma ZeroBeyond(h: Header, blob: Buf, from: nat, z: nat)
    requires h.total <= |blob| && FirstZero(h, blob, from, z)
    ensures from <= z
  {
  }

  /** fdt_next_tag finds exactly the items, and the offset behind them that is a multiple of four. */
  lemma NextTagExactly(h: Header, blob: Buf, at: nat, tag: nat, next: nat)
    requires h.total <= |blob| && h.total <= INT_MAX && at < U32
    ensures NextTag(h, blob, at) == (tag, next) <==> Step(h, blob, at, tag, next)
  {
    hide NextTag, Item, Align;
    if Step(h, blob, at, tag, next) {
      var behind: nat :| Item(h, blob, at, tag, behind) && behind <= next < behind + 4;
      ItemIsNext(h, blob, at, tag, behind);
      AlignExactly(behind, next);
    }
    if NextTag(h, blob, at).1 >= 0 {
      NextTagStops(h, blob, at);
    }
  }

  // ---------------------------------------------------------------------------------------------
  // What a property and a root must look like
  // ---------------------------------------------------------------------------------------------

  /** How many bytes the strings block has; before version 17 it runs to the end of the blob. */
  function StringsEnd(h: Header): int {
    if h.version >= 17 then h.stringsSize else h.total - h.stringsAt
  }

  /** The blocks lie in the blob. */
  predicate Fits(h: Header) {
    && h.magic == MAGIC && 2 <= h.version && h.lastComp <= 17 && h.lastComp <= h.version
    && HeaderSize(h.version) <= h.total <= INT_MAX && HeaderSize(h.version) <= h.reserveAt <= h.total
    && HeaderSize(h.version) <= h.structAt
    && h.structAt + (if h.version >= 17 then h.structSize else 0) <= h.total
    && HeaderSize(h.version) <= h.stringsAt && h.stringsAt + h.stringsSize <= h.total
  }

  /** A zero byte stands in the strings block at `off` or behind. */
  ghost predicate Terminated(h: Header, blob: Buf, off: nat)
    requires h.total <= |blob| && Fits(h)
  {
    exists a :: h.stringsAt + off <= a < h.stringsAt + StringsEnd(h) && blob[a] == 0
  }

  lemma {:induction false} StringAtExactly(b: Buf, pos: nat)
    ensures StringAt(b, pos).Some? <==> exists a :: pos <= a < |b| && b[a] == 0
    decreases |b| - pos
  {
    if pos < |b| {
      StringAtExactly(b, pos + 1);
    }
  }

  /** fdt_get_string finds a name exactly if it ends inside the strings block. */
  lemma CheckStringExactly(h: Header, blob: Buf, off: U)
    requires h.total <= |blob| && Fits(h)
    ensures CheckString(h, blob, true, Signed(off))
         == if h.total == INT_MAX then TRUNCATED
            else if off >= StringsEnd(h) then BADOFFSET
            else if Terminated(h, blob, off) then 0 else TRUNCATED
  {
    hide StringAt, HeaderSize;
    var abs := h.stringsAt + off;
    var end := h.stringsAt + StringsEnd(h);
    if off <= INT_MAX {
      Wraps(off, h.stringsAt);
      StringAtExactly(blob[..end], abs);
      assert forall a :: 0 <= a < end ==> blob[..end][a] == blob[a];
    }
  }

  /** The name of the property at `at` ends inside the strings block. */
  ghost predicate NamedProp(h: Header, blob: Buf, at: nat)
    requires h.total <= |blob| && Fits(h)
  {
    at + 12 <= Limit(h) && h.total < INT_MAX && Terminated(h, blob, Word32(blob, h.structAt + at + 8))
  }

  lemma CheckPropExactly(h: Header, blob: Buf, at: nat, next: nat)
    requires h.total <= |blob| && Fits(h) && at % 4 == 0 && Step(h, blob, at, PROP, next) && at < U32
    ensures CheckProp(h, blob, true, at)
         == if NamedProp(h, blob, at) then 0
            else if h.total < INT_MAX && Word32(blob, h.structAt + at + 8) >= StringsEnd(h) then BADOFFSET
            else TRUNCATED
  {
    hide NextTag, Step, Fits, CheckString, Word32;
    assert h.total <= INT_MAX by {
      TotalFits(h);
    }
    NextTagExactly(h, blob, at, PROP, next);
    assert at + 12 <= Limit(h) by {
      StepInside(h, blob, at, PROP, next);
    }
    CheckStringExactly(h, blob, Word32(blob, h.structAt + at + 8));
  }

  lemma TotalFits(h: Header)
    requires Fits(h)
    ensures h.total <= INT_MAX
  {
  }

  lemma StepInside(h: Header, blob: Buf, at: nat, tag: nat, next: nat)
    requires h.total <= |blob| && h.total <= INT_MAX && Step(h, blob, at, tag, next)
    ensures at < next && next % 4 == 0 && at + 4 <= Limit(h) && at < INT_MAX && next <= h.total + 3
    ensures tag == PROP ==> at + 12 <= Limit(h)
    ensures tag in {BEGIN_NODE, END_NODE, PROP, NOP, END}
  {
    hide NextTag, Word32, FirstZero, Align;
    var behind: nat :| Item(h, blob, at, tag, behind) && behind <= next < behind + 4;
    ItemIsNext(h, blob, at, tag, behind);
  }

  /** The name of the node at `at` ends at `z` and is empty, or up to version 15 a path that ends with a slash. */
  ghost predicate EmptyName(h: Header, blob: Buf, at: nat, z: nat)
    requires h.total <= |blob|
  {
    && FirstZero(h, blob, at + 4, z)
    && if h.version >= 16 then z == at + 4 else z > at + 4 && blob[h.structAt + z - 1] == SLASH
  }

  ghost predicate NamelessRoot(h: Header, blob: Buf, at: nat)
    requires h.total <= |blob|
  {
    h.total < INT_MAX && exists z: nat :: EmptyName(h, blob, at, z)
  }

  lemma RootNamedExactly(h: Header, blob: Buf, at: nat, z: nat)
    requires h.total <= |blob| && at + 4 < U32 && h.structAt + at + 4 < h.total && FirstZero(h, blob, at + 4, z)
    ensures RootNamed(h, blob, at) <==> EmptyName(h, blob, at, z)
  {
    hide SkipName;
    SkipNameExactly(h, blob, at + 4, z);
  }

  lemma ZeroUnique(h: Header, blob: Buf, from: nat, y: nat, z: nat)
    requires h.total <= |blob| && FirstZero(h, blob, from, y) && FirstZero(h, blob, from, z)
    ensures y == z
  {
  }

  lemma CheckRootExactly(h: Header, blob: Buf, at: nat, next: nat)
    requires h.total <= |blob| && Fits(h) && at % 4 == 0 && Step(h, blob, at, BEGIN_NODE, next) && at < U32
    ensures CheckRootName(h, blob, true, at) == 0 <==> NamelessRoot(h, blob, at)
  {
    hide NextTag, Word32, FirstZero, RootNamed, HeaderSize;
    NextTagExactly(h, blob, at, BEGIN_NODE, next);
    var behind: nat :| Item(h, blob, at, BEGIN_NODE, behind) && behind <= next < behind + 4;
    RootNamedExactly(h, blob, at, behind - 1);
    forall z: nat | EmptyName(h, blob, at, z)
      ensures z == behind - 1
    {
      ZeroUnique(h, blob, at + 4, z, behind - 1);
    }
  }

  // ---------------------------------------------------------------------------------------------
  // The walk
  // ---------------------------------------------------------------------------------------------

  /** The items at `ats` have these tags and follow each other; the last of `ats` is where they end. */
  ghost predicate Walk(h: Header, blob: Buf, ats: seq<nat>, tags: seq<nat>)
    requires h.total <= |blob|
  {
    |ats| == |tags| + 1 && forall i :: 0 <= i < |tags| ==> Step(h, blob, ats[i], tags[i], ats[i + 1])
  }

  /** The item at `at`, inside `depth` nodes, is what the check demands. */
  ghost predicate Fine(h: Header, blob: Buf, at: nat, tag: nat, depth: int)
    requires h.total <= |blob| && Fits(h)
  {
    (tag == PROP ==> NamedProp(h, blob, at)) && (tag == BEGIN_NODE && depth == 0 ==> NamelessRoot(h, blob, at))
  }

  ghost predicate FineAt(h: Header, blob: Buf, ats: seq<nat>, tags: seq<nat>, depth: nat, i: nat)
    requires h.total <= |blob| && Fits(h) && i < |tags| <= |ats|
  {
    Fine(h, blob, ats[i], tags[i], depth + Depth(tags[..i]))
  }

  ghost predicate AllFine(h: Header, blob: Buf, ats: seq<nat>, tags: seq<nat>, depth: nat)
    requires h.total <= |blob| && Fits(h)
  {
    |tags| <= |ats| && forall i: nat :: i < |tags| ==> FineAt(h, blob, ats, tags, depth, i)
  }

  /** Nothing but END follows the end of an outermost node. */
  ghost predicate OneRoot(tags: seq<nat>, depth: nat) {
    forall i :: 0 <= i < |tags| - 2 && tags[i] == END_NODE ==> depth + Depth(tags[..i + 1]) != 0
  }

  ghost predicate Accepted(h: Header, blob: Buf, ats: seq<nat>, tags: seq<nat>, depth: nat)
    requires h.total <= |blob| && Fits(h)
  {
    Walk(h, blob, ats, tags) && Balanced(tags, depth) && AllFine(h, blob, ats, tags, depth) && OneRoot(tags, depth)
  }

  lemma {:induction false} BalancedStep(tag: nat, tags: seq<nat>, depth: nat)
    requires tags != []
    ensures var deeper := depth + Depth([tag]);
            Balanced([tag] + tags, depth) <==> tag != END && deeper >= 0 && Balanced(tags, deeper)
  {
    var all := [tag] + tags;
    var deeper := depth + Depth([tag]);
    if tag != END && deeper >= 0 && Balanced(tags, deeper) {
      BalancedCons(tag, tags, depth);
    }
    if Balanced(all, depth) {
      assert all[0] == tag && all[..1] == [tag];
      assert all[..|all|] == all && tags[..|tags|] == tags;
      DepthCons(tag, tags, |all|);
      forall k | 0 <= k <= |tags|
        ensures deeper + Depth(tags[..k]) >= 0
      {
        DepthCons(tag, tags, k + 1);
        assert depth + Depth(all[..k + 1]) >= 0;
      }
      assert forall k :: 0 <= k < |tags| ==> tags[k] == all[k + 1];
    }
  }

  lemma {:induction false} WalkStep(h: Header, blob: Buf, at: nat, tag: nat, ats: seq<nat>, tags: seq<nat>)
    requires h.total <= |blob| && ats != []
    ensures Walk(h, blob, [at] + ats, [tag] + tags)
            <==> Step(h, blob, at, tag, ats[0]) && Walk(h, blob, ats, tags)
  {
    hide Step;
    var allAts, all := [at] + ats, [tag] + tags;
    assert all[0] == tag && allAts[0] == at && allAts[1] == ats[0];
    assert forall i :: 0 < i < |allAts| ==> allAts[i] == ats[i - 1];
    assert forall i :: 0 <= i < |ats| ==> ats[i] == allAts[i + 1];
    assert forall i :: 0 <= i < |tags| ==> tags[i] == all[i + 1];
    if Walk(h, blob, allAts, all) {
      forall i | 0 <= i < |tags|
        ensures Step(h, blob, ats[i], tags[i], ats[i + 1])
      {
        assert Step(h, blob, allAts[i + 1], all[i + 1], allAts[i + 2]);
      }
    }
  }

  lemma FineShift(h: Header, blob: Buf, at: nat, tag: nat, ats: seq<nat>, tags: seq<nat>, depth: nat, i: nat)
    requires h.total <= |blob| && Fits(h) && depth + Depth([tag]) >= 0 && i < |tags| <= |ats|
    ensures FineAt(h, blob, [at] + ats, [tag] + tags, depth, i + 1)
            <==> FineAt(h, blob, ats, tags, depth + Depth([tag]), i)
  {
    hide Fine, Fits, Depth;
    DepthCons(tag, tags, i + 1);
  }

  lemma FineFirst(h: Header, blob: Buf, at: nat, tag: nat, ats: seq<nat>, tags: seq<nat>, depth: nat)
    requires h.total <= |blob| && Fits(h) && |tags| <= |ats|
    ensures FineAt(h, blob, [at] + ats, [tag] + tags, depth, 0) <==> Fine(h, blob, at, tag, depth)
  {
    hide Fine, Fits;
    assert ([tag] + tags)[..0] == [];
  }

  lemma {:induction false} FineStep(h: Header, blob: Buf, at: nat, tag: nat, ats: seq<nat>, tags: seq<nat>,
                                    depth: nat)
    requires h.total <= |blob| && Fits(h) && depth + Depth([tag]) >= 0
    ensures AllFine(h, blob, [at] + ats, [tag] + tags, depth)
            <==> Fine(h, blob, at, tag, depth) && AllFine(h, blob, ats, tags, depth + Depth([tag]))
  {
    hide Fine, Fits, FineAt, Depth;
    var allAts, all, deeper := [at] + ats, [tag] + tags, depth + Depth([tag]);
    if |ats| >= |tags| {
      FineFirst(h, blob, at, tag, ats, tags, depth);
      forall i: nat | i < |tags|
        ensures FineAt(h, blob, allAts, all, depth, i + 1) <==> FineAt(h, blob, ats, tags, deeper, i)
      {
        FineShift(h, blob, at, tag, ats, tags, depth, i);
      }
      if Fine(h, blob, at, tag, depth) && AllFine(h, blob, ats, tags, deeper) {
        forall i: nat | i < |all|
          ensures FineAt(h, blob, allAts, all, depth, i)
        {
          assert i > 0 ==> FineAt(h, blob, ats, tags, deeper, i - 1);
        }
      }
    }
  }

  lemma {:induction false} OneRootStep(tag: nat, tags: seq<nat>, depth: nat)
    requires tags != [] && depth + Depth([tag]) >= 0
    ensures OneRoot([tag] + tags, depth)
            <==> OneRoot(tags, depth + Depth([tag])) && (tag == END_NODE && depth == 1 ==> |tags| == 1)
  {
    var all, deeper := [tag] + tags, depth + Depth([tag]);
    DepthOne(tag);
    assert all[..1] == [tag] && all[0] == tag;
    forall i | 0 <= i < |tags|
      ensures all[i + 1] == tags[i] && depth + Depth(all[..i + 2]) == deeper + Depth(tags[..i + 1])
    {
      DepthCons(tag, tags, i + 2);
    }
    if OneRoot(tags, deeper) && (tag == END_NODE && depth == 1 ==> |tags| == 1) {
      forall i | 0 <= i < |all| - 2 && all[i] == END_NODE
        ensures depth + Depth(all[..i + 1]) != 0
      {
        assert i > 0 ==> && tags[i - 1] == END_NODE
                         && depth + Depth(all[..i - 1 + 2]) == deeper + Depth(tags[..i - 1 + 1]);
      }
    }
    if OneRoot(all, depth) {
      forall i | 0 <= i < |tags| - 2 && tags[i] == END_NODE
        ensures deeper + Depth(tags[..i + 1]) != 0
      {
        assert all[i + 1] == END_NODE && depth + Depth(all[..i + 1 + 1]) != 0;
      }
    }
  }

  /** What the acceptance of a walk says about its first item and about the rest. */
  lemma AcceptedStep(h: Header, blob: Buf, at: nat, tag: nat, ats: seq<nat>, tags: seq<nat>, depth: nat)
    requires h.total <= |blob| && Fits(h) && tags != [] && ats != []
    ensures var deeper := depth + Depth([tag]);
            Accepted(h, blob, [at] + ats, [tag] + tags, depth)
            <==> && tag != END && deeper >= 0 && Step(h, blob, at, tag, ats[0]) && Fine(h, blob, at, tag, depth)
                 && (tag == END_NODE && depth == 1 ==> |tags| == 1) && Accepted(h, blob, ats, tags, deeper)
  {
    hide Walk, Balanced, AllFine, OneRoot, Step, Fine, Depth, Fits;
    BalancedStep(tag, tags, depth);
    WalkStep(h, blob, at, tag, ats, tags);
    if depth + Depth([tag]) >= 0 {
      FineStep(h, blob, at, tag, ats, tags, depth);
      OneRootStep(tag, tags, depth);
    }
  }

  // ---------------------------------------------------------------------------------------------
  // The loop of the check
  // ---------------------------------------------------------------------------------------------

  /** Some walk from `offset` on is accepted; if the end is expected, it is END alone. */
  ghost predicate SomeWalk(h: Header, blob: Buf, offset: nat, depth: nat, expectEnd: bool)
    requires h.total <= |blob| && Fits(h)
  {
    exists ats: seq<nat>, tags: seq<nat> ::
      && Accepted(h, blob, ats, tags, depth) && |ats| == |tags| + 1 && ats[0] == offset
      && (expectEnd ==> |tags| == 1)
  }

  /** The loop accepts `offset` and what follows. */
  predicate Passes(h: Header, blob: Buf, offset: nat, depth: nat, expectEnd: bool)
    requires h.total <= |blob| && h.total <= INT_MAX && offset <= h.total + 3
  {
    CheckFrom(h, blob, true, offset, depth, expectEnd) == 0
  }

  lemma EndAlone(h: Header, blob: Buf, at: nat, next: nat, depth: nat)
    requires h.total <= |blob| && Fits(h)
    ensures Accepted(h, blob, [at, next], [END], depth) <==> depth == 0 && Step(h, blob, at, END, next)
  {
    hide Step, Fits;
    var ats, tags := [at, next], [END];
    DepthOne(END);
    assert tags[..0] == [] && tags[..1] == tags && Depth([]) == 0;
    assert ats[0] == at && ats[0 + 1] == next && tags[0] == END;
    if depth == 0 && Step(h, blob, at, END, next) {
      assert Walk(h, blob, ats, tags) && AllFine(h, blob, ats, tags, depth);
    }
    if Walk(h, blob, ats, tags) {
      assert Step(h, blob, ats[0], tags[0], ats[0 + 1]);
    }
  }

  /** One turn of the loop. */
  lemma LoopStep(h: Header, blob: Buf, at: nat, tag: nat, next: nat, depth: nat, expectEnd: bool)
    requires h.total <= |blob| && Fits(h) && at % 4 == 0 && at <= h.total + 3 && depth <= at
    requires Step(h, blob, at, tag, next)
    ensures at < next <= h.total + 3 && h.total <= INT_MAX
    ensures tag == END ==> (Passes(h, blob, at, depth, expectEnd) <==> depth == 0)
    ensures tag != END ==>
              var deeper := depth + Depth([tag]);
              Passes(h, blob, at, depth, expectEnd)
              <==> && !expectEnd && deeper >= 0 && Fine(h, blob, at, tag, depth)
                   && Passes(h, blob, next, deeper, tag == END_NODE && depth == 1)
  {
    hide Step, NextTag, CheckProp, CheckRootName, NamedProp, NamelessRoot, Fits;
    assert h.total <= INT_MAX by {
      TotalFits(h);
    }
    StepInside(h, blob, at, tag, next);
    NextTagExactly(h, blob, at, tag, next);
    DepthOne(tag);
    if tag == PROP {
      CheckPropExactly(h, blob, at, next);
    } else if tag == BEGIN_NODE {
      CheckRootExactly(h, blob, at, next);
    }
  }

  lemma {:induction false} PassedWalk(h: Header, blob: Buf, at: nat, depth: nat, expectEnd: bool)
    returns (ats: seq<nat>, tags: seq<nat>)
    requires h.total <= |blob| && Fits(h) && at % 4 == 0 && at <= h.total + 3 && depth <= at
    requires Passes(h, blob, at, depth, expectEnd)
    ensures Accepted(h, blob, ats, tags, depth) && |ats| == |tags| + 1 && ats[0] == at
    ensures expectEnd ==> |tags| == 1
    decreases h.total + 3 - at
  {
    hide NextTag, Step, Accepted, Fits, Passes;
    TotalFits(h);
    var (tag, next) := NextTag(h, blob, at);
    assert next >= 0 by {
      PassesMeans(h, blob, at, depth, expectEnd);
    }
    NextTagExactly(h, blob, at, tag, next);
    LoopStep(h, blob, at, tag, next, depth, expectEnd);
    StepInside(h, blob, at, tag, next);
    if tag == END {
      ats, tags := [at, next], [END];
      EndAlone(h, blob, at, next, depth);
    } else {
      DepthOne(tag);
      var restAts, rest := PassedWalk(h, blob, next, depth + Depth([tag]), tag == END_NODE && depth == 1);
      AcceptedEnds(h, blob, restAts, rest, depth + Depth([tag]));
      AcceptedStep(h, blob, at, tag, restAts, rest, depth);
      ats, tags := [at] + restAts, [tag] + rest;
    }
  }

  lemma PassesMeans(h: Header, blob: Buf, at: nat, depth: nat, expectEnd: bool)
    requires h.total <= |blob| && h.total <= INT_MAX && at <= h.total + 3
    requires Passes(h, blob, at, depth, expectEnd)
    ensures NextTag(h, blob, at).1 >= 0
  {
    hide NextTag, CheckProp, CheckRootName;
  }

  lemma AcceptedEnds(h: Header, blob: Buf, ats: seq<nat>, tags: seq<nat>, depth: nat)
    requires h.total <= |blob| && Fits(h) && Accepted(h, blob, ats, tags, depth)
    ensures |ats| == |tags| + 1 && tags != [] && tags[|tags| - 1] == END
    ensures Step(h, blob, ats[0], tags[0], ats[1])
  {
    hide Step, AllFine, OneRoot, Fits, Depth;
  }

  lemma {:induction false} WalkPasses(h: Header, blob: Buf, ats: seq<nat>, tags: seq<nat>, depth: nat, expectEnd: bool)
    requires h.total <= |blob| && Fits(h) && Accepted(h, blob, ats, tags, depth)
    requires |ats| == |tags| + 1 && ats[0] % 4 == 0 && ats[0] <= h.total + 3 && depth <= ats[0]
    requires expectEnd ==> |tags| == 1
    ensures Passes(h, blob, ats[0], depth, expectEnd)
    decreases |tags|
  {
    hide Step, Accepted, Fits, Passes, Fine;
    AcceptedEnds(h, blob, ats, tags, depth);
    LoopStep(h, blob, ats[0], tags[0], ats[1], depth, expectEnd);
    if |tags| == 1 {
      assert ats == [ats[0], ats[1]] && tags == [END];
      EndAlone(h, blob, ats[0], ats[1], depth);
    } else {
      DepthOne(tags[0]);
      StepInside(h, blob, ats[0], tags[0], ats[1]);
      assert ats == [ats[0]] + ats[1..] && tags == [tags[0]] + tags[1..];
      AcceptedStep(h, blob, ats[0], tags[0], ats[1..], tags[1..], depth);
      WalkPasses(h, blob, ats[1..], tags[1..], depth + Depth([tags[0]]), tags[0] == END_NODE && depth == 1);
    }
  }

  lemma LoopExactly(h: Header, blob: Buf, at: nat, depth: nat, expectEnd: bool)
    requires h.total <= |blob| && Fits(h) && at % 4 == 0 && at <= h.total + 3 && depth <= at
    ensures h.total <= INT_MAX
    ensures Passes(h, blob, at, depth, expectEnd) <==> SomeWalk(h, blob, at, depth, expectEnd)
  {
    hide Accepted, Fits, Passes;
    TotalFits(h);
    if Passes(h, blob, at, depth, expectEnd) {
      var ats, tags := PassedWalk(h, blob, at, depth, expectEnd);
      assert Accepted(h, blob, ats, tags, depth);
    }
    if SomeWalk(h, blob, at, depth, expectEnd) {
      var ats: seq<nat>, tags: seq<nat> :|
        && Accepted(h, blob, ats, tags, depth) && |ats| == |tags| + 1 && ats[0] == at
        && (expectEnd ==> |tags| == 1);
      WalkPasses(h, blob, ats, tags, depth, expectEnd);
    }
  }

  // ---------------------------------------------------------------------------------------------
  // The reserve list
  // ---------------------------------------------------------------------------------------------

  /** Entry `n` of the reserve list lies in the blob. */
  predicate EntryFits(h: Header, n: nat) {
    h.reserveAt + 16 * n + 16 <= h.total
  }

  predicate EntryEnds(h: Header, blob: Buf, n: nat)
    requires h.total <= |blob|
  {
    EntryFits(h, n) && NumberAt(blob, h.reserveAt + 16 * n + 8, 8) == 0
  }

  /** Entry `n` is the first from entry `i` on whose size is zero. */
  ghost predicate ListEnds(h: Header, blob: Buf, i: nat, n: nat)
    requires h.total <= |blob|
  {
    i <= n && EntryEnds(h, blob, n) && forall k: nat :: i <= k < n ==> !EntryEnds(h, blob, k)
  }

  lemma {:induction false} CountReserveExactly(h: Header, blob: Buf, i: nat, n: nat)
    requires h.total <= |blob| && h.total <= INT_MAX && i * ENTRY <= h.total
    ensures CountReserve(h, blob, i) == n <==> ListEnds(h, blob, i, n)
    decreases h.total - i * ENTRY
  {
    hide NumberAt;
    Wraps(h.reserveAt, i * ENTRY);
    assert EntryFits(h, n) && i <= n ==> EntryFits(h, i);
    if EntryFits(h, i) && !EntryEnds(h, blob, i) {
      CountReserveExactly(h, blob, i + 1, n);
    }
  }

  // ---------------------------------------------------------------------------------------------
  // The full check
  // ---------------------------------------------------------------------------------------------

  /** The blob is big enough for its header, and what the header says about the blocks fits. */
  predicate Framed(blob: Buf) {
    && V1_SIZE <= |blob| && HeaderSize(Word32(blob, 20)) <= |blob|
    && Fits(HeaderOf(blob)) && HeaderOf(blob).total <= |blob|
  }

  ghost predicate ReserveEnds(h: Header, blob: Buf)
    requires h.total <= |blob|
  {
    exists n: nat :: ListEnds(h, blob, 0, n)
  }

  /**
   fdt_check_full accepts exactly the blobs whose blocks lie inside them, whose reserve list ends,
   and whose items follow each other up to END, properly nested, with at most one root, which is
   nameless, and with the names of all properties in the strings block.
   */
  lemma AcceptsExactly(blob: Buf, aligned: bool)
    ensures CheckFull(blob, aligned) == 0 <==>
              && aligned && Framed(blob) && ReserveEnds(HeaderOf(blob), blob)
              && SomeWalk(HeaderOf(blob), blob, 0, 0, false)
  {
    hide HeaderOf, Word32, CountReserve, CheckFrom, CheckHeader, SomeWalk, HeaderSize, ListEnds;
    if V1_SIZE <= |blob| && HeaderSize(Word32(blob, 20)) <= |blob| {
      var h := HeaderOf(blob);
      CheckHeaderExact(h, aligned);
      if h.total <= |blob| && CheckHeader(h, aligned) == 0 {
        forall n: nat
          ensures CountReserve(h, blob, 0) == n <==> ListEnds(h, blob, 0, n)
        {
          CountReserveExactly(h, blob, 0, n);
        }
        assert CountReserve(h, blob, 0) >= 0 ==> ListEnds(h, blob, 0, CountReserve(h, blob, 0));
        LoopExactly(h, blob, 0, 0, false);
      }
    }
  }

  // ---------------------------------------------------------------------------------------------
  // Properties
  // ---------------------------------------------------------------------------------------------

  /** Two walks from the same offset agree as far as the shorter one goes. */
  lemma {:induction false} SameWalk(h: Header, blob: Buf, ats: seq<nat>, tags: seq<nat>, ats': seq<nat>,
                                    tags': seq<nat>, k: nat)
    requires h.total <= |blob| && h.total <= INT_MAX && Walk(h, blob, ats, tags) && Walk(h, blob, ats', tags')
    requires ats[0] == ats'[0] && k <= |tags| && k <= |tags'|
    ensures ats[k] == ats'[k] && (k < |tags| && k < |tags'| ==> tags[k] == tags'[k])
  {
    hide Step;
    if k > 0 {
      SameWalk(h, blob, ats, tags, ats', tags', k - 1);
      SameStep(h, blob, ats[k - 1], tags[k - 1], ats[k], tags'[k - 1], ats'[k]);
    }
    if k < |tags| && k < |tags'| {
      SameStep(h, blob, ats[k], tags[k], ats[k + 1], tags'[k], ats'[k + 1]);
    }
  }

  lemma SameStep(h: Header, blob: Buf, at: nat, tag: nat, next: nat, tag': nat, next': nat)
    requires h.total <= |blob| && h.total <= INT_MAX
    requires Step(h, blob, at, tag, next) && Step(h, blob, at, tag', next')
    ensures tag == tag' && next == next'
  {
    hide Step, NextTag;
    StepInside(h, blob, at, tag, next);
    NextTagExactly(h, blob, at, tag, next);
    NextTagExactly(h, blob, at, tag', next');
  }

  /** The walk from the start of the structure block meets a property at `at` before any END. */
  ghost predicate Meets(h: Header, blob: Buf, ats: seq<nat>, tags: seq<nat>, at: nat)
    requires h.total <= |blob|
  {
    && Walk(h, blob, ats, tags) && ats[0] == 0 && END !in tags
    && tags != [] && tags[|tags| - 1] == PROP && ats[|tags| - 1] == at
  }

  /**
   In an accepted blob the name offset of every property that the walk meets points to a zero
   byte, or to bytes before one, in the strings block. A blob with any other property is refused.
   */
  lemma PropertiesNamed(blob: Buf, aligned: bool, ats: seq<nat>, tags: seq<nat>, at: nat)
    requires V1_SIZE <= |blob| && HeaderOf(blob).total <= |blob| && Meets(HeaderOf(blob), blob, ats, tags, at)
    ensures CheckFull(blob, aligned) == 0 ==>
              var h := HeaderOf(blob);
              && Fits(h) && at + 12 <= Limit(h)
              && var off := Word32(blob, h.structAt + at + 8);
                 off < StringsEnd(h) && exists a :: h.stringsAt + off <= a < h.stringsAt + StringsEnd(h) && blob[a] == 0
  {
    hide HeaderOf, Word32, CheckFull, Step, Balanced, OneRoot, FineAt, Fits;
    if CheckFull(blob, aligned) == 0 {
      AcceptsExactly(blob, aligned);
      var h := HeaderOf(blob);
      TotalFits(h);
      var ats', tags' :| Accepted(h, blob, ats', tags', 0) && |ats'| == |tags'| + 1 && ats'[0] == 0;
      var k: nat := |tags| - 1;
      LongEnough(h, blob, ats, tags, ats', tags');
      SameWalk(h, blob, ats, tags, ats', tags', k);
      PropNamed(h, blob, ats', tags', k);
    }
  }

  lemma LongEnough(h: Header, blob: Buf, ats: seq<nat>, tags: seq<nat>, ats': seq<nat>, tags': seq<nat>)
    requires h.total <= |blob| && Fits(h) && Walk(h, blob, ats, tags) && Accepted(h, blob, ats', tags', 0)
    requires ats[0] == ats'[0] && END !in tags
    ensures |tags| < |tags'|
  {
    hide Step, AllFine, OneRoot, Fits, Depth;
    TotalFits(h);
    if |tags| >= |tags'| {
      SameWalk(h, blob, ats, tags, ats', tags', |tags'| - 1);
    }
  }

  lemma PropNamed(h: Header, blob: Buf, ats: seq<nat>, tags: seq<nat>, k: nat)
    requires h.total <= |blob| && Fits(h) && Accepted(h, blob, ats, tags, 0) && k < |tags| && tags[k] == PROP
    ensures NamedProp(h, blob, ats[k])
  {
    hide Walk, Balanced, OneRoot, Fits, NamedProp, NamelessRoot, Depth;
    assert FineAt(h, blob, ats, tags, 0, k);
  }
}
