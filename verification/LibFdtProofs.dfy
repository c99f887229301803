/** What the compiler writes, libfdt accepts: the walk over the tags and the full check. */
module LibFdtProofs {

  import opened Basics
  import opened FdtBytes
  import opened FdtTree
  import opened FdtRoundTrip
  import opened FdtBlob
  import opened LibFdt

  /** A version 17 blob with these blocks, smaller than the largest `int`. */
  ghost predicate Holds(h: Header, blob: Buf, dt: Buf, str: Buf) {
    && h.magic == MAGIC && h.version == 17 && h.lastComp == 16 && h.total == |blob| < INT_MAX
    && h.structSize == |dt| && At(blob, h.structAt, dt)
    && h.stringsSize == |str| && At(blob, h.stringsAt, str)
  }

  // ---------------------------------------------------------------------------------------------
  // One token
  // ---------------------------------------------------------------------------------------------

  lemma PtrInside(h: Header, blob: Buf, dt: Buf, str: Buf, pos: nat, len: nat)
    requires Holds(h, blob, dt, str) && pos + len <= |dt|
    ensures OffsetPtr(h, pos, len) == Some(h.structAt + pos)
  {
  }

  lemma {:induction false} NameSkipped(h: Header, blob: Buf, dt: Buf, str: Buf, pos: nat, name: Buf)
    requires Holds(h, blob, dt, str) && At(dt, pos, name + [0]) && NulFree(name)
    ensures SkipName(h, blob, pos) == Some(pos + |name| + 1)
    decreases |name|
  {
    hide OffsetPtr;
    PtrInside(h, blob, dt, str, pos, 1);
    AtByte(dt, pos, name + [0], 0);
    AtByte(blob, h.structAt, dt, pos);
    if name != [] {
      assert name + [0] == [name[0]] + (name[1..] + [0]);
      AtSplit(dt, pos, [name[0]], name[1..] + [0]);
      NameSkipped(h, blob, dt, str, pos + 1, name[1..]);
    }
  }

  lemma WordInside(h: Header, blob: Buf, dt: Buf, str: Buf, pos: nat, v: nat)
    requires Holds(h, blob, dt, str) && At(dt, pos, Word(v)) && v < U32
    ensures OffsetPtr(h, pos, 4) == Some(h.structAt + pos) && Word32(blob, h.structAt + pos) == v
  {
    hide Word, OffsetPtr;
    PtrInside(h, blob, dt, str, pos, 4);
    AtInside(blob, h.structAt, dt, pos, Word(v));
    WordAt(blob, h.structAt + pos, v);
  }

  lemma BeginTag(h: Header, blob: Buf, dt: Buf, str: Buf, pos: nat, name: Buf)
    requires Holds(h, blob, dt, str) && At(dt, pos, Chunk(Begin(name))) && pos % 4 == 0 && NulFree(name)
    ensures NextTag(h, blob, pos) == (BEGIN_NODE, pos + |Chunk(Begin(name))|)
  {
    hide Word, OffsetPtr, SkipName, Word32;
    var s := name + [0];
    AtSplit(dt, pos, Word(BEGIN_NODE), Pad(s));
    WordInside(h, blob, dt, str, pos, BEGIN_NODE);
    assert Pad(s) == s + Pad(s)[|s|..];
    AtSplit(dt, pos + 4, s, Pad(s)[|s|..]);
    NameSkipped(h, blob, dt, str, pos + 4, name);
    PtrInside(h, blob, dt, str, pos, 4 + |s|);
    AlignShift(pos + 4, |s|);
  }

  lemma PropTag(h: Header, blob: Buf, dt: Buf, str: Buf, pos: nat, off: nat, val: Buf)
    requires Holds(h, blob, dt, str) && At(dt, pos, Chunk(Property(off, val))) && pos % 4 == 0 && off < U32
    ensures NextTag(h, blob, pos) == (PROP, pos + |Chunk(Property(off, val))|)
    ensures h.structAt + pos + 12 <= |blob| && Word32(blob, h.structAt + pos + 8) == off
  {
    hide Word, OffsetPtr, SkipName, Word32, Pad, At, Payload, Chunk, NextTag, Align, Holds;
    HoldsSizes(h, blob, dt, str);
    var t := Property(off, val);
    ChunkParts(dt, pos, t);
    PropPieces(dt, pos + 4, off, val);
    WordInside(h, blob, dt, str, pos, PROP);
    WordInside(h, blob, dt, str, pos + 4, |val|);
    WordInside(h, blob, dt, str, pos + 8, off);
    PtrInside(h, blob, dt, str, pos, 12 + |val|);
    PropTagFrom(h, blob, pos, |val|);
    PropEnd(pos, val);
  }

  lemma HoldsSizes(h: Header, blob: Buf, dt: Buf, str: Buf)
    requires Holds(h, blob, dt, str)
    ensures h.version == 17 && h.total == |blob| < INT_MAX && |dt| <= |blob|
  {
  }

  lemma PropEnd(pos: nat, val: Buf)
    requires pos % 4 == 0
    ensures Align(pos + 12 + |val|, 4) == pos + 12 + |Pad(val)|
  {
    AlignShift(pos + 12, |val|);
  }

  lemma PropTagFrom(h: Header, blob: Buf, pos: nat, len: nat)
    requires h.total <= |blob| && h.version == 17 && pos + 12 + len < INT_MAX
    requires OffsetPtr(h, pos, 4).Some? && Word32(blob, OffsetPtr(h, pos, 4).value) == PROP
    requires OffsetPtr(h, pos + 4, 4).Some? && Word32(blob, OffsetPtr(h, pos + 4, 4).value) == len
    requires OffsetPtr(h, pos, 12 + len).Some?
    ensures NextTag(h, blob, pos) == (PROP, Align(pos + 12 + len, 4))
  {
    hide OffsetPtr, SkipName, Word32, Align;
    var behind := pos + 12 + len;
    assert (len + (pos + 4)) % U32 == len + (pos + 4);
    assert behind - pos == 12 + len;
  }

  lemma ChunkParts(dt: Buf, pos: nat, t: Token)
    requires At(dt, pos, Chunk(t))
    ensures At(dt, pos, Word(Tag(t))) && At(dt, pos + 4, Payload(t)) && |Chunk(t)| == 4 + |Payload(t)|
  {
    hide Word, Payload;
    AtSplit(dt, pos, Word(Tag(t)), Payload(t));
  }

  lemma BareTag(h: Header, blob: Buf, dt: Buf, str: Buf, pos: nat, t: Token)
    requires Holds(h, blob, dt, str) && At(dt, pos, Chunk(t)) && pos % 4 == 0 && (t == End || t == Stop)
    ensures NextTag(h, blob, pos) == (Tag(t), pos + 4) && |Chunk(t)| == 4
  {
    hide Word, OffsetPtr, SkipName, Word32;
    assert Chunk(t) == Word(Tag(t));
    WordInside(h, blob, dt, str, pos, Tag(t));
    AlignShift(pos, 4);
  }

  // ---------------------------------------------------------------------------------------------
  // The walk over the tags
  // ---------------------------------------------------------------------------------------------

  /** The tags a caller sees who follows the next offsets until END or an error. */
  function TagWalk(h: Header, blob: Buf, offset: nat): seq<nat>
    requires h.total <= |blob| && h.total <= INT_MAX && offset <= h.total + 3
    decreases h.total + 3 - offset
  {
    var (tag, next) := NextTag(h, blob, offset);
    if next < 0 then [] else if tag == END then [END] else [tag] + TagWalk(h, blob, next)
  }

  function PropTags(n: nat): seq<nat> {
    if n == 0 then [] else [PROP] + PropTags(n - 1)
  }

  /** The tags of a tree in preorder. */
  function TreeTags(node: Node): seq<nat> {
    [BEGIN_NODE] + (PropTags(|node.props|) + (KidTags(node.children) + [END_NODE]))
  }

  function KidTags(kids: seq<Node>): seq<nat> {
    if kids == [] then [] else TreeTags(kids[0]) + KidTags(kids[1..])
  }

  function TokenTags(ts: seq<Token>): seq<nat> {
    if ts == [] then [] else [Tag(ts[0])] + TokenTags(ts[1..])
  }

  lemma {:induction false} TokenTagsAppend(a: seq<Token>, b: seq<Token>)
    ensures TokenTags(a + b) == TokenTags(a) + TokenTags(b)
    decreases |a|
  {
    if a == [] {
      assert a + b == b;
    } else {
      TokenTagsAppend(a[1..], b);
      assert (a + b)[1..] == a[1..] + b;
    }
  }

  lemma {:induction false} PropTokenTags(props: seq<Prop>, str: Buf)
    ensures TokenTags(PropTokens(props, str).0) == PropTags(|LiveProps(props)|)
    decreases |props|
  {
    if props != [] {
      PropTokenTags(props[1..], if props[0].deleted then str else Insert(str, props[0].name).0);
      if !props[0].deleted {
        var t := Property(Insert(str, props[0].name).1, props[0].val);
        var ts := PropTokens(props[1..], Insert(str, props[0].name).0).0;
        assert ([t] + ts)[1..] == ts;
      }
    }
  }

  /** The tokens of a node carry the tags of the live node. */
  lemma {:induction false} NodeTokenTags(node: Node, str: Buf)
    ensures TokenTags(NodeTokens(node, str).0) == if node.deleted then [] else TreeTags(Live(node))
    decreases node
  {
    if !node.deleted {
      var (ps, str1) := PropTokens(node.props, str);
      var ks := KidTokens(node.children, str1).0;
      PropTokenTags(node.props, str);
      KidTokenTags(node.children, str1);
      TokenTagsAppend([Begin(node.name)], ps + (ks + [End]));
      TokenTagsAppend(ps, ks + [End]);
      TokenTagsAppend(ks, [End]);
      assert TokenTags([Begin(node.name)]) == [BEGIN_NODE] && TokenTags([End]) == [END_NODE];
    }
  }

  lemma {:induction false} KidTokenTags(kids: seq<Node>, str: Buf)
    ensures TokenTags(KidTokens(kids, str).0) == KidTags(LiveKids(kids))
    decreases kids
  {
    if kids != [] {
      var (ts, str1) := NodeTokens(kids[0], str);
      NodeTokenTags(kids[0], str);
      KidTokenTags(kids[1..], str1);
      TokenTagsAppend(ts, KidTokens(kids[1..], str1).0);
      if kids[0].deleted {
        assert LiveKids(kids) == LiveKids(kids[1..]);
      } else {
        assert LiveKids(kids)[0] == Live(kids[0]) && LiveKids(kids)[1..] == LiveKids(kids[1..]);
      }
    }
  }

  /** A token whose strings are C strings and whose numbers fit in a word. */
  predicate Sendable(t: Token) {
    && (t.Begin? ==> NulFree(t.name))
    && (t.Property? ==> t.off < U32)
  }

  lemma TokenTag(h: Header, blob: Buf, dt: Buf, str: Buf, pos: nat, t: Token)
    requires Holds(h, blob, dt, str) && At(dt, pos, Chunk(t)) && pos % 4 == 0 && Sendable(t)
    ensures NextTag(h, blob, pos) == (Tag(t), pos + |Chunk(t)|)
  {
    hide NextTag, Chunk, Holds;
    match t
    case Begin(name) => BeginTag(h, blob, dt, str, pos, name);
    case Property(off, val) => PropTag(h, blob, dt, str, pos, off, val);
    case End => BareTag(h, blob, dt, str, pos, t);
    case Stop => BareTag(h, blob, dt, str, pos, t);
  }

  lemma {:induction false} WalkTokens(h: Header, blob: Buf, dt: Buf, str: Buf, pos: nat, ts: seq<Token>)
    requires Holds(h, blob, dt, str) && Placed(dt, pos, ts + [Stop], str)
    requires forall i :: 0 <= i < |ts| ==> Sendable(ts[i]) && ts[i] != Stop
    ensures TagWalk(h, blob, pos) == TokenTags(ts) + [END]
    decreases |ts|
  {
    hide Placed, NextTag, Chunk, Sendable;
    if ts == [] {
      assert ts + [Stop] == [Stop] + [];
      PlacedFirst(dt, pos, Stop, [], str);
      PlacedAligned(dt, pos, ts + [Stop], str);
      StopTag(h, blob, dt, str, pos);
    } else {
      assert ts + [Stop] == [ts[0]] + (ts[1..] + [Stop]);
      PlacedFirst(dt, pos, ts[0], ts[1..] + [Stop], str);
      PlacedAligned(dt, pos, ts + [Stop], str);
      TokenTag(h, blob, dt, str, pos, ts[0]);
      WalkTokens(h, blob, dt, str, pos + |Chunk(ts[0])|, ts[1..]);
      assert Tag(ts[0]) != END;
    }
  }

  lemma StopTag(h: Header, blob: Buf, dt: Buf, str: Buf, pos: nat)
    requires Holds(h, blob, dt, str) && At(dt, pos, Chunk(Stop)) && pos % 4 == 0
    ensures NextTag(h, blob, pos) == (END, pos + 4)
  {
    BareTag(h, blob, dt, str, pos, Stop);
  }

  ghost predicate AllSendable(ts: seq<Token>) {
    forall i :: 0 <= i < |ts| ==> Sendable(ts[i]) && ts[i] != Stop
  }

  lemma {:induction false} PropsSendable(props: seq<Prop>, str0: Buf, str: Buf)
    requires forall i :: 0 <= i < |props| ==> NulFree(props[i].name)
    requires PropTokens(props, str0).1 <= str && |str| < U32
    ensures AllSendable(PropTokens(props, str0).0)
    decreases |props|
  {
    hide NulFree, Insert;
    if props != [] {
      if props[0].deleted {
        PropsSendable(props[1..], str0, str);
      } else {
        var (str1, off) := Insert(str0, props[0].name);
        InsertReads(str0, props[0].name);
        PropsGrow(props[1..], str1);
        PropsSendable(props[1..], str1, str);
        assert Sendable(Property(off, props[0].val));
      }
    }
  }

  lemma {:induction false} NodeSendable(node: Node, str0: Buf, str: Buf)
    requires Named(node) && NodeTokens(node, str0).1 <= str && |str| < U32
    ensures AllSendable(NodeTokens(node, str0).0)
    decreases node
  {
    if !node.deleted {
      var str1 := PropTokens(node.props, str0).1;
      KidsGrow(node.children, str1);
      PropsSendable(node.props, str0, str);
      KidsSendable(node.children, str1, str);
    }
  }

  lemma {:induction false} KidsSendable(kids: seq<Node>, str0: Buf, str: Buf)
    requires AllNamed(kids) && KidTokens(kids, str0).1 <= str && |str| < U32
    ensures AllSendable(KidTokens(kids, str0).0)
    decreases kids
  {
    if kids != [] {
      var str1 := NodeTokens(kids[0], str0).1;
      KidsGrow(kids[1..], str1);
      NodeSendable(kids[0], str0, str);
      KidsSendable(kids[1..], str1, str);
    }
  }

  // ---------------------------------------------------------------------------------------------
  // The blob the compiler writes
  // ---------------------------------------------------------------------------------------------

  predicate Checkable(info: Info, o: Options) {
    Writable(info, o) && o.version == 17 && TotalSize(info, o) < INT_MAX
  }

  lemma BlobHolds(info: Info, o: Options)
    requires Checkable(info, o)
    ensures |ToBlob(info, o)| >= V17_SIZE
    ensures Holds(HeaderOf(ToBlob(info, o)), ToBlob(info, o), StructBlock(info.tree), StringsBlock(info.tree))
  {
    hide ReserveBlock, StructBlock, StringsBlock, ToBlob, PadLength, Named, NumberAt;
    HeaderRead(info, o);
    BlocksAt(info, o);
  }

  /** The tags of the blob are those of the live tree in preorder, and the walk ends with END. */
  lemma TagsVisited(info: Info, o: Options)
    requires Checkable(info, o)
    ensures |ToBlob(info, o)| >= V17_SIZE
    ensures HeaderOf(ToBlob(info, o)).total == |ToBlob(info, o)| < INT_MAX
    ensures TagWalk(HeaderOf(ToBlob(info, o)), ToBlob(info, o), 0)
         == (if info.tree.deleted then [] else TreeTags(Live(info.tree))) + [END]
  {
    hide ToBlob, Named, HeaderOf, TagWalk, Live, StructBlock, StringsBlock, PadLength, Encode;
    var blob := ToBlob(info, o);
    BlobHolds(info, o);
    HoldsSizes(HeaderOf(blob), blob, StructBlock(info.tree), StringsBlock(info.tree));
    TreePlaced(info.tree, HeaderOf(blob), blob);
    WalkTokens(HeaderOf(blob), blob, StructBlock(info.tree), StringsBlock(info.tree), 0, NodeTokens(info.tree, []).0);
    NodeTokenTags(info.tree, []);
  }

  lemma TreePlaced(tree: Node, h: Header, blob: Buf)
    requires Named(tree) && Holds(h, blob, StructBlock(tree), StringsBlock(tree))
    ensures Placed(StructBlock(tree), 0, NodeTokens(tree, []).0 + [Stop], StringsBlock(tree))
    ensures AllSendable(NodeTokens(tree, []).0)
  {
    assert StructBlock(tree)[0..|StructBlock(tree)|] == StructBlock(tree);
    StructPlaced(tree, StructBlock(tree));
    NodeSendable(tree, [], StringsBlock(tree));
  }

  // ---------------------------------------------------------------------------------------------
  // The full check
  // ---------------------------------------------------------------------------------------------

  lemma StringInBlob(h: Header, blob: Buf, dt: Buf, str: Buf, off: nat)
    requires Holds(h, blob, dt, str) && StringAt(str, off).Some? && off < |str|
    ensures h.stringsAt + |str| <= |blob| && StringAt(blob[..h.stringsAt + |str|], h.stringsAt + off).Some?
  {
    hide StringAt;
    var s, at, end := StringAt(str, off).value, h.stringsAt + off, h.stringsAt + |str|;
    AtInside(blob, h.stringsAt, str, off, s + [0]);
    assert blob[..end][at..at + |s + [0]|] == blob[at..at + |s + [0]|];
    StringRead(blob[..end], at, s);
  }

  lemma StringFine(h: Header, blob: Buf, dt: Buf, str: Buf, off: nat)
    requires Holds(h, blob, dt, str) && StringAt(str, off).Some? && off < |str|
    ensures CheckString(h, blob, true, Signed(off)) == 0
  {
    hide StringAt, At;
    StringInBlob(h, blob, dt, str, off);
    assert (off + h.stringsAt) % U32 == off + h.stringsAt;
  }

  lemma PropFine(h: Header, blob: Buf, dt: Buf, str: Buf, pos: nat, off: nat, val: Buf)
    requires Holds(h, blob, dt, str) && At(dt, pos, Chunk(Property(off, val))) && pos % 4 == 0
    requires off < |str| && StringAt(str, off).Some?
    ensures CheckProp(h, blob, true, pos) == 0
  {
    hide StringAt, NextTag, CheckString, Chunk, Holds, At;
    HoldsSizes(h, blob, dt, str);
    HoldsStrings(h, blob, dt, str);
    PropTag(h, blob, dt, str, pos, off, val);
    StringFine(h, blob, dt, str, off);
  }

  lemma HoldsStrings(h: Header, blob: Buf, dt: Buf, str: Buf)
    requires Holds(h, blob, dt, str)
    ensures |str| <= |blob|
  {
  }

  /** The state of the check at a place of the structure block, inside the root node. */
  predicate Inside(h: Header, blob: Buf, dt: Buf, pos: nat, depth: nat) {
    && h.total == |blob| < INT_MAX && pos <= |dt| <= |blob| && 4 * depth <= pos
  }

  lemma {:induction false} PropsChecked(h: Header, blob: Buf, dt: Buf, str: Buf, pos: nat, depth: nat,
                                        props: seq<Prop>, str0: Buf)
    requires Holds(h, blob, dt, str) && Inside(h, blob, dt, pos, depth)
    requires forall i :: 0 <= i < |props| ==> NulFree(props[i].name)
    requires Placed(dt, pos, PropTokens(props, str0).0, str) && PropTokens(props, str0).1 <= str
    ensures Inside(h, blob, dt, pos + |Encode(PropTokens(props, str0).0)|, depth)
    ensures CheckFrom(h, blob, true, pos, depth, false)
         == CheckFrom(h, blob, true, pos + |Encode(PropTokens(props, str0).0)|, depth, false)
    decreases |props|
  {
    hide Holds, NulFree, Placed, Encode, CheckFrom, PropTokens, Insert, Chunk;
    if props == [] {
      EncodeNone();
      NoProps(str0);
    } else if props[0].deleted {
      PropsSkip(props, str0);
      PropsChecked(h, blob, dt, str, pos, depth, props[1..], str0);
    } else {
      var (str1, off) := Insert(str0, props[0].name);
      var t := Property(off, props[0].val);
      PropsCons(props, str0);
      PropChecked(h, blob, dt, str, pos, depth, props, str0);
      PlacedFirst(dt, pos, t, PropTokens(props[1..], str1).0, str);
      PropsChecked(h, blob, dt, str, pos + |Chunk(t)|, depth, props[1..], str1);
    }
  }

  lemma PropChecked(h: Header, blob: Buf, dt: Buf, str: Buf, pos: nat, depth: nat, props: seq<Prop>, str0: Buf)
    requires Holds(h, blob, dt, str) && Inside(h, blob, dt, pos, depth) && props != [] && !props[0].deleted
    requires forall i :: 0 <= i < |props| ==> NulFree(props[i].name)
    requires Placed(dt, pos, PropTokens(props, str0).0, str) && PropTokens(props, str0).1 <= str
    ensures var t := Property(Insert(str0, props[0].name).1, props[0].val);
            && Inside(h, blob, dt, pos + |Chunk(t)|, depth)
            && CheckFrom(h, blob, true, pos, depth, false) == CheckFrom(h, blob, true, pos + |Chunk(t)|, depth, false)
  {
    hide Holds, NulFree, Placed, Encode, PropTokens, Insert, Chunk, NextTag, CheckProp, StringAt;
    var (str1, off) := Insert(str0, props[0].name);
    var t := Property(off, props[0].val);
    PropsCons(props, str0);
    InsertReads(str0, props[0].name);
    PropsGrow(props[1..], str1);
    PrefixTrans(str1, PropTokens(props, str0).1, str);
    StringKept(str1, str, off);
    PlacedAligned(dt, pos, PropTokens(props, str0).0, str);
    PlacedBound(dt, pos, PropTokens(props, str0).0, str);
    PlacedFirst(dt, pos, t, PropTokens(props[1..], str1).0, str);
    PropTag(h, blob, dt, str, pos, off, props[0].val);
    PropFine(h, blob, dt, str, pos, off, props[0].val);
  }

  lemma PlacedBound(dt: Buf, pos: nat, ts: seq<Token>, str: Buf)
    requires Placed(dt, pos, ts, str)
    ensures pos + |Encode(ts)| <= |dt| && |dt| < U32 && |str| < U32
  {
  }

  /** Below the root a node is passed over: the check goes on behind it at the same depth. */
  lemma {:induction false} NodeChecked(h: Header, blob: Buf, dt: Buf, str: Buf, pos: nat, depth: nat, node: Node,
                                       str0: Buf)
    requires Holds(h, blob, dt, str) && Inside(h, blob, dt, pos, depth) && depth > 0
    requires Named(node) && !node.deleted
    requires Placed(dt, pos, NodeTokens(node, str0).0, str) && NodeTokens(node, str0).1 <= str
    ensures Inside(h, blob, dt, pos + |Encode(NodeTokens(node, str0).0)|, depth)
    ensures CheckFrom(h, blob, true, pos, depth, false)
         == CheckFrom(h, blob, true, pos + |Encode(NodeTokens(node, str0).0)|, depth, false)
    decreases node, 1
  {
    hide Holds, Placed, Encode, CheckFrom, PropTokens, KidTokens, NodeTokens, Chunk, NulFree;
    var (ps, str1) := PropTokens(node.props, str0);
    var ks := KidTokens(node.children, str1).0;
    BeginPlaced(node, dt, pos, str0, str);
    PlacedBound(dt, pos, NodeTokens(node, str0).0, str);
    var pos1 := pos + |Chunk(Begin(node.name))|;
    BeginDeeper(h, blob, dt, str, pos, depth, node.name);
    BodyChecked(h, blob, dt, str, pos1, depth + 1, node, str0);
    EndShallower(h, blob, dt, str, pos1 + |Encode(ps)| + |Encode(ks)|, depth + 1);
  }

  /** The properties and children of a node are passed over. */
  lemma {:induction false} BodyChecked(h: Header, blob: Buf, dt: Buf, str: Buf, pos: nat, depth: nat, node: Node,
                                       str0: Buf)
    requires Holds(h, blob, dt, str) && Inside(h, blob, dt, pos, depth) && depth > 0 && Named(node)
    requires var (ps, str1) := PropTokens(node.props, str0);
             var (ks, str2) := KidTokens(node.children, str1);
             && Placed(dt, pos, ps, str) && str1 <= str
             && Placed(dt, pos + |Encode(ps)|, ks, str) && str2 <= str
    ensures var (ps, str1) := PropTokens(node.props, str0);
            var next := pos + |Encode(ps)| + |Encode(KidTokens(node.children, str1).0)|;
            && Inside(h, blob, dt, next, depth)
            && CheckFrom(h, blob, true, pos, depth, false) == CheckFrom(h, blob, true, next, depth, false)
    decreases node, 0
  {
    hide Holds, Placed, Encode, CheckFrom, PropTokens, KidTokens, NulFree;
    var (ps, str1) := PropTokens(node.props, str0);
    PropsChecked(h, blob, dt, str, pos, depth, node.props, str0);
    KidsChecked(h, blob, dt, str, pos + |Encode(ps)|, depth, node.children, str1);
  }

  lemma {:induction false} KidsChecked(h: Header, blob: Buf, dt: Buf, str: Buf, pos: nat, depth: nat, kids: seq<Node>,
                                       str0: Buf)
    requires Holds(h, blob, dt, str) && Inside(h, blob, dt, pos, depth) && depth > 0 && AllNamed(kids)
    requires Placed(dt, pos, KidTokens(kids, str0).0, str) && KidTokens(kids, str0).1 <= str
    ensures Inside(h, blob, dt, pos + |Encode(KidTokens(kids, str0).0)|, depth)
    ensures CheckFrom(h, blob, true, pos, depth, false)
         == CheckFrom(h, blob, true, pos + |Encode(KidTokens(kids, str0).0)|, depth, false)
    decreases kids
  {
    hide Holds, Placed, Encode, CheckFrom, KidTokens, NodeTokens, Named;
    if kids == [] {
      EncodeNone();
      NoKids(str0);
    } else {
      var (ts, str1) := NodeTokens(kids[0], str0);
      KidsCons(kids, str0);
      PlacedSplit(dt, pos, ts, KidTokens(kids[1..], str1).0, str);
      KidsGrow(kids[1..], str1);
      PrefixTrans(str1, KidTokens(kids, str0).1, str);
      if kids[0].deleted {
        NoTokens(kids[0], str0);
        EncodeNone();
      } else {
        NodeChecked(h, blob, dt, str, pos, depth, kids[0], str0);
      }
      KidsChecked(h, blob, dt, str, pos + |Encode(ts)|, depth, kids[1..], str1);
    }
  }

  lemma BeginDeeper(h: Header, blob: Buf, dt: Buf, str: Buf, pos: nat, depth: nat, name: Buf)
    requires Holds(h, blob, dt, str) && Inside(h, blob, dt, pos, depth) && NulFree(name)
    requires At(dt, pos, Chunk(Begin(name))) && pos % 4 == 0 && pos + |Chunk(Begin(name))| <= |dt|
    requires depth == 0 ==> CheckRootName(h, blob, true, pos) == 0
    ensures Inside(h, blob, dt, pos + |Chunk(Begin(name))|, depth + 1)
    ensures CheckFrom(h, blob, true, pos, depth, false)
         == CheckFrom(h, blob, true, pos + |Chunk(Begin(name))|, depth + 1, false)
  {
    hide Holds, NextTag, Chunk, CheckRootName, At, NulFree;
    ChunkAligned(Begin(name));
    BeginTag(h, blob, dt, str, pos, name);
  }

  lemma EndShallower(h: Header, blob: Buf, dt: Buf, str: Buf, pos: nat, depth: nat)
    requires Holds(h, blob, dt, str) && Inside(h, blob, dt, pos, depth) && depth > 0 && Placed(dt, pos, [End], str)
    ensures Inside(h, blob, dt, pos + 4, depth - 1)
    ensures CheckFrom(h, blob, true, pos, depth, false) == CheckFrom(h, blob, true, pos + 4, depth - 1, depth == 1)
  {
    hide Holds, NextTag, Chunk, At;
    EncodeOne(End);
    BareTag(h, blob, dt, str, pos, End);
    PlacedBound(dt, pos, [End], str);
  }

  // ---------------------------------------------------------------------------------------------
  // The root
  // ---------------------------------------------------------------------------------------------

  lemma RootName(h: Header, blob: Buf, dt: Buf, str: Buf, name: Buf)
    requires Holds(h, blob, dt, str) && At(dt, 0, Chunk(Begin(name))) && NulFree(name)
    ensures CheckRootName(h, blob, true, 0) == if name == [] then 0 else BADSTRUCTURE
  {
    hide NextTag, Word, Word32;
    BeginTag(h, blob, dt, str, 0, name);
    var s := name + [0];
    AtSplit(dt, 0, Word(BEGIN_NODE), Pad(s));
    AtByte(dt, 4, Pad(s), 0);
    AtByte(blob, h.structAt, dt, 4);
    assert Pad(s)[..|s|][0] == s[0];
  }

  lemma StopChecked(h: Header, blob: Buf, dt: Buf, str: Buf, pos: nat, expectEnd: bool)
    requires Holds(h, blob, dt, str) && Inside(h, blob, dt, pos, 0) && Placed(dt, pos, [Stop], str)
    ensures CheckFrom(h, blob, true, pos, 0, expectEnd) == 0
  {
    hide Holds, NextTag, Chunk, At;
    EncodeOne(Stop);
    StopTag(h, blob, dt, str, pos);
  }

  lemma BadRoot(h: Header, blob: Buf, dt: Buf, str: Buf, name: Buf)
    requires Holds(h, blob, dt, str) && Inside(h, blob, dt, 0, 0)
    requires At(dt, 0, Chunk(Begin(name))) && NulFree(name) && name != []
    ensures CheckFrom(h, blob, true, 0, 0, false) == BADSTRUCTURE
  {
    hide Holds, NextTag, Chunk, At, NulFree, CheckRootName;
    BeginTag(h, blob, dt, str, 0, name);
    RootName(h, blob, dt, str, name);
  }

  /** The loop of the full check over a whole structure block. */
  lemma TreeChecked(h: Header, blob: Buf, tree: Node)
    requires Named(tree) && Holds(h, blob, StructBlock(tree), StringsBlock(tree))
    requires Inside(h, blob, StructBlock(tree), 0, 0)
    ensures CheckFrom(h, blob, true, 0, 0, false) == if tree.deleted || tree.name == [] then 0 else BADSTRUCTURE
  {
    hide Holds, Placed, Encode, CheckFrom, PropTokens, KidTokens, NodeTokens, Chunk, NulFree, CheckRootName,
         StructBlock, StringsBlock;
    var dt, str := StructBlock(tree), StringsBlock(tree);
    var ts := NodeTokens(tree, []).0;
    TreePlaced(tree, h, blob);
    PlacedSplit(dt, 0, ts, [Stop], str);
    if tree.deleted {
      NoTokens(tree, []);
      EncodeNone();
      StopChecked(h, blob, dt, str, 0, false);
    } else {
      StringsAre(tree);
      BeginPlaced(tree, dt, 0, [], str);
      if tree.name == [] {
        RootChecked(h, blob, tree);
      } else {
        BadRoot(h, blob, dt, str, tree.name);
      }
    }
  }

  lemma StringsAre(tree: Node)
    ensures NodeTokens(tree, []).1 == StringsBlock(tree)
  {
  }

  lemma RootChecked(h: Header, blob: Buf, tree: Node)
    requires Named(tree) && Holds(h, blob, StructBlock(tree), StringsBlock(tree)) && !tree.deleted && tree.name == []
    requires Inside(h, blob, StructBlock(tree), 0, 0)
    requires Placed(StructBlock(tree), 0, NodeTokens(tree, []).0, StringsBlock(tree))
    requires Placed(StructBlock(tree), |Encode(NodeTokens(tree, []).0)|, [Stop], StringsBlock(tree))
    ensures CheckFrom(h, blob, true, 0, 0, false) == 0
  {
    hide Holds, Placed, Encode, CheckFrom, PropTokens, KidTokens, NodeTokens, Chunk, NulFree, CheckRootName,
         StructBlock, StringsBlock;
    var dt, str := StructBlock(tree), StringsBlock(tree);
    var (ps, str1) := PropTokens(tree.props, []);
    var ks := KidTokens(tree.children, str1).0;
    StringsAre(tree);
    BeginPlaced(tree, dt, 0, [], str);
    PlacedBound(dt, 0, NodeTokens(tree, []).0, str);
    var pos1 := |Chunk(Begin(tree.name))|;
    RootName(h, blob, dt, str, tree.name);
    BeginDeeper(h, blob, dt, str, 0, 0, tree.name);
    BodyChecked(h, blob, dt, str, pos1, 1, tree, []);
    EndShallower(h, blob, dt, str, pos1 + |Encode(ps)| + |Encode(ks)|, 1);
    StopChecked(h, blob, dt, str, |Encode(NodeTokens(tree, []).0)|, true);
  }

  // ---------------------------------------------------------------------------------------------
  // The whole blob
  // ---------------------------------------------------------------------------------------------

  lemma {:induction false} ReserveCounted(h: Header, blob: Buf, i: nat, list: seq<Reserve>, slots: nat)
    requires h.total == |blob| <= INT_MAX && At(blob, h.reserveAt + i * ENTRY, ReserveBlock(list, slots))
    requires forall k :: 0 <= k < |list| ==> list[k].address < U64 && list[k].size < U64
    ensures CountReserve(h, blob, i) == i + |UpToZero(list)|
    decreases |list|
  {
    hide ReserveEntry, NumberAt;
    var abs := h.reserveAt + i * ENTRY;
    assert (h.reserveAt + (i * ENTRY) % U32) % U32 == abs;
    if list == [] {
      assert ReserveBlock(list, slots) == Zeroes(ENTRY * slots + ENTRY);
      ZeroEntry(blob, abs, slots);
    } else {
      var rest := ReserveBlock(list[1..], slots);
      assert ReserveBlock(list, slots) == ReserveEntry(list[0]) + rest;
      AtSplit(blob, abs, ReserveEntry(list[0]), rest);
      EntryRead(blob, abs, list[0]);
      if list[0].size != 0 {
        ReserveCounted(h, blob, i + 1, list[1..], slots);
      }
    }
  }

  lemma ZeroEntry(blob: Buf, abs: nat, slots: nat)
    requires At(blob, abs, Zeroes(ENTRY * slots + ENTRY))
    ensures abs + ENTRY <= |blob| && NumberAt(blob, abs + 8, 8) == 0
  {
    var b := blob[abs + 8..abs + 16];
    forall i | 0 <= i < |b|
      ensures b[i] == 0
    {
      AtByte(blob, abs, Zeroes(ENTRY * slots + ENTRY), 8 + i);
    }
    NumberZero(b);
  }

  lemma HeaderFine(info: Info, o: Options)
    requires Checkable(info, o)
    ensures |ToBlob(info, o)| >= V17_SIZE && HeaderOf(ToBlob(info, o)).version == 17
    ensures CheckHeader(HeaderOf(ToBlob(info, o)), true) == 0
  {
    hide ReserveBlock, StructBlock, StringsBlock, ToBlob, PadLength, Named, NumberAt;
    HeaderRead(info, o);
  }

  lemma ReserveFine(info: Info, o: Options)
    requires Checkable(info, o)
    ensures |ToBlob(info, o)| >= V17_SIZE && HeaderOf(ToBlob(info, o)).total == |ToBlob(info, o)| < INT_MAX
    ensures CountReserve(HeaderOf(ToBlob(info, o)), ToBlob(info, o), 0) == |UpToZero(info.reserve)|
  {
    hide ReserveBlock, StructBlock, StringsBlock, ToBlob, PadLength, Named, NumberAt;
    HeaderRead(info, o);
    BlocksAt(info, o);
    ReserveCounted(HeaderOf(ToBlob(info, o)), ToBlob(info, o), 0, info.reserve, o.slots);
  }

  /** fdt_check_full accepts what the compiler writes exactly if the root is nameless or deleted. */
  lemma CheckFullExact(info: Info, o: Options)
    requires Checkable(info, o)
    ensures CheckFull(ToBlob(info, o), true)
         == if info.tree.deleted || info.tree.name == [] then 0 else BADSTRUCTURE
  {
    hide ToBlob, CheckHeader, CountReserve, CheckFrom, HeaderOf, Named, Holds, StructBlock, StringsBlock, PadLength;
    var blob := ToBlob(info, o);
    BlobHolds(info, o);
    HeaderFine(info, o);
    ReserveFine(info, o);
    VersionIs(blob);
    var h := HeaderOf(blob);
    HoldsSizes(h, blob, StructBlock(info.tree), StringsBlock(info.tree));
    TreeChecked(h, blob, info.tree);
  }

  lemma VersionIs(blob: Buf)
    requires |blob| >= V17_SIZE
    ensures HeaderOf(blob).version == Word32(blob, 20)
  {
  }

  // ---------------------------------------------------------------------------------------------
  // What the checks say about any blob
  // ---------------------------------------------------------------------------------------------

  /** The header check passes exactly if the blocks lie in the blob, without any wrapping sums. */
  lemma CheckHeaderExact(h: Header, aligned: bool)
    ensures CheckHeader(h, aligned) == 0 <==>
              var hdr := HeaderSize(h.version);
              && aligned && h.magic == MAGIC && 2 <= h.version && h.lastComp <= 17 && h.lastComp <= h.version
              && hdr <= h.total <= INT_MAX && hdr <= h.reserveAt <= h.total
              && hdr <= h.structAt && h.structAt + (if h.version >= 17 then h.structSize else 0) <= h.total
              && hdr <= h.stringsAt && h.stringsAt + h.stringsSize <= h.total
  {
    WrapsOrNot(h.structAt, h.structSize);
    WrapsOrNot(h.stringsAt, h.stringsSize);
  }

  lemma WrapsOrNot(a: U, b: U)
    ensures (a + b) % U32 == if a + b < U32 then a + b else a + b - U32
  {
  }

  /** How deep a sequence of tags ends, from depth 0. */
  function Depth(tags: seq<nat>): int {
    if tags == [] then 0
    else (if tags[0] == BEGIN_NODE then 1 else if tags[0] == END_NODE then -1 else 0) + Depth(tags[1..])
  }

  /** From `depth` on the tags close what they open, in order, and END stands at the end only. */
  ghost predicate Balanced(tags: seq<nat>, depth: nat) {
    && tags != [] && tags[|tags| - 1] == END && depth + Depth(tags) == 0
    && (forall k :: 0 <= k <= |tags| ==> depth + Depth(tags[..k]) >= 0)
    && (forall k :: 0 <= k < |tags| - 1 ==> tags[k] != END)
  }

  lemma {:induction false} DepthCons(tag: nat, tags: seq<nat>, k: nat)
    requires 0 < k <= |tags| + 1
    ensures Depth(([tag] + tags)[..k]) == Depth([tag]) + Depth(tags[..k - 1])
  {
    assert ([tag] + tags)[..k][1..] == tags[..k - 1];
    assert [tag][1..] == [];
  }

  lemma DepthOne(tag: nat)
    ensures Depth([tag]) == if tag == BEGIN_NODE then 1 else if tag == END_NODE then -1 else 0
  {
    assert [tag][1..] == [] && Depth([]) == 0;
  }

  lemma BalancedCons(tag: nat, tags: seq<nat>, depth: nat)
    requires tag != END && depth + Depth([tag]) >= 0 && Balanced(tags, depth + Depth([tag]))
    ensures Balanced([tag] + tags, depth)
  {
    var all := [tag] + tags;
    assert tags[..|tags|] == tags && all[..|all|] == all;
    DepthCons(tag, tags, |all|);
    forall k | 0 <= k <= |all|
      ensures depth + Depth(all[..k]) >= 0
    {
      if k > 0 {
        DepthCons(tag, tags, k);
      }
    }
    assert forall k :: 0 < k < |all| ==> all[k] == tags[k - 1];
  }

  /** Any blob that passes the full check has tags that are properly nested and end with END. */
  lemma {:induction false} CheckedWalk(h: Header, blob: Buf, aligned: bool, offset: nat, depth: nat, expectEnd: bool)
    requires h.total <= |blob| && h.total <= INT_MAX && offset <= h.total + 3
    requires CheckFrom(h, blob, aligned, offset, depth, expectEnd) == 0
    ensures Balanced(TagWalk(h, blob, offset), depth)
    decreases h.total + 3 - offset
  {
    hide NextTag, CheckProp, CheckRootName;
    var (tag, next) := NextTag(h, blob, offset);
    DepthOne(tag);
    if tag == END {
      assert TagWalk(h, blob, offset) == [END];
      assert [END][..0] == [] && [END][..1] == [END] && Depth([]) == 0;
    } else {
      var deeper := depth + Depth([tag]);
      CheckedWalk(h, blob, aligned, next, deeper, expectEnd || (tag == END_NODE && depth == 1));
      BalancedCons(tag, TagWalk(h, blob, next), depth);
    }
  }

  lemma CheckedIsBalanced(blob: Buf, aligned: bool)
    requires CheckFull(blob, aligned) == 0
    ensures V1_SIZE <= |blob| && HeaderOf(blob).total <= |blob| && HeaderOf(blob).total <= INT_MAX
    ensures Balanced(TagWalk(HeaderOf(blob), blob, 0), 0)
  {
    hide HeaderOf, CountReserve, CheckFrom, TagWalk, Balanced;
    CheckHeaderExact(HeaderOf(blob), aligned);
    CheckedWalk(HeaderOf(blob), blob, aligned, 0, 0, false);
  }
}
