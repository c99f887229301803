/** Reading back what the flattener writes gives the live tree. */
module FdtRoundTrip {

  import opened Basics
  import opened FdtBytes
  import opened FdtTree

  // ---------------------------------------------------------------------------------------------
  // One token
  // ---------------------------------------------------------------------------------------------

  lemma TagRead(dt: Buf, pos: nat, t: Token)
    requires At(dt, pos, Chunk(t)) && pos % 4 == 0
    ensures ReadWord(dt, pos) == Some(Tag(t)) && At(dt, pos + 4, Payload(t))
    ensures pos + |Chunk(t)| == pos + 4 + |Payload(t)| <= |dt|
  {
    hide Payload, Word;
    AtSplit(dt, pos, Word(Tag(t)), Payload(t));
    WordAt(dt, pos, Tag(t));
  }

  lemma NameRead(dt: Buf, pos: nat, name: Buf)
    requires At(dt, pos, Pad(name + [0])) && pos % 4 == 0 && NulFree(name)
    ensures ReadString(dt, pos) == Some(Result(name, pos + |Pad(name + [0])|))
  {
    var s := name + [0];
    assert Pad(s) == s + Pad(s)[|s|..];
    AtSplit(dt, pos, s, Pad(s)[|s|..]);
    StringRead(dt, pos, name);
    AlignShift(pos, |s|);
  }

  lemma ValueRead(dt: Buf, pos: nat, val: Buf)
    requires At(dt, pos, Pad(val)) && pos % 4 == 0
    ensures ReadData(dt, pos, |val|) == Some(Result(val, pos + |Pad(val)|))
  {
    assert Pad(val) == val + Pad(val)[|val|..];
    AtSplit(dt, pos, val, Pad(val)[|val|..]);
    AlignShift(pos, |val|);
  }

  lemma PropPieces(dt: Buf, pos: nat, off: nat, val: Buf)
    requires At(dt, pos, Payload(Property(off, val)))
    ensures At(dt, pos, Word(|val|)) && At(dt, pos + 4, Word(off)) && At(dt, pos + 8, Pad(val))
    ensures |Payload(Property(off, val))| == 8 + |Pad(val)|
    ensures |val| <= |Pad(val)| && pos + 8 + |Pad(val)| <= |dt|
  {
    hide Word, Pad;
    AtSplit(dt, pos, Word(|val|), Word(off) + Pad(val));
    AtSplit(dt, pos + 4, Word(off), Pad(val));
  }

  lemma PropRead(dt: Buf, pos: nat, off: nat, val: Buf, str: Buf, name: Buf)
    requires At(dt, pos, Payload(Property(off, val))) && pos % 4 == 0 && |dt| < U32
    requires off < U32 && StringAt(str, off) == Some(name)
    ensures ReadProp(dt, pos, str) == Some(Result(Prop(name, val, false), pos + |Payload(Property(off, val))|))
  {
    hide Word, Pad, ReadData, StringAt, Payload, At, NumberAt;
    PropPieces(dt, pos, off, val);
    WordAt(dt, pos, |val|);
    WordAt(dt, pos + 4, off);
    ValueRead(dt, pos + 8, val);
  }

  // ---------------------------------------------------------------------------------------------
  // The strings block only grows
  // ---------------------------------------------------------------------------------------------

  lemma PrefixTrans(a: Buf, b: Buf, c: Buf)
    requires a <= b <= c
    ensures a <= c
  {
  }

  lemma {:induction false} PropsGrow(props: seq<Prop>, str: Buf)
    requires forall i :: 0 <= i < |props| ==> NulFree(props[i].name)
    ensures str <= PropTokens(props, str).1
    decreases |props|
  {
    if props != [] {
      if props[0].deleted {
        PropsGrow(props[1..], str);
      } else {
        InsertReads(str, props[0].name);
        PropsGrow(props[1..], Insert(str, props[0].name).0);
        PrefixTrans(str, Insert(str, props[0].name).0, PropTokens(props, str).1);
      }
    }
  }

  lemma {:induction false} NodeGrows(node: Node, str: Buf)
    requires Named(node)
    ensures str <= NodeTokens(node, str).1
    decreases node
  {
    if !node.deleted {
      var str1 := PropTokens(node.props, str).1;
      PropsGrow(node.props, str);
      KidsGrow(node.children, str1);
      PrefixTrans(str, str1, NodeTokens(node, str).1);
    }
  }

  lemma {:induction false} KidsGrow(kids: seq<Node>, str: Buf)
    requires AllNamed(kids)
    ensures str <= KidTokens(kids, str).1
    decreases kids
  {
    if kids != [] {
      var str1 := NodeTokens(kids[0], str).1;
      NodeGrows(kids[0], str);
      KidsGrow(kids[1..], str1);
      PrefixTrans(str, str1, KidTokens(kids, str).1);
    }
  }

  // ---------------------------------------------------------------------------------------------
  // The tree
  // ---------------------------------------------------------------------------------------------

  /** The tokens stand at `pos`, and the sizes are those of 32-bit fields. */
  predicate Placed(dt: Buf, pos: nat, ts: seq<Token>, str: Buf) {
    At(dt, pos, Encode(ts)) && pos % 4 == 0 && |dt| < U32 && |str| < U32
  }

  lemma PlacedFirst(dt: Buf, pos: nat, t: Token, ts: seq<Token>, str: Buf)
    requires Placed(dt, pos, [t] + ts, str)
    ensures At(dt, pos, Chunk(t)) && Placed(dt, pos + |Chunk(t)|, ts, str)
    ensures |Encode([t] + ts)| == |Chunk(t)| + |Encode(ts)|
  {
    hide Chunk;
    assert ([t] + ts)[1..] == ts;
    AtSplit(dt, pos, Chunk(t), Encode(ts));
    ChunkAligned(t);
    SumAligned(pos, |Chunk(t)|);
  }

  lemma PlacedSplit(dt: Buf, pos: nat, a: seq<Token>, b: seq<Token>, str: Buf)
    requires Placed(dt, pos, a + b, str)
    ensures Placed(dt, pos, a, str) && Placed(dt, pos + |Encode(a)|, b, str)
    ensures |Encode(a + b)| == |Encode(a)| + |Encode(b)|
  {
    hide Encode;
    EncodeAppend(a, b);
    AtSplit(dt, pos, Encode(a), Encode(b));
    EncodeAligned(a);
    SumAligned(pos, |Encode(a)|);
  }

  lemma PropsSkip(props: seq<Prop>, str0: Buf)
    requires props != [] && props[0].deleted
    ensures PropTokens(props, str0) == PropTokens(props[1..], str0) && LiveProps(props) == LiveProps(props[1..])
  {
  }

  lemma PropsCons(props: seq<Prop>, str0: Buf)
    requires props != [] && !props[0].deleted
    ensures var (str1, off) := Insert(str0, props[0].name);
            && PropTokens(props, str0).0 == [Property(off, props[0].val)] + PropTokens(props[1..], str1).0
            && PropTokens(props, str0).1 == PropTokens(props[1..], str1).1
    ensures LiveProps(props) == [props[0]] + LiveProps(props[1..])
  {
  }

  /** The reader takes up the properties one by one and goes on behind them. */
  lemma {:induction false} PropsRead(node: Node, props: seq<Prop>, dt: Buf, pos: nat, str0: Buf, str: Buf)
    requires forall i :: 0 <= i < |props| ==> NulFree(props[i].name)
    requires Placed(dt, pos, PropTokens(props, str0).0, str) && PropTokens(props, str0).1 <= str
    ensures ReadBody(node, dt, pos, str)
         == ReadBody(node.(props := node.props + LiveProps(props)), dt, pos + |Encode(PropTokens(props, str0).0)|, str)
    decreases |props|
  {
    hide ReadBody, Chunk, Encode, Insert, Placed, PropTokens, LiveProps, NulFree;
    if props == [] {
      EncodeNone();
      NoProps(str0);
      assert node.props + LiveProps(props) == node.props;
    } else if props[0].deleted {
      PropsSkip(props, str0);
      PropsRead(node, props[1..], dt, pos, str0, str);
    } else {
      var (str1, off) := Insert(str0, props[0].name);
      var t := Property(off, props[0].val);
      var node1 := node.(props := node.props + [props[0]]);
      PropsCons(props, str0);
      PropStep(node, props, dt, pos, str0, str);
      PlacedFirst(dt, pos, t, PropTokens(props[1..], str1).0, str);
      PropsRead(node1, props[1..], dt, pos + |Chunk(t)|, str1, str);
      assert node1.props + LiveProps(props[1..]) == node.props + LiveProps(props);
    }
  }

  lemma NoProps(str: Buf)
    ensures PropTokens([], str) == ([], str) && LiveProps([]) == []
  {
  }

  lemma PropStep(node: Node, props: seq<Prop>, dt: Buf, pos: nat, str0: Buf, str: Buf)
    requires forall i :: 0 <= i < |props| ==> NulFree(props[i].name)
    requires props != [] && !props[0].deleted
    requires Placed(dt, pos, PropTokens(props, str0).0, str) && PropTokens(props, str0).1 <= str
    ensures var t := Property(Insert(str0, props[0].name).1, props[0].val);
            var node1 := node.(props := node.props + [props[0]]);
            ReadBody(node, dt, pos, str) == ReadBody(node1, dt, pos + |Chunk(t)|, str)
  {
    hide Chunk, Encode, ReadProp, Insert, StringAt, ReadWord;
    var p := props[0];
    var (str1, off) := Insert(str0, p.name);
    var t := Property(off, p.val);
    PlacedFirst(dt, pos, t, PropTokens(props[1..], str1).0, str);
    InsertReads(str0, p.name);
    PropsGrow(props[1..], str1);
    PrefixTrans(str1, PropTokens(props, str0).1, str);
    StringKept(str1, str, off);
    TagRead(dt, pos, t);
    PropRead(dt, pos + 4, off, p.val, str, p.name);
    assert p == Prop(p.name, p.val, false);
  }

  /** Reading a flattened node, its BEGIN_NODE tag just behind, gives the live node. */
  lemma {:induction false} NodeRead(node: Node, dt: Buf, pos: nat, str0: Buf, str: Buf)
    requires Named(node) && !node.deleted
    requires Placed(dt, pos, NodeTokens(node, str0).0, str) && NodeTokens(node, str0).1 <= str
    ensures ReadWord(dt, pos) == Some(BEGIN_NODE)
    ensures ReadNode(dt, pos + 4, str) == Some(Result(Live(node), pos + |Encode(NodeTokens(node, str0).0)|))
    decreases node
  {
    hide ReadBody, ReadNode, ReadWord, Encode, PropTokens, KidTokens, NodeTokens, Placed, LiveProps, LiveKids;
    var (ps, str1) := PropTokens(node.props, str0);
    var (ks, str2) := KidTokens(node.children, str1);
    var node0 := Node(node.name, [], [], false);
    var pos1 := BeginStep(node, dt, pos, str0, str);
    PropsRead(node0, node.props, dt, pos1, str0, str);
    var node1 := node0.(props := LiveProps(node.props));
    assert node0.props + LiveProps(node.props) == node1.props;
    KidsRead(node1, node.children, dt, pos1 + |Encode(ps)|, str1, str);
    assert node1.children + LiveKids(node.children) == LiveKids(node.children);
    EndStep(Live(node), dt, pos1 + |Encode(ps)| + |Encode(ks)|, str);
  }

  /** Where the parts of a flattened node stand. */
  lemma BeginStep(node: Node, dt: Buf, pos: nat, str0: Buf, str: Buf) returns (pos1: nat)
    requires Named(node) && !node.deleted
    requires Placed(dt, pos, NodeTokens(node, str0).0, str) && NodeTokens(node, str0).1 <= str
    ensures var (ps, str1) := PropTokens(node.props, str0);
            var (ks, str2) := KidTokens(node.children, str1);
            && Placed(dt, pos1, ps, str) && str1 <= str && str2 <= str
            && Placed(dt, pos1 + |Encode(ps)|, ks, str)
            && Placed(dt, pos1 + |Encode(ps)| + |Encode(ks)|, [End], str)
            && |Encode(NodeTokens(node, str0).0)| == pos1 - pos + |Encode(ps)| + |Encode(ks)| + 4
    ensures ReadWord(dt, pos) == Some(BEGIN_NODE)
    ensures ReadNode(dt, pos + 4, str) == ReadBody(Node(node.name, [], [], false), dt, pos1, str)
  {
    hide Encode, ReadBody, ReadWord, ReadNode, PropTokens, KidTokens, Placed, Chunk, At;
    pos1 := pos + |Chunk(Begin(node.name))|;
    BeginPlaced(node, dt, pos, str0, str);
    BeginRead(node.name, dt, pos, str);
    PlacedAligned(dt, pos, NodeTokens(node, str0).0, str);
  }

  lemma PlacedAligned(dt: Buf, pos: nat, ts: seq<Token>, str: Buf)
    requires Placed(dt, pos, ts, str)
    ensures pos % 4 == 0
  {
  }

  lemma BeginPlaced(node: Node, dt: Buf, pos: nat, str0: Buf, str: Buf)
    requires Named(node) && !node.deleted
    requires Placed(dt, pos, NodeTokens(node, str0).0, str) && NodeTokens(node, str0).1 <= str
    ensures var (ps, str1) := PropTokens(node.props, str0);
            var (ks, str2) := KidTokens(node.children, str1);
            var pos1 := pos + |Chunk(Begin(node.name))|;
            && At(dt, pos, Chunk(Begin(node.name))) && pos % 4 == 0
            && Placed(dt, pos1, ps, str) && str1 <= str && str2 <= str
            && Placed(dt, pos1 + |Encode(ps)|, ks, str)
            && Placed(dt, pos1 + |Encode(ps)| + |Encode(ks)|, [End], str)
            && |Encode(NodeTokens(node, str0).0)| == pos1 - pos + |Encode(ps)| + |Encode(ks)| + 4
  {
    hide Encode, PropTokens, KidTokens, Placed, Chunk, At;
    var (ps, str1) := PropTokens(node.props, str0);
    var (ks, str2) := KidTokens(node.children, str1);
    var t := Begin(node.name);
    var pos1 := pos + |Chunk(t)|;
    PlacedAligned(dt, pos, NodeTokens(node, str0).0, str);
    PlacedFirst(dt, pos, t, ps + (ks + [End]), str);
    PlacedSplit(dt, pos1, ps, ks + [End], str);
    PlacedSplit(dt, pos1 + |Encode(ps)|, ks, [End], str);
    EndLength();
    KidsGrow(node.children, str1);
    PrefixTrans(str1, str2, str);
  }

  lemma EndLength()
    ensures |Encode([End])| == 4
  {
    EncodeOne(End);
  }

  lemma BeginRead(name: Buf, dt: Buf, pos: nat, str: Buf)
    requires At(dt, pos, Chunk(Begin(name))) && pos % 4 == 0 && NulFree(name)
    ensures ReadWord(dt, pos) == Some(BEGIN_NODE)
    ensures ReadNode(dt, pos + 4, str) == ReadBody(Node(name, [], [], false), dt, pos + |Chunk(Begin(name))|, str)
  {
    hide ReadBody, ReadWord, Chunk;
    TagRead(dt, pos, Begin(name));
    NameRead(dt, pos + 4, name);
    ChunkAligned(Begin(name));
  }

  lemma EncodeNone()
    ensures Encode([]) == []
  {
  }

  lemma NoTokens(node: Node, str: Buf)
    requires node.deleted
    ensures NodeTokens(node, str) == ([], str)
  {
  }

  lemma KidStep(node: Node, kid: Node, dt: Buf, pos: nat, next: nat, str: Buf)
    requires ReadWord(dt, pos) == Some(BEGIN_NODE) && ReadNode(dt, pos + 4, str) == Some(Result(kid, next))
    ensures ReadBody(node, dt, pos, str) == ReadBody(node.(children := node.children + [kid]), dt, next, str)
  {
  }

  lemma EndStep(node: Node, dt: Buf, pos: nat, str: Buf)
    requires Placed(dt, pos, [End], str)
    ensures ReadBody(node, dt, pos, str) == Some(Result(node, pos + 4))
  {
    EncodeOne(End);
    TagRead(dt, pos, End);
  }

  lemma KidsCons(kids: seq<Node>, str0: Buf)
    requires kids != []
    ensures var (ts, str1) := NodeTokens(kids[0], str0);
            && KidTokens(kids, str0).0 == ts + KidTokens(kids[1..], str1).0
            && KidTokens(kids, str0).1 == KidTokens(kids[1..], str1).1
    ensures LiveKids(kids) == (if kids[0].deleted then [] else [Live(kids[0])]) + LiveKids(kids[1..])
  {
  }

  lemma NoKids(str: Buf)
    ensures KidTokens([], str) == ([], str) && LiveKids([]) == []
  {
  }

  lemma {:induction false} KidsRead(node: Node, kids: seq<Node>, dt: Buf, pos: nat, str0: Buf, str: Buf)
    requires AllNamed(kids)
    requires Placed(dt, pos, KidTokens(kids, str0).0, str) && KidTokens(kids, str0).1 <= str
    ensures ReadBody(node, dt, pos, str)
         == ReadBody(node.(children := node.children + LiveKids(kids)), dt,
                     pos + |Encode(KidTokens(kids, str0).0)|, str)
    decreases kids
  {
    hide Placed, ReadWord, ReadBody, ReadNode, Encode, NodeTokens, KidTokens, Live, LiveKids;
    if kids == [] {
      EncodeNone();
      NoKids(str0);
      assert node.children + LiveKids(kids) == node.children;
    } else {
      var (ts, str1) := NodeTokens(kids[0], str0);
      var rest := KidTokens(kids[1..], str1).0;
      KidsCons(kids, str0);
      PlacedSplit(dt, pos, ts, rest, str);
      KidsGrow(kids[1..], str1);
      PrefixTrans(str1, KidTokens(kids, str0).1, str);
      if kids[0].deleted {
        NoTokens(kids[0], str0);
        assert ts + rest == rest && LiveKids(kids) == LiveKids(kids[1..]);
        KidsRead(node, kids[1..], dt, pos, str0, str);
      } else {
        NodeRead(kids[0], dt, pos, str0, str);
        var node1 := node.(children := node.children + [Live(kids[0])]);
        KidStep(node, Live(kids[0]), dt, pos, pos + |Encode(ts)|, str);
        KidsRead(node1, kids[1..], dt, pos + |Encode(ts)|, str1, str);
        assert node1.children + LiveKids(kids[1..]) == node.children + LiveKids(kids);
      }
    }
  }
}
