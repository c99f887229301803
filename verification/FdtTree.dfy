/**
 Device trees and their flattened form (3rd/dtc/flattree.c), versions 16 and 17 of the format.
 The structure block is a sequence of tokens, each of them a multiple of four bytes.
 */
module FdtTree {

  import opened Basics
  import opened FdtBytes

  const BEGIN_NODE: nat := 1
  const END_NODE: nat := 2
  const PROP: nat := 3
  const NOP: nat := 4
  const END: nat := 9

  datatype Prop = Prop(name: Buf, val: Buf, deleted: bool)

  datatype Node = Node(name: Buf, props: seq<Prop>, children: seq<Node>, deleted: bool)

  // ---------------------------------------------------------------------------------------------
  // The live tree
  // ---------------------------------------------------------------------------------------------

  function LiveProps(props: seq<Prop>): seq<Prop> {
    if props == [] then []
    else (if props[0].deleted then [] else [props[0]]) + LiveProps(props[1..])
  }

  /** The tree without what is marked deleted. */
  function Live(node: Node): Node {
    node.(props := LiveProps(node.props), children := LiveKids(node.children))
  }

  function LiveKids(kids: seq<Node>): seq<Node> {
    if kids == [] then []
    else (if kids[0].deleted then [] else [Live(kids[0])]) + LiveKids(kids[1..])
  }

  /** Names are C strings. */
  predicate Named(node: Node) {
    && NulFree(node.name)
    && (forall i :: 0 <= i < |node.props| ==> NulFree(node.props[i].name))
    && AllNamed(node.children)
  }

  predicate AllNamed(kids: seq<Node>) {
    kids == [] || (Named(kids[0]) && AllNamed(kids[1..]))
  }

  // ---------------------------------------------------------------------------------------------
  // Tokens
  // ---------------------------------------------------------------------------------------------

  datatype Token = Begin(name: Buf) | Property(off: nat, val: Buf) | End | Stop

  function Tag(t: Token): nat {
    match t
    case Begin(_) => BEGIN_NODE
    case Property(_, _) => PROP
    case End => END_NODE
    case Stop => END
  }

  function Chunk(t: Token): Buf {
    Word(Tag(t)) + Payload(t)
  }

  function Payload(t: Token): Buf {
    match t
    case Begin(name) => Pad(name + [0])
    case Property(off, val) => Word(|val|) + (Word(off) + Pad(val))
    case End => []
    case Stop => []
  }

  /** The bytes of each token: its tag, the length and the name offset, the bytes themselves, zeroes to a word. */
  lemma ChunkBytes(t: Token)
    ensures t.Stop? ==> Chunk(t) == [0, 0, 0, 9]
    ensures t.End? ==> Chunk(t) == [0, 0, 0, 2]
    ensures t.Begin? ==> exists k :: 1 <= k <= 4 && (|t.name| + k) % 4 == 0
                                     && Chunk(t) == [0, 0, 0, 1] + t.name + Zeroes(k)
    ensures t.Property? ==> exists k :: 0 <= k < 4 && (|t.val| + k) % 4 == 0
                                        && Chunk(t) == [0, 0, 0, 3] + Word(|t.val|) + Word(t.off) + t.val + Zeroes(k)
  {
    hide Word, BigEndian, Number;
    WordBytes(Tag(t), [0, 0, 0, 0]);
    match t {
      case Begin(name) =>
        var k := Align(|name| + 1, 4) - |name|;
        assert [0] + Zeroes(k - 1) == Zeroes(k);
        assert Pad(name + [0]) == name + Zeroes(k);
        assert Chunk(t) == [0, 0, 0, 1] + name + Zeroes(k);
      case Property(off, val) =>
        var k := Align(|val|, 4) - |val|;
        assert Chunk(t) == [0, 0, 0, 3] + Word(|val|) + Word(off) + val + Zeroes(k);
      case _ =>
    }
  }

  function Encode(ts: seq<Token>): Buf {
    if ts == [] then [] else Chunk(ts[0]) + Encode(ts[1..])
  }

  lemma ChunkAligned(t: Token)
    ensures |Chunk(t)| % 4 == 0 && |Chunk(t)| == 4 + |Payload(t)|
  {
    hide Word, Pad;
    match t {
      case Begin(name) => SumAligned(4, |Pad(name + [0])|);
      case Property(_, val) => SumAligned(12, |Pad(val)|);
      case _ =>
    }
  }

  lemma {:induction false} EncodeAligned(ts: seq<Token>)
    ensures |Encode(ts)| % 4 == 0
    decreases |ts|
  {
    hide Chunk;
    if ts != [] {
      ChunkAligned(ts[0]);
      EncodeAligned(ts[1..]);
      SumAligned(|Chunk(ts[0])|, |Encode(ts[1..])|);
    }
  }

  lemma {:induction false} EncodeAppend(a: seq<Token>, b: seq<Token>)
    ensures Encode(a + b) == Encode(a) + Encode(b)
    decreases |a|
  {
    hide Chunk;
    if a == [] {
      assert a + b == b;
    } else {
      EncodeAppend(a[1..], b);
      assert (a + b)[0] == a[0] && (a + b)[1..] == a[1..] + b;
      assert Chunk(a[0]) + (Encode(a[1..]) + Encode(b)) == (Chunk(a[0]) + Encode(a[1..])) + Encode(b);
    }
  }

  lemma EncodeOne(t: Token)
    ensures Encode([t]) == Chunk(t)
  {
    hide Chunk;
    assert Encode([t][1..]) == [];
    assert Chunk(t) + [] == Chunk(t);
  }

  // ---------------------------------------------------------------------------------------------
  // The strings block
  // ---------------------------------------------------------------------------------------------

  /** The first place from `i` on where the string `s` stands, or the length of the table. */
  function FindString(str: Buf, s: Buf, i: nat): (r: nat)
    requires i <= |str|
    ensures i <= r <= |str| && (r < |str| ==> StringAt(str, r) == Some(s))
    ensures forall j :: i <= j < r ==> StringAt(str, j) != Some(s)
    decreases |str| - i
  {
    if i == |str| || StringAt(str, i) == Some(s) then i else FindString(str, s, i + 1)
  }

  function Insert(str: Buf, s: Buf): (Buf, nat) {
    var i := FindString(str, s, 0);
    (if i < |str| then str else str + (s + [0]), i)
  }

  lemma StringKept(a: Buf, b: Buf, i: nat)
    requires a <= b && StringAt(a, i).Some?
    ensures StringAt(b, i) == StringAt(a, i)
  {
    var s := StringAt(a, i).value;
    assert b == a + b[|a|..];
    AtExtended(a, b[|a|..], i, s + [0]);
    StringRead(b, i, s);
  }

  /**
   Inserting a string only extends the table, by nothing if the string stands there already,
   even as the tail of another one; the offset reads back as the string ever after.
   */
  lemma InsertReads(str: Buf, s: Buf)
    requires NulFree(s)
    ensures var (str', off) := Insert(str, s);
            && str <= str' && off < |str'| && StringAt(str', off) == Some(s)
            && (str' == str <==> exists i :: 0 <= i < |str| && StringAt(str, i) == Some(s))
            && (forall j :: 0 <= j < off && j < |str| ==> StringAt(str, j) != Some(s))
  {
    hide StringAt;
    var i := FindString(str, s, 0);
    if i == |str| {
      AppendedReads(str, s);
      assert |str + (s + [0])| > |str|;
    }
  }

  lemma AppendedReads(str: Buf, s: Buf)
    requires NulFree(s)
    ensures StringAt(str + (s + [0]), |str|) == Some(s) && str <= str + (s + [0])
  {
    hide StringAt;
    var str' := str + (s + [0]);
    assert str'[|str|..|str| + |s + [0]|] == s + [0];
    StringRead(str', |str|, s);
  }

  // ---------------------------------------------------------------------------------------------
  // Flattening
  // ---------------------------------------------------------------------------------------------

  function PropTokens(props: seq<Prop>, str: Buf): (seq<Token>, Buf) {
    if props == [] then ([], str)
    else if props[0].deleted then PropTokens(props[1..], str)
    else
      var (str1, off) := Insert(str, props[0].name);
      var (ts, str2) := PropTokens(props[1..], str1);
      ([Property(off, props[0].val)] + ts, str2)
  }

  /** The tokens of a subtree and the strings block after it. */
  function NodeTokens(node: Node, str: Buf): (seq<Token>, Buf) {
    if node.deleted then ([], str)
    else
      var (ps, str1) := PropTokens(node.props, str);
      var (ks, str2) := KidTokens(node.children, str1);
      ([Begin(node.name)] + (ps + (ks + [End])), str2)
  }

  function KidTokens(kids: seq<Node>, str: Buf): (seq<Token>, Buf) {
    if kids == [] then ([], str)
    else
      var (ts, str1) := NodeTokens(kids[0], str);
      var (rest, str2) := KidTokens(kids[1..], str1);
      (ts + rest, str2)
  }

  // ---------------------------------------------------------------------------------------------
  // Reading
  // ---------------------------------------------------------------------------------------------

  /** Reading fails, as `None`, where the source ends the program or an assertion of it fails. */
  function ReadWord(dt: Buf, pos: nat): Option<nat> {
    if pos % 4 != 0 || pos + 4 > |dt| then None else Some(NumberAt(dt, pos, 4))
  }

  datatype Result<T> = Result(value: T, pos: nat)

  function ReadString(dt: Buf, pos: nat): (r: Option<Result<Buf>>)
    ensures r.Some? ==> pos < r.value.pos <= |dt|
  {
    match StringAt(dt, pos)
    case None => None
    case Some(s) =>
      var next := Align(pos + |s| + 1, 4);
      if next > |dt| then None else Some(Result(s, next))
  }

  function ReadData(dt: Buf, pos: nat, len: nat): (r: Option<Result<Buf>>)
    ensures r.Some? && pos <= |dt| ==> pos <= r.value.pos <= |dt|
  {
    if len == 0 then Some(Result([], pos))
    else if pos + len > |dt| || Align(pos + len, 4) > |dt| then None
    else Some(Result(dt[pos..pos + len], Align(pos + len, 4)))
  }

  function ReadProp(dt: Buf, pos: nat, str: Buf): (r: Option<Result<Prop>>)
    ensures r.Some? ==> pos < r.value.pos <= |dt|
  {
    match ReadWord(dt, pos)
    case None => None
    case Some(len) =>
      match ReadWord(dt, pos + 4)
      case None => None
      case Some(off) =>
        match StringAt(str, off)
        case None => None
        case Some(name) =>
          match ReadData(dt, pos + 8, len)
          case None => None
          case Some(Result(val, next)) => Some(Result(Prop(name, val, false), next))
  }

  /** A node whose BEGIN_NODE tag was just read. */
  function ReadNode(dt: Buf, pos: nat, str: Buf): (r: Option<Result<Node>>)
    ensures r.Some? ==> pos < r.value.pos <= |dt|
    decreases |dt| - pos, 1
  {
    match ReadString(dt, pos)
    case None => None
    case Some(Result(name, next)) => ReadBody(Node(name, [], [], false), dt, next, str)
  }

  /** The rest of `node`, up to and including its END_NODE tag. */
  function ReadBody(node: Node, dt: Buf, pos: nat, str: Buf): (r: Option<Result<Node>>)
    ensures r.Some? ==> pos < r.value.pos <= |dt|
    decreases |dt| - pos, 0
  {
    match ReadWord(dt, pos)
    case None => None
    case Some(tag) =>
      if tag == PROP then
        match ReadProp(dt, pos + 4, str)
        case None => None
        case Some(Result(p, next)) => ReadBody(node.(props := node.props + [p]), dt, next, str)
      else if tag == BEGIN_NODE then
        match ReadNode(dt, pos + 4, str)
        case None => None
        case Some(Result(kid, next)) => ReadBody(node.(children := node.children + [kid]), dt, next, str)
      else if tag == END_NODE then Some(Result(node, pos + 4))
      else if tag == NOP then ReadBody(node, dt, pos + 4, str)
      else None
  }
}
