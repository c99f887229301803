/** The flattener and the reader of 3rd/dtc/flattree.c, with their buffers updated in place. */
module Flattree {

  import opened Basics
  import opened FdtBytes
  import opened FdtTree
  import opened FdtBlob

  // ---------------------------------------------------------------------------------------------
  // Writing
  // ---------------------------------------------------------------------------------------------

  lemma PadBehind(a: Buf, b: Buf)
    requires |a| % 4 == 0
    ensures Align(|a + b|, 4) >= |a + b| && (a + b) + Zeroes(Align(|a + b|, 4) - |a + b|) == a + Pad(b)
  {
    AlignShift(|a|, |b|);
  }

  lemma BeginBytes(dt: Buf, name: Buf)
    requires |dt| % 4 == 0
    ensures (dt + Word(BEGIN_NODE)) + Pad(name + [0]) == dt + Chunk(Begin(name))
  {
    hide Word, Pad;
  }

  lemma PropBytes(dt: Buf, off: nat, val: Buf)
    ensures dt + Word(PROP) + Word(|val|) + Word(off) + Pad(val) == dt + Chunk(Property(off, val))
  {
    hide Word, Pad;
  }

  lemma BareBytes(dt: Buf, t: Token)
    requires t == End || t == Stop
    ensures dt + Word(Tag(t)) == dt + Chunk(t)
  {
    hide Word;
  }

  /** One property further: `str` and the tokens still to come. */
  lemma PropsOnward(props: seq<Prop>, i: nat, str: Buf)
    requires i < |props|
    ensures var (str1, off) := Insert(str, props[i].name);
            if props[i].deleted
            then PropTokens(props[i..], str) == PropTokens(props[i + 1..], str)
            else && Encode(PropTokens(props[i..], str).0)
                    == Chunk(Property(off, props[i].val)) + Encode(PropTokens(props[i + 1..], str1).0)
                 && PropTokens(props[i..], str).1 == PropTokens(props[i + 1..], str1).1
  {
    hide Chunk, Insert;
    assert props[i..][0] == props[i] && props[i..][1..] == props[i + 1..];
    if !props[i].deleted {
      var (str1, off) := Insert(str, props[i].name);
      var t, ts := Property(off, props[i].val), PropTokens(props[i + 1..], str1).0;
      assert ([t] + ts)[1..] == ts;
    }
  }

  lemma KidsOnward(kids: seq<Node>, i: nat, str: Buf)
    requires i < |kids|
    ensures var (ts, str1) := NodeTokens(kids[i], str);
            && Encode(KidTokens(kids[i..], str).0) == Encode(ts) + Encode(KidTokens(kids[i + 1..], str1).0)
            && KidTokens(kids[i..], str).1 == KidTokens(kids[i + 1..], str1).1
  {
    hide Encode, NodeTokens;
    assert kids[i..][0] == kids[i] && kids[i..][1..] == kids[i + 1..];
    var (ts, str1) := NodeTokens(kids[i], str);
    EncodeAppend(ts, KidTokens(kids[i + 1..], str1).0);
  }

  lemma NodeBytes(node: Node, str: Buf)
    requires !node.deleted
    ensures var (ps, str1) := PropTokens(node.props, str);
            var (ks, str2) := KidTokens(node.children, str1);
            && Encode(NodeTokens(node, str).0) == Chunk(Begin(node.name)) + Encode(ps) + Encode(ks) + Chunk(End)
            && NodeTokens(node, str).1 == str2
  {
    hide Encode, Chunk, PropTokens, KidTokens;
    var (ps, str1) := PropTokens(node.props, str);
    var ks := KidTokens(node.children, str1).0;
    var b: seq<Token> := [Begin(node.name)];
    EncodeAppend(b, ps + (ks + [End]));
    EncodeAppend(ps, ks + [End]);
    EncodeAppend(ks, [End]);
    EncodeOne(Begin(node.name));
    EncodeOne(End);
  }

  lemma NothingLeft(props: seq<Prop>, kids: seq<Node>, dt: Buf, str: Buf)
    ensures dt + Encode(PropTokens(props[|props|..], str).0) == dt && PropTokens(props[|props|..], str).1 == str
    ensures dt + Encode(KidTokens(kids[|kids|..], str).0) == dt && KidTokens(kids[|kids|..], str).1 == str
  {
  }

  /** Appending a chunk moves it from what is to come to what is written. */
  lemma Moved(dt: Buf, chunk: Buf, rest: Buf)
    ensures dt + (chunk + rest) == (dt + chunk) + rest
  {
  }

  class Flattener {
    var dt: Buf
    var str: Buf

    constructor ()
      ensures dt == [] && str == []
    {
      dt, str := [], [];
    }

    method EmitCell(v: nat)
      modifies this`dt
      ensures dt == old(dt) + Word(v)
    {
      dt := dt + Word(v);
    }

    method EmitString(s: Buf)
      modifies this`dt
      ensures dt == old(dt) + (s + [0])
    {
      dt := dt + s;
      dt := dt + [0];
    }

    method EmitAlign()
      modifies this`dt
      ensures |old(dt)| <= Align(|old(dt)|, 4) && dt == old(dt) + Zeroes(Align(|old(dt)|, 4) - |old(dt)|)
    {
      var newlen := Align(|dt|, 4);
      dt := dt + Zeroes(newlen - |dt|);
    }

    method EmitData(b: Buf)
      modifies this`dt
      ensures dt == old(dt) + b
    {
      dt := dt + b;
    }

    method StringtableInsert(s: Buf) returns (off: nat)
      modifies this`str
      ensures (str, off) == Insert(old(str), s)
    {
      off := 0;
      while off < |str|
        invariant 0 <= off <= |str|
        invariant FindString(str, s, off) == FindString(str, s, 0)
      {
        if StringAt(str, off) == Some(s) {
          return;
        }
        off := off + 1;
      }
      str := str + (s + [0]);
    }

    method FlattenProperty(p: Prop)
      requires |dt| % 4 == 0
      modifies this
      ensures var (str1, off) := Insert(old(str), p.name);
              str == str1 && dt == old(dt) + Chunk(Property(off, p.val)) && |dt| % 4 == 0
    {
      hide Word, Pad, Chunk, Insert;
      ghost var before := dt;
      var off := StringtableInsert(p.name);
      EmitCell(PROP);
      EmitCell(|p.val|);
      EmitCell(off);
      SumAligned(|before|, 12);
      PadBehind(dt, p.val);
      SumAligned(|dt|, |Pad(p.val)|);
      EmitData(p.val);
      EmitAlign();
      PropBytes(before, off, p.val);
    }

    method FlattenTree(node: Node)
      requires |dt| % 4 == 0
      modifies this
      ensures dt == old(dt) + Encode(NodeTokens(node, old(str)).0) && str == NodeTokens(node, old(str)).1
      ensures |dt| % 4 == 0
      decreases node
    {
      hide Word, Pad, Chunk, Encode, PropTokens, KidTokens, NodeTokens, Insert;
      if node.deleted {
        NoNode(node, dt, str);
        return;
      }
      ghost var before := dt;
      NodeBytes(node, str);
      EmitCell(BEGIN_NODE);
      SumAligned(|before|, 4);
      PadBehind(dt, node.name + [0]);
      SumAligned(|dt|, |Pad(node.name + [0])|);
      EmitString(node.name);
      EmitAlign();
      BeginBytes(before, node.name);
      FlattenProperties(node.props);
      ghost var str1 := str;
      FlattenChildren(node);
      SumAligned(|dt|, 4);
      BareBytes(dt, End);
      EmitCell(END_NODE);
      ghost var ps := Encode(PropTokens(node.props, old(str)).0);
      ghost var ks := Encode(KidTokens(node.children, str1).0);
      Assemble(before, Chunk(Begin(node.name)), ps, ks, Chunk(End));
    }

    method FlattenProperties(props: seq<Prop>)
      requires |dt| % 4 == 0
      modifies this
      ensures dt == old(dt) + Encode(PropTokens(props, old(str)).0) && str == PropTokens(props, old(str)).1
      ensures |dt| % 4 == 0
    {
      hide Chunk, Encode, PropTokens, Insert;
      var i := 0;
      assert props[0..] == props;
      while i < |props|
        invariant 0 <= i <= |props| && |dt| % 4 == 0
        invariant dt + Encode(PropTokens(props[i..], str).0) == old(dt) + Encode(PropTokens(props, old(str)).0)
        invariant PropTokens(props[i..], str).1 == PropTokens(props, old(str)).1
      {
        PropsOnward(props, i, str);
        if !props[i].deleted {
          ghost var b, s := dt, str;
          FlattenProperty(props[i]);
          Moved(b, Chunk(Property(Insert(s, props[i].name).1, props[i].val)),
                Encode(PropTokens(props[i + 1..], str).0));
        }
        i := i + 1;
      }
      NothingLeft(props, [], dt, str);
    }

    method FlattenChildren(node: Node)
      requires |dt| % 4 == 0
      modifies this
      ensures dt == old(dt) + Encode(KidTokens(node.children, old(str)).0)
      ensures str == KidTokens(node.children, old(str)).1 && |dt| % 4 == 0
      decreases node, 0
    {
      hide Encode, KidTokens, NodeTokens;
      ghost var kids := node.children;
      assert kids[0..] == kids;
      var i := 0;
      while i < |node.children|
        invariant 0 <= i <= |kids| && |dt| % 4 == 0
        invariant dt + Encode(KidTokens(kids[i..], str).0) == old(dt) + Encode(KidTokens(kids, old(str)).0)
        invariant KidTokens(kids[i..], str).1 == KidTokens(kids, old(str)).1
      {
        KidsOnward(kids, i, str);
        ghost var b, s := dt, str;
        FlattenTree(node.children[i]);
        Moved(b, Encode(NodeTokens(kids[i], s).0), Encode(KidTokens(kids[i + 1..], str).0));
        i := i + 1;
      }
      NothingLeft([], kids, dt, str);
    }
  }

  method FlattenReserveList(list: seq<Reserve>, slots: nat) returns (d: Buf)
    ensures d == ReserveList(list) + Zeroes(ENTRY * slots)
  {
    hide ReserveEntry;
    d := [];
    var i := 0;
    assert list[0..] == list;
    while i < |list|
      invariant 0 <= i <= |list| && d + ReserveList(list[i..]) == ReserveList(list)
    {
      assert list[i..][0] == list[i] && list[i..][1..] == list[i + 1..];
      Moved(d, ReserveEntry(list[i]), ReserveList(list[i + 1..]));
      d := d + ReserveEntry(list[i]);
      i := i + 1;
    }
    assert d == ReserveList(list);
    var j := 0;
    while j < slots
      invariant 0 <= j <= slots && d == ReserveList(list) + Zeroes(ENTRY * j)
    {
      ZeroSlot();
      assert Zeroes(ENTRY * (j + 1)) == Zeroes(ENTRY * j) + Zeroes(ENTRY);
      d := d + ReserveEntry(Reserve(0, 0));
      j := j + 1;
    }
  }

  lemma {:induction false} ZeroNumber(n: nat)
    ensures BigEndian(0, n) == Zeroes(n)
  {
    if n > 0 {
      ZeroNumber(n - 1);
      assert Zeroes(n) == Zeroes(n - 1) + [0];
    }
  }

  lemma ZeroSlot()
    ensures ReserveEntry(Reserve(0, 0)) == Zeroes(ENTRY)
  {
    ZeroNumber(8);
    assert Zeroes(ENTRY) == Zeroes(8) + Zeroes(8);
  }

  method FlattenBlocks(tree: Node) returns (dt: Buf, str: Buf)
    ensures dt == StructBlock(tree) && str == StringsBlock(tree)
  {
    hide Encode, NodeTokens, Chunk, Word;
    var f := new Flattener();
    f.FlattenTree(tree);
    BareBytes(f.dt, Stop);
    EncodeAppend(NodeTokens(tree, []).0, [Stop]);
    EncodeOne(Stop);
    f.EmitCell(END);
    return f.dt, f.str;
  }

  lemma HeaderBytes(info: Info, o: Options)
    requires o.version == 16 || o.version == 17
    ensures var h := Words(HeaderFields(info, o));
            Align(|h|, 8) >= |h| && h + Zeroes(Align(|h|, 8) - |h|) == Header(info, o)
  {
    hide HeaderFields, Words;
  }

  method DtToBlob(info: Info, o: Options) returns (blob: Buf)
    requires o.version == 16 || o.version == 17
    ensures blob == ToBlob(info, o)
  {
    hide StructBlock, StringsBlock, ReserveList, HeaderFields, PadLength, Words, Header, Align, Zeroes, ToBlob;
    var dt, str := FlattenBlocks(info.tree);
    var reserve := FlattenReserveList(info.reserve, o.slots);
    var h := Words(HeaderFields(info, o));
    HeaderBytes(info, o);
    blob := h + Zeroes(Align(|h|, 8) - |h|);
    blob := blob + reserve;
    blob := blob + Zeroes(ENTRY);
    blob := blob + dt;
    blob := blob + str;
    var padlen := PadLength(UsedSize(info, o), o);
    if padlen > 0 {
      blob := blob + Zeroes(padlen);
    }
    BlobBytes(info, o);
  }

  lemma BlobBytes(info: Info, o: Options)
    ensures var reserve := ReserveList(info.reserve) + Zeroes(ENTRY * o.slots);
            var pad := PadLength(UsedSize(info, o), o);
            var blob := Header(info, o) + reserve + Zeroes(ENTRY) + StructBlock(info.tree) + StringsBlock(info.tree);
            ToBlob(info, o) == if pad > 0 then blob + Zeroes(pad) else blob
  {
    hide StructBlock, StringsBlock, ReserveList, PadLength, Header;
    assert Zeroes(ENTRY * o.slots + ENTRY) == Zeroes(ENTRY * o.slots) + Zeroes(ENTRY);
  }

  lemma NoNode(node: Node, dt: Buf, str: Buf)
    requires node.deleted
    ensures dt + Encode(NodeTokens(node, str).0) == dt && NodeTokens(node, str).1 == str
  {
  }

  lemma Assemble(dt: Buf, a: Buf, b: Buf, c: Buf, d: Buf)
    ensures dt + a + b + c + d == dt + (a + b + c + d)
  {
  }

  // ---------------------------------------------------------------------------------------------
  // Reading
  // ---------------------------------------------------------------------------------------------

  /** Where the source ends the program, the methods return None. */
  class Inbuf {
    const base: Buf
    var ptr: nat

    constructor (bytes: Buf)
      ensures base == bytes && ptr == 0
    {
      base, ptr := bytes, 0;
    }

    method Word32() returns (r: Option<nat>)
      modifies this
      ensures r == ReadWord(base, old(ptr)) && (r.Some? ==> ptr == old(ptr) + 4 <= |base|)
    {
      if ptr % 4 != 0 || ptr + 4 > |base| {
        return None;
      }
      r := Some(NumberAt(base, ptr, 4));
      ptr := ptr + 4;
    }

    method Realign() returns (ok: bool)
      modifies this
      ensures ok == (Align(old(ptr), 4) <= |base|) && (ok ==> ptr == Align(old(ptr), 4))
    {
      ptr := Align(ptr, 4);
      ok := ptr <= |base|;
    }

    method Name() returns (r: Option<Buf>)
      modifies this
      ensures match ReadString(base, old(ptr))
              case None => r == None
              case Some(Result(s, next)) => r == Some(s) && ptr == next
    {
      var p := ptr;
      while p < |base| && base[p] != 0
        invariant ptr == old(ptr) && ptr <= p && (p <= |base| || p == ptr)
        invariant Scanned(base, ptr, p)
        decreases |base| - p
      {
        ScanOne(base, ptr, p);
        p := p + 1;
      }
      ScanEnd(base, ptr, p);
      if p >= |base| {
        return None;
      }
      var s := base[ptr..p];
      ptr := p + 1;
      var ok := Realign();
      return if ok then Some(s) else None;
    }

    method Value(len: nat) returns (r: Option<Buf>)
      modifies this
      ensures match ReadData(base, old(ptr), len)
              case None => r == None
              case Some(Result(val, next)) => r == Some(val) && ptr == next
    {
      if len == 0 {
        return Some([]);
      }
      if ptr + len > |base| {
        return None;
      }
      var val := base[ptr..ptr + len];
      ptr := ptr + len;
      var ok := Realign();
      return if ok then Some(val) else None;
    }

    method Property(str: Buf) returns (r: Option<Prop>)
      modifies this
      ensures match ReadProp(base, old(ptr), str)
              case None => r == None
              case Some(Result(p, next)) => r == Some(p) && ptr == next
    {
      hide ReadWord, StringAt, ReadData;
      var len := Word32();
      if len.None? {
        return None;
      }
      var off := Word32();
      if off.None? {
        return None;
      }
      var name := TableString(str, off.value);
      if name.None? {
        return None;
      }
      var val := Value(len.value);
      return if val.Some? then Some(Prop(name.value, val.value, false)) else None;
    }

    method UnflattenTree(str: Buf) returns (r: Option<Node>)
      modifies this
      ensures match ReadNode(base, old(ptr), str)
              case None => r == None
              case Some(Result(node, next)) => r == Some(node) && ptr == next
      decreases |base| - ptr
    {
      hide ReadWord, ReadProp, ReadString;
      ghost var start := ptr;
      var name := Name();
      if name.None? {
        return None;
      }
      var node := Node(name.value, [], [], false);
      while true
        invariant start < ptr <= |base| && ReadNode(base, start, str) == ReadBody(node, base, ptr, str)
        decreases |base| - ptr
      {
        var tag := Word32();
        if tag.None? {
          return None;
        }
        if tag.value == PROP {
          var prop := Property(str);
          if prop.None? {
            return None;
          }
          node := node.(props := node.props + [prop.value]);
        } else if tag.value == BEGIN_NODE {
          var child := UnflattenTree(str);
          if child.None? {
            return None;
          }
          node := node.(children := node.children + [child.value]);
        } else if tag.value == END_NODE {
          return Some(node);
        } else if tag.value != NOP {
          return None;
        }
      }
    }
  }

  /** No terminator from `from` up to `p`. */
  ghost predicate Scanned(buf: Buf, from: nat, p: nat) {
    from <= p && (p <= |buf| ==> forall i :: from <= i < p ==> buf[i] != 0)
  }

  lemma ScanOne(buf: Buf, from: nat, p: nat)
    requires Scanned(buf, from, p) && p < |buf| && buf[p] != 0
    ensures Scanned(buf, from, p + 1)
  {
  }

  lemma {:induction false} ScanEnd(buf: Buf, from: nat, p: nat)
    requires Scanned(buf, from, p) && (p >= |buf| || buf[p] == 0) && (p <= |buf| || p == from)
    ensures StringAt(buf, from) == if p >= |buf| then None else Some(buf[from..p])
    decreases p - from
  {
    if from < p {
      ScanEnd(buf, from + 1, p);
      assert p < |buf| ==> buf[from..p] == [buf[from]] + buf[from + 1..p];
    }
  }

  /** A string of the strings block, read up to its terminator. */
  method TableString(str: Buf, off: nat) returns (r: Option<Buf>)
    ensures r == StringAt(str, off)
  {
    var p := off;
    while true
      invariant Scanned(str, off, p) && (p <= |str| || p == off)
      decreases |str| - p
    {
      if p >= |str| {
        ScanEnd(str, off, p);
        return None;
      }
      if str[p] == 0 {
        break;
      }
      p := p + 1;
    }
    ScanEnd(str, off, p);
    return Some(str[off..p]);
  }
}
