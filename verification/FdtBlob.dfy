/** The whole blob (dt_to_blob and dt_from_blob of 3rd/dtc/flattree.c), versions 16 and 17. */
module FdtBlob {

  import opened Basics
  import opened FdtBytes
  import opened FdtTree
  import opened FdtRoundTrip

  const MAGIC: nat := 0xd00dfeed
  const INT_MAX: nat := 0x7fff_ffff
  const ENTRY: nat := 16
  const V1_SIZE: nat := 28
  const V3_SIZE: nat := 36
  const V17_SIZE: nat := 40

  datatype Reserve = Reserve(address: nat, size: nat)

  datatype Info = Info(reserve: seq<Reserve>, tree: Node, bootCpu: nat)

  /** The options of the compiler: extra reserve slots, and how the blob is padded. */
  datatype Options = Options(version: nat, slots: nat, minSize: nat, padSize: nat, alignSize: nat)

  // ---------------------------------------------------------------------------------------------
  // Writing
  // ---------------------------------------------------------------------------------------------

  function StructBlock(tree: Node): Buf {
    Encode(NodeTokens(tree, []).0 + [Stop])
  }

  function StringsBlock(tree: Node): Buf {
    NodeTokens(tree, []).1
  }

  function ReserveEntry(re: Reserve): (r: Buf)
    ensures |r| == ENTRY
  {
    BigEndian(re.address, 8) + BigEndian(re.size, 8)
  }

  function ReserveList(list: seq<Reserve>): (r: Buf)
    ensures |r| == ENTRY * |list|
  {
    if list == [] then [] else ReserveEntry(list[0]) + ReserveList(list[1..])
  }

  /** The entries, the extra slots and the terminating entry. */
  function ReserveBlock(list: seq<Reserve>, slots: nat): Buf {
    ReserveList(list) + Zeroes(ENTRY * slots + ENTRY)
  }

  function Words(vs: seq<nat>): (r: Buf)
    ensures |r| == 4 * |vs|
  {
    if vs == [] then [] else Word(vs[0]) + Words(vs[1..])
  }

  function UsedSize(info: Info, o: Options): nat {
    V17_SIZE + |ReserveBlock(info.reserve, o.slots)| + |StructBlock(info.tree)| + |StringsBlock(info.tree)|
  }

  function PadLength(used: nat, o: Options): (r: nat) {
    var p0 := if o.minSize > used then o.minSize - used else 0;
    var p1 := if o.padSize > 0 then o.padSize else p0;
    if o.alignSize > 0 then AlignAtLeast(used + p1, o.alignSize); Align(used + p1, o.alignSize) - used else p1
  }

  lemma AlignAtLeast(n: nat, a: nat)
    requires a > 0
    ensures Align(n, a) >= n
  {
  }

  function TotalSize(info: Info, o: Options): nat {
    UsedSize(info, o) + PadLength(UsedSize(info, o), o)
  }

  /** The header fields in order; the reserve block starts at a multiple of eight, behind the header. */
  function HeaderFields(info: Info, o: Options): (r: seq<nat>)
    ensures |r| == if o.version == 17 then 10 else 9
  {
    var structAt := V17_SIZE + |ReserveBlock(info.reserve, o.slots)|;
    var stringsAt := structAt + |StructBlock(info.tree)|;
    [MAGIC, TotalSize(info, o), structAt, stringsAt, V17_SIZE, o.version, 16, info.bootCpu,
     |StringsBlock(info.tree)|]
    + if o.version == 17 then [|StructBlock(info.tree)|] else []
  }

  function Header(info: Info, o: Options): (r: Buf)
    ensures |r| == V17_SIZE
  {
    var h := Words(HeaderFields(info, o));
    h + Zeroes(V17_SIZE - |h|)
  }

  function ToBlob(info: Info, o: Options): Buf {
    Header(info, o)
    + (ReserveBlock(info.reserve, o.slots)
       + (StructBlock(info.tree)
          + (StringsBlock(info.tree) + Zeroes(PadLength(UsedSize(info, o), o)))))
  }

  // ---------------------------------------------------------------------------------------------
  // Reading
  // ---------------------------------------------------------------------------------------------

  function ReadReserve(buf: Buf, pos: nat): Option<seq<Reserve>>
    decreases |buf| - pos
  {
    if pos + ENTRY > |buf| then None
    else
      var size := NumberAt(buf, pos + 8, 8);
      if size == 0 then Some([])
      else
        match ReadReserve(buf, pos + ENTRY)
        case None => None
        case Some(rest) => Some([Reserve(NumberAt(buf, pos, 8), size)] + rest)
  }

  function Field(blob: Buf, k: nat): nat
    requires 4 * k + 4 <= |blob|
  {
    NumberAt(blob, 4 * k, 4)
  }

  /** A blob in a file; what follows its total size is not read. */
  function FromBlob(file: Buf): Option<Info> {
    if |file| < 8 || Field(file, 0) != MAGIC || Field(file, 1) < V1_SIZE || Field(file, 1) > |file| then None
    else FromWhole(file[..Field(file, 1)])
  }

  function FromWhole(blob: Buf): Option<Info>
    requires V1_SIZE <= |blob|
  {
    var total, version := |blob|, Field(blob, 5);
    var structAt, stringsAt, reserveAt := Field(blob, 2), Field(blob, 3), Field(blob, 4);
    if reserveAt >= total || structAt >= total || stringsAt > total || version < 16 || total < V3_SIZE then None
    else
      var stringsSize := Field(blob, 8);
      if (stringsAt + stringsSize) % U32 < stringsAt || (stringsAt + stringsSize) % U32 > total then None
      else if version >= 17 && (total < V17_SIZE || !StructFits(blob)) then None
      else
        NoWrap(blob);
        FromParts(blob[reserveAt..], blob[structAt..], blob[stringsAt..stringsAt + stringsSize], Field(blob, 7))
  }

  lemma NoWrap(blob: Buf)
    requires V3_SIZE <= |blob|
    requires Field(blob, 3) <= (Field(blob, 3) + Field(blob, 8)) % U32 <= |blob|
    ensures Field(blob, 3) + Field(blob, 8) <= |blob|
  {
    Sizes();
    NumberBelow(blob[12..16]);
    NumberBelow(blob[32..36]);
  }

  predicate StructFits(blob: Buf)
    requires V17_SIZE <= |blob|
  {
    var end := (Field(blob, 2) + Field(blob, 9)) % U32;
    Field(blob, 2) <= end <= |blob|
  }

  function FromParts(reserve: Buf, dt: Buf, str: Buf, bootCpu: nat): Option<Info> {
    match ReadReserve(reserve, 0)
    case None => None
    case Some(list) =>
      if ReadWord(dt, 0) != Some(BEGIN_NODE) then None
      else
        match ReadNode(dt, 4, str)
        case None => None
        case Some(Result(tree, next)) =>
          if ReadWord(dt, next) == Some(END) then Some(Info(list, tree, bootCpu)) else None
  }

  /** The entries before the first one of size zero, which ends the list for every reader. */
  function UpToZero(list: seq<Reserve>): seq<Reserve> {
    if list == [] || list[0].size == 0 then [] else [list[0]] + UpToZero(list[1..])
  }

  // ---------------------------------------------------------------------------------------------
  // The blocks stand where the header says
  // ---------------------------------------------------------------------------------------------

  lemma {:induction false} WordsAt(vs: seq<nat>, k: nat)
    requires k < |vs|
    ensures At(Words(vs), 4 * k, Word(vs[k]))
    decreases |vs|
  {
    hide Word;
    if k == 0 {
      AtSplit(Words(vs), 0, Word(vs[0]), Words(vs[1..]));
    } else {
      WordsAt(vs[1..], k - 1);
      AtSplit(Words(vs), 0, Word(vs[0]), Words(vs[1..]));
      AtInside(Words(vs), 4, Words(vs[1..]), 4 * (k - 1), Word(vs[k]));
    }
  }

  lemma HeaderAt(info: Info, o: Options, k: nat)
    requires k < |HeaderFields(info, o)|
    ensures At(ToBlob(info, o), 4 * k, Word(HeaderFields(info, o)[k]))
  {
    hide Word, Words, HeaderFields, ReserveBlock, StructBlock, StringsBlock, PadLength;
    var fields := HeaderFields(info, o);
    WordsAt(fields, k);
    var w := Words(fields);
    AtExtended(w, Zeroes(V17_SIZE - |w|), 4 * k, Word(fields[k]));
    AtExtended(Header(info, o), ToBlob(info, o)[V17_SIZE..], 4 * k, Word(fields[k]));
    assert ToBlob(info, o) == Header(info, o) + ToBlob(info, o)[V17_SIZE..];
  }

  /** A blob starts with the magic number, most significant byte first. */
  lemma StartsWithMagic(info: Info, o: Options)
    ensures |ToBlob(info, o)| >= 4 && ToBlob(info, o)[..4] == [0xd0, 0x0d, 0xfe, 0xed]
  {
    hide Word, ToBlob, ReserveBlock, StructBlock, StringsBlock, TotalSize;
    HeaderAt(info, o, 0);
    MagicBytes();
  }

  lemma MagicBytes()
    ensures Word(MAGIC) == [0xd0, 0x0d, 0xfe, 0xed]
  {
    hide Word, Number;
    WordBytes(MAGIC, [0, 0, 0, 0]);
  }

  lemma FieldIs(info: Info, o: Options, k: nat)
    requires k < |HeaderFields(info, o)| && HeaderFields(info, o)[k] < U32
    ensures 4 * k + 4 <= |ToBlob(info, o)| && Field(ToBlob(info, o), k) == HeaderFields(info, o)[k]
  {
    hide Word, HeaderFields, ToBlob;
    HeaderAt(info, o, k);
    WordAt(ToBlob(info, o), 4 * k, HeaderFields(info, o)[k]);
  }

  lemma Concat4(a: Buf, b: Buf, c: Buf, d: Buf, e: Buf)
    ensures var blob := a + (b + (c + (d + e)));
            && At(blob, |a|, b) && At(blob, |a| + |b|, c) && At(blob, |a| + |b| + |c|, d)
            && |blob| == |a| + |b| + |c| + |d| + |e|
  {
    var blob := a + (b + (c + (d + e)));
    assert At(blob, 0, blob);
    AtSplit(blob, 0, a, b + (c + (d + e)));
    AtSplit(blob, |a|, b, c + (d + e));
    AtSplit(blob, |a| + |b|, c, d + e);
    AtSplit(blob, |a| + |b| + |c|, d, e);
  }

  lemma BlocksAt(info: Info, o: Options)
    ensures var blob := ToBlob(info, o);
            var reserve, dt := ReserveBlock(info.reserve, o.slots), StructBlock(info.tree);
            && |blob| == TotalSize(info, o)
            && At(blob, V17_SIZE, reserve)
            && At(blob, V17_SIZE + |reserve|, dt)
            && At(blob, V17_SIZE + |reserve| + |dt|, StringsBlock(info.tree))
  {
    hide Header, ReserveBlock, StructBlock, StringsBlock, PadLength;
    Concat4(Header(info, o), ReserveBlock(info.reserve, o.slots), StructBlock(info.tree),
            StringsBlock(info.tree), Zeroes(PadLength(UsedSize(info, o), o)));
  }

  /** What the blocks look like from their own beginnings. */
  lemma TailAt(blob: Buf, base: nat, block: Buf)
    requires At(blob, base, block)
    ensures At(blob[base..], 0, block)
  {
    assert blob[base..][0..|block|] == blob[base..base + |block|];
  }

  // ---------------------------------------------------------------------------------------------
  // The reserve block
  // ---------------------------------------------------------------------------------------------

  lemma {:induction false} NumberZero(b: Buf)
    requires forall i :: 0 <= i < |b| ==> b[i] == 0
    ensures Number(b) == 0
    decreases |b|
  {
    if b != [] {
      NumberZero(b[..|b| - 1]);
    }
  }

  lemma EntryRead(buf: Buf, pos: nat, re: Reserve)
    requires At(buf, pos, ReserveEntry(re)) && re.address < U64 && re.size < U64
    ensures NumberAt(buf, pos, 8) == re.address && NumberAt(buf, pos + 8, 8) == re.size
  {
    hide BigEndian, Number;
    AtSplit(buf, pos, BigEndian(re.address, 8), BigEndian(re.size, 8));
    Sizes();
    NumberRoundTrip(re.address, 8);
    NumberRoundTrip(re.size, 8);
  }

  lemma {:induction false} ReserveRead(buf: Buf, pos: nat, list: seq<Reserve>, slots: nat)
    requires At(buf, pos, ReserveBlock(list, slots))
    requires forall i :: 0 <= i < |list| ==> list[i].address < U64 && list[i].size < U64
    ensures ReadReserve(buf, pos) == Some(UpToZero(list))
    decreases |list|
  {
    hide ReserveEntry, Number, BigEndian;
    if list == [] {
      var z := Zeroes(ENTRY * slots + ENTRY);
      assert ReserveBlock(list, slots) == z;
      var b := buf[pos + 8..pos + 16];
      forall i | 0 <= i < |b|
        ensures b[i] == 0
      {
        AtByte(buf, pos, z, 8 + i);
      }
      NumberZero(b);
    } else {
      var rest := ReserveBlock(list[1..], slots);
      assert ReserveBlock(list, slots) == ReserveEntry(list[0]) + rest;
      AtSplit(buf, pos, ReserveEntry(list[0]), rest);
      EntryRead(buf, pos, list[0]);
      ReserveRead(buf, pos + ENTRY, list[1..], slots);
    }
  }

  // ---------------------------------------------------------------------------------------------
  // The round trip
  // ---------------------------------------------------------------------------------------------

  /** What the compiler can write: 64-bit reserve entries, and a size that an `int` holds. */
  predicate Writable(info: Info, o: Options) {
    && (o.version == 16 || o.version == 17)
    && Named(info.tree) && info.bootCpu < U32
    && (forall i :: 0 <= i < |info.reserve| ==> info.reserve[i].address < U64 && info.reserve[i].size < U64)
    && TotalSize(info, o) <= INT_MAX
  }

  /** The structure block, followed by anything, is read as the live tree and its end. */
  lemma StructRead(tree: Node, dt: Buf)
    requires Named(tree) && At(dt, 0, StructBlock(tree)) && |dt| < U32 && |StringsBlock(tree)| < U32
    ensures tree.deleted ==> ReadWord(dt, 0) == Some(END)
    ensures !tree.deleted ==>
              && ReadWord(dt, 0) == Some(BEGIN_NODE)
              && ReadNode(dt, 4, StringsBlock(tree)).Some?
              && ReadNode(dt, 4, StringsBlock(tree)).value.value == Live(tree)
              && ReadWord(dt, ReadNode(dt, 4, StringsBlock(tree)).value.pos) == Some(END)
  {
    hide Encode, ReadNode, ReadWord, Live, Placed;
    var (ts, str) := NodeTokens(tree, []);
    assert Placed(dt, 0, ts + [Stop], str) by { StructPlaced(tree, dt); }
    PlacedSplit(dt, 0, ts, [Stop], str);
    if tree.deleted {
      NoTokens(tree, []);
      EncodeNone();
      StopRead(dt, 0, str);
    } else {
      NodeRead(tree, dt, 0, [], str);
      StopRead(dt, |Encode(ts)|, str);
    }
  }

  lemma StructPlaced(tree: Node, dt: Buf)
    requires At(dt, 0, StructBlock(tree)) && |dt| < U32 && |StringsBlock(tree)| < U32
    ensures Placed(dt, 0, NodeTokens(tree, []).0 + [Stop], StringsBlock(tree))
  {
  }

  lemma StopRead(dt: Buf, pos: nat, str: Buf)
    requires Placed(dt, pos, [Stop], str)
    ensures ReadWord(dt, pos) == Some(END)
  {
    EncodeOne(Stop);
    TagRead(dt, pos, Stop);
  }

  /** The header of a written blob, as the readers see it. */
  lemma HeaderRead(info: Info, o: Options)
    requires Writable(info, o)
    ensures var blob := ToBlob(info, o);
            var reserve := ReserveBlock(info.reserve, o.slots);
            var dt, str := StructBlock(info.tree), StringsBlock(info.tree);
            && |blob| == TotalSize(info, o) >= V17_SIZE + |reserve| + |dt| + |str|
            && Field(blob, 0) == MAGIC && Field(blob, 1) == |blob| && Field(blob, 2) == V17_SIZE + |reserve|
            && Field(blob, 3) == V17_SIZE + |reserve| + |dt| && Field(blob, 4) == V17_SIZE
            && Field(blob, 5) == o.version && Field(blob, 6) == 16 && Field(blob, 7) == info.bootCpu
            && Field(blob, 8) == |str| && (o.version == 17 ==> Field(blob, 9) == |dt|)
  {
    hide ReserveBlock, StructBlock, StringsBlock, Field, ToBlob, PadLength, Named;
    BlocksAt(info, o);
    FieldIs(info, o, 0);
    FieldIs(info, o, 1);
    FieldIs(info, o, 2);
    FieldIs(info, o, 3);
    FieldIs(info, o, 4);
    FieldIs(info, o, 5);
    FieldIs(info, o, 6);
    FieldIs(info, o, 7);
    FieldIs(info, o, 8);
    if o.version == 17 {
      FieldIs(info, o, 9);
    }
  }

  /** Compiling a tree and reading the blob back gives the live tree, or nothing for a deleted root. */
  lemma BlobRoundTrip(info: Info, o: Options)
    requires Writable(info, o)
    ensures FromBlob(ToBlob(info, o))
         == if info.tree.deleted then None
            else Some(Info(UpToZero(info.reserve), Live(info.tree), info.bootCpu))
  {
    hide ReserveBlock, StructBlock, StringsBlock, Field, ToBlob, PadLength, Live, Named, FromParts;
    var blob := ToBlob(info, o);
    var reserve, dt, str := ReserveBlock(info.reserve, o.slots), StructBlock(info.tree), StringsBlock(info.tree);
    HeaderRead(info, o);
    BlocksAt(info, o);
    assert blob[..|blob|] == blob;
    var structAt := V17_SIZE + |reserve|;
    StructNotEmpty(info.tree);
    assert FromBlob(blob)
        == FromParts(blob[V17_SIZE..], blob[structAt..], blob[structAt + |dt|..structAt + |dt| + |str|], info.bootCpu);
    PartsRead(info, o, blob[V17_SIZE..], blob[structAt..], blob[structAt + |dt|..structAt + |dt| + |str|]) by {
      TailAt(blob, V17_SIZE, reserve);
      TailAt(blob, structAt, dt);
    }
  }

  lemma StructNotEmpty(tree: Node)
    ensures |StructBlock(tree)| > 0
  {
    hide Encode;
    EncodeAppend(NodeTokens(tree, []).0, [Stop]);
    EncodeOne(Stop);
    ChunkAligned(Stop);
  }

  lemma PartsRead(info: Info, o: Options, reserve: Buf, dt: Buf, str: Buf)
    requires Writable(info, o) && |dt| <= INT_MAX && |str| <= INT_MAX
    requires At(reserve, 0, ReserveBlock(info.reserve, o.slots)) && At(dt, 0, StructBlock(info.tree))
    requires str == StringsBlock(info.tree)
    ensures FromParts(reserve, dt, str, info.bootCpu)
         == if info.tree.deleted then None
            else Some(Info(UpToZero(info.reserve), Live(info.tree), info.bootCpu))
  {
    hide ReserveBlock, StructBlock, StringsBlock, Live, Named, ReadNode, ReadReserve, ReadWord, PadLength;
    ReserveRead(reserve, 0, info.reserve, o.slots);
    StructRead(info.tree, dt);
  }
}
