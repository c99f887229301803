/**
 The read side of libfdt: fdt_offset_ptr, fdt_next_tag and fdt_check_header
 (3rd/dtc/libfdt/fdt.c), fdt_check_full (3rd/dtc/libfdt/fdt_check.c) and what it calls in
 3rd/dtc/libfdt/fdt_ro.c. Offsets are C `int`s; unsigned sums wrap at 32 bits. Errors are the
 negative numbers of libfdt.h.
 */
module LibFdt {

  import opened Basics
  import opened FdtBytes
  import opened FdtTree
  import opened FdtBlob

  const BADOFFSET: int := -4
  const TRUNCATED: int := -8
  const BADMAGIC: int := -9
  const BADVERSION: int := -10
  const BADSTRUCTURE: int := -11
  const ALIGNMENT: int := -19

  type U = x: nat | x < 0x1_0000_0000

  datatype Header = Header(magic: U, total: U, structAt: U, stringsAt: U, reserveAt: U, version: U, lastComp: U,
                           stringsSize: U, structSize: U)

  /** The header fields; the sizes of the blocks are only there in the versions that have them. */
  function HeaderOf(blob: Buf): Header
    requires V1_SIZE <= |blob|
  {
    Sizes();
    Header(Word32(blob, 0), Word32(blob, 4), Word32(blob, 8), Word32(blob, 12), Word32(blob, 16), Word32(blob, 20),
           Word32(blob, 24), if |blob| >= V3_SIZE then Word32(blob, 32) else 0,
           if |blob| >= V17_SIZE then Word32(blob, 36) else 0)
  }

  function Word32(blob: Buf, a: nat): U
    requires a + 4 <= |blob|
  {
    Sizes();
    NumberBelow(blob[a..a + 4]);
    NumberAt(blob, a, 4)
  }

  function HeaderSize(version: nat): nat {
    if version <= 1 then V1_SIZE else if version <= 2 then 32 else if version <= 16 then V3_SIZE else V17_SIZE
  }

  // ---------------------------------------------------------------------------------------------
  // Tags
  // ---------------------------------------------------------------------------------------------

  /** The address of `len` bytes at `offset` of the structure block, or None for a null pointer. */
  function OffsetPtr(h: Header, offset: int, len: nat): (r: Option<nat>)
    requires offset < U32 && len < U32
    ensures r.Some? ==> offset >= 0 && r.value == h.structAt + offset && r.value + len <= h.total
  {
    if offset < 0 then None
    else
      var abs := (offset + h.structAt) % U32;
      if abs < offset || (abs + len) % U32 < abs || (abs + len) % U32 > h.total then None
      else if h.version >= 17 && ((offset + len) % U32 < offset || (offset + len) % U32 > h.structSize) then None
      else
        Unwrapped(offset, h.structAt);
        Unwrapped(abs, len);
        Some(h.structAt + offset)
  }

  lemma Unwrapped(a: nat, b: nat)
    requires a < U32 && b < U32 && (a + b) % U32 >= a
    ensures (a + b) % U32 == a + b
  {
  }

  /** The offset behind the terminator of the name at `offset`. */
  function SkipName(h: Header, blob: Buf, offset: nat): (r: Option<nat>)
    requires h.total <= |blob| && offset <= h.total
    ensures r.Some? ==> offset < r.value <= h.total && h.structAt + r.value <= h.total
    decreases h.total - offset
  {
    match OffsetPtr(h, offset, 1)
    case None => None
    case Some(a) => if blob[a] == 0 then Some(offset + 1) else SkipName(h, blob, offset + 1)
  }

  /** The tag at `start` and the offset of the next one, negative on error. */
  function NextTag(h: Header, blob: Buf, start: int): (r: (nat, int))
    requires h.total <= |blob| && start < U32
    ensures r.1 >= 0 ==> 0 <= start < r.1 <= h.total + 3
    ensures r.1 >= 0 && r.0 == BEGIN_NODE ==> h.structAt + start + 4 < h.total
    ensures r.1 >= 0 && r.0 == PROP ==> h.structAt + start + 12 <= h.total
  {
    match OffsetPtr(h, start, 4)
    case None => (END, TRUNCATED)
    case Some(a) =>
      var tag := Word32(blob, a);
      var offset := start + 4;
      if tag == BEGIN_NODE then
        match SkipName(h, blob, offset)
        case None => (END, BADSTRUCTURE)
        case Some(behind) => Checked(h, start, behind, tag)
      else if tag == PROP then
        match OffsetPtr(h, offset, 4)
        case None => (END, BADSTRUCTURE)
        case Some(lenAt) =>
          var len := Word32(blob, lenAt);
          var sum := (len + offset) % U32;
          if INT_MAX <= sum || sum < offset then (END, BADSTRUCTURE)
          else
            Unwrapped(offset, len);
            var behind := offset + 8 + len;
            Checked(h, start, if h.version < 16 && len >= 8 && (behind - len) % 8 != 0 then behind + 4 else behind, tag)
      else if tag == END || tag == END_NODE || tag == NOP then Checked(h, start, offset, tag)
      else (END, BADSTRUCTURE)
  }

  function Checked(h: Header, start: nat, behind: nat, tag: nat): (r: (nat, int))
    requires start < behind < U32
    ensures r.1 >= 0 ==> behind <= r.1 <= h.total + 3 && h.structAt + behind <= h.total && r.0 == tag
  {
    if OffsetPtr(h, start, behind - start).None? then (END, BADSTRUCTURE) else (tag, Align(behind, 4))
  }

  // ---------------------------------------------------------------------------------------------
  // The header and the reserve block
  // ---------------------------------------------------------------------------------------------

  predicate OffsetFits(hdr: nat, total: nat, off: nat) {
    hdr <= off <= total
  }

  predicate BlockFits(hdr: nat, total: nat, base: U, size: U) {
    && OffsetFits(hdr, total, base) && (base + size) % U32 >= base
    && OffsetFits(hdr, total, (base + size) % U32)
  }

  /** `aligned` says whether the blob lies at a multiple of eight. */
  function CheckHeader(h: Header, aligned: bool): int {
    var hdr := HeaderSize(h.version);
    if !aligned then ALIGNMENT
    else if h.magic != MAGIC then BADMAGIC
    else if h.version < 2 || h.lastComp > 17 || h.version < h.lastComp then BADVERSION
    else if h.total < hdr || h.total > INT_MAX || !OffsetFits(hdr, h.total, h.reserveAt) then TRUNCATED
    else if h.version < 17 && !OffsetFits(hdr, h.total, h.structAt) then TRUNCATED
    else if h.version >= 17 && !BlockFits(hdr, h.total, h.structAt, h.structSize) then TRUNCATED
    else if !BlockFits(hdr, h.total, h.stringsAt, h.stringsSize) then TRUNCATED
    else 0
  }

  /** The check in front of most read operations; zero when it passes. */
  function Probe(h: Header, aligned: bool): int {
    if !aligned then ALIGNMENT
    else if h.magic != MAGIC then BADMAGIC
    else if h.version < 2 || h.lastComp > 17 then BADVERSION
    else if h.total < INT_MAX then 0 else TRUNCATED
  }

  /** The number of reserve entries, counted from entry `i` on. */
  function CountReserve(h: Header, blob: Buf, i: nat): int
    requires h.total <= |blob| && h.total <= INT_MAX && i * ENTRY <= h.total
    decreases h.total - i * ENTRY
  {
    var abs := (h.reserveAt + (i * ENTRY) % U32) % U32;
    if abs < h.reserveAt || abs + ENTRY > h.total then TRUNCATED
    else if NumberAt(blob, abs + 8, 8) == 0 then i
    else
      Unwrapped(h.reserveAt, i * ENTRY);
      CountReserve(h, blob, i + 1)
  }

  // ---------------------------------------------------------------------------------------------
  // The full check
  // ---------------------------------------------------------------------------------------------

  function Signed(v: U): int {
    if v <= INT_MAX then v else v - U32
  }

  /** Zero if a terminated string stands at `off` of the strings block, and else the error. */
  function CheckString(h: Header, blob: Buf, aligned: bool, off: int): int
    requires h.total <= |blob| && 0 - U32 < off < U32
  {
    if Probe(h, aligned) != 0 then Probe(h, aligned)
    else
      var abs := (off + h.stringsAt) % U32;
      if abs >= h.total || off < 0 then BADOFFSET
      else if h.version >= 17 && off >= h.stringsSize then BADOFFSET
      else
        var short := h.version >= 17 && h.stringsSize - off < h.total - abs;
        var end := if short then abs + h.stringsSize - off else h.total;
        if StringAt(blob[..end], abs).None? then TRUNCATED else 0
  }

  function CheckProp(h: Header, blob: Buf, aligned: bool, offset: int): int
    requires h.total <= |blob| && offset < U32
  {
    if offset < 0 || offset % 4 != 0 then BADOFFSET
    else
      var (tag, next) := NextTag(h, blob, offset);
      if tag != PROP then BADOFFSET
      else if next < 0 then next
      else CheckString(h, blob, aligned, Signed(Word32(blob, h.structAt + offset + 8)))
  }

  const SLASH: nat := 47

  /** A root's name is empty; in versions before 16, which store paths, what follows the last slash is. */
  predicate RootNamed(h: Header, blob: Buf, offset: nat)
    requires h.total <= |blob| && offset + 4 < U32 && h.structAt + offset + 4 < h.total
  {
    if h.version >= 16 then blob[h.structAt + offset + 4] == 0
    else
      var behind := SkipName(h, blob, offset + 4);
      behind.Some? && behind.value > offset + 5 && blob[h.structAt + behind.value - 2] == SLASH
  }

  /** The name of the node at `offset` is empty, as it must be for a root. */
  function CheckRootName(h: Header, blob: Buf, aligned: bool, offset: int): int
    requires h.total <= |blob| && offset < U32
  {
    if Probe(h, aligned) != 0 then Probe(h, aligned)
    else if offset < 0 || offset % 4 != 0 then BADOFFSET
    else
      var (tag, next) := NextTag(h, blob, offset);
      if tag != BEGIN_NODE then BADOFFSET
      else if next < 0 then next
      else if !RootNamed(h, blob, offset) then BADSTRUCTURE
      else 0
  }

  /** The loop of fdt_check_full from `offset` on. */
  function CheckFrom(h: Header, blob: Buf, aligned: bool, offset: nat, depth: nat, expectEnd: bool): int
    requires h.total <= |blob| && h.total <= INT_MAX && offset <= h.total + 3
    decreases h.total + 3 - offset
  {
    var (tag, next) := NextTag(h, blob, offset);
    if next < 0 then next
    else if expectEnd && tag != END then BADSTRUCTURE
    else if tag == END then (if depth != 0 then BADSTRUCTURE else 0)
    else if tag == NOP then CheckFrom(h, blob, aligned, next, depth, expectEnd)
    else if tag == BEGIN_NODE then
      if depth + 1 > INT_MAX then BADSTRUCTURE
      else if depth == 0 && CheckRootName(h, blob, aligned, offset) != 0 then CheckRootName(h, blob, aligned, offset)
      else CheckFrom(h, blob, aligned, next, depth + 1, expectEnd)
    else if tag == END_NODE then
      if depth == 0 then BADSTRUCTURE
      else CheckFrom(h, blob, aligned, next, depth - 1, expectEnd || depth == 1)
    else if CheckProp(h, blob, aligned, offset) != 0 then CheckProp(h, blob, aligned, offset)
    else CheckFrom(h, blob, aligned, next, depth, expectEnd)
  }

  function CheckFull(blob: Buf, aligned: bool): int {
    if |blob| < V1_SIZE || |blob| < HeaderSize(Word32(blob, 20)) then TRUNCATED
    else
      var h := HeaderOf(blob);
      var err := CheckHeader(h, aligned);
      if err != 0 then err
      else if |blob| < h.total then TRUNCATED
      else
        var n := CountReserve(h, blob, 0);
        if n < 0 then n else CheckFrom(h, blob, aligned, 0, 0, false)
  }
}
