/** The loops of fdt_next_tag and fdt_check_full. */
module FdtCheck {

  import opened Basics
  import opened FdtBytes
  import opened FdtTree
  import opened FdtBlob
  import opened LibFdt

  method FdtNextTag(h: Header, blob: Buf, start: int) returns (tag: nat, next: int)
    requires h.total <= |blob| && start < U32
    ensures (tag, next) == NextTag(h, blob, start)
  {
    hide OffsetPtr, Word32, Align;
    var tagAt := OffsetPtr(h, start, 4);
    if tagAt.None? {
      return END, TRUNCATED;
    }
    tag := Word32(blob, tagAt.value);
    var offset := start + 4;
    if tag == BEGIN_NODE {
      var p := OffsetPtr(h, offset, 1);
      offset := offset + 1;
      while p.Some? && blob[p.value] != 0
        invariant 0 <= start < offset - 1 <= h.total && p == OffsetPtr(h, offset - 1, 1)
        invariant SkipName(h, blob, start + 4) == SkipName(h, blob, offset - 1)
        decreases h.total - offset
      {
        p := OffsetPtr(h, offset, 1);
        offset := offset + 1;
      }
      if p.None? {
        return END, BADSTRUCTURE;
      }
    } else if tag == PROP {
      var lenAt := OffsetPtr(h, offset, 4);
      if lenAt.None? {
        return END, BADSTRUCTURE;
      }
      var len := Word32(blob, lenAt.value);
      var sum := (len + offset) % U32;
      if INT_MAX <= sum || sum < offset {
        return END, BADSTRUCTURE;
      }
      Unwrapped(offset, len);
      offset := offset + 8 + len;
      if h.version < 16 && len >= 8 && (offset - len) % 8 != 0 {
        offset := offset + 4;
      }
    } else if tag != END && tag != END_NODE && tag != NOP {
      return END, BADSTRUCTURE;
    }
    if OffsetPtr(h, start, offset - start).None? {
      return END, BADSTRUCTURE;
    }
    next := Align(offset, 4);
  }

  method FdtNumMemRsv(h: Header, blob: Buf) returns (n: int)
    requires h.total <= |blob| && h.total <= INT_MAX
    ensures n == CountReserve(h, blob, 0)
  {
    hide NumberAt;
    var i := 0;
    while true
      invariant 0 <= i && i * ENTRY <= h.total && CountReserve(h, blob, i) == CountReserve(h, blob, 0)
      decreases h.total - i * ENTRY
    {
      var abs := (h.reserveAt + (i * ENTRY) % U32) % U32;
      if abs < h.reserveAt || abs + ENTRY > h.total {
        return TRUNCATED;
      }
      if NumberAt(blob, abs + 8, 8) == 0 {
        return i;
      }
      Unwrapped(h.reserveAt, i * ENTRY);
      i := i + 1;
    }
  }

  method FdtCheckFull(blob: Buf, aligned: bool) returns (err: int)
    ensures err == CheckFull(blob, aligned)
  {
    hide NextTag, CheckProp, CheckRootName, CountReserve, Word32, HeaderSize;
    if |blob| < V1_SIZE || |blob| < HeaderSize(Word32(blob, 20)) {
      return TRUNCATED;
    }
    var h := HeaderOf(blob);
    err := CheckHeader(h, aligned);
    if err != 0 {
      return;
    }
    if |blob| < h.total {
      return TRUNCATED;
    }
    var n := FdtNumMemRsv(h, blob);
    if n < 0 {
      return n;
    }
    err := FdtCheckTags(h, blob, aligned);
  }

  method FdtCheckTags(h: Header, blob: Buf, aligned: bool) returns (err: int)
    requires h.total <= |blob| && h.total <= INT_MAX
    ensures err == CheckFrom(h, blob, aligned, 0, 0, false)
  {
    hide NextTag, CheckProp, CheckRootName;
    var nextOffset, depth, expectEnd := 0, 0, false;
    while true
      invariant 0 <= nextOffset <= h.total + 3 && depth >= 0
      invariant CheckFrom(h, blob, aligned, nextOffset, depth, expectEnd)
             == CheckFrom(h, blob, aligned, 0, 0, false)
      decreases h.total + 3 - nextOffset
    {
      var offset := nextOffset;
      var tag;
      tag, nextOffset := FdtNextTag(h, blob, offset);
      if nextOffset < 0 {
        return nextOffset;
      }
      if expectEnd && tag != END {
        return BADSTRUCTURE;
      }
      if tag == END {
        return if depth != 0 then BADSTRUCTURE else 0;
      } else if tag == BEGIN_NODE {
        depth := depth + 1;
        if depth > INT_MAX {
          return BADSTRUCTURE;
        }
        if depth == 1 {
          err := CheckRootName(h, blob, aligned, offset);
          if err != 0 {
            return;
          }
        }
      } else if tag == END_NODE {
        if depth == 0 {
          return BADSTRUCTURE;
        }
        depth := depth - 1;
        if depth == 0 {
          expectEnd := true;
        }
      } else if tag != NOP {
        err := CheckProp(h, blob, aligned, offset);
        if err != 0 {
          return;
        }
      }
    }
  }
}
