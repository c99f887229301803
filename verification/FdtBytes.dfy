/** Byte buffers of the flattened device tree: big-endian words, padding and C strings. */
module FdtBytes {

  import opened Arith
  import opened Basics

  type Byte = x: nat | x < 256

  type Buf = seq<Byte>

  // ---------------------------------------------------------------------------------------------
  // Buffers in buffers
  // ---------------------------------------------------------------------------------------------

  /** The bytes `b` stand in `buf` at `pos`. */
  predicate At(buf: Buf, pos: nat, b: Buf) {
    pos + |b| <= |buf| && buf[pos..pos + |b|] == b
  }

  lemma AtSplit(buf: Buf, pos: nat, a: Buf, b: Buf)
    ensures At(buf, pos, a + b) <==> At(buf, pos, a) && At(buf, pos + |a|, b)
  {
    if At(buf, pos, a + b) {
      assert a == (a + b)[..|a|] == buf[pos..pos + |a|];
      assert b == (a + b)[|a|..] == buf[pos + |a|..pos + |a| + |b|];
    }
    if At(buf, pos, a) && At(buf, pos + |a|, b) {
      assert buf[pos..pos + |a + b|] == buf[pos..pos + |a|] + buf[pos + |a|..pos + |a| + |b|];
    }
  }

  lemma AtByte(buf: Buf, pos: nat, b: Buf, i: nat)
    requires At(buf, pos, b) && i < |b|
    ensures buf[pos + i] == b[i]
  {
    assert buf[pos..pos + |b|][i] == b[i];
  }

  /** A longer buffer holds what a prefix of it holds. */
  lemma AtExtended(buf: Buf, more: Buf, pos: nat, b: Buf)
    requires At(buf, pos, b)
    ensures At(buf + more, pos, b)
  {
    assert (buf + more)[pos..pos + |b|] == buf[pos..pos + |b|];
  }

  /** A block of a buffer holds its contents at their offsets in the block. */
  lemma AtInside(buf: Buf, base: nat, block: Buf, pos: nat, b: Buf)
    requires At(buf, base, block) && At(block, pos, b)
    ensures At(buf, base + pos, b)
  {
    var slice := buf[base + pos..base + pos + |b|];
    forall i | 0 <= i < |b|
      ensures slice[i] == b[i]
    {
      AtByte(block, pos, b, i);
      AtByte(buf, base, block, pos + i);
    }
  }

  // ---------------------------------------------------------------------------------------------
  // Numbers
  // ---------------------------------------------------------------------------------------------

  function Pow256(n: nat): (r: nat)
    ensures r > 0
  {
    if n == 0 then 1 else 256 * Pow256(n - 1)
  }

  /** The low `n` bytes of `v`, the most significant first. */
  function BigEndian(v: nat, n: nat): (r: Buf)
    ensures |r| == n
  {
    if n == 0 then [] else BigEndian(v / 256, n - 1) + [v % 256]
  }

  function Number(b: Buf): nat {
    if b == [] then 0 else Number(b[..|b| - 1]) * 256 + b[|b| - 1]
  }

  lemma {:induction false} NumberRoundTrip(v: nat, n: nat)
    requires v < Pow256(n)
    ensures Number(BigEndian(v, n)) == v
    decreases n
  {
    if n > 0 {
      NumberRoundTrip(v / 256, n - 1);
      assert BigEndian(v, n)[..n - 1] == BigEndian(v / 256, n - 1);
    }
  }

  lemma {:induction false} NumberBelow(b: Buf)
    ensures Number(b) < Pow256(|b|)
    decreases |b|
  {
    if b != [] {
      NumberBelow(b[..|b| - 1]);
    }
  }

  lemma DivTwice(v: nat, a: nat, b: nat)
    requires a > 0 && b > 0
    ensures a * b > 0 && v / a / b == v / (a * b)
  {
    var q, r := v / a / b, v / a % b;
    var low := v % a;
    assert v == a * (b * q + r) + low == (a * b) * q + (a * r + low);
    assert a * r + a <= a * b by {
      ScaledBelow(a, b - r);
    }
    DivModUnique(v, a * b, q, a * r + low);
  }

  /** Byte `i` of `n` holds the digit of weight 256 to the power `n - 1 - i`. */
  lemma {:induction false} BigEndianAt(v: nat, n: nat, i: nat)
    requires i < n
    ensures BigEndian(v, n)[i] == v / Pow256(n - 1 - i) % 256
    decreases n
  {
    if i < n - 1 {
      BigEndianAt(v / 256, n - 1, i);
      DivTwice(v, 256, Pow256(n - 2 - i));
    }
  }

  function Word(v: nat): (r: Buf)
    ensures |r| == 4
  {
    BigEndian(v, 4)
  }

  lemma Sizes()
    ensures Pow256(4) == U32 && Pow256(8) == U32 * U32
  {
    assert Pow256(2) == 256 * Pow256(1) == 65536;
    assert Pow256(4) == 256 * Pow256(3) == 65536 * Pow256(2);
    assert Pow256(6) == 256 * Pow256(5) == 65536 * Pow256(4);
    assert Pow256(8) == 256 * Pow256(7) == 65536 * Pow256(6);
  }

  /** The four bytes of a word, and the word that four bytes stand for. */
  lemma WordBytes(v: nat, b: Buf)
    requires |b| == 4
    ensures Word(v) == [v / 0x100_0000 % 256, v / 0x1_0000 % 256, v / 256 % 256, v % 256]
    ensures Number(b) == b[0] as nat * 0x100_0000 + b[1] as nat * 0x1_0000 + b[2] as nat * 256 + b[3]
  {
    hide BigEndian;
    assert Pow256(0) == 1 && Pow256(1) == 256 && Pow256(2) == 0x1_0000 && Pow256(3) == 0x100_0000;
    BigEndianAt(v, 4, 0);
    BigEndianAt(v, 4, 1);
    BigEndianAt(v, 4, 2);
    BigEndianAt(v, 4, 3);
    assert b[..3][..2] == b[..2] && b[..2][..1] == b[..1] && b[..1][..0] == [];
    assert Number(b[..1]) == b[0] && Number(b[..2]) == b[0] as nat * 256 + b[1];
    assert Number(b[..3]) == b[0] as nat * 0x1_0000 + b[1] as nat * 256 + b[2];
  }

  /** The number in the `n` bytes at `pos`. */
  function NumberAt(buf: Buf, pos: nat, n: nat): nat
    requires pos + n <= |buf|
  {
    Number(buf[pos..pos + n])
  }

  lemma WordAt(buf: Buf, pos: nat, v: nat)
    requires At(buf, pos, Word(v)) && v < U32
    ensures NumberAt(buf, pos, 4) == v
  {
    Sizes();
    NumberRoundTrip(v, 4);
  }

  // ---------------------------------------------------------------------------------------------
  // Alignment
  // ---------------------------------------------------------------------------------------------

  function Align(n: nat, a: nat): nat
    requires a > 0
  {
    (n + (a - 1)) / a * a
  }

  function Zeroes(n: nat): (r: Buf)
    ensures |r| == n && forall i :: 0 <= i < n ==> r[i] == 0
  {
    seq(n, i => 0)
  }

  /** The buffer with zeroes up to a multiple of four. */
  function Pad(b: Buf): (r: Buf)
    ensures |r| == Align(|b|, 4) && |r| % 4 == 0 && |b| <= |r| < |b| + 4 && r[..|b|] == b
  {
    b + Zeroes(Align(|b|, 4) - |b|)
  }

  lemma AlignShift(pos: nat, n: nat)
    requires pos % 4 == 0
    ensures Align(pos + n, 4) == pos + Align(n, 4)
  {
    var q, r := (n + 3) / 4, (n + 3) % 4;
    DivModUnique(pos + n + 3, 4, pos / 4 + q, r);
  }

  lemma SumAligned(a: nat, b: nat)
    requires a % 4 == 0 && b % 4 == 0
    ensures (a + b) % 4 == 0
  {
  }

  // ---------------------------------------------------------------------------------------------
  // C strings
  // ---------------------------------------------------------------------------------------------

  predicate NulFree(s: Buf) {
    forall i :: 0 <= i < |s| ==> s[i] != 0
  }

  /** The string at `pos`, if a terminator follows in the buffer. */
  function StringAt(buf: Buf, pos: nat): (r: Option<Buf>)
    ensures r.Some? ==> NulFree(r.value) && At(buf, pos, r.value + [0])
    decreases |buf| - pos
  {
    if pos >= |buf| then None
    else if buf[pos] == 0 then
      assert buf[pos..pos + 1] == [0];
      Some([])
    else
      match StringAt(buf, pos + 1)
      case None => None
      case Some(s) =>
        assert buf[pos..pos + 1 + |s| + 1] == [buf[pos]] + buf[pos + 1..pos + 1 + |s| + 1];
        assert [buf[pos]] + (s + [0]) == [buf[pos]] + s + [0];
        Some([buf[pos]] + s)
  }

  /** A terminated string is what is read at its place. */
  lemma {:induction false} StringRead(buf: Buf, pos: nat, s: Buf)
    requires NulFree(s) && At(buf, pos, s + [0])
    ensures StringAt(buf, pos) == Some(s)
    decreases |s|
  {
    AtByte(buf, pos, s + [0], 0);
    if s != [] {
      assert s + [0] == [s[0]] + (s[1..] + [0]);
      AtSplit(buf, pos, [s[0]], s[1..] + [0]);
      StringRead(buf, pos + 1, s[1..]);
      assert [s[0]] + s[1..] == s;
    }
  }
}
