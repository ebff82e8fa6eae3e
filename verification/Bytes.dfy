/** A sequence that stands at a position inside a longer one. */
module Slices {

  predicate At<T(==)>(s: seq<T>, i: nat, w: seq<T>) { i + |w| <= |s| && s[i..i + |w|] == w }

  lemma AtSplit<T>(s: seq<T>, i: nat, a: seq<T>, b: seq<T>)
    requires At(s, i, a + b)
    ensures At(s, i, a) && At(s, i + |a|, b)
  {
    assert s[i..i + |a + b|][..|a|] == a;
    assert s[i..i + |a + b|][|a|..] == b;
  }

  lemma AtJoin<T>(s: seq<T>, i: nat, a: seq<T>, b: seq<T>)
    requires At(s, i, a) && At(s, i + |a|, b)
    ensures At(s, i, a + b)
  {
    assert s[i..i + |a + b|] == s[i..i + |a|] + s[i + |a|..i + |a| + |b|];
  }

  lemma AtIndex<T>(s: seq<T>, i: nat, w: seq<T>, k: nat)
    requires At(s, i, w) && k < |w|
    ensures i + k < |s| && s[i + k] == w[k]
  {
    assert s[i..i + |w|][k] == s[i + k];
  }

  lemma AtSlice<T>(s: seq<T>, i: nat, w: seq<T>)
    requires At(s, i, w)
    ensures i + |w| <= |s| && s[i..i + |w|] == w
  {
  }
}

/** Fixed-width integers and their images in memory. */
module Bytes {

  type Byte = x: int | 0 <= x < 256

  const INT32_MIN: int := -0x8000_0000
  const INT32_LIMIT: int := 0x8000_0000
  const UINT32_LIMIT: int := 0x1_0000_0000

  /** static_cast<int> of a wider integer: reduction modulo 2^32 into the signed range. */
  function ToInt32(x: int): (r: int)
    ensures INT32_MIN <= r < INT32_LIMIT
    ensures (x - r) % UINT32_LIMIT == 0
  {
    var m := x % UINT32_LIMIT;
    if m < INT32_LIMIT then m else m - UINT32_LIMIT
  }

  function Pow256(w: nat): (p: nat)
    ensures p > 0
  {
    if w == 0 then 1 else 256 * Pow256(w - 1)
  }

  /** The memory image of the low w bytes of n on a little-endian host. */
  function LittleEndian(n: nat, w: nat): (bs: seq<Byte>)
    ensures |bs| == w
  {
    if w == 0 then [] else [n % 256] + LittleEndian(n / 256, w - 1)
  }

  function FromLittleEndian(bs: seq<Byte>): (n: nat)
    ensures n < Pow256(|bs|)
  {
    if bs == [] then 0 else bs[0] + 256 * FromLittleEndian(bs[1..])
  }

  lemma {:induction false} LittleEndianInverse(n: nat, w: nat)
    requires n < Pow256(w)
    ensures FromLittleEndian(LittleEndian(n, w)) == n
  {
    if w > 0 {
      LittleEndianInverse(n / 256, w - 1);
      assert LittleEndian(n, w)[1..] == LittleEndian(n / 256, w - 1);
    }
  }

  lemma {:induction false} FromLittleEndianInverse(bs: seq<Byte>)
    ensures LittleEndian(FromLittleEndian(bs), |bs|) == bs
  {
    if bs != [] {
      FromLittleEndianInverse(bs[1..]);
      Split256(bs[0], FromLittleEndian(bs[1..]));
      assert bs == [bs[0]] + bs[1..];
    }
  }

  lemma Split256(b: Byte, rest: nat)
    ensures (b + 256 * rest) % 256 == b && (b + 256 * rest) / 256 == rest
  {
  }

  /** n >> 8 * k. */
  function ShiftBytes(n: nat, k: nat): nat { if k == 0 then n else ShiftBytes(n / 256, k - 1) }

  lemma ShiftValues(n: nat)
    ensures ShiftBytes(n, 0) == n && ShiftBytes(n, 1) == n / 0x100 && ShiftBytes(n, 2) == n / 0x1_0000
    ensures ShiftBytes(n, 3) == n / 0x100_0000 && ShiftBytes(n, 4) == n / 0x1_0000_0000
  {
    var a, b, c := n / 0x100, n / 0x1_0000, n / 0x100_0000;
    assert a / 256 == b && b / 256 == c && c / 256 == n / 0x1_0000_0000;
    assert ShiftBytes(n, 2) == ShiftBytes(a, 1) == b;
    assert ShiftBytes(n, 3) == ShiftBytes(a, 2) == ShiftBytes(b, 1) == c;
    assert ShiftBytes(n, 4) == ShiftBytes(a, 3) == ShiftBytes(b, 2) == ShiftBytes(c, 1);
  }

  /** Byte k of the image is digit k of the number to the base 256, lowest first. */
  lemma {:induction false} LittleEndianByte(n: nat, w: nat, k: nat)
    requires k < w
    ensures LittleEndian(n, w)[k] == ShiftBytes(n, k) % 256
  {
    if k > 0 { LittleEndianByte(n / 256, w - 1, k - 1); }
  }

  /** The images of uint16_t, uint32_t and size_t, written out. */
  lemma LittleEndianImages(n: nat)
    ensures LittleEndian(n, 2) == [n % 256, n / 0x100 % 256]
    ensures LittleEndian(n, 4) == [n % 256, n / 0x100 % 256, n / 0x1_0000 % 256, n / 0x100_0000 % 256]
    ensures n < 0x1_0000_0000 ==> LittleEndian(n, 8) == LittleEndian(n, 4) + [0, 0, 0, 0]
  {
    hide LittleEndian;
    hide ShiftBytes;
    ShiftValues(n);
    LittleEndianByte(n, 2, 0);
    LittleEndianByte(n, 2, 1);
    LittleEndianByte(n, 4, 0);
    LittleEndianByte(n, 4, 1);
    LittleEndianByte(n, 4, 2);
    LittleEndianByte(n, 4, 3);
    ImageSplit(n, 4, 4);
    ZeroImage();
  }

  lemma TopDigit(u: nat)
    requires u < UINT32_LIMIT
    ensures u / 0x100_0000 % 256 == u / 0x100_0000
  {
  }

  lemma ZeroImage()
    ensures LittleEndian(0, 4) == [0, 0, 0, 0]
  {
    assert LittleEndian(0, 1) == [0] && LittleEndian(0, 2) == [0, 0] && LittleEndian(0, 3) == [0, 0, 0];
  }

  lemma {:induction false} ImageSplit(n: nat, v: nat, w: nat)
    ensures LittleEndian(n, v + w) == LittleEndian(n, v) + LittleEndian(ShiftBytes(n, v), w)
  {
    if v > 0 { ImageSplit(n / 256, v - 1, w); }
  }

  lemma Pow256Values()
    ensures Pow256(2) == 0x1_0000 && Pow256(4) == UINT32_LIMIT && Pow256(8) == UINT32_LIMIT * UINT32_LIMIT
  {
    assert Pow256(2) == 256 * Pow256(1);
    assert Pow256(4) == 256 * (256 * Pow256(2));
    assert Pow256(8) == 256 * (256 * (256 * (256 * Pow256(4))));
  }

  // ---------- C strings ----------

  /** std::string(const char*): up to the first NUL. */
  function CString(bs: seq<Byte>): (r: seq<Byte>)
    ensures r <= bs
  {
    if bs == [] || bs[0] == 0 then [] else [bs[0]] + CString(bs[1..])
  }

  ghost predicate NulFree(bs: seq<Byte>) { forall i :: 0 <= i < |bs| ==> bs[i] != 0 }

  /** It is cut at the first NUL and nowhere else. */
  lemma {:induction false} CStringCut(bs: seq<Byte>)
    ensures NulFree(CString(bs)) && (|CString(bs)| < |bs| ==> bs[|CString(bs)|] == 0)
  {
    if bs != [] && bs[0] != 0 { CStringCut(bs[1..]); }
  }

  lemma {:induction false} CStringWhole(bs: seq<Byte>)
    ensures CString(bs) == bs <==> NulFree(bs)
    ensures |CString(bs)| == |bs| <==> NulFree(bs)
  {
    if bs != [] {
      CStringWhole(bs[1..]);
      assert bs == [bs[0]] + bs[1..];
      assert NulFree(bs) <==> bs[0] != 0 && NulFree(bs[1..]);
    }
  }
}
