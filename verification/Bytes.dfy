/** Little-endian integers stored inside byte sequences, as every on-disk and in-memory
    structure of the kernel holds them, and single-bit access to a byte sequence. */
module Bytes {

  type byte = x: int | 0 <= x < 256

  /** Bytes in a disk block. */
  const BSIZE: nat := 1024

  type Block = b: seq<byte> | |b| == BSIZE witness Zeros(BSIZE)

  datatype Option<T> = None | Some(value: T)

  function Min(a: nat, b: nat): nat { if a < b then a else b }

  function Pow256(w: nat): (r: nat)
    ensures r > 0
  {
    if w == 0 then 1 else 256 * Pow256(w - 1)
  }

  /** The unsigned w-byte little-endian integer at offset off. */
  function GetLE(s: seq<byte>, off: nat, w: nat): (v: nat)
    requires off + w <= |s|
    ensures v < Pow256(w)
    decreases w
  {
    if w == 0 then 0 else s[off] as nat + 256 * GetLE(s, off + 1, w - 1)
  }

  /** s with the low w bytes of v stored at offset off. */
  function PutLE(s: seq<byte>, off: nat, w: nat, v: nat): (r: seq<byte>)
    requires off + w <= |s|
    ensures |r| == |s|
    ensures forall p :: 0 <= p < |s| && !(off <= p < off + w) ==> r[p] == s[p]
    decreases w
  {
    if w == 0 then s else PutLE(s[off := v % 256], off + 1, w - 1, v / 256)
  }

  /** Two, four and eight bytes as one number, the least significant first. */
  function Two(a: nat, b: nat): nat { a + 0x100 * b }
  function Four(a: nat, b: nat, c: nat, d: nat): nat { a + 0x100 * b + 0x1_0000 * c + 0x100_0000 * d }
  function Eight(a: nat, b: nat, c: nat, d: nat, e: nat, f: nat, g: nat, h: nat): nat {
    Four(a, b, c, d) + 0x1_0000_0000 * Four(e, f, g, h)
  }

  lemma Short(s: seq<byte>, o: nat)
    requires o + 2 <= |s|
    ensures GetLE(s, o, 2) == Two(s[o], s[o + 1])
  {
    assert GetLE(s, o + 2, 0) == 0 && GetLE(s, o + 1, 1) == s[o + 1] as int;
  }

  lemma Word(s: seq<byte>, o: nat)
    requires o + 4 <= |s|
    ensures GetLE(s, o, 4) == Four(s[o], s[o + 1], s[o + 2], s[o + 3])
  {
    Short(s, o + 2);
    assert GetLE(s, o + 1, 3) == s[o + 1] as int + 256 * GetLE(s, o + 2, 2);
  }

  lemma DoubleWord(s: seq<byte>, o: nat)
    requires o + 8 <= |s|
    ensures GetLE(s, o, 8) == Eight(s[o], s[o + 1], s[o + 2], s[o + 3], s[o + 4], s[o + 5], s[o + 6], s[o + 7])
  {
    Word(s, o + 4);
    assert GetLE(s, o + 3, 5) == s[o + 3] as int + 256 * GetLE(s, o + 4, 4);
    assert GetLE(s, o + 2, 6) == s[o + 2] as int + 256 * GetLE(s, o + 3, 5);
    assert GetLE(s, o + 1, 7) == s[o + 1] as int + 256 * GetLE(s, o + 2, 6);
    assert GetLE(s, o, 8) == s[o] as int + 256 * GetLE(s, o + 1, 7);
  }

  /** Bit n of a byte sequence is bit n % 8 of byte n / 8. */
  lemma BitOfByte(s: seq<byte>, n: nat)
    requires n < 8 * |s|
    ensures BitAt(s, n) <==> s[n / 8] as int / [1, 2, 4, 8, 16, 32, 64, 128][n % 8] % 2 == 1
  {
    Shifted(s[n / 8], n % 8);
  }

  lemma Shifted(x: nat, k: nat)
    requires x < 256 && k < 8
    ensures TestBit(x, k) <==> x / [1, 2, 4, 8, 16, 32, 64, 128][k] % 2 == 1
  {
    var a := x / 2; var b := a / 2; var c := b / 2; var d := c / 2; var e := d / 2; var f := e / 2; var g := f / 2;
    assert b == x / 4 && c == x / 8 && d == x / 16 && e == x / 32 && f == x / 64 && g == x / 128;
    if k >= 1 { assert TestBit(x, k) == TestBit(a, k - 1); }
    if k >= 2 { assert TestBit(a, k - 1) == TestBit(b, k - 2); }
    if k >= 3 { assert TestBit(b, k - 2) == TestBit(c, k - 3); }
    if k >= 4 { assert TestBit(c, k - 3) == TestBit(d, k - 4); }
    if k >= 5 { assert TestBit(d, k - 4) == TestBit(e, k - 5); }
    if k >= 6 { assert TestBit(e, k - 5) == TestBit(f, k - 6); }
    if k >= 7 { assert TestBit(f, k - 6) == TestBit(g, k - 7); }
  }

  /** An integer depends only on the bytes it occupies. */
  lemma {:induction false} GetFrame(s: seq<byte>, t: seq<byte>, off: nat, w: nat)
    requires off + w <= |s| && off + w <= |t|
    requires forall p :: off <= p < off + w ==> s[p] == t[p]
    ensures GetLE(s, off, w) == GetLE(t, off, w)
    decreases w
  {
    if w > 0 {
      GetFrame(s, t, off + 1, w - 1);
    }
  }

  lemma {:induction false} GetPutSame(s: seq<byte>, off: nat, w: nat, v: nat)
    requires off + w <= |s|
    requires v < Pow256(w)
    ensures GetLE(PutLE(s, off, w, v), off, w) == v
    decreases w
  {
    if w > 0 {
      var t := s[off := v % 256];
      GetPutSame(t, off + 1, w - 1, v / 256);
    }
  }

  lemma GetPutOther(s: seq<byte>, off: nat, w: nat, v: nat, off': nat, w': nat)
    requires off + w <= |s| && off' + w' <= |s|
    requires off + w <= off' || off' + w' <= off
    ensures GetLE(PutLE(s, off, w, v), off', w') == GetLE(s, off', w')
  {
    GetFrame(PutLE(s, off, w, v), s, off', w');
  }

  lemma {:induction false} GetZero(s: seq<byte>, off: nat, w: nat)
    requires off + w <= |s|
    requires forall p :: off <= p < off + w ==> s[p] == 0
    ensures GetLE(s, off, w) == 0
    decreases w
  {
    if w > 0 {
      GetZero(s, off + 1, w - 1);
    }
  }

  /** x & (1 << k) != 0 */
  predicate TestBit(x: nat, k: nat) {
    if k == 0 then x % 2 == 1 else TestBit(x / 2, k - 1)
  }

  /** x | (1 << k) when v, and x & ~(1 << k) otherwise */
  function WithBit(x: nat, k: nat, v: bool): (r: nat)
  {
    if k == 0 then x / 2 * 2 + (if v then 1 else 0)
    else WithBit(x / 2, k - 1, v) * 2 + x % 2
  }

  /** Writing bit k sets bit k and leaves every other bit alone. */
  lemma {:induction false} TestWithBit(x: nat, k: nat, v: bool, j: nat)
    ensures TestBit(WithBit(x, k, v), j) == if j == k then v else TestBit(x, j)
    decreases j
  {
    if j > 0 && k > 0 {
      var q := x / 2;
      TestWithBit(q, k - 1, v, j - 1);
      assert WithBit(x, k, v) / 2 == WithBit(q, k - 1, v);
    }
  }

  lemma {:induction false} WithBitFits(x: nat, k: nat, v: bool)
    requires x < 256 && k < 8
    ensures WithBit(x, k, v) < 256
  {
    WithBitBound(x, k, v, 8, 256);
  }

  lemma {:induction false} WithBitBound(x: nat, k: nat, v: bool, n: nat, m: nat)
    requires k < n && x < m && m == Pow2(n)
    ensures WithBit(x, k, v) < m
    decreases n
  {
    hide Pow2;
    DoublePow(n);
    var q, h := x / 2, Pow2(n - 1);
    assert q < h;
    if k > 0 {
      WithBitBound(q, k - 1, v, n - 1, h);
    }
  }

  lemma DoublePow(n: nat)
    requires n > 0
    ensures Pow2(n) == 2 * Pow2(n - 1)
  {
  }

  function Pow2(n: nat): nat {
    if n == 0 then 1 else 2 * Pow2(n - 1)
  }

  /** Bit n of a byte sequence, least significant bit of each byte first. */
  predicate BitAt(s: seq<byte>, n: nat)
    requires n < 8 * |s|
  {
    TestBit(s[n / 8], n % 8)
  }

  function PutBit(s: seq<byte>, n: nat, v: bool): (r: seq<byte>)
    requires n < 8 * |s|
    ensures |r| == |s|
  {
    WithBitFits(s[n / 8], n % 8, v);
    s[n / 8 := WithBit(s[n / 8], n % 8, v)]
  }

  lemma BitAtPut(s: seq<byte>, n: nat, v: bool, m: nat)
    requires n < 8 * |s| && m < 8 * |s|
    ensures BitAt(PutBit(s, n, v), m) == if m == n then v else BitAt(s, m)
  {
    TestWithBit(s[n / 8], n % 8, v, m % 8);
  }

  /** s with t copied over it from offset off. */
  function Overwrite(s: seq<byte>, off: nat, t: seq<byte>): (r: seq<byte>)
    requires off + |t| <= |s|
    ensures |r| == |s|
    ensures forall p :: 0 <= p < |s| ==> r[p] == if off <= p < off + |t| then t[p - off] else s[p]
  {
    s[..off] + t + s[off + |t|..]
  }

  function Zeros(n: nat): (r: seq<byte>)
    ensures |r| == n && forall p :: 0 <= p < n ==> r[p] == 0
  {
    seq(n, _ => 0)
  }
}
