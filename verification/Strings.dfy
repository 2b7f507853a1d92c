/** The word-at-a-time string routines (os/user/lib/string.c).  Memory is one array of bytes whose
    indices are the addresses, and it ends on a word boundary. */
module Strings {

  // ---------- words ----------

  /** HASZERO, for 64-bit words. */
  function HasZero(x: bv64): bv64 { (x - 0x0101_0101_0101_0101) & !x & 0x8080_8080_8080_8080 }

  /** The word whose bytes, lowest address first, are these. */
  function Word(b0: bv8, b1: bv8, b2: bv8, b3: bv8, b4: bv8, b5: bv8, b6: bv8, b7: bv8): bv64 {
    (b0 as bv64) | ((b1 as bv64) << 8) | ((b2 as bv64) << 16) | ((b3 as bv64) << 24)
    | ((b4 as bv64) << 32) | ((b5 as bv64) << 40) | ((b6 as bv64) << 48) | ((b7 as bv64) << 56)
  }

  lemma HasZeroWord(b0: bv8, b1: bv8, b2: bv8, b3: bv8, b4: bv8, b5: bv8, b6: bv8, b7: bv8)
    ensures HasZero(Word(b0, b1, b2, b3, b4, b5, b6, b7)) != 0 <==>
              b0 == 0 || b1 == 0 || b2 == 0 || b3 == 0 || b4 == 0 || b5 == 0 || b6 == 0 || b7 == 0
  {
  }

  lemma Repeat(c: bv64)
    requires c < 256
    ensures 0x0101_0101_0101_0101 * c ==
            c | (c << 8) | (c << 16) | (c << 24) | (c << 32) | (c << 40) | (c << 48) | (c << 56)
  {
  }

  lemma XorWord(b0: bv8, b1: bv8, b2: bv8, b3: bv8, b4: bv8, b5: bv8, b6: bv8, b7: bv8, c: bv8)
    ensures Word(b0, b1, b2, b3, b4, b5, b6, b7) ^ (0x0101_0101_0101_0101 * (c as bv64)) ==
            Word(b0 ^ c, b1 ^ c, b2 ^ c, b3 ^ c, b4 ^ c, b5 ^ c, b6 ^ c, b7 ^ c)
  {
    Repeat(c as bv64);
  }

  lemma XorZero(b: bv8, c: bv8)
    ensures b ^ c == 0 <==> b == c
  {
  }

  /** The word xor-ed with c in every byte. */
  function Differ(w: bv64, c: bv8): bv64 { w ^ (0x0101_0101_0101_0101 * (c as bv64)) }

  lemma XorHas(b0: bv8, b1: bv8, b2: bv8, b3: bv8, b4: bv8, b5: bv8, b6: bv8, b7: bv8, c: bv8)
    ensures HasZero(Differ(Word(b0, b1, b2, b3, b4, b5, b6, b7), c)) != 0 <==>
              b0 == c || b1 == c || b2 == c || b3 == c || b4 == c || b5 == c || b6 == c || b7 == c
  {
    hide HasZero, Word;
    XorWord(b0, b1, b2, b3, b4, b5, b6, b7, c);
    HasZeroWord(b0 ^ c, b1 ^ c, b2 ^ c, b3 ^ c, b4 ^ c, b5 ^ c, b6 ^ c, b7 ^ c);
    XorZero(b0, c); XorZero(b1, c); XorZero(b2, c); XorZero(b3, c);
    XorZero(b4, c); XorZero(b5, c); XorZero(b6, c); XorZero(b7, c);
  }

  /** Reading the word at address a. */
  function Load(m: seq<bv8>, a: nat): bv64
    requires a + 8 <= |m|
  {
    Word(m[a], m[a + 1], m[a + 2], m[a + 3], m[a + 4], m[a + 5], m[a + 6], m[a + 7])
  }

  /** HASZERO tells exactly whether one of the eight bytes is zero. */
  lemma ZeroInWord(m: seq<bv8>, a: nat)
    requires a + 8 <= |m|
    ensures HasZero(Load(m, a)) != 0 <==> exists i :: a <= i < a + 8 && m[i] == 0
  {
    hide HasZero, Word;
    HasZeroWord(m[a], m[a + 1], m[a + 2], m[a + 3], m[a + 4], m[a + 5], m[a + 6], m[a + 7]);
  }

  /** And after the xor with a repeated byte, whether one of them is that byte. */
  lemma ByteInWord(m: seq<bv8>, a: nat, c: bv8)
    requires a + 8 <= |m|
    ensures HasZero(Differ(Load(m, a), c)) != 0 <==> exists i :: a <= i < a + 8 && m[i] == c
  {
    hide HasZero, Word, Differ;
    XorHas(m[a], m[a + 1], m[a + 2], m[a + 3], m[a + 4], m[a + 5], m[a + 6], m[a + 7], c);
  }

  function ByteOf(w: bv64, k: nat): bv8
    requires k < 8
  {
    match k
    case 0 => (w & 0xff) as bv8
    case 1 => ((w >> 8) & 0xff) as bv8
    case 2 => ((w >> 16) & 0xff) as bv8
    case 3 => ((w >> 24) & 0xff) as bv8
    case 4 => ((w >> 32) & 0xff) as bv8
    case 5 => ((w >> 40) & 0xff) as bv8
    case 6 => ((w >> 48) & 0xff) as bv8
    case _ => (w >> 56) as bv8
  }

  lemma WordBytes(b0: bv8, b1: bv8, b2: bv8, b3: bv8, b4: bv8, b5: bv8, b6: bv8, b7: bv8)
    ensures var w := Word(b0, b1, b2, b3, b4, b5, b6, b7);
            && ByteOf(w, 0) == b0 && ByteOf(w, 1) == b1 && ByteOf(w, 2) == b2 && ByteOf(w, 3) == b3
            && ByteOf(w, 4) == b4 && ByteOf(w, 5) == b5 && ByteOf(w, 6) == b6 && ByteOf(w, 7) == b7
  {
  }

  /** Where in its word an address lies. */
  function Offset(a: nat): nat { a % 8 }

  lemma OffsetNext(s: nat, d: nat)
    requires Offset(s) == Offset(d)
    ensures Offset(s + 1) == Offset(d + 1)
  {
  }

  lemma OffsetWord(s: nat, n: nat)
    requires n % 8 == 0 && (Offset(s) == 0 || (s >= 8 && Offset(s - 8) == 0))
    ensures Offset(s) == 0 && (s < n ==> s + 8 <= n)
  {
  }

  // ---------- the bytewise reference ----------

  /** How many of the n bytes from s on come before the first c. */
  function Span(m: seq<bv8>, s: nat, c: bv8, n: nat): (k: nat)
    requires s + n <= |m|
    ensures k <= n && (k < n ==> m[s + k] == c)
    decreases n
  {
    if n == 0 || m[s] == c then 0 else 1 + Span(m, s + 1, c, n - 1)
  }

  /** c is not among the bytes from s up to e. */
  predicate Without(m: seq<bv8>, s: nat, e: nat, c: bv8)
    requires e <= |m|
  {
    forall i :: s <= i < e ==> m[i] != c
  }

  lemma {:induction false} SpanIs(m: seq<bv8>, s: nat, c: bv8, n: nat, k: nat)
    requires s + n <= |m| && k <= n
    ensures Span(m, s, c, n) == k <==> Without(m, s, s + k, c) && (k < n ==> m[s + k] == c)
    decreases n
  {
    if n > 0 && m[s] != c && k > 0 {
      SpanIs(m, s + 1, c, n - 1, k - 1);
    } else if n > 0 && m[s] == c && k > 0 {
      assert !Without(m, s, s + k, c);
    }
  }

  /** The length of the string at s, when it has an end. */
  function Len(m: seq<bv8>, s: nat): (n: nat)
    requires s <= |m|
    ensures s + n <= |m|
  {
    Span(m, s, 0, |m| - s)
  }

  /** A word without a zero byte lies wholly before the end of the string. */
  lemma SkipZero(m: seq<bv8>, s: nat, end: nat)
    requires s + 8 <= |m| && s <= end < |m| && m[end] == 0
    requires HasZero(Load(m, s)) == 0
    ensures s + 8 <= end
  {
    hide HasZero, Load;
    ZeroInWord(m, s);
  }

  lemma SkipByte(m: seq<bv8>, s: nat, end: nat, c: bv8)
    requires s + 8 <= |m| && s <= end <= |m| && (end < |m| ==> m[end] == c)
    requires HasZero(Differ(Load(m, s), c)) == 0
    ensures s + 8 <= end
  {
    hide HasZero, Load, Differ;
    ByteInWord(m, s, c);
  }

  // ---------- strlen, memchr, strnlen ----------

  method Strlen(m: array<bv8>, a: nat) returns (n: nat)
    requires m.Length % 8 == 0 && a < m.Length && a + Len(m[..], a) < m.Length
    ensures n == Len(m[..], a)
  {
    hide HasZero, Load, Span, Offset;
    SpanIs(m[..], a, 0, m.Length - a, Len(m[..], a));
    ghost var end := a + Len(m[..], a);
    var s := a;
    while Offset(s) != 0
      invariant a <= s <= end
      decreases end - s
    {
      if m[s] == 0 {
        return s - a;
      }
      s := s + 1;
    }
    OffsetWord(s, m.Length);
    while HasZero(Load(m[..], s)) == 0
      invariant a <= s <= end && s + 8 <= m.Length && Offset(s) == 0
      decreases end - s
    {
      SkipZero(m[..], s, end);
      s := s + 8;
      OffsetWord(s, m.Length);
    }
    while m[s] != 0
      invariant a <= s <= end
      decreases end - s
    {
      s := s + 1;
    }
    return s - a;
  }

  /** memchr; nothing found is -1.  Bytes beyond the first match need not be there. */
  method Memchr(m: array<bv8>, src: nat, ch: int, len: nat) returns (r: int)
    requires m.Length % 8 == 0 && src <= m.Length
    requires src + len <= m.Length || src + Span(m[..], src, UChar(ch), m.Length - src) < m.Length
    ensures var c := UChar(ch); var k := Span(m[..], src, c, m.Length - src);
            r == if k < len && src + k < m.Length then src + k else -1
    ensures r != -1 ==> src <= r < src + len && r < m.Length && m[r] == (ch % 256) as bv8
    ensures forall j :: src <= j < (if r == -1 then src + len else r) && j < m.Length ==> m[j] != (ch % 256) as bv8
  {
    hide HasZero, Load, Differ, UChar, Span, Offset;
    var s, n := src, len;
    var c := UChar(ch);
    ghost var end := src + Span(m[..], src, c, m.Length - src);
    SpanIs(m[..], src, c, m.Length - src, end - src);
    while Offset(s) != 0 && n != 0 && m[s] != c
      invariant src <= s <= end && n == len - (s - src)
      decreases n
    {
      s, n := s + 1, n - 1;
    }
    if n != 0 && m[s] != c {
      OffsetWord(s, m.Length);
      while n >= 8 && HasZero(Differ(Load(m[..], s), c)) == 0
        invariant src <= s <= end && n == len - (s - src) && Offset(s) == 0 && (n >= 8 ==> s + 8 <= m.Length)
        decreases n
      {
        SkipByte(m[..], s, end, c);
        s, n := s + 8, n - 8;
        OffsetWord(s, m.Length);
      }
    }
    while n != 0 && m[s] != c
      invariant src <= s <= end && n == len - (s - src)
      decreases n
    {
      s, n := s + 1, n - 1;
    }
    r := if n != 0 then s else -1;
    FoundByte(m[..], src, ch, len, r);
  }

  /** What the answer means for the bytes themselves. */
  lemma FoundByte(m: seq<bv8>, src: nat, ch: int, len: nat, r: int)
    requires src <= |m|
    requires var k := Span(m, src, UChar(ch), |m| - src); r == if k < len && src + k < |m| then src + k else -1
    ensures r != -1 ==> src <= r < src + len && r < |m| && m[r] == (ch % 256) as bv8
    ensures forall j :: src <= j < (if r == -1 then src + len else r) && j < |m| ==> m[j] != (ch % 256) as bv8
  {
    var k := Span(m, src, UChar(ch), |m| - src);
    SpanIs(m, src, UChar(ch), |m| - src, k);
  }

  function UChar(c: int): bv8 { (c % 256) as bv8 }

  method Strnlen(m: array<bv8>, s: nat, n: nat) returns (r: nat)
    requires m.Length % 8 == 0 && s <= m.Length
    requires s + n <= m.Length || s + Len(m[..], s) < m.Length
    ensures r == if Len(m[..], s) < n then Len(m[..], s) else n
  {
    hide Span;
    assert UChar(0) == 0;
    var p := Memchr(m, s, 0, n);
    return if p != -1 then p - s else n;
  }

  // ---------- stpcpy, stpncpy ----------

  /** m with the bytes b at d. */
  function Put(m: seq<bv8>, d: nat, b: seq<bv8>): (r: seq<bv8>)
    requires d + |b| <= |m|
    ensures |r| == |m|
  {
    m[..d] + b + m[d + |b|..]
  }

  lemma PutMore(m: seq<bv8>, d: nat, x: seq<bv8>, y: seq<bv8>)
    requires d + |x| + |y| <= |m|
    ensures Put(Put(m, d, x), d + |x|, y) == Put(m, d, x + y)
  {
  }

  /** What lies outside is untouched. */
  lemma PutOutside(m: seq<bv8>, d: nat, b: seq<bv8>, i: nat)
    requires d + |b| <= |m| && i < |m| && !(d <= i < d + |b|)
    ensures Put(m, d, b)[i] == m[i]
  {
  }

  /** The bytes of src up to s are now at dst as well, and nothing else changed since was. */
  predicate Copied(m: seq<bv8>, was: seq<bv8>, dst: nat, src: nat, s: nat) {
    src <= s <= |was| && dst + (s - src) <= |was| && m == Put(was, dst, was[src..s])
  }

  /** The eight bytes a word store writes. */
  function Bytes8(w: bv64): seq<bv8> {
    [ByteOf(w, 0), ByteOf(w, 1), ByteOf(w, 2), ByteOf(w, 3), ByteOf(w, 4), ByteOf(w, 5), ByteOf(w, 6), ByteOf(w, 7)]
  }

  lemma LoadBytes(m: seq<bv8>, a: nat)
    requires a + 8 <= |m|
    ensures Bytes8(Load(m, a)) == m[a..a + 8]
  {
    hide Word, ByteOf;
    WordBytes(m[a], m[a + 1], m[a + 2], m[a + 3], m[a + 4], m[a + 5], m[a + 6], m[a + 7]);
  }

  method Store(m: array<bv8>, d: nat, w: bv64)
    requires d + 8 <= m.Length
    modifies m
    ensures m[..] == Put(old(m[..]), d, Bytes8(w))
  {
    hide ByteOf;
    var b := Bytes8(w);
    forall i | d <= i < d + 8 { m[i] := b[i - d]; }
  }

  /** *wd = *ws. */
  method CopyWord(m: array<bv8>, d: nat, s: nat, ghost was: seq<bv8>, ghost dst: nat, ghost src: nat)
    requires Copied(m[..], was, dst, src, s) && d == dst + (s - src)
    requires d + 8 <= m.Length && s + 8 <= m.Length && (d <= s || s + 8 <= dst)
    modifies m
    ensures Copied(m[..], was, dst, src, s + 8)
  {
    hide Load, Bytes8, Put;
    var w := Load(m[..], s);
    LoadBytes(m[..], s);
    Source(was, dst, src, s, s + 8);
    Store(m, d, w);
    Extend(was, dst, src, s, s + 8);
  }

  /** *d = *s. */
  method CopyByte(m: array<bv8>, d: nat, s: nat, ghost was: seq<bv8>, ghost dst: nat, ghost src: nat)
    requires Copied(m[..], was, dst, src, s) && d == dst + (s - src)
    requires d < m.Length && s < m.Length && (d <= s || s < dst)
    modifies m
    ensures Copied(m[..], was, dst, src, s + 1) && m[d] == was[s]
  {
    hide Put;
    Source(was, dst, src, s, s + 1);
    ghost var before := m[..];
    m[d] := m[s];
    assert m[..] == Put(before, d, was[s..s + 1]) by { PutOne(before, d, was[s]); assert [was[s]] == was[s..s + 1]; }
    Extend(was, dst, src, s, s + 1);
  }

  lemma PutOne(m: seq<bv8>, d: nat, b: bv8)
    requires d < |m|
    ensures Put(m, d, [b]) == m[d := b]
  {
  }

  /** Copies the string at src and its end to dst, which it may not overlap; the result is where the
      end went. */
  method Stpcpy(m: array<bv8>, dst: nat, src: nat) returns (d: nat)
    requires m.Length % 8 == 0 && src < m.Length && src + Len(m[..], src) < m.Length
    requires dst + Len(m[..], src) < m.Length
    requires dst + Len(m[..], src) < src || src + Len(m[..], src) < dst
    modifies m
    ensures d == dst + old(Len(m[..], src))
    ensures m[..] == Put(old(m[..]), dst, old(m[..])[src..src + old(Len(m[..], src)) + 1])
  {
    hide HasZero, Load, Len, Copied, Offset, Put;
    ghost var was := m[..];
    ghost var end := src + Len(was, src);
    d := dst;
    var s := src;
    CopiedNone(was, dst, src);
    if Offset(s) == Offset(d) {
      while Offset(s) != 0
        invariant src <= s <= end && d == dst + (s - src) && Offset(s) == Offset(d)
        invariant Copied(m[..], was, dst, src, s)
        decreases end - s
      {
        CopyByte(m, d, s, was, dst, src);
        StringEnd(was, src, s);
        if m[d] == 0 {
          CopiedIs(m[..], was, dst, src, s + 1);
          return;
        }
        OffsetNext(s, d);
        s, d := s + 1, d + 1;
      }
      OffsetWord(s, m.Length);
      while HasZero(Load(m[..], s)) == 0
        invariant src <= s <= end && d == dst + (s - src) && s + 8 <= m.Length && Offset(s) == 0
        invariant Copied(m[..], was, dst, src, s)
        decreases end - s
      {
        CopiedSource(m[..], was, dst, src, s, end);
        StringEnd(was, src, end);
        SkipZero(m[..], s, end);
        CopyWord(m, d, s, was, dst, src);
        OffsetWord(s + 8, m.Length);
        d, s := d + 8, s + 8;
      }
    }
    d := CopyRest(m, d, s, was, dst, src);
  }

  /** stpcpy's last loop. */
  method CopyRest(m: array<bv8>, d0: nat, s0: nat, ghost was: seq<bv8>, ghost dst: nat, ghost src: nat) returns (d: nat)
    requires Copied(m[..], was, dst, src, s0) && |was| == m.Length && src <= s0 <= src + Len(was, src) < m.Length
    requires d0 == dst + (s0 - src) && dst + Len(was, src) < m.Length
    requires dst + Len(was, src) < src || src + Len(was, src) < dst
    modifies m
    ensures d == dst + Len(was, src) && m[..] == Put(was, dst, was[src..src + Len(was, src) + 1])
  {
    hide Len, Copied, Put;
    d := d0;
    var s := s0;
    ghost var end := src + Len(was, src);
    CopyByte(m, d, s, was, dst, src);
    while m[d] != 0
      invariant src <= s <= end && d == dst + (s - src)
      invariant Copied(m[..], was, dst, src, s + 1) && m[d] == was[s]
      decreases end - s
    {
      StringEnd(was, src, s);
      s, d := s + 1, d + 1;
      CopyByte(m, d, s, was, dst, src);
    }
    StringEnd(was, src, s);
    CopiedIs(m[..], was, dst, src, s + 1);
  }

  lemma StringEnd(m: seq<bv8>, src: nat, s: nat)
    requires src <= s < |m| && s <= src + Len(m, src)
    ensures m[s] == 0 <==> s == src + Len(m, src)
  {
    SpanIs(m, src, 0, |m| - src, Len(m, src));
  }

  method Memset(m: array<bv8>, dest: nat, c: bv8, n: nat)
    requires dest + n <= m.Length && n < 0x8000_0000
    modifies m
    ensures m[..] == Put(old(m[..]), dest, seq(n, i => c))
  {
    var i := 0;
    while i < n
      invariant 0 <= i <= n
      invariant forall k :: 0 <= k < m.Length ==> m[k] == if dest <= k < dest + i then c else old(m[k])
    {
      m[dest + i] := c;
      i := i + 1;
    }
  }

  /** Copies at most n bytes of the string at src and fills the rest of the n bytes at dst with zeros. */
  method Stpncpy(m: array<bv8>, dst: nat, src: nat, num: nat) returns (d: nat)
    requires m.Length % 8 == 0 && num < 0x8000_0000 && src <= m.Length && dst + num <= m.Length
    requires src + num <= m.Length || src + Len(m[..], src) < m.Length
    requires dst + num <= src || src + num <= dst || src + Len(m[..], src) < dst
    modifies m
    ensures var k := if old(Len(m[..], src)) < num then old(Len(m[..], src)) else num;
            d == dst + k && m[..] == Put(Put(old(m[..]), dst, old(m[..])[src..src + k]), dst + k, seq(num - k, i => 0))
  {
    hide HasZero, Load, Len, Copied, Offset, Put;
    ghost var was := m[..];
    ghost var end := src + Len(was, src);
    d := dst;
    var s, n := src, num;
    CopiedNone(was, dst, src);
    if Offset(s) == Offset(d) {
      n, s, d := CopyToWord(m, d, s, n, was, dst, src, num);
      if n != 0 {
        StringEnd(was, src, s);
        Unread(m[..], was, dst, src, s);
      }
      if n == 0 || m[s] == 0 {
        PadTail(m, d, s, n, was, dst, src);
        return;
      }
      n, s, d := CopyWords(m, d, s, n, was, dst, src, num);
    }
    d := PadRest(m, d, s, n, was, dst, src, num);
  }

  /** stpncpy's first loop: byte by byte up to a word boundary, the end of the string or of the count. */
  method CopyToWord(m: array<bv8>, d0: nat, s0: nat, n0: nat, ghost was: seq<bv8>, ghost dst: nat, ghost src: nat,
                    ghost num: nat)
    returns (n: nat, s: nat, d: nat)
    requires Copied(m[..], was, dst, src, s0) && |was| == m.Length && dst + num <= m.Length
    requires s0 == src && d0 == dst && n0 == num && src <= src + Len(was, src) <= m.Length && Offset(s0) == Offset(d0)
    requires src + num <= m.Length || src + Len(was, src) < m.Length
    requires dst + num <= src || src + num <= dst || src + Len(was, src) < dst
    modifies m
    ensures src <= s <= src + Len(was, src) && d == dst + (s - src) && s - src + n == num
    ensures Offset(s) == Offset(d)
    ensures n == 0 || Offset(s) == 0 ==> Copied(m[..], was, dst, src, s)
    ensures n != 0 && Offset(s) != 0 ==> s == src + Len(was, src) < m.Length && Copied(m[..], was, dst, src, s + 1)
  {
    hide Len, Copied, Put, Offset;
    n, s, d := n0, s0, d0;
    ghost var end := src + Len(was, src);
    while Offset(s) != 0 && n != 0
      invariant src <= s <= end && d == dst + (s - src) && n == num - (s - src) && Offset(s) == Offset(d)
      invariant Copied(m[..], was, dst, src, s)
      decreases n
    {
      CopyByte(m, d, s, was, dst, src);
      StringEnd(was, src, s);
      if m[d] == 0 {
        break;
      }
      OffsetNext(s, d);
      n, s, d := n - 1, s + 1, d + 1;
    }
  }

  /** stpncpy's second loop: whole words without a zero byte. */
  method CopyWords(m: array<bv8>, d0: nat, s0: nat, n0: nat, ghost was: seq<bv8>, ghost dst: nat, ghost src: nat,
                   ghost num: nat)
    returns (n: nat, s: nat, d: nat)
    requires Copied(m[..], was, dst, src, s0) && |was| == m.Length && m.Length % 8 == 0 && dst + num <= m.Length
    requires src <= s0 <= src + Len(was, src) <= m.Length && d0 == dst + (s0 - src) && s0 - src + n0 == num && Offset(s0) == 0
    requires src + num <= m.Length || src + Len(was, src) < m.Length
    requires dst + num <= src || src + num <= dst || src + Len(was, src) < dst
    modifies m
    ensures src <= s <= src + Len(was, src) && d == dst + (s - src) && s - src + n == num && Copied(m[..], was, dst, src, s)
  {
    hide HasZero, Load, Len, Copied, Offset, Put;
    n, s, d := n0, s0, d0;
    ghost var end := src + Len(was, src);
    OffsetWord(s, m.Length);
    while n >= 8 && HasZero(Load(m[..], s)) == 0
      invariant src <= s <= end && d == dst + (s - src) && n == num - (s - src) && Offset(s) == 0
      invariant Copied(m[..], was, dst, src, s) && (n >= 8 ==> s + 8 <= m.Length)
      decreases n
    {
      if end < src + num {
        CopiedSource(m[..], was, dst, src, s, end);
        StringEnd(was, src, end);
        SkipZero(m[..], s, end);
      }
      CopyWord(m, d, s, was, dst, src);
      OffsetWord(s + 8, m.Length);
      n, d, s := n - 8, d + 8, s + 8;
    }
  }

  /** stpncpy's last loop and its tail. */
  method PadRest(m: array<bv8>, d0: nat, s0: nat, n0: nat, ghost was: seq<bv8>, ghost dst: nat, ghost src: nat,
                 ghost num: nat)
    returns (d: nat)
    requires Copied(m[..], was, dst, src, s0) && |was| == m.Length && num < 0x8000_0000 && dst + num <= m.Length
    requires src <= s0 <= src + Len(was, src) <= m.Length && d0 == dst + (s0 - src) && s0 - src + n0 == num
    requires src + num <= m.Length || src + Len(was, src) < m.Length
    requires dst + num <= src || src + num <= dst || src + Len(was, src) < dst
    modifies m
    ensures var k := if Len(was, src) < num then Len(was, src) else num;
            d == dst + k && m[..] == Put(Put(was, dst, was[src..src + k]), dst + k, seq(num - k, i => 0))
  {
    hide Len, Copied, Put;
    d := d0;
    var s, n := s0, n0;
    ghost var end := src + Len(was, src);
    while n != 0
      invariant src <= s <= end && d == dst + (s - src) && n == num - (s - src)
      invariant Copied(m[..], was, dst, src, s)
      decreases n
    {
      CopyByte(m, d, s, was, dst, src);
      StringEnd(was, src, s);
      if m[d] == 0 {
        break;
      }
      n, s, d := n - 1, s + 1, d + 1;
    }
    PadTail(m, d, s, n, was, dst, src);
  }

  /** The byte at s is still the source's, whether or not it was copied. */
  lemma Unread(m: seq<bv8>, was: seq<bv8>, dst: nat, src: nat, s: nat)
    requires Copied(m, was, dst, src, s) || Copied(m, was, dst, src, s + 1)
    requires src <= s < |was| && (dst + (s - src) < s || s < dst || dst == src)
    ensures |m| == |was| && m[s] == was[s]
  {
  }

  /** stpncpy's tail: the byte at d may have been copied already when it is the string's end. */
  method PadTail(m: array<bv8>, d: nat, s: nat, n: nat, ghost was: seq<bv8>, ghost dst: nat, ghost src: nat)
    requires src <= s <= |was| == m.Length && d == dst + (s - src) && d + n <= m.Length && n < 0x8000_0000
    requires Copied(m[..], was, dst, src, s) || (n > 0 && s < |was| && Copied(m[..], was, dst, src, s + 1))
    modifies m
    ensures m[..] == Put(Put(was, dst, was[src..s]), d, seq(n, i => 0))
  {
    hide Put, Copied;
    PadSame(m[..], d, s, n, was, dst, src);
    Memset(m, d, 0, n);
  }

  lemma PadSame(m: seq<bv8>, d: nat, s: nat, n: nat, was: seq<bv8>, dst: nat, src: nat)
    requires src <= s <= |was| && d == dst + (s - src) && d + n <= |was|
    requires Copied(m, was, dst, src, s) || (n > 0 && s < |was| && Copied(m, was, dst, src, s + 1))
    ensures |m| == |was| && Put(m, d, seq(n, i => 0)) == Put(Put(was, dst, was[src..s]), d, seq(n, i => 0))
  {
    if !Copied(m, was, dst, src, s) {
      Extend(was, dst, src, s, s + 1);
      PutOver(Put(was, dst, was[src..s]), d, was[s..s + 1], seq(n, i => 0));
    }
  }

  /** A longer write at the same place wins. */
  lemma PutOver(m: seq<bv8>, d: nat, x: seq<bv8>, y: seq<bv8>)
    requires |x| <= |y| && d + |y| <= |m|
    ensures Put(Put(m, d, x), d, y) == Put(m, d, y)
  {
  }

  lemma CopiedNone(m: seq<bv8>, d: nat, s: nat)
    requires d <= |m| && s <= |m|
    ensures Copied(m, m, d, s, s)
  {
  }

  lemma CopiedIs(m: seq<bv8>, was: seq<bv8>, dst: nat, src: nat, s: nat)
    requires Copied(m, was, dst, src, s)
    ensures src <= s <= |was| && dst + (s - src) <= |was| && m == Put(was, dst, was[src..s])
  {
  }

  /** A byte not copied over is still as it was. */
  lemma CopiedSource(m: seq<bv8>, was: seq<bv8>, dst: nat, src: nat, s: nat, i: nat)
    requires Copied(m, was, dst, src, s) && i < |was| && !(dst <= i < dst + (s - src))
    ensures |m| == |was| && m[i] == was[i]
  {
  }

  /** The source beyond what was copied is still as it was. */
  lemma Source(m: seq<bv8>, dst: nat, src: nat, s: nat, e: nat)
    requires src <= s <= e <= |m| && dst + (s - src) <= |m|
    requires dst + (s - src) <= s || e <= dst
    ensures Put(m, dst, m[src..s])[s..e] == m[s..e]
    ensures forall i :: s <= i < e ==> Put(m, dst, m[src..s])[i] == m[i]
  {
    var p := Put(m, dst, m[src..s]);
    forall i | s <= i < e ensures p[i] == m[i] { PutOutside(m, dst, m[src..s], i); }
  }

  lemma Extend(m: seq<bv8>, dst: nat, src: nat, s: nat, e: nat)
    requires src <= s <= e <= |m| && dst + (e - src) <= |m|
    ensures Put(Put(m, dst, m[src..s]), dst + (s - src), m[s..e]) == Put(m, dst, m[src..e])
    ensures e > s ==> Put(m, dst, m[src..e])[dst + (s - src)] == m[s]
  {
    PutMore(m, dst, m[src..s], m[s..e]);
    assert m[src..s] + m[s..e] == m[src..e];
  }
}
