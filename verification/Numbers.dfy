/** Printing and parsing integers (printint of os/user/lib/stdio.c, atoi of os/user/lib/string.c). */
module Numbers {

  const TWO_32: int := 0x1_0000_0000

  predicate IsInt32(x: int) { -0x8000_0000 <= x < 0x8000_0000 }

  /** A 32-bit result, two's complement. */
  function Wrap(x: int): (r: int)
    ensures IsInt32(r) && (r - x) % TWO_32 == 0
  {
    (x + 0x8000_0000) % TWO_32 - 0x8000_0000
  }

  /** Wrap is the only such value. */
  lemma WrapUnique(x: int, r: int)
    requires IsInt32(r) && (r - x) % TWO_32 == 0
    ensures Wrap(x) == r
  {
  }

  // ---------- numerals ----------

  function Digit(d: nat): char
    requires d < 16
  {
    "0123456789abcdef"[d]
  }

  /** The usual numeral of x, most significant digit first. */
  function Numeral(x: nat, base: nat): string
    requires 2 <= base <= 16
    decreases x
  {
    if x < base then [Digit(x)] else Numeral(x / base, base) + [Digit(x % base)]
  }

  /** What remains to be written after the last digit, and that digit. */
  function Rest(x: nat, base: nat): nat
    requires base > 0
  {
    x / base
  }

  function LastDigit(x: nat, base: nat): char
    requires 2 <= base <= 16
  {
    Digit(x % base)
  }

  /** A numeral, but nothing for zero. */
  function Front(x: nat, base: nat): string
    requires 2 <= base <= 16
  {
    if x == 0 then [] else Numeral(x, base)
  }

  lemma NumeralStep(x: nat, base: nat)
    requires 10 <= base <= 16
    ensures Numeral(x, base) == Front(Rest(x, base), base) + [LastDigit(x, base)]
    ensures x > 0 ==> Rest(x, base) < x
  {
    if x < base {
      assert x / base == 0 && x % base == x;
    } else {
      assert x / base > 0 by { DivPositive(x, base); }
    }
    DivLess(x, base);
  }

  lemma DivPositive(x: nat, base: nat)
    requires 0 < base <= x
    ensures x / base > 0
  {
  }

  predicate IsDigit(c: char) { '0' <= c <= '9' }

  predicate AllDigits(s: string) { forall i :: 0 <= i < |s| ==> IsDigit(s[i]) }

  /** The number a decimal numeral stands for. */
  function Value(s: string): int
    requires AllDigits(s)
  {
    if s == [] then 0 else 10 * Value(s[..|s| - 1]) + (s[|s| - 1] as int - '0' as int)
  }

  lemma {:induction false} NumeralValue(x: nat)
    ensures AllDigits(Numeral(x, 10)) && Value(Numeral(x, 10)) == x && |Numeral(x, 10)| > 0
    decreases x
  {
    if x >= 10 {
      NumeralValue(x / 10);
      var s := Numeral(x, 10);
      assert s[..|s| - 1] == Numeral(x / 10, 10);
    } else {
      assert Numeral(x, 10) == [Digit(x)];
    }
  }

  /** What a digit of base 16 or less stands for; 16 is no digit. */
  function Worth(c: char): nat {
    if '0' <= c <= '9' then c as int - '0' as int
    else if 'a' <= c <= 'f' then c as int - 'a' as int + 10
    else 16
  }

  /** s is a numeral in this base, without a zero in front of other digits. */
  predicate IsNumeral(s: string, base: nat) {
    && s != [] && (forall i :: 0 <= i < |s| ==> Worth(s[i]) < base)
    && (|s| > 1 ==> s[0] != '0')
  }

  /** The number it stands for. */
  function Amount(s: string, base: nat): nat {
    if s == [] then 0 else base * Amount(s[..|s| - 1], base) + Worth(s[|s| - 1])
  }

  /** In every base up to 16 the numeral of x stands for x. */
  lemma {:induction false} NumeralStandsFor(x: nat, base: nat)
    requires 2 <= base <= 16
    ensures IsNumeral(Numeral(x, base), base) && Amount(Numeral(x, base), base) == x
    ensures x > 0 ==> Numeral(x, base)[0] != '0'
    decreases x
  {
    hide Amount, IsNumeral, Digit;
    if x >= base {
      DivPositive(x, base);
      DivSmaller(x, base);
      NumeralStandsFor(x / base, base);
      OneDigitMore(Numeral(x / base, base), base, x / base, x % base);
    } else {
      OneDigit(base, x);
    }
  }

  lemma OneDigit(base: nat, d: nat)
    requires d < base <= 16
    ensures IsNumeral([Digit(d)], base) && Amount([Digit(d)], base) == d && (d > 0 ==> Digit(d) != '0')
  {
    DigitWorth(d);
    var s := [Digit(d)];
    assert s[..0] == [];
    Nothing(base);
  }

  lemma OneDigitMore(s: string, base: nat, q: nat, d: nat)
    requires IsNumeral(s, base) && Amount(s, base) == q && s[0] != '0' && d < base <= 16
    ensures IsNumeral(s + [Digit(d)], base) && Amount(s + [Digit(d)], base) == base * q + d
    ensures (s + [Digit(d)])[0] != '0'
  {
    DigitWorth(d);
    var t := s + [Digit(d)];
    assert t[..|t| - 1] == s;
  }

  lemma Nothing(base: nat)
    ensures base * 0 == 0
  {
  }

  lemma DivSmaller(x: nat, base: nat)
    requires 2 <= base && x > 0
    ensures x / base < x
  {
    var q := x / base;
    Twice(q, base);
    assert x == q * base + x % base;
  }

  lemma {:induction false} Twice(q: nat, base: nat)
    requires 2 <= base
    ensures 2 * q <= q * base
    decreases base
  {
    if base > 2 {
      Twice(q, base - 1);
    }
  }

  lemma DigitWorth(d: nat)
    requires d < 16
    ensures Worth(Digit(d)) == d && (Digit(d) == '0' <==> d == 0)
  {
  }

  // ---------- printint ----------

  /** The largest value that 32 bits leave after k divisions by ten. */
  function Cap(k: nat): nat {
    if k == 0 then 0xffff_ffff else Cap(k - 1) / 10
  }

  lemma CapTen()
    ensures Cap(10) == 0
  {
    assert Cap(1) == 429496729;
    assert Cap(3) == 4294967;
    assert Cap(5) == 42949;
    assert Cap(7) == 429;
    assert Cap(9) == 4;
  }

  lemma CapStep(x: nat, base: nat, k: nat)
    requires x <= Cap(k) && base >= 10
    ensures Rest(x, base) <= Cap(k + 1)
  {
    DivLess(x, base);
  }

  lemma DivLess(x: nat, base: nat)
    requires base >= 10
    ensures x / base <= x / 10
  {
    var q := x / base;
    assert q * 10 <= q * base <= x;
  }

  /** What printint writes. */
  function Printed(xx: int, base: nat, sign: bool): string
    requires IsInt32(xx) && 2 <= base <= 16
  {
    if sign && xx < 0 then "-" + Numeral(-xx, base) else Numeral(xx % TWO_32, base)
  }

  /** printint's loop: the digits go backwards into a buffer of 17 bytes. */
  method PutDigits(buf: array<char>, full: nat, base: nat) returns (i: nat)
    requires buf.Length == 17 && full < TWO_32 && 10 <= base <= 16
    modifies buf
    ensures 5 <= i <= 14 && buf[i + 1..16] == Numeral(full, base)
  {
    hide Rest, LastDigit, Numeral, Cap;
    i := 15;
    var x: nat := full;
    CapStart();
    CapStep(x, base, 0);
    NumeralStep(x, base);
    StoreAt(buf[..], i, LastDigit(x, base));
    buf[i] := LastDigit(x, base);
    assert buf[i + 1..16] == [];
    i, x := i - 1, Rest(x, base);
    while x != 0
      invariant x <= Cap(15 - i) && 5 <= i <= 14
      invariant Numeral(full, base) == Front(x, base) + buf[i + 1..16]
      decreases x
    {
      CapSmall(15 - i, x);
      CapStep(x, base, 15 - i);
      NumeralStep(x, base);
      StoreAt(buf[..], i, LastDigit(x, base));
      buf[i] := LastDigit(x, base);
      i, x := i - 1, Rest(x, base);
    }
  }

  lemma StoreAt(b: seq<char>, i: nat, c: char)
    requires i < 16 < |b|
    ensures b[i := c][i..16] == [c] + b[i + 1..16]
  {
  }

  /** printint for bases from 10 up; its index stays inside the buffer, so its error message
      is never printed. */
  method Printint(xx: int, base: nat, sign: bool) returns (out: string)
    requires IsInt32(xx) && 10 <= base <= 16
    ensures out == Printed(xx, base, sign)
    ensures
      var minus := sign && xx < 0;
      var digits := if minus then out[1..] else out;
      && (minus ==> out[0] == '-') && IsNumeral(digits, base)
      && Amount(digits, base) == if minus then -xx else if xx < 0 then xx + 0x1_0000_0000 else xx
  {
    hide Numeral, Amount, IsNumeral;
    var buf := new char[17](_ => '\0');
    var neg := sign && xx < 0;
    var x: nat := if neg then -xx else xx % TWO_32;
    var i := PutDigits(buf, x, base);
    if neg {
      ghost var done := buf[i + 1..16];
      buf[i] := '-';
      assert buf[i..16] == "-" + done;
      i := i - 1;
    }
    i := i + 1;
    out := buf[i..16];
    NumeralStandsFor(x, base);
  }

  lemma CapStart()
    ensures Cap(0) == 0xffff_ffff
  {
  }

  /** A number that is still positive after k divisions has k at most 9. */
  lemma CapSmall(k: nat, x: nat)
    requires 0 < x <= Cap(k)
    ensures k <= 9
  {
    if k >= 10 { CapTen(); CapZero(k); }
  }

  lemma {:induction false} CapZero(k: nat)
    requires k >= 10
    ensures Cap(k) == 0
  {
    if k == 10 { CapTen(); } else { CapZero(k - 1); }
  }

  // ---------- atoi ----------

  predicate IsSpace(c: char) { c == ' ' || '\t' <= c <= '\r' }

  /** The first position from i on that holds no space, or no digit. */
  function AfterSpaces(s: string, i: nat): (k: nat)
    requires i <= |s|
    ensures i <= k <= |s|
    decreases |s| - i
  {
    if i < |s| && IsSpace(s[i]) then AfterSpaces(s, i + 1) else i
  }

  function AfterDigits(s: string, i: nat): (k: nat)
    requires i <= |s|
    ensures i <= k <= |s| && AllDigits(s[i..k])
    ensures k < |s| ==> !IsDigit(s[k])
    decreases |s| - i
  {
    if i < |s| && IsDigit(s[i]) then
      var k := AfterDigits(s, i + 1);
      assert s[i..k] == [s[i]] + s[i + 1..k];
      k
    else i
  }

  /** The number at the start of s: spaces, a sign, digits.  The string ends at its first NUL. */
  function Parsed(s: string): int {
    var i := AfterSpaces(s, 0);
    var signed := i < |s| && (s[i] == '-' || s[i] == '+');
    var j := if signed then i + 1 else i;
    var v := Value(s[j..AfterDigits(s, j)]);
    Wrap(if i < |s| && s[i] == '-' then -v else v)
  }

  lemma {:induction false} SpacesIs(s: string, i: nat, k: nat)
    requires i <= k < |s| && (forall j :: i <= j < k ==> IsSpace(s[j])) && !IsSpace(s[k])
    ensures AfterSpaces(s, i) == k
    decreases k - i
  {
    if i < k { SpacesIs(s, i + 1, k); }
  }

  lemma {:induction false} DigitsIs(s: string, i: nat, k: nat)
    requires i <= k < |s| && (forall j :: i <= j < k ==> IsDigit(s[j])) && !IsDigit(s[k])
    ensures AfterDigits(s, i) == k
    decreases k - i
  {
    if i < k { DigitsIs(s, i + 1, k); }
  }

  /** The six characters that atoi skips. */
  predicate Blank(c: char) {
    c == ' ' || c == '\t' || c == '\n' || c == '\U{0b}' || c == '\U{0c}' || c == '\r'
  }

  /** Blanks in front change nothing, nor does a '+', and a '-' negates; what follows the digits does not count. */
  lemma ParsedParts(blanks: string, sign: string, ds: string, rest: string)
    requires (forall i :: 0 <= i < |blanks| ==> Blank(blanks[i])) && (sign == "" || sign == "+" || sign == "-")
    requires AllDigits(ds) && rest != [] && !IsDigit(rest[0])
    requires sign == "" && ds == "" ==> !Blank(rest[0]) && rest[0] != '+' && rest[0] != '-'
    ensures Parsed(blanks + sign + ds + rest) == Wrap(if sign == "-" then -Value(ds) else Value(ds))
  {
    var s := blanks + sign + ds + rest;
    var i, j, k := |blanks|, |blanks| + |sign|, |blanks| + |sign| + |ds|;
    hide Wrap, Value, Parsed;
    assert forall n :: 0 <= n < i ==> s[n] == blanks[n];
    assert s[i] == if sign != "" then sign[0] else if ds != "" then ds[0] else rest[0];
    assert s[j..k] == ds && s[k] == rest[0];
    ParsedAt(s, i, j, k);
  }

  lemma ParsedAt(s: string, i: nat, j: nat, k: nat)
    requires i <= j <= k < |s| && (forall n :: 0 <= n < i ==> IsSpace(s[n])) && !IsSpace(s[i])
    requires j == if s[i] == '-' || s[i] == '+' then i + 1 else i
    requires AllDigits(s[j..k]) && !IsDigit(s[k])
    ensures Parsed(s) == Wrap(if s[i] == '-' then -Value(s[j..k]) else Value(s[j..k]))
  {
    hide Wrap, Value;
    SpacesIs(s, 0, i);
    DigitsRun(s, j, k);
  }

  /** Arithmetic on 32 bits, wrapping. */
  lemma WrapStep(n: int, v: int, d: int)
    requires n == Wrap(-v)
    ensures Wrap(10 * n - d) == Wrap(-(10 * v + d))
  {
    var q := (n + v) / TWO_32;
    assert n + v == q * TWO_32;
    assert 10 * n - d - (-(10 * v + d)) == 10 * q * TWO_32;
    WrapMultiple(-(10 * v + d), 10 * q);
  }

  lemma WrapMultiple(x: int, k: int)
    ensures Wrap(x + k * TWO_32) == Wrap(x)
  {
    var r := Wrap(x);
    var m := (r - x) / TWO_32;
    assert r - x == m * TWO_32;
    assert r - (x + k * TWO_32) == (m - k) * TWO_32;
    WrapUnique(x + k * TWO_32, r);
  }

  lemma WrapNegate(n: int, v: int)
    requires n == Wrap(-v)
    ensures Wrap(-n) == Wrap(v)
  {
    var q := (n + v) / TWO_32;
    assert n + v == q * TWO_32;
    WrapMultiple(v, -q);
  }

  /** atoi on the string at the start of s; the NUL that ends it is in s. */
  method Atoi(s: string) returns (r: int)
    requires '\0' in s
    ensures r == Parsed(s)
  {
    hide Wrap, Value, AfterSpaces, AfterDigits;
    ghost var end :| 0 <= end < |s| && s[end] == '\0';
    var n, neg, p := 0, false, 0;
    while IsSpace(s[p])
      invariant 0 <= p <= end
      invariant forall j :: 0 <= j < p ==> IsSpace(s[j])
      decreases end - p
    {
      p := p + 1;
    }
    SpacesIs(s, 0, p);
    if s[p] == '-' {
      neg := true;
      p := p + 1;
    } else if s[p] == '+' {
      p := p + 1;
    }
    ghost var j := p;
    n, p := Digits(s, p, end);
    DigitsRun(s, j, p);
    WrapNegate(n, Value(s[j..p]));
    return if neg then n else Wrap(-n);
  }

  /** The last loop of atoi, which counts downwards. */
  method Digits(s: string, j: nat, ghost end: nat) returns (n: int, p: nat)
    requires j <= end < |s| && s[end] == '\0'
    ensures j <= p <= end && AllDigits(s[j..p]) && !IsDigit(s[p]) && n == Wrap(-Value(s[j..p]))
  {
    hide Wrap, Value;
    n, p := 0, j;
    ValueNone();
    assert s[j..p] == [];
    while IsDigit(s[p])
      invariant j <= p <= end && AllDigits(s[j..p]) && n == Wrap(-Value(s[j..p]))
      decreases end - p
    {
      WrapStep(n, Value(s[j..p]), s[p] as int - '0' as int);
      ValueMore(s, j, p);
      n := Wrap(10 * n - (s[p] as int - '0' as int));
      p := p + 1;
    }
  }

  lemma ValueNone()
    ensures Value([]) == 0 && Wrap(0) == 0
  {
  }

  lemma ValueMore(s: string, j: nat, p: nat)
    requires j <= p < |s| && AllDigits(s[j..p]) && IsDigit(s[p])
    ensures AllDigits(s[j..p + 1])
    ensures Value(s[j..p + 1]) == 10 * Value(s[j..p]) + (s[p] as int - '0' as int)
  {
    assert s[j..p + 1][..p - j] == s[j..p];
  }

  lemma DigitsRun(s: string, j: nat, p: nat)
    requires j <= p < |s| && AllDigits(s[j..p]) && !IsDigit(s[p])
    ensures AfterDigits(s, j) == p
  {
    forall i | j <= i < p ensures IsDigit(s[i]) { assert s[i] == s[j..p][i - j]; }
    DigitsIs(s, j, p);
  }

  // ---------- the round trip ----------

  /** atoi undoes printint in base 10, for every 32-bit integer and either way of printing it. */
  lemma ParsePrinted(xx: int, sign: bool)
    requires IsInt32(xx)
    ensures Parsed(Printed(xx, 10, sign) + "\0") == xx
  {
    var neg := sign && xx < 0;
    var v: nat := if neg then -xx else xx % TWO_32;
    WrapUnique(if neg then xx else v, xx);
    hide Wrap;
    var ds := Numeral(v, 10);
    var s := Printed(xx, 10, sign) + "\0";
    NumeralValue(v);
    var j := if neg then 1 else 0;
    assert s[j..j + |ds|] == ds && s[j + |ds|] == '\0';
    assert IsDigit(ds[0]);
    assert !IsSpace(s[0]);
    DigitsRun(s, j, j + |ds|);
  }

  /** Without the sign the minimum prints as 2147483648, which atoi's negation wraps back. */
  method PrintAndParse(xx: int, sign: bool) returns (r: int)
    requires IsInt32(xx)
    ensures r == xx
  {
    var out := Printint(xx, 10, sign);
    ParsePrinted(xx, sign);
    assert (out + "\0")[|out|] == '\0';
    r := Atoi(out + "\0");
  }
}
