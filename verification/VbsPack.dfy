/** The scalars of the C library (xslib/vbs_pack.c), packed in place into a buffer on the stack. */
module VbsPack {
  import opened Bytes
  import opened VbsNumber
  import opened VbsDouble
  import opened Vbs

  const TMPBUF_SIZE := 24

  // ---- Splitting a double ----

  /** One halving of the search for the lowest set bit. */
  lemma {:induction false} HalfOfBits(n: nat, x: nat)
    requires n > 0
    ensures n % Shl(1, x) == 0 ==> Shr(n, x) > 0 && FirstBit(n) == x + FirstBit(Shr(n, x))
    ensures n % Shl(1, x) != 0 ==> FirstBit(n) < x
  {
    if x > 0 {
      HalfOfMod(n, Shl(1, x - 1));
      if n % 2 == 0 { HalfOfBits(n / 2, x - 1); }
    }
  }

  lemma HalfOfMod(n: nat, p: nat)
    requires p > 0
    ensures n % 2 == 0 ==> (n % (2 * p) == 0 <==> n / 2 % p == 0)
    ensures n % 2 == 1 ==> n % (2 * p) != 0
  {
    var q, r := n / 2 / p, n / 2 % p;
    assert n == 2 * p * q + (2 * r + n % 2) by { assert n / 2 == p * q + r; }
    QuotientIs(n, 2 * p, q, 2 * r + n % 2);
  }

  lemma QuotientIs(n: nat, m: nat, q: nat, r: nat)
    requires m > 0 && n == m * q + r && r < m
    ensures n % m == r
  {
    SameQuotient(m, n / m, q, n % m, r);
  }

  lemma {:induction false} SameQuotient(m: nat, a: nat, b: nat, r: nat, s: nat)
    requires r < m && s < m && m * a + r == m * b + s
    ensures a == b
  {
    if a > 0 { MultipleIsAtLeast(m, a); }
    if b > 0 { MultipleIsAtLeast(m, b); }
    if a > 0 && b > 0 {
      assert m * a == m * (a - 1) + m && m * b == m * (b - 1) + m;
      SameQuotient(m, a - 1, b - 1, r, s);
    }
  }

  lemma {:induction false} MultipleIsAtLeast(m: nat, k: nat)
    requires k > 0
    ensures m * k >= m
  {
    if k > 1 {
      MultipleIsAtLeast(m, k - 1);
      assert m * k == m * (k - 1) + m;
    }
  }

  /** bit_lsb64_find: if the lower half of what is left has no bit set, it is shifted out. */
  method LsbFind(n: nat) returns (b: int)
    requires n < TWO_64
    ensures b == if n == 0 then -1 else FirstBit(n)
  {
    if n == 0 {
      return -1;
    }
    ghost var width := 64;
    OneShl64(width);
    FirstBitBelow(n, width);
    b := 0;
    var v, x := n, 32;
    while x > 0
      invariant x in {32, 16, 8, 4, 2, 1, 0}
      invariant v > 0 && b >= 0 && FirstBit(n) == b + FirstBit(v)
      invariant FirstBit(v) < if x == 0 then 1 else 2 * x
    {
      HalfOfBits(v, x);
      if v % Shl(1, x) == 0 {
        b := b + x;
        v := Shr(v, x);
      }
      x := x / 2;
    }
  }

  lemma {:induction false} FirstBitBelow(v: nat, k: nat)
    requires 0 < v < Shl(1, k)
    ensures FirstBit(v) < k
  {
    if v % 2 == 0 { FirstBitBelow(v / 2, k - 1); }
  }

  /** vbs_break_double_value on the bits of a double. */
  method BreakDoubleValue(bits: nat) returns (p: Parts)
    requires bits < TWO_64
    ensures p == BreakNative(bits)
  {
    hide FirstBit, Shr;
    var negative, exponent, significand := bits >= TWO_63, bits / TWO_52 % 0x800, bits % TWO_52;
    var expo;
    if exponent == 0x7ff {
      expo := if significand != 0 then FLT_NAN else FLT_INF;
      significand := 0;
    } else if exponent == 0 {
      expo := if significand == 0 then FLT_ZERO else 1 - 1023;
    } else {
      expo := exponent - 1023;
      significand := significand + TWO_52;
    }
    if significand != 0 {
      var shift := LsbFind(significand);
      p := Parts(Signed(negative, Shr(significand, shift)), expo - 52 + shift);
    } else {
      p := Parts(0, if negative then -expo else expo);
    }
  }

  // ---- Lengths ----

  lemma {:induction false} NumTagFits(tag: byte, n: nat, k: nat)
    requires n < Shl(1, 7 * k)
    ensures |NumTag(tag, n)| <= k + 1
  {
    if n > 0 && k > 0 {
      ShlTwice(1, 7 * (k - 1), 7);
      Shl7(Shl(1, 7 * (k - 1)));
      NumTagFits(tag, n / 128, k - 1);
    }
  }

  lemma {:induction false} IntStrIsShorter(kind: byte, tag: byte, n: nat)
    requires kind <= 0x60
    ensures |IntStr(kind, n)| <= |NumTag(tag, n)|
  {
    if n >= 0x20 { IntStrIsShorter(kind, tag, n / 128); }
  }

  /** No number of 64 bits takes more than eleven bytes, so two fit. */
  lemma NumbersFit(kind: byte, n: nat)
    requires kind <= 0x60 && n < TWO_64
    ensures |NumTag(kind, n)| <= 11 && |IntStr(kind, n)| <= 11
  {
    OneShl64(64);
    ShlTwice(1, 64, 6);
    NumTagFits(kind, n, 10);
    IntStrIsShorter(kind, kind, n);
  }

  // ---- Packing ----

  lemma Regrouped(s: seq<byte>, x: byte, t: seq<byte>)
    ensures s + [x] + t == s + ([x] + t)
  {
  }

  lemma Extended(a: array<byte>, i: nat, before: seq<byte>, x: byte)
    requires i < a.Length && a[..i] == before && a[i] == x
    ensures a[..i + 1] == before + [x]
  {
  }

  /** _pack_intstr, behind the first `at` bytes; returns where it stopped. */
  method PackIntstr(buf: array<byte>, at: nat, kind: byte, num: nat) returns (n: nat)
    requires kind <= 0x60 && at + |IntStr(kind, num)| <= buf.Length
    modifies buf
    ensures n <= buf.Length && buf[..n] == old(buf[..at]) + IntStr(kind, num)
  {
    n := at;
    var m := num;
    while m >= 0x20
      invariant at <= n && n + |IntStr(kind, m)| <= buf.Length
      invariant buf[..n] + IntStr(kind, m) == old(buf[..at]) + IntStr(kind, num)
    {
      ghost var before := buf[..n];
      buf[n] := 0x80 + m % 128;
      Extended(buf, n, before, 0x80 + m % 128);
      Regrouped(before, 0x80 + m % 128, IntStr(kind, m / 128));
      n, m := n + 1, m / 128;
    }
    ghost var before := buf[..n];
    buf[n] := kind + m;
    Extended(buf, n, before, kind + m);
    n := n + 1;
  }

  /** _pack_tag */
  method PackTag(buf: array<byte>, at: nat, kind: byte, num: nat) returns (n: nat)
    requires at + |NumTag(kind, num)| <= buf.Length
    modifies buf
    ensures n <= buf.Length && buf[..n] == old(buf[..at]) + NumTag(kind, num)
  {
    n := at;
    var m := num;
    while m > 0
      invariant at <= n && n + |NumTag(kind, m)| <= buf.Length
      invariant buf[..n] + NumTag(kind, m) == old(buf[..at]) + NumTag(kind, num)
    {
      ghost var before := buf[..n];
      buf[n] := 0x80 + m % 128;
      Extended(buf, n, before, 0x80 + m % 128);
      Regrouped(before, 0x80 + m % 128, NumTag(kind, m / 128));
      n, m := n + 1, m / 128;
    }
    ghost var before := buf[..n];
    buf[n] := kind;
    Extended(buf, n, before, kind);
    n := n + 1;
  }

  /** vbs_buffer_of_integer */
  method BufferOfInteger(buf: array<byte>, at: nat, value: int) returns (n: nat)
    requires IsLong(value) && at + 11 <= buf.Length
    modifies buf
    ensures n <= buf.Length && buf[..n] == old(buf[..at]) + EncodeInteger(Native, value)
  {
    hide IntStr, NumTag;
    if value >= 0 {
      NumbersFit(INTEGER, value);
      n := PackIntstr(buf, at, INTEGER, value);
    } else {
      NumbersFit(0x60, -value);
      n := PackIntstr(buf, at, 0x60, -value);
    }
  }

  /** vbs_buffer_of_floating: a buffer of TMPBUF_SIZE bytes holds any double. */
  method BufferOfFloating(buf: array<byte>, bits: nat) returns (n: nat)
    requires bits < TWO_64 && buf.Length == TMPBUF_SIZE
    modifies buf
    ensures n <= buf.Length && buf[..n] == EncodeDouble(Native, bits)
  {
    hide IntStr, NumTag, BreakNative, EncodeInteger;
    NativePartsAreSmall(bits);
    var p := BreakDoubleValue(bits);
    var tag: byte, m := FLOATING, p.significant;
    if m < 0 {
      tag, m := FLOATING + 1, -m;
    }
    NumbersFit(tag, m);
    n := PackTag(buf, 0, tag, m);
    assert old(buf[..0]) + NumTag(tag, m) == NumTag(tag, m);
    assert n == |buf[..n]|;
    n := BufferOfInteger(buf, n, p.expo);
  }
}
