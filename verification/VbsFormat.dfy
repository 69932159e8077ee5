/** The bytes of the VBS format, and that the encoder writes them and the decoder goes by them. */
module VbsFormat {
  import opened Bytes
  import opened VbsNumber
  import opened VbsDouble
  import opened Vbs

  // ---- Heads ----

  /** Bytes with the high bit set, and a last one from `base` on below `base + width`. */
  predicate IsHead(s: seq<byte>, base: byte, width: nat) {
    && s != [] && base <= s[|s| - 1] < base + width
    && (forall j :: 0 <= j < |s| - 1 ==> s[j] >= 0x80)
  }

  /** The number in a head: seven bits a byte, the lowest first; the last byte counts from `base`. */
  function HeadNumber(s: seq<byte>, base: byte): nat
    requires IsHead(s, base, 0x100)
  {
    if |s| == 1 then s[0] - base else s[0] - 0x80 + 128 * HeadNumber(s[1..], base)
  }

  /** s is the shortest head of the number n: what is left for the last byte alone would not fit any earlier. */
  predicate Writes(s: seq<byte>, base: byte, width: nat, n: nat) {
    && IsHead(s, base, width) && width <= 0x100 && HeadNumber(s, base) == n
    && (forall j :: 0 <= j < |s| - 1 ==> HeadNumber(s[j..], base) >= width)
  }

  lemma WritesMore(x: byte, s: seq<byte>, base: byte, width: nat, n: nat)
    requires x < 0x80 && Writes(s, base, width, n) && x + 128 * n >= width
    ensures Writes([0x80 + x] + s, base, width, x + 128 * n)
  {
    var t := [0x80 + x] + s;
    assert t[1..] == s;
    forall j | 0 <= j < |t| - 1 ensures t[j] >= 0x80 && IsHead(t[j..], base, 0x100) && HeadNumber(t[j..], base) >= width {
      if j == 0 {
        assert t[0..] == t;
        assert forall m :: 0 < m < |t| ==> t[m] == s[m - 1];
      } else {
        assert t[j] == s[j - 1] && t[j..] == s[j - 1..];
      }
    }
  }

  lemma {:induction false} IntStrWrites(kind: byte, n: nat)
    requires kind <= 0x60
    ensures Writes(IntStr(kind, n), kind, 32, n)
    decreases n
  {
    hide Writes;
    if n >= 0x20 {
      IntStrWrites(kind, n / 128);
      WritesMore(n % 128, IntStr(kind, n / 128), kind, 32, n / 128);
    } else {
      OneByteWrites(kind + n, kind, 32);
    }
  }

  lemma OneByteWrites(x: byte, base: byte, width: nat)
    requires base <= x < base + width && width <= 0x100
    ensures Writes([x], base, width, x - base)
  {
  }

  lemma {:induction false} NumTagWrites(tag: byte, n: nat)
    ensures Writes(NumTag(tag, n), tag, 1, n)
    decreases n
  {
    hide Writes;
    if n > 0 {
      NumTagWrites(tag, n / 128);
      WritesMore(n % 128, NumTag(tag, n / 128), tag, 1, n / 128);
    } else {
      OneByteWrites(tag, tag, 1);
    }
  }

  lemma HeadFalls(s: seq<byte>, base: byte, width: nat, n: nat)
    requires Writes(s, base, width, n) && |s| > 1
    ensures n >= width && s[0] == 0x80 + n % 128 && Writes(s[1..], base, width, n / 128)
  {
    assert s[0..] == s;
    forall j | 0 <= j < |s| - 2 ensures HeadNumber(s[1..][j..], base) >= width {
      assert s[1..][j..] == s[j + 1..];
    }
  }

  /** A number has one shortest head. */
  lemma {:induction false} WritesOnce(s: seq<byte>, t: seq<byte>, base: byte, width: nat, n: nat)
    requires Writes(s, base, width, n) && Writes(t, base, width, n)
    ensures s == t
  {
    if |s| > 1 { HeadFalls(s, base, width, n); }
    if |t| > 1 { HeadFalls(t, base, width, n); }
    if |s| > 1 && |t| > 1 {
      WritesOnce(s[1..], t[1..], base, width, n / 128);
      assert s == [s[0]] + s[1..] && t == [t[0]] + t[1..];
    }
  }

  // ---- Values ----

  /** The magnitude of a finite, non-zero double is m * 2^expo with an odd m: its 52 bits of fraction, and one
      more above them unless the eleven bits of exponent are zero, stand for multiples of 2^-1074 and up. */
  predicate IsBinary(bits: nat, m: nat, expo: int) {
    var e, f := bits / 0x10_0000_0000_0000 % 0x800, bits % 0x10_0000_0000_0000;
    var lowest := if e == 0 then -1074 else e - 1075;
    && m % 2 == 1 && expo >= lowest
    && Shl(m, expo - lowest) == if e == 0 then f else f + 0x10_0000_0000_0000
  }

  ghost predicate IntFormat(n: int, s: seq<byte>) {
    if n >= 0 then Writes(s, 0x40, 32, n) else Writes(s, 0x60, 32, -n)
  }

  /** A double is a tag with its odd significand, and an integer for the exponent. Java has one zero and one infinity. */
  ghost predicate DoubleFormat(w: Writer, bits: nat, s: seq<byte>) {
    var negative, magnitude := bits >= 0x8000_0000_0000_0000, bits % 0x8000_0000_0000_0000;
    if magnitude == 0 then s == [0x1E, if w.Java? then 0x40 else if negative then 0x61 else 0x41]
    else if magnitude == 0x7ff0_0000_0000_0000 then s == [0x1E, if w.Native? && negative then 0x62 else 0x42]
    else if magnitude > 0x7ff0_0000_0000_0000 then s == [0x1E, if w.Native? && negative then 0x63 else 0x43]
    else
      exists m: nat, expo: int, k: nat :: k <= |s| && IsBinary(bits, m, expo)
        && Writes(s[..k], if negative then 0x1F else 0x1E, 1, m) && IntFormat(expo, s[k..])
  }

  /** s is v as the format has it. Only the most negative integer of Java is not: it is written like zero, with a sign. */
  ghost predicate Format(w: Writer, v: Value, s: seq<byte>)
    decreases v, 1
  {
    match v
    case Null => s == [0x0F]
    case Bool(b) => s == [if b then 0x19 else 0x18]
    case Int(n) => if w.Java? && n == -0x8000_0000_0000_0000 then s == [0x60] else IntFormat(n, s)
    case Str(t) => |t| <= |s| && Writes(s[..|s| - |t|], 0x20, 32, |t|) && s[|s| - |t|..] == t
    case Blob(t) => |t| <= |s| && Writes(s[..|s| - |t|], 0x1B, 1, |t|) && s[|s| - |t|..] == t
    case Dbl(bits) => DoubleFormat(w, bits, s)
    case List(items) => |s| >= 2 && s[0] == 0x02 && s[|s| - 1] == 0x01 && FormatItems(w, items, s[1..|s| - 1])
    case Dict(entries) => |s| >= 2 && s[0] == 0x03 && s[|s| - 1] == 0x01 && FormatEntries(w, entries, s[1..|s| - 1])
  }

  ghost predicate FormatItems(w: Writer, items: seq<Value>, s: seq<byte>)
    decreases items, 0
  {
    if items == [] then s == []
    else exists k :: 0 <= k <= |s| && Format(w, items[0], s[..k]) && FormatItems(w, items[1..], s[k..])
  }

  ghost predicate FormatEntries(w: Writer, entries: seq<Entry>, s: seq<byte>)
    decreases entries, 0
  {
    if entries == [] then s == []
    else exists k :: 0 <= k <= |s| && FormatEntry(w, entries[0], s[..k]) && FormatEntries(w, entries[1..], s[k..])
  }

  ghost predicate FormatEntry(w: Writer, e: Entry, s: seq<byte>)
    decreases e, 2
  {
    exists k :: 0 <= k <= |s| && Format(w, e.key, s[..k]) && Format(w, e.val, s[k..])
  }

  // ---- The encoder writes the format, and nothing else is in it ----

  lemma IntegerBytes(n: int)
    requires IsLong(n)
    ensures IntFormat(n, NativeInteger(n))
    ensures n != LONG_MIN ==> PackedInteger(n) == NativeInteger(n)
  {
    hide Writes, IntStr;
    IntStrWrites(if n < 0 then 0x60 else 0x40, if n < 0 then 0 - n else n);
  }

  lemma IntFormatOnce(n: int, s: seq<byte>, t: seq<byte>)
    requires IntFormat(n, s) && IntFormat(n, t)
    ensures s == t
  {
    hide Writes;
    if n >= 0 { WritesOnce(s, t, 0x40, 32, n); } else { WritesOnce(s, t, 0x60, 32, -n); }
  }

  lemma BinaryParts(w: Writer, bits: nat)
    requires IsDoubleOf(w, bits) && 0 < bits % TWO_63 < INFINITY
    ensures var p := PartsOf(w, bits);
      && IsBinary(bits, if p.significant < 0 then 0 - p.significant else p.significant, p.expo)
      && (p.significant < 0 <==> bits >= TWO_63) && p.expo > LONG_MIN
  {
    hide FirstBit, Shr, Shl;
    var (full, _) := Unhidden(bits);
    FirstBitSplits(full);
    assert BreakNative(bits) == BreakDouble(bits);
  }

  /** The odd number and the power of two are determined. */
  lemma {:induction false} OddOnce(m: nat, j: nat, n: nat, k: nat)
    requires m % 2 == 1 && n % 2 == 1 && Shl(m, j) == Shl(n, k)
    ensures m == n && j == k
  {
    if j > 0 && k > 0 { OddOnce(m, j - 1, n, k - 1); }
  }

  lemma DoubleBytes(w: Writer, bits: nat)
    requires IsDoubleOf(w, bits)
    ensures DoubleFormat(w, bits, EncodeDouble(w, bits))
  {
    hide Writes, NumTag, FirstBit, Shr, Unhidden;
    var p := PartsOf(w, bits);
    if 0 < bits % TWO_63 < INFINITY {
      FiniteBytes(w, bits);
    } else {
      SpecialBytes(w, bits);
    }
  }

  lemma FiniteBytes(w: Writer, bits: nat)
    requires IsDoubleOf(w, bits) && 0 < bits % TWO_63 < INFINITY
    ensures DoubleFormat(w, bits, EncodeDouble(w, bits))
  {
    hide Writes, NumTag, FirstBit, Shr, Unhidden, PartsOf, IntFormat, PackedInteger, NativeInteger, IsBinary;
    var p := PartsOf(w, bits);
    BinaryParts(w, bits);
    var tag: byte, m := if p.significant < 0 then 0x1F else 0x1E, if p.significant < 0 then 0 - p.significant else p.significant;
    NumTagWrites(tag, m);
    IntegerBytes(p.expo);
    var s, head := EncodeDouble(w, bits), NumTag(tag, m);
    assert s[..|head|] == head && s[|head|..] == EncodeInteger(w, p.expo);
  }

  lemma SpecialBytes(w: Writer, bits: nat)
    requires IsDoubleOf(w, bits) && !(0 < bits % TWO_63 < INFINITY)
    ensures DoubleFormat(w, bits, EncodeDouble(w, bits))
  {
    hide FirstBit, Shr, Unhidden;
    NativeSpecial(bits);
    if w.Java? { SpecialParts(bits); }
    var p := PartsOf(w, bits);
    assert NumTag(FLOATING, p.significant) == [0x1E];
    assert -3 <= p.expo <= 3;
    assert EncodeInteger(w, p.expo) == [if p.expo < 0 then 0x60 - p.expo else 0x40 + p.expo];
  }

  lemma DoubleFormatOnce(w: Writer, bits: nat, s: seq<byte>, t: seq<byte>)
    requires bits < TWO_64 && DoubleFormat(w, bits, s) && DoubleFormat(w, bits, t)
    ensures s == t
  {
    hide Writes, IntFormat, IsBinary;
    var negative := bits >= TWO_63;
    if 0 < bits % TWO_63 < INFINITY {
      var tag: byte := if negative then 0x1F else 0x1E;
      var m: nat, expo: int, k: nat :| k <= |s| && IsBinary(bits, m, expo) && Writes(s[..k], tag, 1, m) && IntFormat(expo, s[k..]);
      var n: nat, power: int, j: nat :| j <= |t| && IsBinary(bits, n, power) && Writes(t[..j], tag, 1, n) && IntFormat(power, t[j..]);
      BinaryOnce(bits, m, expo, n, power);
      WritesOnce(s[..k], t[..j], tag, 1, m);
      IntFormatOnce(expo, s[k..], t[j..]);
      assert s == s[..k] + s[k..] && t == t[..j] + t[j..];
    }
  }

  lemma BinaryOnce(bits: nat, m: nat, expo: int, n: nat, power: int)
    requires IsBinary(bits, m, expo) && IsBinary(bits, n, power)
    ensures m == n && expo == power
  {
    var e := bits / 0x10_0000_0000_0000 % 0x800;
    var lowest := if e == 0 then -1074 else e - 1075;
    OddOnce(m, expo - lowest, n, power - lowest);
  }

  lemma HeadThenBytes(head: seq<byte>, t: seq<byte>)
    ensures var s := head + t; s[..|s| - |t|] == head && s[|s| - |t|..] == t
  {
  }

  lemma HeadOnce(s: seq<byte>, u: seq<byte>, t: seq<byte>, base: byte, width: nat)
    requires |t| <= |s| && Writes(s[..|s| - |t|], base, width, |t|) && s[|s| - |t|..] == t
    requires |t| <= |u| && Writes(u[..|u| - |t|], base, width, |t|) && u[|u| - |t|..] == t
    ensures s == u
  {
    hide Writes;
    WritesOnce(s[..|s| - |t|], u[..|u| - |t|], base, width, |t|);
    assert s == s[..|s| - |t|] + t && u == u[..|u| - |t|] + t;
  }

  lemma ScalarFormat(w: Writer, v: Value)
    requires Valid(w, v) && !v.List? && !v.Dict?
    ensures Format(w, v, Encode(w, v))
  {
    hide Writes, IntStr, NumTag, EncodeDouble, DoubleFormat, IntFormat, PackedInteger, NativeInteger, IsDoubleOf;
    match v
    case Int(n) =>
      IntegerBytes(n);
      if n == LONG_MIN { MostNegative(); }
    case Str(t) =>
      IntStrWrites(0x20, |t|);
      HeadThenBytes(IntStr(STRING, |t|), t);
    case Blob(t) =>
      NumTagWrites(0x1B, |t|);
      HeadThenBytes(NumTag(BLOB, |t|), t);
    case Dbl(bits) => DoubleBytes(w, bits);
    case _ =>
  }

  lemma MostNegative()
    ensures PackedInteger(LONG_MIN) == [0x60]
  {
  }

  lemma ScalarOnce(w: Writer, v: Value, s: seq<byte>, t: seq<byte>)
    requires Valid(w, v) && !v.List? && !v.Dict? && Format(w, v, s) && Format(w, v, t)
    ensures s == t
  {
    hide Writes, DoubleFormat, IntFormat;
    match v
    case Int(n) => if !(w.Java? && n == LONG_MIN) { IntFormatOnce(n, s, t); }
    case Str(u) => HeadOnce(s, t, u, 0x20, 32);
    case Blob(u) => HeadOnce(s, t, u, 0x1B, 1);
    case Dbl(bits) => DoubleFormatOnce(w, bits, s, t);
    case _ =>
  }

  /** The encoder writes the format: its bytes are the only ones that are v as the format has it. */
  lemma {:induction false} EncodesFormat(w: Writer, v: Value, s: seq<byte>)
    requires Valid(w, v)
    ensures Format(w, v, s) <==> s == Encode(w, v)
    decreases v, 1
  {
    match v
    case List(items) =>
      Unwrapped(s, 0x02, EncodeItems(w, items));
      if |s| >= 2 { EncodesItems(w, items, s[1..|s| - 1]); }
    case Dict(entries) =>
      Unwrapped(s, 0x03, EncodeEntries(w, entries));
      if |s| >= 2 { EncodesEntries(w, entries, s[1..|s| - 1]); }
    case _ =>
      hide Format, Encode;
      ScalarFormat(w, v);
      if Format(w, v, s) { ScalarOnce(w, v, s, Encode(w, v)); }
  }

  lemma Unwrapped(s: seq<byte>, first: byte, body: seq<byte>)
    ensures s == [first] + body + [0x01] <==> |s| >= 2 && s[0] == first && s[|s| - 1] == 0x01 && s[1..|s| - 1] == body
  {
    if |s| >= 2 && s[0] == first && s[|s| - 1] == 0x01 && s[1..|s| - 1] == body {
      assert s == [s[0]] + s[1..|s| - 1] + [s[|s| - 1]];
    }
  }

  lemma Apart(s: seq<byte>, k: nat, a: seq<byte>, b: seq<byte>)
    requires k <= |s| && s[..k] == a && s[k..] == b
    ensures s == a + b
  {
  }

  lemma {:induction false} EncodesItems(w: Writer, items: seq<Value>, s: seq<byte>)
    requires ValidItems(w, items)
    ensures FormatItems(w, items, s) <==> s == EncodeItems(w, items)
    decreases items, 0
  {
    if items != [] {
      hide Format, Encode;
      var a, b := Encode(w, items[0]), EncodeItems(w, items[1..]);
      if FormatItems(w, items, s) {
        var k :| 0 <= k <= |s| && Format(w, items[0], s[..k]) && FormatItems(w, items[1..], s[k..]);
        EncodesFormat(w, items[0], s[..k]);
        EncodesItems(w, items[1..], s[k..]);
        Apart(s, k, a, b);
      }
      if s == a + b {
        var k := |a|;
        assert s[..k] == a && s[k..] == b;
        EncodesFormat(w, items[0], s[..k]);
        EncodesItems(w, items[1..], s[k..]);
      }
    }
  }

  lemma {:induction false} EncodesEntries(w: Writer, entries: seq<Entry>, s: seq<byte>)
    requires ValidEntries(w, entries)
    ensures FormatEntries(w, entries, s) <==> s == EncodeEntries(w, entries)
    decreases entries, 0
  {
    if entries != [] {
      hide FormatEntry, EncodeEntry;
      var a, b := EncodeEntry(w, entries[0]), EncodeEntries(w, entries[1..]);
      if FormatEntries(w, entries, s) {
        var k :| 0 <= k <= |s| && FormatEntry(w, entries[0], s[..k]) && FormatEntries(w, entries[1..], s[k..]);
        EncodesEntry(w, entries[0], s[..k]);
        EncodesEntries(w, entries[1..], s[k..]);
        Apart(s, k, a, b);
      }
      if s == a + b {
        var k := |a|;
        assert s[..k] == a && s[k..] == b;
        EncodesEntry(w, entries[0], s[..k]);
        EncodesEntries(w, entries[1..], s[k..]);
      }
    }
  }

  lemma {:induction false} EncodesEntry(w: Writer, e: Entry, s: seq<byte>)
    requires ValidEntry(w, e)
    ensures FormatEntry(w, e, s) <==> s == EncodeEntry(w, e)
    decreases e, 2
  {
    hide Format, Encode;
    var a, b := Encode(w, e.key), Encode(w, e.val);
    if FormatEntry(w, e, s) {
      var k :| 0 <= k <= |s| && Format(w, e.key, s[..k]) && Format(w, e.val, s[k..]);
      EncodesFormat(w, e.key, s[..k]);
      EncodesFormat(w, e.val, s[k..]);
      Apart(s, k, a, b);
    }
    if s == a + b {
      var k := |a|;
      assert s[..k] == a && s[k..] == b;
      EncodesFormat(w, e.key, s[..k]);
      EncodesFormat(w, e.val, s[k..]);
    }
  }
}
