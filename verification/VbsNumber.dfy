/** The numbers of the VBS encoding: groups of seven bits, low ones first, ended by a tag byte. */
module VbsNumber {
  import opened Bytes

  const TAIL: byte := 0x01
  const LIST: byte := 0x02
  const DICT: byte := 0x03
  const NULL: byte := 0x0F
  const DESCRIPTOR: byte := 0x10
  const BOOL: byte := 0x18
  const BLOB: byte := 0x1B
  const FLOATING: byte := 0x1E
  const STRING: byte := 0x20
  const INTEGER: byte := 0x40

  const DESCRIPTOR_MAX := 0x7fff

  /** n shifted left by k bits. */
  function Shl(n: nat, k: nat): (r: nat)
    ensures r >= n
  {
    if k == 0 then n else 2 * Shl(n, k - 1)
  }

  /** n shifted right by k bits. */
  function Shr(n: nat, k: nat): (r: nat)
    ensures r <= n
  {
    if k == 0 then n else Shr(n / 2, k - 1)
  }

  lemma {:induction false} ShlAdds(a: nat, b: nat, k: nat)
    ensures Shl(a + b, k) == Shl(a, k) + Shl(b, k)
  {
    if k > 0 { ShlAdds(a, b, k - 1); }
  }

  lemma {:induction false} ShlTwice(n: nat, a: nat, b: nat)
    ensures Shl(Shl(n, a), b) == Shl(n, a + b)
  {
    if b > 0 { ShlTwice(n, a, b - 1); }
  }

  lemma {:induction false} ShlZero(k: nat)
    ensures Shl(0, k) == 0
  {
    if k > 0 { ShlZero(k - 1); }
  }

  lemma Shl7(n: nat)
    ensures Shl(n, 7) == 128 * n && Shl(n, 8) == 256 * n
  {
    assert Shl(n, 1) == 2 * n;
    assert Shl(n, 2) == 4 * n;
    assert Shl(n, 3) == 8 * n;
    assert Shl(n, 4) == 16 * n;
    assert Shl(n, 5) == 32 * n;
    assert Shl(n, 6) == 64 * n;
    assert Shl(n, 7) == 128 * n;
  }

  lemma ShlMonotone(a: nat, b: nat, k: nat)
    requires a <= b
    ensures Shl(a, k) <= Shl(b, k)
  {
    ShlAdds(a, b - a, k);
  }

  // ---- Java's 64-bit and 32-bit integers ----

  const LONG_MIN := -0x8000_0000_0000_0000
  const LONG_MAX := 0x7fff_ffff_ffff_ffff

  const TWO_64 := 0x1_0000_0000_0000_0000

  predicate IsLong(n: int) { LONG_MIN <= n <= LONG_MAX }

  /** The long with the 64 bits of n. */
  function ToLong(n: int): (r: int)
    ensures IsLong(r)
    ensures IsLong(n) ==> r == n
  {
    var m := n % TWO_64;
    if m <= LONG_MAX then m else m - TWO_64
  }

  /** The int with the low 32 bits of n. */
  function ToInt(n: int): (r: int)
    ensures -0x8000_0000 <= n < 0x8000_0000 ==> r == n
  {
    var m := n % 0x1_0000_0000;
    if m < 0x8000_0000 then m else m - 0x1_0000_0000
  }

  /** Unary minus on a long: the most negative one is its own negative. */
  function Negate(n: int): int
    requires IsLong(n)
  {
    ToLong(-n)
  }

  lemma NegateIs(n: int)
    requires IsLong(n) && n < 0
    ensures Negate(n) == if n == LONG_MIN then n else -n
    ensures LONG_MIN % 0x20 == 0
  {
  }

  // ---- Writing ----

  /** Groups of n down to its top five bits, which share the last byte with the kind. */
  function IntStr(kind: byte, n: nat): (s: seq<byte>)
    requires kind <= 0x60
    ensures s != []
  {
    if n >= 0x20 then [(0x80 + n % 128) as byte] + IntStr(kind, n / 128) else [kind + n]
  }

  /** All groups of n, then the tag. */
  function NumTag(tag: byte, n: nat): (s: seq<byte>)
    ensures s != []
  {
    if n > 0 then [(0x80 + n % 128) as byte] + NumTag(tag, n / 128) else [tag]
  }

  /** _pack_integer: the most negative long stays negative under negation, so no group is written
      for it and only its zero low byte is merged into the last one. */
  function PackedInteger(n: int): (s: seq<byte>)
    requires IsLong(n)
    ensures s != []
  {
    if n >= 0 then IntStr(INTEGER, n)
    else if n == LONG_MIN then [0x60]
    else IntStr(0x60, -n)
  }

  /** vbs_buffer_of_integer: the negated number is taken as unsigned, so the most negative one is written in full. */
  function NativeInteger(n: int): (s: seq<byte>)
    requires IsLong(n)
    ensures s != []
  {
    if n >= 0 then IntStr(INTEGER, n) else IntStr(0x60, -n)
  }

  // ---- Reading ----

  /** The descriptor bits, kept in an int. */
  function OrLow(d: bv32, n: nat): bv32 { d | ((n % 0x1_0000_0000) as bv32) }
  predicate HasSpecial(d: bv32) { d & 0x8000 != 0 }
  predicate HasLow(d: bv32) { d & 0x7fff != 0 }
  function OrSpecial(d: bv32): bv32 { d | 0x8000 }

  /** The outcome of _unpack_tag; `next` is where the cursor is left. */
  datatype Tag =
    | Tag(kind: byte, descriptor: bv32, num: int, next: nat)
    | Invalid(next: nat)
    | Incomplete(next: nat)

  /** The last byte of a multi-byte tag, and the groups before it. */
  datatype Groups = Last(x: byte, num: nat, shift: nat, next: nat) | BadGroup(next: nat) | NoMore(next: nat)

  /** x << shift still fits in 64 bits. */
  predicate GroupFits(x: nat, shift: nat) {
    shift < 64 && (64 - shift < 7 ==> x < Shl(1, 64 - shift))
  }

  function ReadGroups(buf: seq<byte>, i: nat, num: nat, shift: nat): (g: Groups)
    requires i < |buf|
    ensures i < g.next <= |buf|
    ensures g.Last? ==> g.x < 0x80
    decreases |buf| - i
  {
    if buf[i] < 0x80 then Last(buf[i], num, shift, i + 1)
    else if i + 1 >= |buf| then NoMore(i + 1)
    else if !GroupFits(buf[i] - 0x80, shift) then BadGroup(i + 1)
    else ReadGroups(buf, i + 1, num + Shl(buf[i] - 0x80, shift), shift + 7)
  }

  /** A tag of one byte. */
  function ShortTag(x: byte, d: bv32, next: nat): (t: Tag)
    requires x < 0x80 && !(DESCRIPTOR <= x < BOOL)
    ensures t.Tag? && t.next == next
  {
    if x >= 0x60 then Tag(INTEGER, d, -(x % 32), next)
    else if x >= STRING then Tag(x - x % 32, d, x % 32, next)
    else if x >= BOOL then Tag(if x == BLOB then x else x - x % 2, d, if x <= BOOL + 1 then x % 2 else 0, next)
    else Tag(x, d, 0, next)
  }

  /** A tag of several bytes: the last group joins the others, a set sign bit negates. */
  function LongTag(x: byte, num: nat, shift: nat, d: bv32, next: nat): (t: Tag)
    requires x < 0x80 && !(DESCRIPTOR <= x < BOOL)
    ensures t.next == next && !t.Incomplete?
  {
    if x >= STRING then
      var top := x % 32;
      if top != 0 && !GroupFits(top, shift) then Invalid(next)
      else
        var n := ToLong(num + if top != 0 then Shl(top, shift) else 0);
        if x >= 0x60 then Tag(INTEGER, d, Negate(n), next) else Tag(x - top, d, n, next)
    else if x >= BOOL && x != BLOB then
      var n := ToLong(num);
      Tag(x - x % 2, d, if x % 2 == 1 then Negate(n) else n, next)
    else Tag(x, d, ToLong(num), next)
  }

  /** _unpack_tag from position i, having read the descriptors in d. */
  function UnpackTag(buf: seq<byte>, i: nat, d: bv32): (t: Tag)
    requires i <= |buf|
    ensures i <= t.next <= |buf|
    ensures i < |buf| ==> i < t.next
    ensures t.Tag? ==> i < t.next
    decreases |buf| - i
  {
    if i >= |buf| then Incomplete(i)
    else
      var x := buf[i];
      if x < 0x80 then
        if !(DESCRIPTOR <= x < BOOL) then ShortTag(x, d, i + 1)
        else if x == DESCRIPTOR then
          if HasSpecial(d) then Invalid(i + 1) else UnpackTag(buf, i + 1, OrSpecial(d))
        else
          if HasLow(d) then Invalid(i + 1) else UnpackTag(buf, i + 1, OrLow(d, x % 8))
      else if i + 1 >= |buf| then Incomplete(i + 1)
      else
        match ReadGroups(buf, i + 1, x - 0x80, 7)
        case BadGroup(next) => Invalid(next)
        case NoMore(next) => Incomplete(next)
        case Last(y, num, shift, next) =>
          if !(DESCRIPTOR <= y < BOOL) then LongTag(y, num, shift, d, next)
          else if y % 8 != 0 && !GroupFits(y % 8, shift) then Invalid(next)
          else
            var n := num + if y % 8 != 0 then Shl(y % 8, shift) else 0;
            if ToLong(n) == 0 || ToLong(n) >= DESCRIPTOR_MAX || HasLow(d) then Invalid(next)
            else UnpackTag(buf, next, OrLow(d, n))
  }

  // ---- Reading what was written ----

  /** s stands in buf at i. */
  predicate At(buf: seq<byte>, i: nat, s: seq<byte>) {
    i + |s| <= |buf| && buf[i..i + |s|] == s
  }

  lemma AtSplits(buf: seq<byte>, i: nat, s: seq<byte>, t: seq<byte>)
    ensures At(buf, i, s + t) <==> At(buf, i, s) && At(buf, i + |s|, t)
  {
    if i + |s| + |t| <= |buf| {
      var u := buf[i..i + |s + t|];
      assert u[..|s|] == buf[i..i + |s|] && u[|s|..] == buf[i + |s|..i + |s| + |t|];
      assert u == u[..|s|] + u[|s|..];
      assert (s + t)[..|s|] == s && (s + t)[|s|..] == t;
    }
  }

  lemma AtHead(buf: seq<byte>, i: nat, x: byte, t: seq<byte>)
    requires At(buf, i, [x] + t)
    ensures i < |buf| && buf[i] == x && At(buf, i + 1, t)
  {
    AtSplits(buf, i, [x], t);
    assert buf[i] == buf[i..i + 1][0];
  }

  /** A number below 2^64 shifted left leaves room for each of its groups. */
  lemma GroupOfFits(n: nat, x: nat, shift: nat)
    requires 0 < n && x <= n && Shl(n, shift) < TWO_64
    ensures GroupFits(x, shift)
  {
    if shift >= 64 {
      ShlMonotone(1, n, shift);
      ShlTwice(1, 64, shift - 64);
      OneShl64(64);
    } else if x >= Shl(1, 64 - shift) {
      var k := 64 - shift;
      ShlMonotone(Shl(1, k), n, shift);
      ShlTwice(1, k, shift);
      OneShl64(k + shift);
    }
  }

  lemma OneShl64(k: nat)
    requires k == 64
    ensures Shl(1, k) == TWO_64
  {
    var n, j := 1, 0;
    while j < 64
      invariant j <= 64 && j % 8 == 0
      invariant n == Shl(1, j)
      invariant n == [1, 0x100, 0x1_0000, 0x100_0000, 0x1_0000_0000, 0x100_0000_0000, 0x1_0000_0000_0000, 0x100_0000_0000_0000, TWO_64][j / 8]
    {
      ShlTwice(1, j, 8);
      Shl7(n);
      n, j := 256 * n, j + 8;
    }
  }

  /** Taking the low group off a shifted number. */
  lemma SplitGroup(n: nat, shift: nat)
    ensures Shl(n, shift) == Shl(n % 128, shift) + Shl(n / 128, shift + 7)
  {
    ShlAdds(n % 128, n / 128 * 128, shift);
    ShlTwice(n / 128, 7, shift);
    Shl7(n / 128);
  }

  /** The value a multi-byte integer or string length ends up with. */
  function Joined(g: Groups): nat
    requires g.Last?
  {
    g.num + Shl(g.x % 32, g.shift)
  }

  /** g ends a number of the given kind whose last group fits. */
  predicate Ends(g: Groups, kind: byte) {
    g.Last? && g.x - g.x % 32 == kind && (g.x % 32 != 0 ==> GroupFits(g.x % 32, g.shift))
  }

  /** One more group that fits goes in front. */
  lemma OneGroup(buf: seq<byte>, i: nat, x: byte, t: seq<byte>, num: nat, shift: nat)
    requires At(buf, i, [x] + t) && t != [] && x >= 0x80 && GroupFits(x - 0x80, shift)
    ensures At(buf, i + 1, t)
    ensures i + 1 < |buf| && ReadGroups(buf, i, num, shift) == ReadGroups(buf, i + 1, num + Shl(x - 0x80, shift), shift + 7)
  {
    AtHead(buf, i, x, t);
  }

  /** Reading back the groups IntStr wrote, from the second one on. */
  lemma {:induction false} ReadIntStr(buf: seq<byte>, i: nat, kind: byte, n: nat, num: nat, shift: nat)
    requires kind in {STRING, INTEGER, 0x60} && At(buf, i, IntStr(kind, n)) && Shl(n, shift) < TWO_64
    ensures i < |buf|
    ensures var g := ReadGroups(buf, i, num, shift);
      Ends(g, kind) && g.next == i + |IntStr(kind, n)| && Joined(g) == num + Shl(n, shift)
    decreases n
  {
    hide ReadGroups, GroupFits, At, Ends, Joined, Shl;
    if n >= 0x20 {
      GroupOfFits(n, n % 128, shift);
      OneGroup(buf, i, 0x80 + n % 128, IntStr(kind, n / 128), num, shift);
      SplitGroup(n, shift);
      ReadIntStr(buf, i + 1, kind, n / 128, num + Shl(n % 128, shift), shift + 7);
    } else {
      LastOfIntStr(buf, i, kind, n, num, shift);
    }
  }

  lemma LastOfIntStr(buf: seq<byte>, i: nat, kind: byte, n: nat, num: nat, shift: nat)
    requires kind in {STRING, INTEGER, 0x60} && n < 0x20 && At(buf, i, [kind + n]) && Shl(n, shift) < TWO_64
    ensures i < |buf| && ReadGroups(buf, i, num, shift) == Last(kind + n, num, shift, i + 1)
    ensures Ends(Last(kind + n, num, shift, i + 1), kind) && Joined(Last(kind + n, num, shift, i + 1)) == num + Shl(n, shift)
  {
    assert buf[i] == buf[i..i + 1][0];
    if n > 0 { GroupOfFits(n, n, shift); }
  }

  /** Reading back the groups NumTag wrote, from the second one on. */
  lemma {:induction false} ReadNumTag(buf: seq<byte>, i: nat, tag: byte, n: nat, num: nat, shift: nat)
    requires tag < 0x80 && At(buf, i, NumTag(tag, n)) && Shl(n, shift) < TWO_64
    ensures i < |buf|
    ensures var g := ReadGroups(buf, i, num, shift);
      g.Last? && g.x == tag && g.next == i + |NumTag(tag, n)| && g.num == num + Shl(n, shift)
    decreases n
  {
    hide ReadGroups, GroupFits, At, Shl;
    if n > 0 {
      GroupOfFits(n, n % 128, shift);
      OneGroup(buf, i, 0x80 + n % 128, NumTag(tag, n / 128), num, shift);
      SplitGroup(n, shift);
      ReadNumTag(buf, i + 1, tag, n / 128, num + Shl(n % 128, shift), shift + 7);
    } else {
      ShlZero(shift);
      TagAlone(buf, i, tag, num, shift);
    }
  }

  lemma TagAlone(buf: seq<byte>, i: nat, tag: byte, num: nat, shift: nat)
    requires tag < 0x80 && At(buf, i, [tag])
    ensures i < |buf| && buf[i] == tag && ReadGroups(buf, i, num, shift) == Last(tag, num, shift, i + 1)
  {
    assert buf[i] == buf[i..i + 1][0];
  }

  // ---- Whole tags ----

  /** A length or a non-negative integer. */
  lemma UnpackIntStr(buf: seq<byte>, i: nat, kind: byte, n: nat)
    requires kind == STRING || kind == INTEGER
    requires n <= LONG_MAX && At(buf, i, IntStr(kind, n))
    ensures UnpackTag(buf, i, 0) == Tag(kind, 0, n, i + |IntStr(kind, n)|)
  {
    if n >= 0x20 {
      TwoGroups(buf, i, kind, n);
    } else {
      assert buf[i] == buf[i..i + 1][0];
    }
  }

  function WithSign(kind: byte, n: nat): int {
    if kind == 0x60 then 0 - n else n
  }

  lemma ShlNone(n: nat)
    ensures Shl(n, 0) == n
  {
  }

  lemma TwoGroups(buf: seq<byte>, i: nat, kind: byte, n: nat)
    requires kind in {STRING, INTEGER, 0x60} && 0x20 <= n && At(buf, i, IntStr(kind, n))
    requires n <= LONG_MAX || (kind == 0x60 && n == -LONG_MIN)
    ensures UnpackTag(buf, i, 0) == Tag(if kind == 0x60 then INTEGER else kind, 0, WithSign(kind, n), i + |IntStr(kind, n)|)
  {
    hide ReadGroups, At, Shl, LongTag, ToLong, HasSpecial, HasLow, OrLow, OrSpecial;
    AtHead(buf, i, 0x80 + n % 128, IntStr(kind, n / 128));
    SplitGroup(n, 0);
    ShlNone(n);
    ShlNone(n % 128);
    ReadIntStr(buf, i + 1, kind, n / 128, n % 128, 7);
    LongTagOf(ReadGroups(buf, i + 1, n % 128, 7), kind, n);
  }

  /** The last byte of several, its number joined with the groups before it. */
  lemma LongTagOf(g: Groups, kind: byte, n: nat)
    requires kind in {STRING, INTEGER, 0x60} && (n <= LONG_MAX || (kind == 0x60 && n == -LONG_MIN))
    requires Ends(g, kind) && g.x < 0x80 && Joined(g) == n
    ensures STRING <= g.x
    ensures LongTag(g.x, g.num, g.shift, 0, g.next) == Tag(if kind == 0x60 then INTEGER else kind, 0, WithSign(kind, n), g.next)
  {
    hide Shl, GroupFits;
    ShlZero(g.shift);
  }

  /** What reading makes of a packed integer: the same number, but zero for the most negative one. */
  function ReadBack(n: int): int {
    if n == LONG_MIN then 0 else n
  }

  /** An integer below 0x20 shares its only byte with the kind. */
  lemma OneByteInteger(buf: seq<byte>, i: nat, n: nat)
    requires n < 0x20 && At(buf, i, [0x60 + n])
    ensures UnpackTag(buf, i, 0) == Tag(INTEGER, 0, 0 - n, i + 1)
  {
    hide ReadGroups, GroupFits, LongTag, ToLong;
    assert buf[i] == buf[i..i + 1][0];
  }

  lemma UnpackPackedInteger(buf: seq<byte>, i: nat, n: int)
    requires IsLong(n) && At(buf, i, PackedInteger(n))
    ensures UnpackTag(buf, i, 0) == Tag(INTEGER, 0, ReadBack(n), i + |PackedInteger(n)|)
  {
    hide UnpackTag, At;
    if n >= 0 {
      UnpackIntStr(buf, i, INTEGER, n);
    } else if n == LONG_MIN {
      OneByteInteger(buf, i, 0);
    } else {
      UnpackNativeInteger(buf, i, n);
    }
  }

  /** Java reads every integer that the C library writes, the most negative one too. */
  lemma UnpackNativeInteger(buf: seq<byte>, i: nat, n: int)
    requires IsLong(n) && At(buf, i, NativeInteger(n))
    ensures UnpackTag(buf, i, 0) == Tag(INTEGER, 0, n, i + |NativeInteger(n)|)
  {
    hide UnpackTag, At;
    if n >= 0 {
      UnpackIntStr(buf, i, INTEGER, n);
    } else if -n < 0x20 {
      OneByteInteger(buf, i, -n);
    } else {
      TwoGroups(buf, i, 0x60, -n);
    }
  }

  /** The length of a blob, or the significand of a double and its sign. */
  lemma UnpackNumTag(buf: seq<byte>, i: nat, tag: byte, n: nat)
    requires tag in {BLOB, FLOATING, 0x1F} && n <= LONG_MAX && At(buf, i, NumTag(tag, n))
    ensures UnpackTag(buf, i, 0) ==
      Tag(if tag == BLOB then BLOB else FLOATING, 0, if tag == 0x1F then 0 - n else n, i + |NumTag(tag, n)|)
  {
    if n > 0 {
      hide ReadGroups, GroupFits;
      AtHead(buf, i, 0x80 + n % 128, NumTag(tag, n / 128));
      SplitGroup(n, 0);
      ReadNumTag(buf, i + 1, tag, n / 128, n % 128, 7);
    } else {
      assert buf[i] == buf[i..i + 1][0];
    }
  }
}
