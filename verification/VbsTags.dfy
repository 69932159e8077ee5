/** What the decoder makes of a tag, by its last byte, in any buffer. */
module VbsTags {
  import opened Bytes
  import opened VbsNumber
  import opened VbsDouble
  import opened Vbs
  import opened VbsFormat

  /** From i on there are k bytes with the high bit set, and one without. */
  predicate HeadAt(buf: seq<byte>, i: nat, k: nat) {
    i + k < |buf| && buf[i + k] < 0x80 && forall j :: i <= j < i + k ==> buf[j] >= 0x80
  }

  /** A head whose last byte is not that of a descriptor. */
  predicate TagAt(buf: seq<byte>, i: nat, k: nat) {
    HeadAt(buf, i, k) && !(0x10 <= buf[i + k] < 0x18)
  }

  /** The number in the head from i to i + k, its last byte counting from `base`. */
  function NumberAt(buf: seq<byte>, i: nat, k: nat, base: byte): nat
    requires HeadAt(buf, i, k) && base <= buf[i + k]
  {
    HeadNumber(buf[i..i + k + 1], base)
  }

  lemma NumberStep(buf: seq<byte>, i: nat, k: nat, base: byte)
    requires HeadAt(buf, i, k) && base <= buf[i + k] && k > 0
    ensures HeadAt(buf, i + 1, k - 1) && NumberAt(buf, i, k, base) == buf[i] - 0x80 + 128 * NumberAt(buf, i + 1, k - 1, base)
  {
    assert buf[i..i + k + 1][1..] == buf[i + 1..i + 1 + (k - 1) + 1];
  }

  /** The last byte counts for its distance from the base, above all the groups. */
  lemma {:induction false} NumberSplits(buf: seq<byte>, i: nat, k: nat, base: byte)
    requires HeadAt(buf, i, k) && base <= buf[i + k]
    ensures NumberAt(buf, i, k, base) == NumberAt(buf, i, k, buf[i + k]) + Shl(buf[i + k] - base, 7 * k)
    ensures NumberAt(buf, i, k, buf[i + k]) < Shl(1, 7 * k)
    decreases k
  {
    hide NumberAt, Shl;
    var x := buf[i + k];
    if k > 0 {
      NumberStep(buf, i, k, base);
      NumberStep(buf, i, k, x);
      NumberSplits(buf, i + 1, k - 1, base);
      ShlTwice(x - base, 7 * (k - 1), 7);
      ShlTwice(1, 7 * (k - 1), 7);
      Shl7(Shl(x - base, 7 * (k - 1)));
      Shl7(Shl(1, 7 * (k - 1)));
    } else {
      NoGroups(buf, i, k, base);
    }
  }

  lemma NoGroups(buf: seq<byte>, i: nat, k: nat, base: byte)
    requires k == 0 && HeadAt(buf, i, k) && base <= buf[i]
    ensures NumberAt(buf, i, k, base) == buf[i] - base == Shl(buf[i] - base, 7 * k)
    ensures NumberAt(buf, i, k, buf[i]) == 0 < Shl(1, 7 * k)
  {
  }

  /** Up to nine groups of seven bits are read. */
  lemma {:induction false} ReadsGroups(buf: seq<byte>, i: nat, k: nat, num: nat, shift: nat)
    requires HeadAt(buf, i, k) && shift + 7 * k <= 63
    ensures ReadGroups(buf, i, num, shift) ==
      Last(buf[i + k], num + Shl(NumberAt(buf, i, k, buf[i + k]), shift), shift + 7 * k, i + k + 1)
    decreases k
  {
    hide NumberAt, Shl;
    var x := buf[i + k];
    if k > 0 {
      NumberStep(buf, i, k, x);
      ReadsGroups(buf, i + 1, k - 1, num + Shl(buf[i] - 0x80, shift), shift + 7);
      var more := NumberAt(buf, i + 1, k - 1, x);
      ShlAdds(buf[i] - 0x80, 128 * more, shift);
      ShlTwice(more, 7, shift);
      Shl7(more);
    } else {
      NoGroups(buf, i, k, x);
      ShlZero(shift);
    }
  }

  lemma OneTo63(k: nat)
    requires k <= 63
    ensures Shl(1, k) <= Shl(1, 63) == 0x8000_0000_0000_0000
    ensures k < 63 ==> 2 * Shl(1, k) == Shl(1, k + 1) <= Shl(1, 63)
  {
    OneShl64(64);
    ShlTwice(1, k, 63 - k);
    if k < 63 { ShlTwice(1, k + 1, 62 - k); }
  }

  /** Where the numbers of strings, of integers and of negative integers begin. */
  predicate NumberBase(base: byte, x: byte) {
    base in {0x20, 0x40, 0x60} && base <= x < base + 32
  }

  lemma ShortNumber(x: byte, base: byte, next: nat)
    requires NumberBase(base, x)
    ensures ShortTag(x, 0, next) == if base < 0x60 then Tag(base, 0, x - base, next) else Tag(0x40, 0, 0 - (x - base), next)
  {
  }

  lemma LongNumber(x: byte, base: byte, num: nat, shift: nat, next: nat)
    requires NumberBase(base, x) && 7 <= shift <= 63
    requires var n := num + Shl(x - base, shift); n < 0x8000_0000_0000_0000 || (base == 0x60 && n == 0x8000_0000_0000_0000)
    ensures var n := num + Shl(x - base, shift);
      LongTag(x, num, shift, 0, next) == if base < 0x60 then Tag(base, 0, n, next) else Tag(0x40, 0, 0 - n, next)
  {
    hide Shl, GroupFits;
    assert x % 32 == x - base;
    TopFits(x - base, shift, num + Shl(x - base, shift));
  }

  /** A last byte from 0x20 on ends a number of 63 bits, or 64 where it is a negative one. */
  lemma NumbersAreRead(buf: seq<byte>, i: nat, k: nat, base: byte)
    requires TagAt(buf, i, k) && k <= 9 && NumberBase(base, buf[i + k])
    requires var n := NumberAt(buf, i, k, base); n < 0x8000_0000_0000_0000 || (base == 0x60 && n == 0x8000_0000_0000_0000)
    ensures var n := NumberAt(buf, i, k, base);
      UnpackTag(buf, i, 0) == if base < 0x60 then Tag(base, 0, n, i + k + 1) else Tag(0x40, 0, 0 - n, i + k + 1)
  {
    hide Shl, ReadGroups, NumberAt, GroupFits, UnpackTag, LongTag, ShortTag;
    var x := buf[i + k];
    if k == 0 {
      OneByte(buf, i, 0);
      NoGroups(buf, i, k, base);
      ShortNumber(x, base, i + 1);
    } else {
      NumberSplits(buf, i, k, base);
      FirstGroup(buf, i, k);
      LongNumber(x, base, NumberAt(buf, i, k, x), 7 * k, i + k + 1);
    }
  }

  lemma TopFits(top: nat, shift: nat, n: nat)
    requires top < 32 && 7 <= shift <= 63 && Shl(top, shift) <= n <= 0x8000_0000_0000_0000
    ensures top != 0 ==> GroupFits(top, shift)
    ensures top == 0 ==> Shl(top, shift) == 0
  {
    ShlZero(shift);
    if top != 0 { GroupOfFits(top, top, shift); }
  }

  lemma OneByte(buf: seq<byte>, i: nat, d: bv32)
    requires TagAt(buf, i, 0)
    ensures UnpackTag(buf, i, d) == ShortTag(buf[i], d, i + 1)
  {
  }

  function TagOf(g: Groups, d: bv32): Tag
    requires g.Last? ==> g.x < 0x80 && !(0x10 <= g.x < 0x18)
  {
    match g
    case Last(x, num, shift, next) => LongTag(x, num, shift, d, next)
    case BadGroup(next) => Invalid(next)
    case NoMore(next) => Incomplete(next)
  }

  lemma SeveralBytes(buf: seq<byte>, i: nat, d: bv32)
    requires i + 1 < |buf| && buf[i] >= 0x80
    requires var g := ReadGroups(buf, i + 1, buf[i] - 0x80, 7); g.Last? ==> !(0x10 <= g.x < 0x18)
    ensures UnpackTag(buf, i, d) == TagOf(ReadGroups(buf, i + 1, buf[i] - 0x80, 7), d)
  {
    hide ReadGroups, ShortTag, LongTag, GroupFits, OrLow, OrSpecial, HasLow, HasSpecial, Shl, ToLong;
  }

  /** The first of several bytes and the others. */
  lemma FirstGroup(buf: seq<byte>, i: nat, k: nat)
    requires TagAt(buf, i, k) && 0 < k <= 9
    ensures var x := buf[i + k]; UnpackTag(buf, i, 0) == LongTag(x, NumberAt(buf, i, k, x), 7 * k, 0, i + k + 1)
  {
    var x := buf[i + k];
    hide Shl, NumberAt, LongTag, ReadGroups, UnpackTag;
    NumberStep(buf, i, k, x);
    ReadsGroups(buf, i + 1, k - 1, buf[i] - 0x80, 7);
    Shl7(NumberAt(buf, i + 1, k - 1, x));
    assert ReadGroups(buf, i + 1, buf[i] - 0x80, 7) == Last(x, NumberAt(buf, i, k, x), 7 * k, i + k + 1);
    SeveralBytes(buf, i, 0);
  }

  /** A last byte below 0x20 stands for itself, but for the two bools and the two doubles: their last bit is a value or a sign. */
  lemma OthersAreRead(buf: seq<byte>, i: nat, k: nat)
    requires TagAt(buf, i, k) && k <= 9 && buf[i + k] < 0x20
    ensures var x := buf[i + k];
      var n := NumberAt(buf, i, k, x);
      UnpackTag(buf, i, 0) ==
        if x < 0x18 || x == 0x1B then Tag(x, 0, n, i + k + 1)
        else if k == 0 && x < 0x1A then Tag(0x18, 0, x - 0x18, i + 1)
        else Tag(x - x % 2, 0, if x % 2 == 1 then 0 - n else n, i + k + 1)
  {
    var x := buf[i + k];
    hide Shl, ReadGroups, NumberAt, UnpackTag;
    if k == 0 {
      OneByte(buf, i, 0);
      NoGroups(buf, i, k, x);
    } else {
      FirstGroup(buf, i, k);
      NumberSplits(buf, i, k, x);
      OneTo63(7 * k);
    }
  }

  lemma {:induction false} ListsAreLists(buf: seq<byte>, i: nat, items: seq<Value>)
    requires i <= |buf|
    ensures var d := DecodeList(buf, i, items); d.Stray? || (d.Val? && d.v.List?)
    decreases |buf| - i
  {
    hide Decode;
    if i < |buf| && Decode(buf, i).Val? { ListsAreLists(buf, Decode(buf, i).next, items + [Decode(buf, i).v]); }
  }

  lemma {:induction false} DictsAreDicts(buf: seq<byte>, i: nat, entries: seq<Entry>)
    requires i <= |buf|
    ensures var d := DecodeDict(buf, i, entries); d.Stray? || (d.Val? && (d.v.Dict? || d.v == Null))
    decreases |buf| - i
  {
    hide Decode;
    if Decode(buf, i).Val? && Decode(buf, i).v != Null {
      var key := Decode(buf, i);
      if Decode(buf, key.next).Val? && i < |buf| {
        DictsAreDicts(buf, Decode(buf, key.next).next, PutEntry(entries, key.v, Decode(buf, key.next).v));
      }
    }
  }

  /** In any buffer: which kind of value is decoded, by the last byte of its tag, and which number or how many bytes. */
  lemma DecodedByTag(buf: seq<byte>, i: nat, k: nat)
    requires TagAt(buf, i, k) && k <= 9
    ensures var x, next, d := buf[i + k], i + k + 1, Decode(buf, i);
      && (x == 0x01 ==> d == TailMark(next))
      && (x == 0x02 ==> d.Stray? || (d.Val? && d.v.List?))
      && (x == 0x03 ==> d.Stray? || (d.Val? && (d.v.Dict? || d.v == Null)))
      && (x == 0x18 ==> d == Val(Bool(NumberAt(buf, i, k, 0x18) != 0), next))
      && (x == 0x19 && k == 0 ==> d == Val(Bool(true), next))
      && (x == 0x1B ==> d == Taken(buf, next, NumberAt(buf, i, k, 0x1B), true))
      && (x == 0x1E || x == 0x1F ==> d.Val? && (d.v.Dbl? || d.v == Null))
      && (0x20 <= x < 0x40 && NumberAt(buf, i, k, 0x20) < 0x8000_0000_0000_0000 ==>
            d == Taken(buf, next, NumberAt(buf, i, k, 0x20), false))
      && (0x40 <= x < 0x60 && NumberAt(buf, i, k, 0x40) < 0x8000_0000_0000_0000 ==>
            d == Val(Int(NumberAt(buf, i, k, 0x40)), next))
      && (0x60 <= x && NumberAt(buf, i, k, 0x60) <= 0x8000_0000_0000_0000 ==>
            d == Val(Int(0 - NumberAt(buf, i, k, 0x60)), next))
      && (x == 0x00 || 0x04 <= x < 0x10 || x in {0x1A, 0x1C, 0x1D} ==> d == Val(Null, next))
  {
    hide UnpackTag, NumberAt, DecodeList, DecodeDict, MakeDouble;
    var x, next := buf[i + k], i + k + 1;
    if x >= 0x20 {
      var base: byte := if x < 0x40 then 0x20 else if x < 0x60 then 0x40 else 0x60;
      var n := NumberAt(buf, i, k, base);
      if n < 0x8000_0000_0000_0000 || (base == 0x60 && n == 0x8000_0000_0000_0000) { NumbersAreRead(buf, i, k, base); }
    } else {
      OthersAreRead(buf, i, k);
      if k == 0 { NoGroups(buf, i, k, x); }
      ListsAreLists(buf, next, []);
      DictsAreDicts(buf, next, []);
    }
  }

  /** The n bytes at i as a string or blob, or null if there are not as many. */
  function Taken(buf: seq<byte>, i: nat, n: nat, blob: bool): Decoded
    requires i <= |buf|
  {
    if i + n > |buf| then Val(Null, i)
    else Val(if blob then Blob(buf[i..i + n]) else Str(buf[i..i + n]), i + n)
  }

  /** Two tags that differ at most in their descriptors. */
  predicate SameButDescriptor(t: Tag, u: Tag) {
    if t.Tag? then u.Tag? && t.(descriptor := u.descriptor) == u else t == u
  }

  lemma ShortApart(x: byte, d: bv32, next: nat)
    requires x < 0x80 && !(0x10 <= x < 0x18)
    ensures SameButDescriptor(ShortTag(x, 0, next), ShortTag(x, d, next))
  {
  }

  lemma TagOfApart(g: Groups, d: bv32)
    requires g.Last? ==> g.x < 0x80 && !(0x10 <= g.x < 0x18)
    ensures SameButDescriptor(TagOf(g, 0), TagOf(g, d))
  {
    hide Shl, GroupFits, ToLong, Negate;
  }

  lemma DescriptorIsApart(buf: seq<byte>, i: nat, k: nat, d: bv32)
    requires TagAt(buf, i, k)
    ensures SameButDescriptor(UnpackTag(buf, i, 0), UnpackTag(buf, i, d))
  {
    hide UnpackTag, ReadGroups, TagOf, ShortTag, SameButDescriptor;
    if k == 0 {
      OneByte(buf, i, 0);
      OneByte(buf, i, d);
      ShortApart(buf[i], d, i + 1);
    } else {
      LastOfGroups(buf, i + 1, k - 1, buf[i] - 0x80, 7);
      SeveralBytes(buf, i, 0);
      SeveralBytes(buf, i, d);
      TagOfApart(ReadGroups(buf, i + 1, buf[i] - 0x80, 7), d);
    }
  }

  lemma {:induction false} LastOfGroups(buf: seq<byte>, i: nat, k: nat, num: nat, shift: nat)
    requires HeadAt(buf, i, k)
    ensures var g := ReadGroups(buf, i, num, shift); g.Last? ==> g.x == buf[i + k]
    decreases k
  {
    hide Shl, GroupFits;
    if k > 0 { LastOfGroups(buf, i + 1, k - 1, num + Shl(buf[i] - 0x80, shift), shift + 7); }
  }

  lemma OneDescriptor(buf: seq<byte>, i: nat) returns (d: bv32)
    requires i < |buf| && 0x10 <= buf[i] < 0x18
    ensures UnpackTag(buf, i, 0) == UnpackTag(buf, i + 1, d)
  {
    hide ReadGroups, ShortTag, LongTag, GroupFits, OrLow, OrSpecial;
    d := if buf[i] == 0x10 then OrSpecial(0) else OrLow(0, buf[i] % 8);
    assert !HasSpecial(0) && !HasLow(0);
  }

  lemma DecodedAlike(buf: seq<byte>, i: nat, j: nat)
    requires i <= |buf| && j <= |buf| && SameButDescriptor(UnpackTag(buf, i, 0), UnpackTag(buf, j, 0))
    ensures Decode(buf, i) == Decode(buf, j)
  {
    hide UnpackTag, DecodeList, DecodeDict, MakeDouble;
  }

  /** A descriptor of one byte in front of a tag changes nothing in what is decoded. */
  lemma DescriptorIsSkipped(buf: seq<byte>, i: nat, k: nat)
    requires i < |buf| && 0x10 <= buf[i] < 0x18 && TagAt(buf, i + 1, k)
    ensures Decode(buf, i) == Decode(buf, i + 1)
  {
    hide UnpackTag, Decode;
    var d := OneDescriptor(buf, i);
    DescriptorIsApart(buf, i + 1, k, d);
    DecodedAlike(buf, i, i + 1);
  }

  // ---- Errors and longer descriptors ----

  /** What 64 bits hold of a number read so far. */
  function Cap(shift: nat): nat {
    Shl(1, if shift < 64 then shift else 64)
  }

  lemma CapGrows(num: nat, x: nat, shift: nat)
    requires num < Cap(shift) && x < 128 && GroupFits(x, shift)
    ensures num + Shl(x, shift) < Cap(shift + 7)
  {
    hide Shl;
    OneShl64(64);
    if shift + 7 <= 64 {
      ShlMonotone(x, 127, shift);
      ShlAdds(127, 1, shift);
      ShlTwice(1, 7, shift);
      Shl7(1);
    } else {
      var most := Shl(1, 64 - shift);
      ShlMonotone(x, most - 1, shift);
      ShlAdds(most - 1, 1, shift);
      ShlTwice(1, 64 - shift, shift);
    }
  }

  /** However many groups there are: if all are taken, the number is in 64 bits. */
  lemma {:induction false} GroupsInBounds(buf: seq<byte>, i: nat, k: nat, num: nat, shift: nat)
    requires HeadAt(buf, i, k) && num < Cap(shift)
    ensures var g := ReadGroups(buf, i, num, shift);
      g.Last? ==> g == Last(buf[i + k], num + Shl(NumberAt(buf, i, k, buf[i + k]), shift), shift + 7 * k, i + k + 1)
                  && g.num < Cap(g.shift) && (k > 0 ==> g.shift < 71)
    decreases k
  {
    hide NumberAt, Shl, Cap, GroupFits;
    var x := buf[i + k];
    if k > 0 {
      NumberStep(buf, i, k, x);
      var first, more := buf[i] - 0x80, NumberAt(buf, i + 1, k - 1, x);
      if GroupFits(first, shift) {
        FitsBelow64(first, shift);
        CapGrows(num, first, shift);
        GroupsInBounds(buf, i + 1, k - 1, num + Shl(first, shift), shift + 7);
        ShlAdds(first, 128 * more, shift);
        ShlTwice(more, 7, shift);
        Shl7(more);
      }
    } else {
      NoGroups(buf, i, k, x);
      ShlZero(shift);
    }
  }

  lemma FitsBelow64(x: nat, shift: nat)
    requires GroupFits(x, shift)
    ensures shift < 64
  {
  }

  lemma CapIsBelow(shift: nat)
    ensures Cap(shift) <= 0x1_0000_0000_0000_0000
  {
    OneShl64(64);
    if shift < 64 { ShlTwice(1, shift, 64 - shift); }
  }

  lemma LongInBounds(x: byte, base: byte, num: nat, shift: nat, next: nat)
    requires NumberBase(base, x) && num < Cap(shift) && LongTag(x, num, shift, 0, next).Tag?
    ensures num + Shl(x - base, shift) < 0x1_0000_0000_0000_0000
  {
    hide Shl, Cap, GroupFits, ToLong;
    CapIsBelow(shift);
    CapIsBelow(shift + 7);
    assert x % 32 == x - base;
    if x > base { CapGrows(num, x - base, shift); } else { ShlZero(shift); }
  }

  /** A number that does not fit into 64 bits, or has more than ten groups, is an error: null is decoded. */
  lemma TooLongIsNull(buf: seq<byte>, i: nat, k: nat, base: byte)
    requires TagAt(buf, i, k) && (NumberBase(base, buf[i + k]) || (buf[i + k] < 0x20 && base == buf[i + k]))
    requires NumberAt(buf, i, k, base) >= 0x1_0000_0000_0000_0000 || k >= 11
    ensures Decode(buf, i).Val? && Decode(buf, i).v == Null
  {
    hide NumberAt, Shl, ReadGroups, UnpackTag, LongTag, Cap, DecodeList, DecodeDict, MakeDouble;
    var x := buf[i + k];
    NumberSplits(buf, i, k, base);
    if k == 0 {
      NoGroups(buf, i, k, base);
    } else {
      var first, more := buf[i] - 0x80, NumberAt(buf, i + 1, k - 1, x);
      NumberStep(buf, i, k, x);
      FirstCap(first);
      GroupsInBounds(buf, i + 1, k - 1, first, 7);
      Shl7(more);
      CapIsBelow(7 * k);
      ShlZero(7 * k);
      var g := ReadGroups(buf, i + 1, first, 7);
      LastOfGroups(buf, i + 1, k - 1, first, 7);
      SeveralBytes(buf, i, 0);
      if g.Last? {
        assert g == Last(x, NumberAt(buf, i, k, x), 7 * k, i + k + 1);
        if x >= 0x20 && LongTag(x, g.num, g.shift, 0, g.next).Tag? { LongInBounds(x, base, g.num, g.shift, g.next); }
      }
      assert !UnpackTag(buf, i, 0).Tag?;
    }
  }

  lemma FirstCap(x: nat)
    requires x < 128
    ensures x < Cap(7)
  {
    Shl7(1);
  }

  /** The number of a descriptor of several bytes. */
  lemma DescriptorNumber(buf: seq<byte>, i: nat, k: nat)
    requires HeadAt(buf, i, k) && 0 < k <= 9 && 0x10 <= buf[i + k] < 0x18
    requires NumberAt(buf, i, k, 0x10) < 0x8000_0000_0000_0000
    ensures var n, next := NumberAt(buf, i, k, 0x10), i + k + 1;
      UnpackTag(buf, i, 0) == if n == 0 || n >= 0x7fff then Invalid(next) else UnpackTag(buf, next, OrLow(0, n))
  {
    hide NumberAt, Shl, ReadGroups, UnpackTag, GroupFits;
    var x, num := buf[i + k], NumberAt(buf, i, k, buf[i + k]);
    NumberStep(buf, i, k, x);
    ReadsGroups(buf, i + 1, k - 1, buf[i] - 0x80, 7);
    Shl7(NumberAt(buf, i + 1, k - 1, x));
    assert ReadGroups(buf, i + 1, buf[i] - 0x80, 7) == Last(x, num, 7 * k, i + k + 1);
    NumberSplits(buf, i, k, 0x10);
    assert x % 8 == x - 0x10;
    TopFits(x - 0x10, 7 * k, NumberAt(buf, i, k, 0x10));
    DescriptorStep(buf, i, x, num, 7 * k, i + k + 1);
  }

  lemma DescriptorStep(buf: seq<byte>, i: nat, x: byte, num: nat, shift: nat, next: nat)
    requires i + 1 < |buf| && buf[i] >= 0x80 && next <= |buf| && 0x10 <= x < 0x18
    requires ReadGroups(buf, i + 1, buf[i] - 0x80, 7) == Last(x, num, shift, next)
    requires x % 8 != 0 ==> GroupFits(x % 8, shift)
    requires x % 8 == 0 ==> Shl(x % 8, shift) == 0
    ensures var n := num + Shl(x % 8, shift);
      n < 0x8000_0000_0000_0000 ==>
        UnpackTag(buf, i, 0) == if n == 0 || n >= 0x7fff then Invalid(next) else UnpackTag(buf, next, OrLow(0, n))
  {
    hide ReadGroups, ShortTag, LongTag, GroupFits, OrLow, OrSpecial, Shl;
    assert !HasLow(0);
  }

  /** A descriptor of several bytes: from 1 to 0x7ffe it changes nothing in what is decoded, otherwise it is an error. */
  lemma LongDescriptorIsSkipped(buf: seq<byte>, i: nat, k: nat, j: nat)
    requires HeadAt(buf, i, k) && 0 < k <= 9 && 0x10 <= buf[i + k] < 0x18
    requires NumberAt(buf, i, k, 0x10) < 0x8000_0000_0000_0000 && TagAt(buf, i + k + 1, j)
    ensures var n := NumberAt(buf, i, k, 0x10);
      Decode(buf, i) == if 1 <= n < 0x7fff then Decode(buf, i + k + 1) else Val(Null, i + k + 1)
  {
    hide UnpackTag, Decode, NumberAt;
    DescriptorNumber(buf, i, k);
    var n := NumberAt(buf, i, k, 0x10);
    if 1 <= n < 0x7fff {
      DescriptorIsApart(buf, i + k + 1, j, OrLow(0, n));
      DecodedAlike(buf, i, i + k + 1);
    } else {
      InvalidIsNull(buf, i);
    }
  }

  lemma InvalidIsNull(buf: seq<byte>, i: nat)
    requires i <= |buf|
    ensures !UnpackTag(buf, i, 0).Tag? ==> Decode(buf, i) == Val(Null, UnpackTag(buf, i, 0).next)
  {
  }

  /** Of each kind of descriptor there may be one: a second one is an error. */
  lemma SecondDescriptorIsNull(buf: seq<byte>, i: nat)
    requires i + 1 < |buf|
    requires (buf[i] == 0x10 && buf[i + 1] == 0x10) || (0x10 < buf[i] < 0x18 && 0x10 < buf[i + 1] < 0x18)
    ensures Decode(buf, i) == Val(Null, i + 2)
  {
    hide ReadGroups, ShortTag, LongTag, GroupFits, Decode;
    InvalidIsNull(buf, i);
    LowIsLow(buf[i]);
    assert UnpackTag(buf, i, 0) == UnpackTag(buf, i + 1, if buf[i] == 0x10 then OrSpecial(0) else OrLow(0, buf[i] % 8));
  }

  lemma LowIsLow(x: byte)
    ensures !HasSpecial(0) && !HasLow(0) && HasSpecial(OrSpecial(0))
    ensures 0x10 < x < 0x18 ==> HasLow(OrLow(0, x % 8))
  {
    hide OrLow, HasLow;
    if 0x10 < x < 0x18 { LowBits(x % 8); }
    NoBits();
  }

  lemma NoBits()
    ensures !HasLow(0)
  {
  }

  lemma LowBits(n: nat)
    requires 0 < n < 8
    ensures HasLow(OrLow(0, n))
  {
    var v := n as bv32;
    SmallNumber(n, v);
    SmallBits(v);
    assert n % 0x1_0000_0000 == n;
  }

  lemma SmallNumber(n: nat, v: bv32)
    requires 0 < n < 8 && v == n as bv32
    ensures v != 0 && v < 8
  {
    assert v as nat == n;
    NumberOf(v);
  }

  lemma NumberOf(v: bv32)
    ensures v as nat == 0 <==> v == 0
    ensures v as nat < 8 <==> v < 8
  {
  }

  lemma SmallBits(v: bv32)
    requires v != 0 && v < 8
    ensures (0 | v) & 0x7fff != 0
  {
  }
}
