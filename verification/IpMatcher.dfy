/**
 * The address matcher (xic/IpMatcher.cpp): a sorted vector of networks none
 * of which lies inside another, searched by bisection.
 */
module IpMatcher {
  import opened Prelude
  import opened IpAddress

  const ZERO: seq<bv8> := [0, 0, 0, 0, 0, 0, 0, 0, 0, 0, 0, 0, 0, 0, 0, 0]

  /** The first twelve bytes of an IPv4-mapped address (section 2.5.5.2 of RFC 4291). */
  const V4_MAPPED: seq<bv8> := [0, 0, 0, 0, 0, 0, 0, 0, 0, 0, 0xFF, 0xFF]

  type Ip6Bytes = s: seq<bv8> | |s| == 16 witness ZERO

  type Ip4Bytes = s: seq<bv8> | |s| == 4 witness [0, 0, 0, 0]

  type Net = x: Ip6Address | IsNet(x) witness Ip6Address(ZERO, 128)

  // ------------------------------------------------------------ reading

  /** What strtol makes of the text after the slash: the number, and whether it ended the text. */
  datatype Suffix = Suffix(value: int, clean: bool)

  /** A text as the library reads it: the address before the slash, if it is one, and the suffix. */
  datatype Text = Text(address: Option<Ip6Bytes>, slash: Option<Suffix>)

  /** A long stored in a 32-bit int. */
  function ToInt32(v: int): (r: int)
    ensures -0x8000_0000 <= r < 0x8000_0000
    ensures -0x8000_0000 <= v < 0x8000_0000 ==> r == v
  {
    (v + 0x8000_0000) % 0x1_0000_0000 - 0x8000_0000
  }

  predicate IsIpv4(dat: Ip6Bytes) {
    Memcmp(dat[..12], V4_MAPPED) == 0
  }

  /** The prefix length a text asks for, if it may. */
  function PrefixOf(t: Text): (p: Option<nat>)
    requires t.address.Some?
    ensures p.Some? ==> 1 <= p.value <= 128
  {
    if t.slash.None? then
      Some(128)
    else
      var n := ToInt32(t.slash.value.value);
      if !t.slash.value.clean || n <= 0 || n > (if IsIpv4(t.address.value) then 32 else 128) then
        None
      else if IsIpv4(t.address.value) then
        Some(n + 96)
      else
        Some(n)
  }

  /** 0xFF << bits, in a byte. */
  function HighBits(bits: nat): bv8
    requires bits < 8
  {
    match bits
    case 0 => 0xFF
    case 1 => 0xFE
    case 2 => 0xFC
    case 3 => 0xF8
    case 4 => 0xF0
    case 5 => 0xE0
    case 6 => 0xC0
    case 7 => 0x80
  }

  /** Byte i of an address cut down to its first prefix bits. */
  function MaskedByte(b: bv8, i: nat, prefix: nat): bv8 {
    if i < prefix / 8 then b
    else if i == prefix / 8 && prefix % 8 != 0 then b & HighBits(8 - prefix % 8)
    else 0
  }

  function Masked(dat: seq<bv8>, prefix: nat): (m: seq<bv8>)
    ensures |m| == |dat|
  {
    seq(|dat|, i requires 0 <= i < |dat| => MaskedByte(dat[i], i, prefix))
  }

  lemma HighBitsKeep(b: bv8, bits: nat, i: nat)
    requires 0 < bits < 8 && i < 8
    ensures Bit(b & HighBits(bits), i) == (i < 8 - bits && Bit(b, i))
  {
  }

  lemma ZeroHasNoBits(i: nat)
    requires i < 8
    ensures !Bit(0, i)
  {
  }

  /** Masking keeps the bits of the prefix and clears the others. */
  lemma MaskedKeepsThePrefix(dat: Ip6Bytes, prefix: nat)
    requires prefix <= 128
    ensures Agree(Masked(dat, prefix), dat, prefix)
    ensures IsNet(Ip6Address(Masked(dat, prefix), prefix))
  {
    hide Bit, HighBits;
    var m := Masked(dat, prefix);
    forall i | 0 <= i < 128
      ensures BitAt(m, i) == (i < prefix && BitAt(dat, i))
    {
      ZeroHasNoBits(i % 8);
      if prefix % 8 != 0 {
        HighBitsKeep(dat[i / 8], 8 - prefix % 8, i % 8);
      }
    }
  }

  function Parse(t: Text): (r: Option<Net>)
    ensures r.Some? <==> t.address.Some? && PrefixOf(t).Some?
    ensures r.Some? ==> r.value.prefix == PrefixOf(t).value && Agree(r.value.dat, t.address.value, r.value.prefix)
  {
    if t.address.None? then
      None
    else
      match PrefixOf(t)
      case None => None
      case Some(n) =>
        MaskedKeepsThePrefix(t.address.value, n);
        Some(Ip6Address(Masked(t.address.value, n), n))
  }

  /** The first twelve bytes are ten zeros and two of all ones. */
  predicate StartsMapped(a: Ip6Bytes) {
    (forall i :: 0 <= i < 10 ==> a[i] == 0) && a[10] == 0xFF && a[11] == 0xFF
  }

  /** The number after the slash, as 32 bits, is from 1 to most. */
  predicate LengthUpTo(s: Suffix, most: nat) {
    s.clean && 1 <= s.value % 0x1_0000_0000 <= most
  }

  /**
   * The addresses that a text names: without a slash the one it spells; with
   * one, those that share as many of its first bits as it says, counted in the
   * last four bytes if it is an IPv4 address. A length out of range names none.
   */
  ghost predicate NamesAddress(t: Text, x: Ip6Bytes) {
    t.address.Some? &&
    var a := t.address.value;
    match t.slash
    case None => x == a
    case Some(s) =>
      if StartsMapped(a) then
        LengthUpTo(s, 32) && StartsMapped(x) && forall i :: 0 <= i < s.value % 0x1_0000_0000 ==> BitAt(x[12..], i) == BitAt(a[12..], i)
      else
        LengthUpTo(s, 128) && forall i :: 0 <= i < s.value % 0x1_0000_0000 ==> BitAt(x, i) == BitAt(a, i)
  }

  lemma Ipv4StartsMapped(a: Ip6Bytes)
    ensures IsIpv4(a) <==> StartsMapped(a)
  {
    var k := FirstDifference(a[..12], V4_MAPPED);
    assert forall i :: 0 <= i < 12 ==> a[..12][i] == a[i];
    assert StartsMapped(a) ==> a[..12] == V4_MAPPED;
  }

  /** Bytes are the same exactly if their bits are. */
  lemma SameBits(a: seq<bv8>, b: seq<bv8>, k: nat)
    requires |a| == |b| && k <= |a|
    ensures Agree(a, b, 8 * k) <==> a[..k] == b[..k]
  {
    hide Bit;
    if Agree(a, b, 8 * k) {
      forall j | 0 <= j < k
        ensures a[j] == b[j]
      {
        forall i: nat | i < 8
          ensures Bit(a[j], i) == Bit(b[j], i)
        {
          assert BitAt(a, 8 * j + i) == BitAt(b, 8 * j + i) && (8 * j + i) / 8 == j;
        }
        EightBits(a[j], b[j]);
      }
    } else {
      var i :| 0 <= i < 8 * k && BitAt(a, i) != BitAt(b, i);
      assert i / 8 < k && a[i / 8] == a[..k][i / 8] && b[i / 8] == b[..k][i / 8];
    }
  }

  lemma EightBits(a: bv8, b: bv8)
    requires forall i: nat :: i < 8 ==> Bit(a, i) == Bit(b, i)
    ensures a == b
  {
    assert Bit(a, 0) == Bit(b, 0) && Bit(a, 1) == Bit(b, 1) && Bit(a, 2) == Bit(b, 2) && Bit(a, 3) == Bit(b, 3);
    assert Bit(a, 4) == Bit(b, 4) && Bit(a, 5) == Bit(b, 5) && Bit(a, 6) == Bit(b, 6) && Bit(a, 7) == Bit(b, 7);
  }

  /** In mapped addresses, the bits that count start after twelve bytes. */
  lemma MappedBits(a: Ip6Bytes, x: Ip6Bytes, n: nat)
    requires StartsMapped(a) && n <= 32
    ensures Agree(a, x, 96 + n) <==> StartsMapped(x) && forall i :: 0 <= i < n ==> BitAt(x[12..], i) == BitAt(a[12..], i)
  {
    hide Bit;
    SameBits(a, x, 12);
    assert a[..12] == x[..12] <==> StartsMapped(x) by {
      assert forall i :: 0 <= i < 12 ==> a[..12][i] == a[i] && x[..12][i] == x[i];
    }
    forall i | 0 <= i < 32
      ensures BitAt(x[12..], i) == BitAt(x, 96 + i) && BitAt(a[12..], i) == BitAt(a, 96 + i)
    {
      assert (96 + i) / 8 == 12 + i / 8 && (96 + i) % 8 == i % 8;
    }
    if Agree(a, x, 96 + n) {
      forall i | 0 <= i < n
        ensures BitAt(x[12..], i) == BitAt(a[12..], i)
      {
        assert BitAt(a, 96 + i) == BitAt(x, 96 + i);
      }
    }
    if a[..12] == x[..12] && forall i :: 0 <= i < n ==> BitAt(x[12..], i) == BitAt(a[12..], i) {
      forall i | 0 <= i < 96 + n
        ensures BitAt(a, i) == BitAt(x, i)
      {
        if i >= 96 { assert BitAt(x[12..], i - 96) == BitAt(a[12..], i - 96); }
      }
    }
  }

  lemma LengthIs(s: Suffix, most: nat)
    requires most < 0x8000_0000
    ensures LengthUpTo(s, most) <==> s.clean && 1 <= ToInt32(s.value) <= most
    ensures LengthUpTo(s, most) ==> ToInt32(s.value) == s.value % 0x1_0000_0000
  {
  }

  /** A text is read as the network of the addresses it names; it is refused if it names none. */
  lemma ReadAsNamed(t: Text, x: Ip6Bytes)
    ensures Parse(t).Some? && In(Parse(t).value, x) <==> NamesAddress(t, x)
    ensures Parse(t).None? <==> forall y: Ip6Bytes :: !NamesAddress(t, y)
  {
    if t.address.Some? {
      NamesItself(t);
      ReadBits(t, x);
    }
  }

  lemma NamesItself(t: Text)
    requires t.address.Some?
    ensures Parse(t).Some? <==> NamesAddress(t, t.address.value)
    ensures Parse(t).None? ==> forall y: Ip6Bytes :: !NamesAddress(t, y)
  {
    hide Bit, Masked, IsIpv4, ToInt32;
    Ipv4StartsMapped(t.address.value);
    if t.slash.Some? {
      LengthIs(t.slash.value, 32);
      LengthIs(t.slash.value, 128);
    }
  }

  lemma ReadBits(t: Text, x: Ip6Bytes)
    requires t.address.Some?
    ensures Parse(t).Some? ==> (In(Parse(t).value, x) <==> NamesAddress(t, x))
  {
    hide Bit, BitAt, Masked, IsIpv4, ToInt32;
    var a := t.address.value;
    Ipv4StartsMapped(a);
    SameBits(a, x, 16);
    if t.slash.Some? {
      LengthIs(t.slash.value, 32);
      LengthIs(t.slash.value, 128);
      var n := t.slash.value.value % 0x1_0000_0000;
      if n <= 32 && StartsMapped(a) { MappedBits(a, x, n); }
    }
  }

  /** Clears the bits after the prefix, whole bytes first. */
  method Mask(dat: array<bv8>, prefix: nat)
    requires dat.Length == 16 && prefix <= 128
    modifies dat
    ensures dat[..] == Masked(old(dat[..]), prefix)
  {
    var zeroBits := 128 - prefix;
    if zeroBits != 0 {
      var bytes := zeroBits / 8;
      var bits := zeroBits % 8;
      var i := 16 - bytes;
      while i < 16
        invariant 16 - bytes <= i <= 16
        invariant forall k :: 0 <= k < 16 - bytes || i <= k < 16 ==> dat[k] == old(dat[k])
        invariant forall k :: 16 - bytes <= k < i ==> dat[k] == 0
      {
        dat[i] := 0;
        i := i + 1;
      }
      if bits != 0 {
        dat[16 - 1 - bytes] := dat[16 - 1 - bytes] & HighBits(bits);
      }
    }
  }

  /** Reads one text (_aton). */
  method Aton(t: Text) returns (r: Option<Net>)
    ensures r == Parse(t)
    ensures forall x: Ip6Bytes :: r.Some? && In(r.value, x) <==> NamesAddress(t, x)
  {
    forall x: Ip6Bytes
      ensures Parse(t).Some? && In(Parse(t).value, x) <==> NamesAddress(t, x)
    {
      ReadAsNamed(t, x);
    }
    hide NamesAddress, In;
    var prefix: int := -1;
    if t.slash.Some? {
      prefix := ToInt32(t.slash.value.value);
      if prefix <= 0 || prefix > 128 || !t.slash.value.clean {
        return None;
      }
    }
    if t.address.None? {
      return None;
    }
    var address := t.address.value;
    var dat := new bv8[16](i requires 0 <= i < 16 => address[i]);
    assert dat[..] == address;
    if IsIpv4(address) {
      if prefix > 32 {
        return None;
      }
      if prefix > 0 {
        prefix := prefix + 96;
      }
    }
    if prefix < 0 {
      prefix := 128;
    }
    Mask(dat, prefix);
    MaskedKeepsThePrefix(address, prefix);
    r := Some(Ip6Address(dat[..], prefix));
  }

  // ---------------------------------------------------- sets of networks

  ghost function Elems(ips: seq<Net>): set<Net> {
    set x | x in ips
  }

  /** The networks of s that lie inside no other of s. */
  ghost function Maximal(s: set<Net>): set<Net> {
    set x | x in s && forall y :: y in s && y != x ==> !Contains(y, x)
  }

  /** Some network of s covers the address a. */
  ghost predicate Matched(s: set<Net>, a: Ip6Bytes) {
    exists x :: x in s && In(x, a)
  }

  /** Some single network of s covers the whole network v. */
  ghost predicate Covered(s: set<Net>, v: Net) {
    exists x :: x in s && Contains(x, v)
  }

  /** Some other network of s covers v. */
  ghost predicate StrictlyInside(s: set<Net>, v: Net) {
    exists y :: y in s && y != v && Contains(y, v)
  }

  ghost predicate Sorted(ips: seq<Net>) {
    forall i, j :: 0 <= i < j < |ips| ==> LessThan(ips[i], ips[j])
  }

  ghost predicate Apart(ips: seq<Net>) {
    forall i, j :: 0 <= i < |ips| && 0 <= j < |ips| && i != j ==> !Contains(ips[i], ips[j])
  }

  ghost predicate Canonical(ips: seq<Net>) {
    Sorted(ips) && Apart(ips)
  }

  lemma EqualPrefix(x: Net, y: Net)
    requires Contains(x, y) && x.prefix >= y.prefix
    ensures x == y
  {
    hide BitAt;
    assert Contains(y, x);
    ContainsAntisymmetric(x, y);
  }

  /** Every network of a set lies within a maximal one. */
  lemma {:induction false} UnderAMaximal(s: set<Net>, x: Net) returns (m: Net)
    requires x in s
    ensures m in Maximal(s) && Contains(m, x)
    decreases x.prefix
  {
    hide Agree;
    if x in Maximal(s) {
      m := x;
      assert Contains(m, x) by { SelfContained(x); }
    } else {
      var y :| y in s && y != x && Contains(y, x);
      if y.prefix >= x.prefix {
        EqualPrefix(y, x);
      }
      m := UnderAMaximal(s, y);
      ContainsTransitive(m, y, x);
    }
  }

  lemma SelfContained(x: Net)
    ensures Contains(x, x)
  {
  }

  /** Keeping only maximal networks before adding one more changes nothing. */
  lemma MaximalAbsorbs(s: set<Net>, t: set<Net>)
    ensures Maximal(Maximal(s) + t) == Maximal(s + t)
  {
    hide Contains;
    forall x | x in Maximal(Maximal(s) + t)
      ensures x in Maximal(s + t)
    {
      forall y | y in s + t && y != x
        ensures !Contains(y, x)
      {
        if y in s {
          var m := UnderAMaximal(s, y);
          if Contains(y, x) {
            ContainsTransitive(m, y, x);
            if m == x {
              ContainsAntisymmetric(x, y);
            }
          }
        }
      }
    }
  }

  /** Dropping the networks inside others leaves the same addresses matched. */
  lemma MaximalMatchesTheSame(s: set<Net>, a: Ip6Bytes)
    ensures Matched(Maximal(s), a) <==> Matched(s, a)
  {
    hide Agree;
    if Matched(s, a) {
      var x :| x in s && In(x, a);
      var m := UnderAMaximal(s, x);
      ContainsTransitive(m, x, Ip6Address(a, 128));
      assert In(m, a);
    }
  }

  // --------------------------------------------------------- bisection

  /** k splits the vector into what is not above v and what is. */
  ghost predicate UpperBound(ips: seq<Net>, v: Net, k: nat) {
    k <= |ips| && (forall i :: 0 <= i < k ==> !LessThan(v, ips[i])) &&
    (forall i :: k <= i < |ips| ==> LessThan(v, ips[i]))
  }

  /** k splits the vector into what is below v and what is not. */
  ghost predicate LowerBound(ips: seq<Net>, v: Net, k: nat) {
    k <= |ips| && (forall i :: 0 <= i < k ==> LessThan(ips[i], v)) &&
    (forall i :: k <= i < |ips| ==> !LessThan(ips[i], v))
  }

  lemma AboveStays(ips: seq<Net>, v: Net, m: nat)
    requires Sorted(ips) && m < |ips|
    ensures LessThan(v, ips[m]) ==> forall i :: m <= i < |ips| ==> LessThan(v, ips[i])
    ensures !LessThan(v, ips[m]) ==> forall i :: 0 <= i <= m ==> !LessThan(v, ips[i])
    ensures LessThan(ips[m], v) ==> forall i :: 0 <= i <= m ==> LessThan(ips[i], v)
    ensures !LessThan(ips[m], v) ==> forall i :: m <= i < |ips| ==> !LessThan(ips[i], v)
  {
    hide LessThan, BitAt;
    forall i | 0 <= i < |ips|
      ensures i <= m && LessThan(v, ips[i]) ==> LessThan(v, ips[m])
      ensures m <= i && LessThan(v, ips[m]) ==> LessThan(v, ips[i])
      ensures i <= m && LessThan(ips[m], v) ==> LessThan(ips[i], v)
      ensures m <= i && LessThan(ips[i], v) ==> LessThan(ips[m], v)
    {
      Ordered(v, ips[i], ips[m]);
      Ordered(v, ips[m], ips[i]);
    }
  }

  lemma Ordered(v: Net, x: Net, y: Net)
    ensures LessThan(x, y) && LessThan(v, x) ==> LessThan(v, y)
    ensures LessThan(x, y) && LessThan(y, v) ==> LessThan(x, v)
  {
    hide LessThan;
    if LessThan(x, y) && LessThan(v, x) { Transitive(v, x, y); }
    if LessThan(x, y) && LessThan(y, v) { Transitive(x, y, v); }
  }

  method FindUpperBound(ips: seq<Net>, v: Net) returns (k: nat)
    requires Sorted(ips)
    ensures k <= |ips| && UpperBound(ips, v, k)
  {
    hide LessThan, Sorted;
    k := 0;
    var len := |ips|;
    while len > 0
      invariant 0 <= len && k + len <= |ips|
      invariant forall i :: 0 <= i < k ==> !LessThan(v, ips[i])
      invariant forall i :: k + len <= i < |ips| ==> LessThan(v, ips[i])
    {
      var half := len / 2;
      AboveStays(ips, v, k + half);
      if LessThan(v, ips[k + half]) {
        len := half;
      } else {
        k := k + half + 1;
        len := len - half - 1;
      }
    }
  }

  method FindLowerBound(ips: seq<Net>, v: Net) returns (k: nat)
    requires Sorted(ips)
    ensures k <= |ips| && LowerBound(ips, v, k)
  {
    hide LessThan, Sorted;
    k := 0;
    var len := |ips|;
    while len > 0
      invariant 0 <= len && k + len <= |ips|
      invariant forall i :: 0 <= i < k ==> LessThan(ips[i], v)
      invariant forall i :: k + len <= i < |ips| ==> !LessThan(ips[i], v)
    {
      var half := len / 2;
      AboveStays(ips, v, k + half);
      if LessThan(ips[k + half], v) {
        k := k + half + 1;
        len := len - half - 1;
      } else {
        len := half;
      }
    }
  }

  /** If any stored network contains v, the one just before the upper bound does. */
  lemma OnlyThePredecessor(ips: seq<Net>, v: Net, k: nat)
    requires Canonical(ips) && UpperBound(ips, v, k)
    ensures Covered(Elems(ips), v) <==> k > 0 && Contains(ips[k - 1], v)
  {
    hide LessThan, Contains, BitAt;
    forall i | 0 <= i < |ips| && Contains(ips[i], v)
      ensures k > 0 && i == k - 1
    {
      if ips[i] != v { ContainerComesFirst(ips[i], v); }
      Total(ips[i], v);
      if i < k - 1 {
        Total(ips[i], ips[k - 1]);
        BetweenIsInside(ips[i], ips[k - 1], v);
      }
    }
  }

  /** The same for strict containment and the lower bound. */
  lemma OnlyTheStrictPredecessor(ips: seq<Net>, v: Net, k: nat)
    requires Canonical(ips) && LowerBound(ips, v, k)
    ensures StrictlyInside(Elems(ips), v) <==> k > 0 && Contains(ips[k - 1], v)
    ensures k > 0 ==> ips[k - 1] != v
  {
    hide LessThan, Contains, BitAt;
    if k > 0 { Total(ips[k - 1], v); }
    forall i | 0 <= i < |ips| && ips[i] != v && Contains(ips[i], v)
      ensures k > 0 && i == k - 1
    {
      ContainerComesFirst(ips[i], v);
      if i < k - 1 {
        Total(ips[i], ips[k - 1]);
        Total(ips[k - 1], v);
        BetweenIsInside(ips[i], ips[k - 1], v);
      }
    }
  }

  /** The networks inside v that are not before k stand together from k on. */
  ghost predicate InsideRun(ips: seq<Net>, v: Net, k: nat, e: nat) {
    k <= e <= |ips| && (forall i :: k <= i < e ==> Contains(v, ips[i])) &&
    (e < |ips| ==> !Contains(v, ips[e]))
  }

  lemma RunIsAllInside(ips: seq<Net>, v: Net, k: nat, e: nat)
    requires Sorted(ips) && LowerBound(ips, v, k) && InsideRun(ips, v, k, e)
    ensures forall i :: 0 <= i < |ips| ==> (Contains(v, ips[i]) <==> k <= i < e)
  {
    hide LessThan, Contains, BitAt;
    forall i | 0 <= i < |ips| && Contains(v, ips[i])
      ensures k <= i < e
    {
      if ips[i] != v { ContainerComesFirst(v, ips[i]); }
      Total(v, ips[i]);
      if e <= i {
        if e < i { Total(ips[e], ips[i]); }
        BetweenIsInside(v, ips[e], ips[i]);
      }
    }
  }

  lemma BoundsMeet(ips: seq<Net>, v: Net, k: nat)
    requires UpperBound(ips, v, k) && v !in ips
    ensures LowerBound(ips, v, k)
  {
    hide LessThan, BitAt;
    forall i | 0 <= i < |ips| {
      Total(ips[i], v);
    }
  }

  /** Putting v in place of the networks inside it keeps the vector canonical. */
  lemma InsertKeepsCanonical(ips: seq<Net>, v: Net, k: nat, e: nat)
    requires Canonical(ips) && LowerBound(ips, v, k) && UpperBound(ips, v, k) && InsideRun(ips, v, k, e)
    requires !Covered(Elems(ips), v)
    ensures Canonical(ips[..k] + [v] + ips[e..])
  {
    hide LessThan, Contains, BitAt;
    RunIsAllInside(ips, v, k, e);
  }

  lemma InsertGivesMaximal(ips: seq<Net>, v: Net, k: nat, e: nat)
    requires Apart(ips) && k <= e <= |ips|
    requires forall i :: 0 <= i < |ips| ==> (Contains(v, ips[i]) <==> k <= i < e)
    requires !Covered(Elems(ips), v)
    ensures Elems(ips[..k] + [v] + ips[e..]) == Maximal(Elems(ips) + {v})
  {
    hide Contains, BitAt;
    var r := ips[..k] + [v] + ips[e..];
    assert v == r[k];
    forall i | 0 <= i < |ips| && !Contains(v, ips[i])
      ensures ips[i] in r
    {
      assert ips[i] == if i < k then r[i] else r[i - e + k + 1];
    }
  }

  lemma InsertWorks(ips: seq<Net>, v: Net, k: nat, e: nat)
    requires Canonical(ips) && UpperBound(ips, v, k) && InsideRun(ips, v, k, e)
    requires !Covered(Elems(ips), v)
    ensures Canonical(ips[..k] + [v] + ips[e..])
    ensures Elems(ips[..k] + [v] + ips[e..]) == Maximal(Elems(ips) + {v})
  {
    hide LessThan, Contains, BitAt, Sorted, Apart, LowerBound, UpperBound, Maximal;
    SelfContained(v);
    BoundsMeet(ips, v, k);
    RunIsAllInside(ips, v, k, e);
    InsertKeepsCanonical(ips, v, k, e);
    InsertGivesMaximal(ips, v, k, e);
  }

  /** A canonical vector holds exactly its own maximal networks. */
  lemma CanonicalIsMaximal(ips: seq<Net>)
    requires Apart(ips)
    ensures Maximal(Elems(ips)) == Elems(ips)
  {
    hide Contains;
  }

  lemma SomeElement(a: seq<Net>)
    ensures a == [] <==> Elems(a) == {}
  {
    if a != [] {
      assert a[0] in Elems(a);
    }
  }

  /** The networks fix the vector: two canonical vectors with the same elements are the same. */
  lemma {:induction false} CanonicalIsUnique(a: seq<Net>, b: seq<Net>)
    requires Sorted(a) && Sorted(b) && Elems(a) == Elems(b)
    ensures a == b
  {
    hide LessThan, BitAt;
    SomeElement(a);
    SomeElement(b);
    if a != [] {
      assert a[0] in Elems(b) && b[0] in Elems(a);
      Total(a[0], b[0]);
      Irreflexive(a);
      Irreflexive(b);
      assert a[0] == b[0];
      assert Elems(a[1..]) == Elems(a) - {a[0]};
      assert Elems(b[1..]) == Elems(b) - {b[0]};
      CanonicalIsUnique(a[1..], b[1..]);
      assert a == [a[0]] + a[1..] && b == [b[0]] + b[1..];
    }
  }

  lemma Irreflexive(a: seq<Net>)
    requires Sorted(a)
    ensures forall i, j :: 0 <= i < j < |a| ==> a[i] != a[j]
  {
    hide LessThan, BitAt;
    forall i | 0 <= i < |a| {
      Total(a[i], a[i]);
    }
  }

  // ------------------------------------------------------------- changes

  datatype Change = Reset(texts: seq<Text>) | Add(text: Text) | Remove(text: Text)

  /** The networks that some of the texts name. */
  ghost function Named(texts: seq<Text>): set<Net> {
    set t | t in texts && Parse(t).Some? :: Parse(t).value
  }

  /** The networks of s that do not lie inside x. */
  ghost function Outside(s: set<Net>, x: Net): set<Net> {
    set y | y in s && !Contains(x, y)
  }

  /** The networks a matcher holds after one change. */
  ghost function After(s: set<Net>, c: Change): set<Net> {
    match c
    case Reset(texts) => Maximal(Named(texts))
    case Add(t) => (match Parse(t) case None => s case Some(x) => Maximal(s + {x}))
    case Remove(t) =>
      match Parse(t)
      case None => s
      case Some(x) => if StrictlyInside(s, x) then s else Outside(s, x)
  }

  lemma NothingNamed()
    ensures Elems([]) == Maximal(Named([]))
  {
  }

  lemma NamedGrows(texts: seq<Text>, i: nat)
    requires i < |texts|
    ensures Parse(texts[i]).None? ==> Named(texts[..i + 1]) == Named(texts[..i])
    ensures Parse(texts[i]).Some? ==> Named(texts[..i + 1]) == Named(texts[..i]) + {Parse(texts[i]).value}
  {
    hide Parse;
    assert texts[..i + 1] == texts[..i] + [texts[i]];
    assert forall t :: t in texts[..i + 1] <==> t in texts[..i] || t == texts[i];
  }

  lemma CoveredAddsNothing(ips: seq<Net>, v: Net)
    requires Canonical(ips)
    requires Covered(Elems(ips), v)
    ensures Maximal(Elems(ips) + {v}) == Elems(ips)
  {
    hide Contains, BitAt;
    var x :| x in Elems(ips) && Contains(x, v);
    forall y | y in ips && Contains(v, y)
      ensures y == v
    {
      ContainsTransitive(x, v, y);
      assert x == y;
      ContainsAntisymmetric(x, v);
    }
  }

  lemma StrictIsContain(x: Net, y: Net)
    requires x != y
    ensures Contain(x, y) <==> Contains(x, y)
  {
    hide Contains, Contain;
    ContainOrEqualIsContains(x, y);
    if Contains(x, y) && x.prefix == y.prefix {
      EqualPrefix(x, y);
    }
  }

  lemma CutKeeps(ips: seq<Net>, v: Net, k: nat, e: nat)
    requires Canonical(ips) && k <= e <= |ips|
    requires forall i :: 0 <= i < |ips| ==> (Contains(v, ips[i]) <==> k <= i < e)
    ensures Canonical(ips[..k] + ips[e..])
    ensures Elems(ips[..k] + ips[e..]) == Outside(Elems(ips), v)
  {
    hide LessThan, Contains, BitAt;
    var r := ips[..k] + ips[e..];
    forall i | 0 <= i < |ips| && !Contains(v, ips[i])
      ensures ips[i] in r
    {
      assert ips[i] == if i < k then r[i] else r[i - e + k];
    }
  }

  /** For a single address, lying in one stored network is lying in the union of them. */
  lemma CoveringOneAddress(s: set<Net>, v: Net)
    requires v.prefix == 128
    ensures Covered(s, v) <==> Matched(s, v.dat)
  {
    hide BitAt;
    forall x | x in s
      ensures Contains(x, v) <==> In(x, v.dat)
    {
    }
  }

  // ------------------------------------------------------------- results

  /** Whatever the changes, no stored network lies inside another. */
  lemma ChangesKeepMaximal(s: set<Net>, c: Change)
    requires Maximal(s) == s
    ensures Maximal(After(s, c)) == After(s, c)
  {
    hide Contains, Parse, Named;
  }

  /** A removal takes away exactly the addresses of its network. */
  lemma RemovalSubtracts(s: set<Net>, x: Net, a: Ip6Bytes)
    requires !StrictlyInside(s, x)
    ensures Matched(Outside(s, x), a) <==> Matched(s, a) && !In(x, a)
  {
    hide Agree;
    var single := Ip6Address(a, 128);
    if Matched(Outside(s, x), a) {
      var y :| y in Outside(s, x) && In(y, a);
      if In(x, a) {
        Laminar(x, y, single);
      }
    }
    if Matched(s, a) && !In(x, a) {
      var y :| y in s && In(y, a);
      if Contains(x, y) {
        ContainsTransitive(x, y, single);
      }
      assert y in Outside(s, x);
    }
  }

  /** What each change does to the set of matched addresses. */
  lemma AddressesAfter(s: set<Net>, c: Change, a: Ip6Bytes)
    ensures c.Reset? ==> (Matched(After(s, c), a) <==> Matched(Named(c.texts), a))
    ensures c.Add? ==> (Matched(After(s, c), a) <==>
                        Matched(s, a) || (Parse(c.text).Some? && In(Parse(c.text).value, a)))
    ensures c.Remove? ==> (Matched(After(s, c), a) <==>
                           Matched(s, a) && !(Parse(c.text).Some? && !StrictlyInside(s, Parse(c.text).value) &&
                                              In(Parse(c.text).value, a)))
  {
    hide Contains, Parse, Named, Maximal, In, Outside;
    match c {
      case Reset(texts) =>
        MaximalMatchesTheSame(Named(texts), a);
      case Add(t) =>
        if Parse(t).Some? {
          MaximalMatchesTheSame(s + {Parse(t).value}, a);
        }
      case Remove(t) =>
        if Parse(t).Some? && !StrictlyInside(s, Parse(t).value) {
          RemovalSubtracts(s, Parse(t).value, a);
        }
    }
  }

  /** Which addresses match, told from the texts alone: after a reset, and how an addition changes it. */
  lemma MatchedByTexts(s: set<Net>, texts: seq<Text>, t: Text, a: Ip6Bytes)
    ensures Matched(After(s, Reset(texts)), a) <==> exists i :: 0 <= i < |texts| && NamesAddress(texts[i], a)
    ensures Matched(After(s, Add(t)), a) <==> Matched(s, a) || NamesAddress(t, a)
  {
    hide Parse, In, NamesAddress, Maximal, After;
    AddressesAfter(s, Reset(texts), a);
    AddressesAfter(s, Add(t), a);
    ReadAsNamed(t, a);
    forall i | 0 <= i < |texts|
      ensures NamesAddress(texts[i], a) <==> Parse(texts[i]).Some? && In(Parse(texts[i]).value, a)
    {
      ReadAsNamed(texts[i], a);
    }
    if Matched(Named(texts), a) {
      var x :| x in Named(texts) && In(x, a);
      var u :| u in texts && Parse(u).Some? && Parse(u).value == x;
      var i :| 0 <= i < |texts| && texts[i] == u;
      assert NamesAddress(texts[i], a);
    }
    if i :| 0 <= i < |texts| && NamesAddress(texts[i], a) {
      assert Parse(texts[i]).value in Named(texts);
    }
  }

  /** Four bytes, as a text for IPv4 spells them and a peer has them. */
  lemma FourBytes(q: Ip4Bytes, slash: Option<Suffix>, y: Ip4Bytes)
    ensures var text := Text(Some([0, 0, 0, 0, 0, 0, 0, 0, 0, 0, 0xFF, 0xFF] + q), slash);
      NamesAddress(text, [0, 0, 0, 0, 0, 0, 0, 0, 0, 0, 0xFF, 0xFF] + y) <==>
        match slash
        case None => y == q
        case Some(s) => LengthUpTo(s, 32) && Agree(y, q, s.value % 0x1_0000_0000)
  {
    hide Bit, BitAt;
    var head: seq<bv8> := [0, 0, 0, 0, 0, 0, 0, 0, 0, 0, 0xFF, 0xFF];
    assert (head + q)[12..] == q && (head + y)[12..] == y;
    assert StartsMapped(head + q) && StartsMapped(head + y);
  }

  ghost function AfterAll(s: set<Net>, changes: seq<Change>): set<Net>
    decreases |changes|
  {
    if changes == [] then s else AfterAll(After(s, changes[0]), changes[1..])
  }

  function Adds(texts: seq<Text>): (cs: seq<Change>)
    ensures |cs| == |texts|
  {
    seq(|texts|, i requires 0 <= i < |texts| => Add(texts[i]))
  }

  /** Any row of additions leaves the maximal ones of all networks ever added. */
  lemma {:induction false} AddsGiveMaximal(s: set<Net>, texts: seq<Text>)
    ensures AfterAll(Maximal(s), Adds(texts)) == Maximal(s + Named(texts))
    decreases |texts|
  {
    hide Maximal, Parse;
    if texts == [] {
      assert s + Named(texts) == s;
    } else {
      var r := Parse(texts[0]);
      var here := if r.None? then {} else {r.value};
      MaximalAbsorbs(s, here);
      assert s + here == if r.None? then s else s + {r.value};
      assert Adds(texts)[1..] == Adds(texts[1..]);
      AddsGiveMaximal(s + here, texts[1..]);
      NamedSplits(texts);
      assert s + here + Named(texts[1..]) == s + Named(texts);
    }
  }

  lemma NamedSplits(texts: seq<Text>)
    requires texts != []
    ensures Named(texts) ==
            (if Parse(texts[0]).None? then {} else {Parse(texts[0]).value}) + Named(texts[1..])
  {
    hide Parse;
    assert forall t :: t in texts <==> t == texts[0] || t in texts[1..];
  }

  /** The vector does not depend on the order or the repetition of the additions. */
  lemma AddOrderDoesNotMatter(s: set<Net>, first: seq<Text>, second: seq<Text>, a: seq<Net>, b: seq<Net>)
    requires Named(first) == Named(second)
    requires Sorted(a) && Elems(a) == AfterAll(Maximal(s), Adds(first))
    requires Sorted(b) && Elems(b) == AfterAll(Maximal(s), Adds(second))
    ensures a == b
  {
    hide Sorted, Maximal, Named, AfterAll, Elems;
    AddsGiveMaximal(s, first);
    AddsGiveMaximal(s, second);
    CanonicalIsUnique(a, b);
  }

  /**
   * Looking up a whole network differs from asking about all its addresses
   * exactly when stored networks strictly inside it make up the union.
   */
  lemma LookupAgainstUnion(s: set<Net>, v: Net)
    requires Maximal(s) == s
    ensures Covered(s, v) <==>
            (forall a: Ip6Bytes | In(v, a) :: Matched(s, a)) &&
            (forall y | y in s && Contains(v, y) :: y == v)
  {
    hide Agree;
    if Covered(s, v) {
      var x :| x in s && Contains(x, v);
      forall a: Ip6Bytes | In(v, a)
        ensures Matched(s, a)
      {
        ContainsTransitive(x, v, Ip6Address(a, 128));
        assert In(x, a);
      }
      forall y | y in s && Contains(v, y)
        ensures y == v
      {
        ContainsTransitive(x, v, y);
        assert y in Maximal(s);
        ContainsAntisymmetric(y, v);
      }
    } else if forall a: Ip6Bytes | In(v, a) :: Matched(s, a) {
      assert In(v, v.dat) by { SelfContained(v); }
      var x :| x in s && In(x, v.dat);
      Laminar(x, v, Ip6Address(v.dat, 128));
      assert x in s && Contains(v, x) && x != v;
    }
  }

  datatype SockAddr = Inet6(addr6: Ip6Bytes) | Inet4(addr4: Ip4Bytes) | OtherFamily

  class IpMatcher {
    var ips: seq<Net>

    ghost predicate Valid()
      reads this
    {
      Canonical(ips)
    }

    constructor (texts: seq<Text>)
      ensures Valid()
      ensures Elems(ips) == Maximal(Named(texts))
    {
      ips := [];
      new;
      DoReset(texts);
    }

    /** Adds one network unless a stored one covers it (_add). */
    method Insert(v: Net) returns (ok: bool)
      requires Valid()
      modifies this
      ensures Valid()
      ensures ok <==> !Covered(Elems(old(ips)), v)
      ensures Elems(ips) == Maximal(Elems(old(ips)) + {v})
      ensures !ok ==> ips == old(ips)
    {
      hide LessThan, Contains, BitAt, Maximal, ContainOrEqual, Sorted, Apart, UpperBound, Covered, Elems;
      var k := FindUpperBound(ips, v);
      OnlyThePredecessor(ips, v, k);
      if k > 0 {
        ContainOrEqualIsContains(ips[k - 1], v);
        if ContainOrEqual(ips[k - 1], v) {
          CoveredAddsNothing(ips, v);
          return false;
        }
      }
      var before := ips;
      ips := before[..k] + [v] + before[k..];
      var e := k + 1;
      while e < |ips|
        invariant k < e <= |before| + 1
        invariant ips == before[..k] + [v] + before[k..]
        invariant forall i :: k <= i < e - 1 ==> Contains(v, before[i])
      {
        ContainOrEqualIsContains(v, ips[e]);
        if !ContainOrEqual(v, ips[e]) {
          break;
        }
        e := e + 1;
      }
      ips := ips[..k + 1] + ips[e..];
      assert ips == before[..k] + [v] + before[e - 1..];
      InsertWorks(before, v, k, e - 1);
      ok := true;
    }

    method DoReset(texts: seq<Text>)
      modifies this
      ensures Valid()
      ensures Elems(ips) == After({}, Reset(texts))
    {
      hide Contains, Maximal, LessThan, Parse;
      ips := [];
      var i := 0;
      NothingNamed();
      assert texts[..0] == [];
      while i < |texts|
        invariant 0 <= i <= |texts|
        invariant Valid()
        invariant Elems(ips) == Maximal(Named(texts[..i]))
      {
        var r := Aton(texts[i]);
        NamedGrows(texts, i);
        if r.Some? {
          MaximalAbsorbs(Named(texts[..i]), {r.value});
          var _ := Insert(r.value);
        }
        i := i + 1;
      }
      assert texts[..i] == texts;
    }

    method DoAdd(t: Text) returns (ok: bool)
      requires Valid()
      modifies this
      ensures Valid()
      ensures ok <==> Parse(t).Some? && !Covered(Elems(old(ips)), Parse(t).value)
      ensures Elems(ips) == After(Elems(old(ips)), Add(t))
      ensures !ok ==> ips == old(ips)
    {
      hide Contains, Maximal, LessThan, Parse;
      var r := Aton(t);
      if r.None? {
        return false;
      }
      ok := Insert(r.value);
    }

    method DoRemove(t: Text) returns (ok: bool)
      requires Valid()
      modifies this
      ensures Valid()
      ensures ok <==> Parse(t).Some? && old(ips) != [] && !StrictlyInside(Elems(old(ips)), Parse(t).value)
      ensures Elems(ips) == After(Elems(old(ips)), Remove(t))
      ensures !ok ==> ips == old(ips)
    {
      hide Contains, LessThan, Parse, BitAt, ContainOrEqual, Contain, Sorted, Apart, LowerBound;
      var r := Aton(t);
      if r.None? {
        return false;
      }
      var v := r.value;
      if ips == [] {
        assert Outside(Elems(ips), v) == Elems(ips);
        return false;
      }
      var k := FindLowerBound(ips, v);
      OnlyTheStrictPredecessor(ips, v, k);
      if k > 0 {
        StrictIsContain(ips[k - 1], v);
        if Contain(ips[k - 1], v) {
          return false;
        }
      }
      var e := k;
      while e < |ips|
        invariant k <= e <= |ips| && ips == old(ips)
        invariant forall i :: k <= i < e ==> Contains(v, ips[i])
      {
        ContainOrEqualIsContains(v, ips[e]);
        if !ContainOrEqual(v, ips[e]) {
          break;
        }
        e := e + 1;
      }
      RunIsAllInside(ips, v, k, e);
      CutKeeps(ips, v, k, e);
      ips := ips[..k] + ips[e..];
      ok := true;
    }

    /** A network is found exactly when one stored network covers it (_match). */
    method Match(v: Net) returns (r: bool)
      requires Valid()
      ensures r <==> Covered(Elems(ips), v)
    {
      hide LessThan, Contains, BitAt, ContainOrEqual;
      if ips == [] {
        return false;
      }
      var k := FindUpperBound(ips, v);
      OnlyThePredecessor(ips, v, k);
      if k > 0 {
        ContainOrEqualIsContains(ips[k - 1], v);
        if ContainOrEqual(ips[k - 1], v) {
          return true;
        }
      }
      r := false;
    }

    method MatchText(t: Text) returns (r: bool)
      requires Valid()
      ensures r <==> Parse(t).Some? && Covered(Elems(ips), Parse(t).value)
    {
      hide Contains, Parse;
      var v := Aton(t);
      if v.None? {
        return false;
      }
      r := Match(v.value);
    }

    /** An address of a socket: an empty matcher lets every IP address pass. */
    method EmptyOrMatch(a: SockAddr) returns (r: bool)
      requires Valid()
      ensures a.OtherFamily? ==> !r
      ensures a.Inet6? ==> (r <==> ips == [] || Matched(Elems(ips), a.addr6))
      ensures a.Inet4? ==>
        (r <==> ips == [] || Matched(Elems(ips), [0, 0, 0, 0, 0, 0, 0, 0, 0, 0, 0xFF, 0xFF] + a.addr4))
    {
      hide BitAt;
      var dat: seq<bv8>;
      match a {
        case OtherFamily => return false;
        case Inet6(address) => dat := address;
        case Inet4(address) => dat := V4_MAPPED + address;
      }
      var v := Ip6Address(dat, 128);
      CoveringOneAddress(Elems(ips), v);
      if ips == [] {
        return true;
      }
      r := Match(v);
    }
  }
}
