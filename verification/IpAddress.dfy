/**
 * Network prefixes of the address matcher: sixteen address bytes, the number
 * of leading bits that count, and the order in which the matcher sorts them.
 */
module IpAddress {

  datatype Ip6Address = Ip6Address(dat: seq<bv8>, prefix: nat)

  /** Bit i of a byte, the most significant bit being number 0. */
  predicate Bit(b: bv8, i: nat)
    requires i < 8
  {
    match i
    case 0 => b & 0x80 != 0
    case 1 => b & 0x40 != 0
    case 2 => b & 0x20 != 0
    case 3 => b & 0x10 != 0
    case 4 => b & 0x08 != 0
    case 5 => b & 0x04 != 0
    case 6 => b & 0x02 != 0
    case 7 => b & 0x01 != 0
  }

  predicate BitAt(dat: seq<bv8>, i: nat)
    requires i < 8 * |dat|
  {
    Bit(dat[i / 8], i % 8)
  }

  /** The first n bits of two byte strings are the same. */
  ghost predicate Agree(a: seq<bv8>, b: seq<bv8>, n: nat)
    requires |a| == |b| && n <= 8 * |a|
  {
    forall i :: 0 <= i < n ==> BitAt(a, i) == BitAt(b, i)
  }

  ghost predicate Sized(x: Ip6Address) {
    |x.dat| == 16 && x.prefix <= 128
  }

  /** All bits after the prefix are zero. */
  ghost predicate IsNet(x: Ip6Address) {
    Sized(x) && forall i :: x.prefix <= i < 128 ==> !BitAt(x.dat, i)
  }

  /** The address a belongs to the network x. */
  ghost predicate In(x: Ip6Address, a: seq<bv8>)
    requires Sized(x) && |a| == 16
  {
    Agree(x.dat, a, x.prefix)
  }

  /** x is y or a larger network around it. */
  ghost predicate Contains(x: Ip6Address, y: Ip6Address)
    requires Sized(x) && Sized(y)
  {
    x.prefix <= y.prefix && Agree(x.dat, y.dat, x.prefix)
  }

  // ---------------------------------------------------------------- bytes

  /** The sign of the first difference, as memcmp gives it. */
  function Memcmp(a: seq<bv8>, b: seq<bv8>): (c: int)
    requires |a| == |b|
  {
    if a == [] then 0
    else if a[0] < b[0] then -1
    else if b[0] < a[0] then 1
    else Memcmp(a[1..], b[1..])
  }

  predicate LessThan(a: Ip6Address, b: Ip6Address)
    requires |a.dat| == |b.dat|
  {
    var rc := Memcmp(a.dat, b.dat);
    if rc == 0 then a.prefix < b.prefix else rc < 0
  }

  /** Two different bytes: the first bit that tells them apart. */
  function Split(a: bv8, b: bv8): (k: nat)
    requires a != b
    ensures k < 8
  {
    if Bit(a, 0) != Bit(b, 0) then 0
    else if Bit(a, 1) != Bit(b, 1) then 1
    else if Bit(a, 2) != Bit(b, 2) then 2
    else if Bit(a, 3) != Bit(b, 3) then 3
    else if Bit(a, 4) != Bit(b, 4) then 4
    else if Bit(a, 5) != Bit(b, 5) then 5
    else if Bit(a, 6) != Bit(b, 6) then 6
    else 7
  }

  lemma SplitOrders(a: bv8, b: bv8)
    requires a < b
    ensures !Bit(a, Split(a, b)) && Bit(b, Split(a, b))
    ensures forall i :: 0 <= i < Split(a, b) ==> Bit(a, i) == Bit(b, i)
  {
  }

  /** Unequal byte strings: the first byte that differs decides memcmp. */
  lemma {:induction false} FirstDifference(a: seq<bv8>, b: seq<bv8>) returns (k: nat)
    requires |a| == |b|
    ensures Memcmp(a, b) == 0 <==> a == b
    ensures k <= |a| && a[..k] == b[..k]
    ensures a != b ==> k < |a| && a[k] != b[k] && (Memcmp(a, b) < 0 <==> a[k] < b[k])
  {
    if a == [] || a[0] != b[0] {
      k := 0;
    } else {
      k := FirstDifference(a[1..], b[1..]);
      assert a == [a[0]] + a[1..] && b == [b[0]] + b[1..];
      assert a[..k + 1] == [a[0]] + a[1..][..k];
      assert b[..k + 1] == [b[0]] + b[1..][..k];
      k := k + 1;
    }
  }

  /** The first bit at which a is below b. */
  ghost predicate BelowAt(a: seq<bv8>, b: seq<bv8>, k: nat)
    requires |a| == |b| && k < 8 * |a|
  {
    Agree(a, b, k) && !BitAt(a, k) && BitAt(b, k)
  }

  lemma BytesSplit(a: seq<bv8>, b: seq<bv8>, k: nat)
    requires |a| == |b| && k < |a| && a[..k] == b[..k] && a[k] < b[k]
    ensures Split(a[k], b[k]) < 8 && BelowAt(a, b, 8 * k + Split(a[k], b[k]))
  {
    hide Bit, Split;
    var j := Split(a[k], b[k]);
    SplitOrders(a[k], b[k]);
    forall i | 0 <= i < 8 * k + j
      ensures BitAt(a, i) == BitAt(b, i)
    {
      if i / 8 < k {
        assert a[..k][i / 8] == b[..k][i / 8];
      } else {
        assert i / 8 == k && i % 8 < j;
      }
    }
    assert (8 * k + j) / 8 == k && (8 * k + j) % 8 == j;
  }

  /** memcmp orders byte strings by the first bit in which they differ. */
  lemma MemcmpOrdersBits(a: seq<bv8>, b: seq<bv8>) returns (k: nat)
    requires |a| == |b|
    ensures Memcmp(a, b) == 0 <==> a == b
    ensures Memcmp(a, b) < 0 ==> k < 8 * |a| && BelowAt(a, b, k)
    ensures Memcmp(a, b) > 0 ==> k < 8 * |a| && BelowAt(b, a, k)
  {
    hide Bit, Split, Memcmp, BelowAt;
    var m := FirstDifference(a, b);
    k := 0;
    if a != b {
      if a[m] < b[m] {
        BytesSplit(a, b, m);
        k := 8 * m + Split(a[m], b[m]);
      } else {
        BytesSplit(b, a, m);
        k := 8 * m + Split(b[m], a[m]);
      }
    }
  }

  lemma BelowIsAsymmetric(a: seq<bv8>, b: seq<bv8>, j: nat, k: nat)
    requires |a| == |b| && j < 8 * |a| && k < 8 * |a| && BelowAt(a, b, j)
    ensures !BelowAt(b, a, k)
  {
    hide Bit;
    if k < j {
      assert BitAt(a, k) == BitAt(b, k);
    } else if j < k {
      assert BitAt(a, j) != BitAt(b, j);
    }
  }

  /** ... and that bit decides memcmp. */
  lemma BelowDecides(a: seq<bv8>, b: seq<bv8>, k: nat)
    requires |a| == |b| && k < 8 * |a| && BelowAt(a, b, k)
    ensures Memcmp(a, b) < 0
  {
    hide Bit, Split, Memcmp;
    var j := MemcmpOrdersBits(a, b);
    if Memcmp(a, b) > 0 {
      BelowIsAsymmetric(a, b, k, j);
    }
  }

  lemma BelowComposes(a: seq<bv8>, b: seq<bv8>, c: seq<bv8>, j: nat, k: nat)
    requires |a| == |b| == |c| && j < 8 * |a| && k < 8 * |a|
    requires BelowAt(a, b, j) && BelowAt(b, c, k)
    ensures BelowAt(a, c, if j < k then j else k)
  {
    hide Bit;
    var m := if j < k then j else k;
    forall i | 0 <= i < m
      ensures BitAt(a, i) == BitAt(c, i)
    {
      assert BitAt(a, i) == BitAt(b, i);
    }
    if j < k {
      assert BitAt(b, j) == BitAt(c, j);
    } else if k < j {
      assert BitAt(a, k) == BitAt(b, k);
    }
  }

  // ---------------------------------------------------------------- order

  lemma Total(x: Ip6Address, y: Ip6Address)
    requires Sized(x) && Sized(y)
    ensures LessThan(x, y) || x == y || LessThan(y, x)
    ensures !(LessThan(x, y) && LessThan(y, x))
    ensures !LessThan(x, x)
  {
    hide Memcmp, BelowAt;
    var k := MemcmpOrdersBits(x.dat, y.dat);
    var j := MemcmpOrdersBits(y.dat, x.dat);
    var i := MemcmpOrdersBits(x.dat, x.dat);
    if Memcmp(x.dat, y.dat) < 0 {
      BelowIsAsymmetric(x.dat, y.dat, k, j);
    } else if Memcmp(x.dat, y.dat) > 0 {
      BelowDecides(y.dat, x.dat, k);
    }
  }

  lemma BelowTransitive(a: seq<bv8>, b: seq<bv8>, c: seq<bv8>)
    requires |a| == |b| == |c|
    requires Memcmp(a, b) < 0 && Memcmp(b, c) < 0
    ensures Memcmp(a, c) < 0
  {
    hide Memcmp, BelowAt;
    var j := MemcmpOrdersBits(a, b);
    var k := MemcmpOrdersBits(b, c);
    BelowComposes(a, b, c, j, k);
    BelowDecides(a, c, if j < k then j else k);
  }

  lemma Transitive(x: Ip6Address, y: Ip6Address, z: Ip6Address)
    requires Sized(x) && Sized(y) && Sized(z)
    requires LessThan(x, y) && LessThan(y, z)
    ensures LessThan(x, z)
  {
    hide Bit, Split, Memcmp;
    var _ := MemcmpOrdersBits(x.dat, y.dat);
    var _ := MemcmpOrdersBits(y.dat, z.dat);
    if Memcmp(x.dat, y.dat) < 0 && Memcmp(y.dat, z.dat) < 0 {
      BelowTransitive(x.dat, y.dat, z.dat);
    }
  }

  // ---------------------------------------------------------- containment

  lemma ContainsTransitive(x: Ip6Address, y: Ip6Address, z: Ip6Address)
    requires Sized(x) && Sized(y) && Sized(z)
    requires Contains(x, y) && Contains(y, z)
    ensures Contains(x, z)
  {
    hide BitAt;
    forall i | 0 <= i < x.prefix
      ensures BitAt(x.dat, i) == BitAt(z.dat, i)
    {
      assert BitAt(x.dat, i) == BitAt(y.dat, i);
    }
  }

  /** Two networks around a common one: one lies within the other. */
  lemma Laminar(x: Ip6Address, y: Ip6Address, z: Ip6Address)
    requires Sized(x) && Sized(y) && Sized(z)
    requires Contains(x, z) && Contains(y, z)
    ensures Contains(x, y) || Contains(y, x)
  {
    hide BitAt;
    var n := if x.prefix <= y.prefix then x.prefix else y.prefix;
    forall i | 0 <= i < n
      ensures BitAt(x.dat, i) == BitAt(y.dat, i)
    {
      assert BitAt(x.dat, i) == BitAt(z.dat, i);
    }
  }

  /** A network comes before every other one inside it. */
  lemma ContainerComesFirst(x: Ip6Address, y: Ip6Address)
    requires IsNet(x) && Sized(y) && Contains(x, y) && x != y
    ensures LessThan(x, y)
  {
    hide Bit, Split, Memcmp;
    var k := MemcmpOrdersBits(x.dat, y.dat);
    assert Memcmp(x.dat, y.dat) <= 0;
  }

  /** A byte string sorted between two that share n bits shares them too. */
  lemma BetweenAgrees(a: seq<bv8>, b: seq<bv8>, c: seq<bv8>, n: nat)
    requires |a| == |b| == |c| && n <= 8 * |a| && Agree(a, c, n)
    requires Memcmp(b, a) >= 0 && Memcmp(c, b) >= 0
    ensures Agree(a, b, n)
  {
    hide Bit, Split, Memcmp;
    var j := MemcmpOrdersBits(b, a);
    var k := MemcmpOrdersBits(c, b);
    if a != b {
      if b == c {
        assert BitAt(a, j) != BitAt(c, j);
        assert n <= j;
      } else {
        BelowComposes(a, b, c, j, k);
        var m := if j < k then j else k;
        assert BitAt(a, m) != BitAt(c, m);
        assert n <= j;
      }
    }
  }

  /** What is sorted between a network and one inside it is inside too. */
  lemma BetweenIsInside(x: Ip6Address, z: Ip6Address, y: Ip6Address)
    requires IsNet(x) && IsNet(z) && Sized(y) && Contains(x, y)
    requires !LessThan(z, x) && !LessThan(y, z)
    ensures Contains(x, z)
  {
    hide Bit, Memcmp;
    BetweenAgrees(x.dat, z.dat, y.dat, x.prefix);
    if z.prefix < x.prefix {
      Total(z, x);
      ContainerComesFirst(z, x);
    }
  }

  lemma ContainsAntisymmetric(x: Ip6Address, y: Ip6Address)
    requires IsNet(x) && IsNet(y) && Contains(x, y) && Contains(y, x)
    ensures x == y
  {
    hide Bit, Memcmp;
    if x != y {
      ContainerComesFirst(x, y);
      ContainerComesFirst(y, x);
      Total(x, y);
      assert false;
    }
  }

  // ------------------------------------------------------- code on bytes

  /** b >> (8 - bits), the shift written out for each of its amounts. */
  function TopBits(b: bv8, bits: nat): bv8
    requires 0 < bits < 8
  {
    match bits
    case 1 => b >> 7
    case 2 => b >> 6
    case 3 => b >> 5
    case 4 => b >> 4
    case 5 => b >> 3
    case 6 => b >> 2
    case 7 => b >> 1
  }

  /** The first n bits of two byte strings are equal (xslib/bit.c). */
  predicate BitmapMsbEqual(bmap1: seq<bv8>, bmap2: seq<bv8>, n: nat)
    requires |bmap1| == |bmap2| && n <= 8 * |bmap1|
  {
    var bytes := n / 8;
    var bits := n % 8;
    if bytes != 0 && Memcmp(bmap1[..bytes], bmap2[..bytes]) != 0 then false
    else if bits != 0 then TopBits(bmap1[bytes], bits) == TopBits(bmap2[bytes], bits)
    else true
  }

  predicate ContainOrEqual(a: Ip6Address, b: Ip6Address)
    requires Sized(a) && Sized(b)
  {
    var n := if a.prefix < b.prefix then a.prefix else b.prefix;
    if BitmapMsbEqual(a.dat, b.dat, n) then a.prefix <= b.prefix else false
  }

  predicate Contain(a: Ip6Address, b: Ip6Address)
    requires Sized(a) && Sized(b)
  {
    var n := if a.prefix < b.prefix then a.prefix else b.prefix;
    if BitmapMsbEqual(a.dat, b.dat, n) then a.prefix < b.prefix else false
  }

  lemma OneMoreBit(a: bv8, b: bv8, bits: nat)
    requires 0 < bits < 7
    ensures TopBits(a, bits + 1) == TopBits(b, bits + 1) <==>
            TopBits(a, bits) == TopBits(b, bits) && Bit(a, bits) == Bit(b, bits)
  {
  }

  lemma {:induction false} TopBitsEqual(a: bv8, b: bv8, bits: nat)
    requires 0 < bits < 8
    ensures TopBits(a, bits) == TopBits(b, bits) <==> forall i :: 0 <= i < bits ==> Bit(a, i) == Bit(b, i)
  {
    if bits == 1 {
      assert TopBits(a, 1) == TopBits(b, 1) <==> Bit(a, 0) == Bit(b, 0);
    } else {
      hide Bit, TopBits;
      TopBitsEqual(a, b, bits - 1);
      OneMoreBit(a, b, bits - 1);
    }
  }

  lemma BytesAgree(a: seq<bv8>, b: seq<bv8>, k: nat)
    requires |a| == |b| && k <= |a|
    ensures Memcmp(a[..k], b[..k]) == 0 <==> Agree(a, b, 8 * k)
  {
    hide Bit, Memcmp;
    var j := MemcmpOrdersBits(a[..k], b[..k]);
    if a[..k] == b[..k] {
      forall i | 0 <= i < 8 * k
        ensures BitAt(a, i) == BitAt(b, i)
      {
        assert a[..k][i / 8] == b[..k][i / 8];
      }
    } else {
      assert j < 8 * k && BitAt(a[..k], j) != BitAt(b[..k], j);
      assert a[j / 8] == a[..k][j / 8] && b[j / 8] == b[..k][j / 8];
      assert BitAt(a, j) != BitAt(b, j);
    }
  }

  lemma AgreeOnTail(a: seq<bv8>, b: seq<bv8>, bytes: nat, bits: nat)
    requires |a| == |b| && bytes < |a| && bits < 8
    ensures Agree(a, b, 8 * bytes + bits) <==>
            Agree(a, b, 8 * bytes) && forall i :: 0 <= i < bits ==> Bit(a[bytes], i) == Bit(b[bytes], i)
  {
    hide Bit;
    if Agree(a, b, 8 * bytes + bits) {
      forall i | 0 <= i < bits
        ensures Bit(a[bytes], i) == Bit(b[bytes], i)
      {
        assert BitAt(a, 8 * bytes + i) == BitAt(b, 8 * bytes + i);
      }
    }
  }

  /** Comparing whole bytes and one shifted byte compares exactly the first n bits. */
  lemma MsbEqualAgrees(a: seq<bv8>, b: seq<bv8>, n: nat)
    requires |a| == |b| && n <= 8 * |a|
    ensures BitmapMsbEqual(a, b, n) <==> Agree(a, b, n)
  {
    hide Bit, Memcmp, Agree, BitAt, TopBits;
    var bytes, bits := n / 8, n % 8;
    BytesAgree(a, b, bytes);
    if bytes == 0 {
      BytesAgree(a, b, 0);
      assert Memcmp(a[..0], b[..0]) == 0 by { var _ := FirstDifference(a[..0], b[..0]); }
    }
    if bits != 0 {
      TopBitsEqual(a[bytes], b[bytes], bits);
      AgreeOnTail(a, b, bytes, bits);
    }
  }

  /** What the two comparisons of the code mean. */
  lemma ContainOrEqualIsContains(a: Ip6Address, b: Ip6Address)
    requires Sized(a) && Sized(b)
    ensures ContainOrEqual(a, b) <==> Contains(a, b)
    ensures Contain(a, b) <==> Contains(a, b) && a.prefix != b.prefix
  {
    hide Bit, BitmapMsbEqual, Agree;
    MsbEqualAgrees(a.dat, b.dat, if a.prefix < b.prefix then a.prefix else b.prefix);
  }

  /** A byte with bit i turned over. */
  function Flip(b: bv8, i: nat): bv8
    requires i < 8
  {
    match i
    case 0 => b ^ 0x80
    case 1 => b ^ 0x40
    case 2 => b ^ 0x20
    case 3 => b ^ 0x10
    case 4 => b ^ 0x08
    case 5 => b ^ 0x04
    case 6 => b ^ 0x02
    case 7 => b ^ 0x01
  }

  lemma FlipTurnsOneBit(b: bv8, i: nat, j: nat)
    requires i < 8 && j < 8
    ensures Bit(Flip(b, i), j) == (if i == j then !Bit(b, j) else Bit(b, j))
  {
  }

  /** A network outside another one has an address the other lacks. */
  lemma Outsider(x: Ip6Address, y: Ip6Address) returns (a: seq<bv8>)
    requires IsNet(x) && IsNet(y) && !Contains(x, y)
    ensures |a| == 16 && In(y, a) && !In(x, a)
  {
    hide Bit, Flip;
    a := y.dat;
    if In(x, a) {
      var k := y.prefix;
      a := y.dat[k / 8 := Flip(y.dat[k / 8], k % 8)];
      forall j | 0 <= j < 8 {
        FlipTurnsOneBit(y.dat[k / 8], k % 8, j);
      }
      assert BitAt(y.dat, k) == BitAt(x.dat, k);
      assert BitAt(a, k) != BitAt(x.dat, k);
      forall i | 0 <= i < k
        ensures BitAt(y.dat, i) == BitAt(a, i)
      {
        assert i / 8 == k / 8 ==> i % 8 != k % 8;
      }
    }
  }

  /** Containment is inclusion of the sets of addresses. */
  lemma ContainsIsInclusion(x: Ip6Address, y: Ip6Address)
    requires IsNet(x) && IsNet(y)
    ensures Contains(x, y) <==> forall a | |a| == 16 && In(y, a) :: In(x, a)
  {
    hide BitAt;
    if Contains(x, y) {
      forall a | |a| == 16 && In(y, a)
        ensures In(x, a)
      {
        ContainsTransitive(x, y, Ip6Address(a, 128));
      }
    } else {
      var a := Outsider(x, y);
    }
  }
}
