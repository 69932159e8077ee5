/** Bytes, byte order, and the integers stored in them. */
module Bytes {

  type byte = x: int | 0 <= x < 256

  /** The order in which a machine stores the bytes of an integer. */
  datatype Endian = Little | Big

  function Pow256(k: nat): (p: nat)
    ensures p >= 1
  {
    if k == 0 then 1 else 256 * Pow256(k - 1)
  }

  /** The k low bytes of n, least significant first. */
  function LowFirst(n: nat, k: nat): (s: seq<byte>)
    ensures |s| == k
  {
    if k == 0 then [] else [n % 256] + LowFirst(n / 256, k - 1)
  }

  function FromLowFirst(s: seq<byte>): (n: nat)
    ensures n < Pow256(|s|)
  {
    if s == [] then 0 else s[0] + 256 * FromLowFirst(s[1..])
  }

  function Reverse(s: seq<byte>): (r: seq<byte>)
    ensures |r| == |s|
    ensures forall i :: 0 <= i < |s| ==> r[i] == s[|s| - 1 - i]
  {
    if s == [] then [] else Reverse(s[1..]) + [s[0]]
  }

  /** How a machine of byte order e stores n in k bytes. */
  function Put(e: Endian, n: nat, k: nat): (s: seq<byte>)
    ensures |s| == k
  {
    if e.Little? then LowFirst(n, k) else Reverse(LowFirst(n, k))
  }

  /** The integer a machine of byte order e reads from s. */
  function Get(e: Endian, s: seq<byte>): (n: nat)
    ensures n < Pow256(|s|)
  {
    FromLowFirst(if e.Little? then s else Reverse(s))
  }

  lemma {:induction false} LowFirstInverse(n: nat, k: nat)
    requires n < Pow256(k)
    ensures FromLowFirst(LowFirst(n, k)) == n
  {
    if k > 0 {
      LowFirstInverse(n / 256, k - 1);
      assert LowFirst(n, k)[1..] == LowFirst(n / 256, k - 1);
    }
  }

  /** Storing and reading back under the same byte order is the identity. */
  lemma PutGet(e: Endian, n: nat, k: nat)
    requires n < Pow256(k)
    ensures Get(e, Put(e, n, k)) == n
  {
    LowFirstInverse(n, k);
    var s := LowFirst(n, k);
    assert Reverse(Reverse(s)) == s;
  }
}
