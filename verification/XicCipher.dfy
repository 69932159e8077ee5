/**
 * The nonces of the message cipher (xic/MyCipher.cpp): two counters of twenty
 * bytes, kept apart by their lowest bit and advanced by two for every message.
 */
module XicCipher {
  import opened Bytes

  const NONCE_SIZE: nat := 20

  /** The number a counter holds, most significant byte first. */
  function Value(s: seq<byte>): (v: nat)
    ensures v < Pow256(|s|)
  {
    if s == [] then 0 else 256 * Value(s[..|s| - 1]) + s[|s| - 1]
  }

  predicate AllOnes(s: seq<byte>) {
    forall i :: 0 <= i < |s| ==> s[i] == 0xFF
  }

  /** One more, carrying from the right; what is carried out of the left is lost. */
  function PlusOne(s: seq<byte>): (r: seq<byte>)
    ensures |r| == |s|
  {
    if s == [] then []
    else if s[|s| - 1] == 0xFF then PlusOne(s[..|s| - 1]) + [0]
    else s[..|s| - 1] + [s[|s| - 1] + 1]
  }

  lemma {:induction false} OnlyAllOnesAreFull(s: seq<byte>)
    ensures AllOnes(s) <==> Value(s) + 1 == Pow256(|s|)
  {
    if s != [] {
      var t := s[..|s| - 1];
      OnlyAllOnesAreFull(t);
      assert s == t + [s[|s| - 1]];
      assert AllOnes(s) <==> AllOnes(t) && s[|s| - 1] == 0xFF;
    }
  }

  /** Unless the counter is full, the carry loop adds one. */
  lemma {:induction false} PlusOneCounts(s: seq<byte>)
    requires !AllOnes(s)
    ensures Value(PlusOne(s)) == Value(s) + 1
  {
    var t, b := s[..|s| - 1], s[|s| - 1];
    assert s == t + [b];
    var r := PlusOne(s);
    if b == 0xFF {
      PlusOneCounts(t);
      assert r[..|r| - 1] == PlusOne(t);
    } else {
      assert r[..|r| - 1] == t;
    }
  }

  lemma {:induction false} ValueDetermines(s: seq<byte>, t: seq<byte>)
    requires |s| == |t| && Value(s) == Value(t)
    ensures s == t
  {
    if s != [] {
      ValueDetermines(s[..|s| - 1], t[..|t| - 1]);
      assert s == s[..|s| - 1] + [s[|s| - 1]];
      assert t == t[..|t| - 1] + [t[|t| - 1]];
    }
  }

  /** Adding one to the first i + 1 bytes, by the last of them. */
  lemma PlusOneAt(s: seq<byte>, i: nat)
    requires i < |s|
    ensures PlusOne(s[..i + 1]) == if s[i] == 0xFF then PlusOne(s[..i]) + [0] else s[..i] + [s[i] + 1]
  {
    assert s[..i + 1][..i] == s[..i];
  }

  function Next(b: byte): byte {
    if b == 0xFF then 0 else b + 1
  }

  /** Adds one in place; a full counter would run off its left end. */
  method Increase(counter: array<byte>)
    requires counter.Length > 0 && !AllOnes(counter[..])
    modifies counter
    ensures counter[..] == PlusOne(old(counter[..]))
  {
    hide PlusOne;
    ghost var s := counter[..];
    var i := counter.Length - 1;
    counter[i] := Next(counter[i]);
    assert s[..i + 1] == s;
    while counter[i] == 0
      invariant 0 <= i < counter.Length
      invariant counter[..i] == s[..i] && counter[i] == Next(s[i])
      invariant PlusOne(s) == PlusOne(s[..i + 1]) + counter[i + 1..]
      invariant forall k :: i < k < |s| ==> s[k] == 0xFF
      decreases i
    {
      PlusOneAt(s, i);
      assert counter[i..] == [0] + counter[i + 1..];
      i := i - 1;
      counter[i] := Next(counter[i]);
    }
    PlusOneAt(s, i);
    assert counter[..] == counter[..i] + [counter[i]] + counter[i + 1..];
  }

  /** Adds one twice (increase2counter). */
  method Increase2Counter(counter: array<byte>)
    requires counter.Length > 0 && Value(counter[..]) + 2 < Pow256(counter.Length)
    modifies counter
    ensures Value(counter[..]) == Value(old(counter[..])) + 2
  {
    OnlyAllOnesAreFull(counter[..]);
    PlusOneCounts(counter[..]);
    Increase(counter);
    OnlyAllOnesAreFull(counter[..]);
    PlusOneCounts(counter[..]);
    Increase(counter);
  }

  /** The two carry loops run off the counter exactly when adding two would wrap it. */
  lemma RunsOffWhenFull(s: seq<byte>)
    requires s != []
    ensures AllOnes(s) || AllOnes(PlusOne(s)) <==> Value(s) + 2 >= Pow256(|s|)
  {
    OnlyAllOnesAreFull(s);
    if !AllOnes(s) {
      PlusOneCounts(s);
      OnlyAllOnesAreFull(PlusOne(s));
    }
  }

  // -------------------------------------------------------------- nonces

  type Digest = s: seq<byte> | |s| == NONCE_SIZE witness seq(NONCE_SIZE, _ => 0)

  /**
   * The nonce of the k-th message, counting from one, of the direction out of
   * the server (odd) or out of the client (even). k == 0 is the start value.
   */
  function NonceOf(digest: Digest, fromServer: bool, k: nat): (n: nat) {
    Value(digest) / 2 * 2 + (if fromServer then 1 else 0) + 2 * k
  }

  lemma NextNonce(digest: Digest, fromServer: bool, k: nat)
    ensures NonceOf(digest, fromServer, k + 1) == NonceOf(digest, fromServer, k) + 2
  {
  }

  /** No two messages have the same nonce, in the same direction or in both. */
  lemma NoncesDiffer(digest: Digest, a: bool, j: nat, b: bool, k: nat)
    requires a != b || j != k
    ensures NonceOf(digest, a, j) != NonceOf(digest, b, k)
  {
    var n := Value(digest) / 2;
    if a != b {
      assert NonceOf(digest, a, j) == 2 * (n + j) + if a then 1 else 0;
      assert NonceOf(digest, b, k) == 2 * (n + k) + if b then 1 else 0;
    }
  }

  /** The nonce as the cipher takes it, in bytes: two of them are the same exactly if they are for the same message
      of the same direction, so a receiver in step uses the sender's bytes and no others. */
  lemma NonceBytesDiffer(digest: Digest, a: bool, j: nat, b: bool, k: nat, x: seq<byte>, y: seq<byte>)
    requires |x| == |y| == NONCE_SIZE
    requires Value(x) == NonceOf(digest, a, j) && Value(y) == NonceOf(digest, b, k)
    ensures x == y <==> a == b && j == k
  {
    hide NonceOf;
    if a == b && j == k {
      ValueDetermines(x, y);
    } else {
      NoncesDiffer(digest, a, j, b, k);
    }
  }

  /** A byte with its lowest bit set or cleared. */
  function WithLowBit(b: byte, on: bool): byte {
    b / 2 * 2 + if on then 1 else 0
  }

  lemma LowBitOfValue(s: seq<byte>, on: bool)
    requires s != []
    ensures Value(s[|s| - 1 := WithLowBit(s[|s| - 1], on)]) == Value(s) / 2 * 2 + if on then 1 else 0
  {
    var r := s[|s| - 1 := WithLowBit(s[|s| - 1], on)];
    assert r[..|r| - 1] == s[..|s| - 1];
    var high := Value(s[..|s| - 1]);
    assert (256 * high + s[|s| - 1]) / 2 == 128 * high + s[|s| - 1] / 2;
  }

  /** The nonces of one side of a connection. */
  class MyCipher {
    const oNonce: array<byte>
    const iNonce: array<byte>
    ghost const digest: Digest
    ghost const isServer: bool
    ghost var sent: nat
    ghost var received: nat

    ghost predicate Valid()
      reads this, oNonce, iNonce
    {
      oNonce != iNonce && oNonce.Length == iNonce.Length == NONCE_SIZE &&
      Value(oNonce[..]) == NonceOf(digest, isServer, sent) &&
      Value(iNonce[..]) == NonceOf(digest, !isServer, received)
    }

    constructor (digest: Digest, isServer: bool)
      ensures Valid() && sent == received == 0 && this.digest == digest && this.isServer == isServer
      ensures fresh(oNonce) && fresh(iNonce) && oNonce.Length == iNonce.Length == 20
      ensures oNonce[..19] == iNonce[..19] == digest[..19]
      ensures oNonce[19] == digest[19] - digest[19] % 2 + if isServer then 1 else 0
      ensures iNonce[19] == digest[19] - digest[19] % 2 + if isServer then 0 else 1
    {
      hide Value, Pow256;
      this.digest, this.isServer := digest, isServer;
      sent, received := 0, 0;
      var o := new byte[NONCE_SIZE](i requires 0 <= i < NONCE_SIZE => digest[i]);
      var n := new byte[NONCE_SIZE](i requires 0 <= i < NONCE_SIZE => digest[i]);
      o[NONCE_SIZE - 1] := WithLowBit(o[NONCE_SIZE - 1], isServer);
      n[NONCE_SIZE - 1] := WithLowBit(n[NONCE_SIZE - 1], !isServer);
      oNonce, iNonce := o, n;
      LowBitOfValue(digest, isServer);
      LowBitOfValue(digest, !isServer);
      assert o[..] == digest[NONCE_SIZE - 1 := WithLowBit(digest[NONCE_SIZE - 1], isServer)];
      assert n[..] == digest[NONCE_SIZE - 1 := WithLowBit(digest[NONCE_SIZE - 1], !isServer)];
    }

    /** The nonce for the next message out. */
    method EncryptStart() returns (nonce: seq<byte>)
      requires Valid() && NonceOf(digest, isServer, sent + 1) < Pow256(NONCE_SIZE)
      modifies this`sent, oNonce
      ensures Valid() && sent == old(sent) + 1 && received == old(received)
      ensures |nonce| == NONCE_SIZE && Value(nonce) == NonceOf(digest, isServer, sent) == old(Value(oNonce[..])) + 2
    {
      hide NonceOf, Value, Pow256;
      NextNonce(digest, isServer, sent);
      Increase2Counter(oNonce);
      sent := sent + 1;
      nonce := oNonce[..];
    }

    /** The nonce for the next message in. */
    method DecryptStart() returns (nonce: seq<byte>)
      requires Valid() && NonceOf(digest, !isServer, received + 1) < Pow256(NONCE_SIZE)
      modifies this`received, iNonce
      ensures Valid() && received == old(received) + 1 && sent == old(sent)
      ensures |nonce| == NONCE_SIZE && Value(nonce) == NonceOf(digest, !isServer, received) == old(Value(iNonce[..])) + 2
    {
      hide NonceOf, Value, Pow256;
      NextNonce(digest, !isServer, received);
      Increase2Counter(iNonce);
      received := received + 1;
      nonce := iNonce[..];
    }
  }
}
