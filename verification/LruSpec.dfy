/**
 * What a bounded least-recently-used map holds: its entries from the most
 * stale to the most fresh, no key twice, never more than its capacity.
 */
module LruSpec {

  datatype Entry<K, V> = Entry(key: K, data: V)

  ghost predicate KeysDiffer<K, V>(s: seq<Entry<K, V>>) {
    forall i, j :: 0 <= i < j < |s| ==> s[i].key != s[j].key
  }

  /** Where the key stands, or the length if it does not. */
  function Position<K(==), V>(s: seq<Entry<K, V>>, k: K): (p: nat)
    ensures p <= |s|
    ensures p < |s| ==> s[p].key == k
    ensures forall i :: 0 <= i < p ==> s[i].key != k
  {
    if s == [] || s[0].key == k then 0 else 1 + Position(s[1..], k)
  }

  predicate Has<K(==), V>(s: seq<Entry<K, V>>, k: K) {
    Position(s, k) < |s|
  }

  function Without<K(==), V>(s: seq<Entry<K, V>>, k: K): seq<Entry<K, V>> {
    var p := Position(s, k);
    if p < |s| then s[..p] + s[p + 1..] else s
  }

  function Used<K(==), V>(s: seq<Entry<K, V>>, k: K): seq<Entry<K, V>> {
    var p := Position(s, k);
    if p < |s| then s[..p] + s[p + 1..] + [s[p]] else s
  }

  function Staled<K(==), V>(s: seq<Entry<K, V>>, k: K): seq<Entry<K, V>> {
    var p := Position(s, k);
    if p < |s| then [s[p]] + (s[..p] + s[p + 1..]) else s
  }

  /** A new entry goes to the fresh end; a full map first drops its stalest entry. */
  function Pushed<K(==), V>(s: seq<Entry<K, V>>, k: K, v: V, capacity: nat): seq<Entry<K, V>>
    requires capacity > 0
  {
    (if |s| >= capacity then s[1..] else s) + [Entry(k, v)]
  }

  function Inserted<K(==), V>(s: seq<Entry<K, V>>, k: K, v: V, capacity: nat): seq<Entry<K, V>>
    requires capacity > 0
  {
    if Has(s, k) then s else Pushed(s, k, v, capacity)
  }

  function Replaced<K(==), V>(s: seq<Entry<K, V>>, k: K, v: V, capacity: nat): seq<Entry<K, V>>
    requires capacity > 0
  {
    if Has(s, k) then Without(s, k) + [Entry(k, v)] else Pushed(s, k, v, capacity)
  }

  function Drained<K, V>(s: seq<Entry<K, V>>, n: nat): seq<Entry<K, V>> {
    if n < |s| then s[n..] else []
  }

  // ------------------------------------------------------------- history

  /**
   * The writes of a history that no later write to the same key has
   * superseded, in the order in which they were made.
   */
  function Latest<K(==), V>(h: seq<Entry<K, V>>): (r: seq<Entry<K, V>>) {
    if h == [] then []
    else if Has(h[1..], h[0].key) then Latest(h[1..])
    else [h[0]] + Latest(h[1..])
  }

  function LastOf<T>(s: seq<T>, n: nat): seq<T> {
    if n < |s| then s[|s| - n..] else s
  }

  /** The contents after writing a whole history into an empty map. */
  function Written<K(==), V>(h: seq<Entry<K, V>>, capacity: nat): seq<Entry<K, V>>
    requires capacity > 0
  {
    if h == [] then []
    else
      var e := h[|h| - 1];
      Replaced(Written(h[..|h| - 1], capacity), e.key, e.data, capacity)
  }

  lemma {:induction false} HasIsThere<K, V>(s: seq<Entry<K, V>>, k: K)
    ensures Has(s, k) <==> exists e :: e in s && e.key == k
  {
    if e :| e in s && e.key == k {
      var i :| 0 <= i < |s| && s[i] == e;
      assert s[i].key == k;
    }
    if Has(s, k) {
      assert s[Position(s, k)] in s;
    }
  }

  lemma {:induction false} LatestKeepsKeys<K, V>(h: seq<Entry<K, V>>, k: K)
    ensures Has(Latest(h), k) <==> Has(h, k)
  {
    if h != [] {
      LatestKeepsKeys(h[1..], k);
      LatestKeepsKeys(h[1..], h[0].key);
      var l := Latest(h[1..]);
      if !Has(h[1..], h[0].key) && h[0].key != k {
        assert ([h[0]] + l)[1..] == l;
      }
    }
  }

  lemma PositionAfterFirst<K, V>(x: Entry<K, V>, l: seq<Entry<K, V>>, k: K)
    ensures Position([x] + l, k) == if x.key == k then 0 else 1 + Position(l, k)
  {
    assert ([x] + l)[1..] == l;
  }

  lemma WithoutFirst<K, V>(x: Entry<K, V>, l: seq<Entry<K, V>>, k: K)
    ensures Without([x] + l, k) == if x.key == k then l else [x] + Without(l, k)
  {
    hide Position;
    PositionAfterFirst(x, l, k);
    var p := Position(l, k);
    if x.key == k {
      CutFirst(x, l);
    } else if p < |l| {
      CutLater(x, l, p);
    }
  }

  lemma CutFirst<T>(x: T, l: seq<T>)
    ensures ([x] + l)[..0] + ([x] + l)[1..] == l
  {
  }

  lemma CutLater<T>(x: T, l: seq<T>, p: nat)
    requires p < |l|
    ensures ([x] + l)[..p + 1] + ([x] + l)[p + 1 + 1..] == [x] + (l[..p] + l[p + 1..])
  {
  }

  lemma WithoutAbsent<K, V>(s: seq<Entry<K, V>>, k: K)
    requires !Has(s, k)
    ensures Without(s, k) == s
  {
  }

  lemma UsedAbsent<K, V>(s: seq<Entry<K, V>>, k: K)
    ensures !Has(s, k) ==> Used(s, k) == s
  {
  }

  lemma HasInEnd<K, V>(t: seq<Entry<K, V>>, e: Entry<K, V>, k: K)
    ensures Has(t + [e], k) <==> Has(t, k) || e.key == k
  {
    hide Has;
    HasIsThere(t + [e], k);
    HasIsThere(t, k);
    assert forall x :: x in t + [e] <==> x in t || x == e;
  }

  /** One more write supersedes the old one of its key and comes last. */
  lemma {:induction false} LatestOfOneMore<K, V>(h: seq<Entry<K, V>>, e: Entry<K, V>)
    ensures Latest(h + [e]) == Without(Latest(h), e.key) + [e]
  {
    hide Without, Position, Has;
    if h == [] {
      assert h + [e] == [e];
      HasIsThere<K, V>([], e.key);
      WithoutAbsent<K, V>([], e.key);
      assert Latest([e]) == [e] + Latest([]);
    } else {
      var t := h[1..];
      var l := Latest(t);
      LatestOfOneMore(t, e);
      assert (h + [e])[1..] == t + [e];
      HasInEnd(t, e, h[0].key);
      WithoutFirst(h[0], l, e.key);
      if !Has(t, h[0].key) && h[0].key == e.key {
        LatestKeepsKeys(t, e.key);
        WithoutAbsent(l, e.key);
      }
    }
  }

  lemma {:induction false} LatestDiffer<K, V>(h: seq<Entry<K, V>>)
    ensures KeysDiffer(Latest(h))
  {
    if h != [] {
      LatestDiffer(h[1..]);
      var l := Latest(h[1..]);
      LatestKeepsKeys(h[1..], h[0].key);
      HasIsThere(l, h[0].key);
    }
  }

  lemma PositionIs<K, V>(s: seq<Entry<K, V>>, i: nat)
    requires KeysDiffer(s) && i < |s|
    ensures Position(s, s[i].key) == i
  {
    hide Position;
    var p := Position(s, s[i].key);
    if p < i {
    }
  }

  /** Where the key stands decides what is used or taken out. */
  lemma PresentAt<K, V>(s: seq<Entry<K, V>>, i: nat)
    requires KeysDiffer(s) && i < |s|
    ensures Has(s, s[i].key)
    ensures Without(s, s[i].key) == s[..i] + s[i + 1..]
    ensures Used(s, s[i].key) == s[..i] + s[i + 1..] + [s[i]]
    ensures Staled(s, s[i].key) == [s[i]] + (s[..i] + s[i + 1..])
  {
    hide Position, KeysDiffer;
    PositionIs(s, i);
  }

  /** What an insertion leaves, entry by entry: the map as it was if the key is there; otherwise all entries but the
      stalest of a full map, in their order, and the new one behind them. */
  lemma InsertedExactly<K, V>(s: seq<Entry<K, V>>, k: K, v: V, capacity: nat)
    requires 0 < capacity && |s| <= capacity
    ensures var r, cut := Inserted(s, k, v, capacity), if |s| == capacity then 1 else 0;
      if exists i :: 0 <= i < |s| && s[i].key == k then r == s
      else |r| == |s| - cut + 1 <= capacity && r[|r| - 1] == Entry(k, v) && forall j :: 0 <= j < |r| - 1 ==> r[j] == s[j + cut]
  {
    hide Has, Position;
    HasIsThere(s, k);
    if i :| 0 <= i < |s| && s[i].key == k {
      assert s[i] in s;
    }
  }

  /** A drain takes the n stalest entries, or all, and leaves the others in their order. */
  lemma DrainedExactly<K, V>(s: seq<Entry<K, V>>, n: nat)
    ensures var r := Drained(s, n);
      |r| == (if n < |s| then |s| - n else 0) && forall j :: 0 <= j < |r| ==> r[j] == s[n + j]
  {
  }

  lemma ReplacePresent<K, V>(s: seq<Entry<K, V>>, i: nat, e: Entry<K, V>, capacity: nat)
    requires KeysDiffer(s) && i < |s| && s[i].key == e.key && capacity > 0
    ensures Replaced(s, e.key, e.data, capacity) == s[..i] + s[i + 1..] + [e]
    ensures Without(s, e.key) == s[..i] + s[i + 1..]
  {
    hide Position, KeysDiffer;
    PositionIs(s, i);
  }

  lemma SuffixDiffers<K, V>(u: seq<Entry<K, V>>, d: nat, p: nat)
    requires KeysDiffer(u) && d <= |u| && p < |u|
    ensures KeysDiffer(u[d..])
    ensures p < d ==> !Has(u[d..], u[p].key)
  {
    hide Has;
    HasIsThere(u[d..], u[p].key);
    if p < d {
      forall x | x in u[d..]
        ensures x.key != u[p].key
      {
        var i :| 0 <= i < |u| - d && u[d..][i] == x;
        assert u[d + i].key != u[p].key;
      }
    }
  }

  lemma CutInside<T>(u: seq<T>, p: nat, d: nat, x: T)
    requires d <= p < |u|
    ensures u[d..][..p - d] + u[d..][p - d + 1..] + [x] == (u[..p] + u[p + 1..] + [x])[d..]
  {
  }

  lemma CutBefore<T>(u: seq<T>, p: nat, d: nat, x: T)
    requires p < d < |u|
    ensures u[d..][1..] + [x] == (u[..p] + u[p + 1..] + [x])[d..]
  {
  }

  lemma ReplaceInside<K, V>(u: seq<Entry<K, V>>, p: nat, d: nat, e: Entry<K, V>, capacity: nat)
    requires KeysDiffer(u) && capacity > 0 && d <= p < |u| && u[p].key == e.key
    ensures Replaced(u[d..], e.key, e.data, capacity) == (Without(u, e.key) + [e])[d..]
  {
    hide Position, KeysDiffer, Without, Replaced, Has;
    SuffixDiffers(u, d, p);
    ReplacePresent(u, p, e, capacity);
    ReplacePresent(u[d..], p - d, e, capacity);
    CutInside(u, p, d, e);
  }

  lemma ReplaceBefore<K, V>(u: seq<Entry<K, V>>, p: nat, d: nat, e: Entry<K, V>, capacity: nat)
    requires KeysDiffer(u) && p < d < |u| && u[p].key == e.key && capacity == |u| - d
    ensures Replaced(u[d..], e.key, e.data, capacity) == (Without(u, e.key) + [e])[d..]
  {
    hide Position, KeysDiffer, Without, Replaced, Has;
    SuffixDiffers(u, d, p);
    ReplacePresent(u, p, e, capacity);
    PushedIs(u[d..], e, capacity);
    CutBefore(u, p, d, e);
  }

  lemma ReplaceAbsent<K, V>(u: seq<Entry<K, V>>, e: Entry<K, V>, capacity: nat)
    requires capacity > 0 && Position(u, e.key) == |u|
    ensures Replaced(LastOf(u, capacity), e.key, e.data, capacity) == LastOf(Without(u, e.key) + [e], capacity)
  {
    hide Position, Without, Replaced, Has;
    var s := LastOf(u, capacity);
    AbsentInSuffix(u, |u| - |s|, e.key);
    assert !Has(s, e.key);
    WithoutAbsent(u, e.key);
    PushedIs(s, e, capacity);
    if |u| < capacity {
      assert s == u;
    } else {
      SlideOn(u, capacity, e);
    }
  }

  lemma SlideOn<T>(u: seq<T>, n: nat, x: T)
    requires 0 < n <= |u|
    ensures LastOf(u, n)[1..] + [x] == LastOf(u + [x], n)
  {
  }

  lemma WithoutLength<K, V>(u: seq<Entry<K, V>>, k: K)
    requires Has(u, k)
    ensures |Without(u, k)| == |u| - 1
  {
  }

  /** In a row with distinct keys, writing commutes with keeping the last n. */
  lemma ReplaceInSuffix<K, V>(u: seq<Entry<K, V>>, e: Entry<K, V>, capacity: nat)
    requires KeysDiffer(u) && capacity > 0
    ensures Replaced(LastOf(u, capacity), e.key, e.data, capacity) ==
            LastOf(Without(u, e.key) + [e], capacity)
  {
    hide Position, KeysDiffer, Without, Replaced;
    var p := Position(u, e.key);
    if p < |u| {
      WithoutLength(u, e.key);
      var d := if capacity < |u| then |u| - capacity else 0;
      assert u[0..] == u;
      if d <= p {
        ReplaceInside(u, p, d, e, capacity);
      } else {
        ReplaceBefore(u, p, d, e, capacity);
      }
    } else {
      ReplaceAbsent(u, e, capacity);
    }
  }

  lemma AbsentInSuffix<K, V>(u: seq<Entry<K, V>>, d: nat, k: K)
    requires d <= |u| && Position(u, k) == |u|
    ensures !Has(u, k) && !Has(u[d..], k)
  {
    HasIsThere(u, k);
    HasIsThere(u[d..], k);
  }

  lemma PushedIs<K, V>(s: seq<Entry<K, V>>, e: Entry<K, V>, capacity: nat)
    requires !Has(s, e.key) && capacity > 0
    ensures Replaced(s, e.key, e.data, capacity) == Pushed(s, e.key, e.data, capacity)
  {
  }

  lemma OneMoreWrite<K, V>(g: seq<Entry<K, V>>, e: Entry<K, V>, capacity: nat)
    requires capacity > 0 && Written(g, capacity) == LastOf(Latest(g), capacity)
    ensures Replaced(Written(g, capacity), e.key, e.data, capacity) == LastOf(Latest(g + [e]), capacity)
  {
    hide Replaced, Without, Latest, LastOf, KeysDiffer, Written;
    LatestDiffer(g);
    LatestOfOneMore(g, e);
    ReplaceInSuffix(Latest(g), e, capacity);
  }

  /**
   * Writing any history into a map of some capacity leaves exactly the latest
   * writes of the most recently written keys, as many as the capacity allows.
   */
  lemma {:induction false} HoldsTheMostRecent<K, V>(h: seq<Entry<K, V>>, capacity: nat)
    requires capacity > 0
    ensures Written(h, capacity) == LastOf(Latest(h), capacity)
  {
    hide Replaced, Without, LastOf, KeysDiffer;
    if h == [] {
      assert LastOf(Latest(h), capacity) == [] by { EmptyLatest<K, V>(capacity); }
    } else {
      hide Latest;
      var g, e := h[..|h| - 1], h[|h| - 1];
      HoldsTheMostRecent(g, capacity);
      OneMoreWrite(g, e, capacity);
      assert h == g + [e];
    }
  }

  lemma EmptyLatest<K, V>(capacity: nat)
    ensures LastOf(Latest<K, V>([]), capacity) == []
  {
  }
}
