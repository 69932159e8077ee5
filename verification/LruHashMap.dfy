/**
 * The bounded hash map with a recency list (xslib/LruHashMap.h): every node
 * hangs in one hash chain and in the list at once.
 */
module LruHashMap {
  import opened LruSpec

  const MIN_SLOT_NUMBER: nat := 32
  const INT_MAX: nat := 0x7FFF_FFFF

  function PowerOfTwo(r: nat): (p: nat)
    ensures p > 0
  {
    if r == 0 then 1 else 2 * PowerOfTwo(r - 1)
  }

  /** The least power of two from two on that is not below x (xslib/bit.c). */
  method RoundUpPowerTwo(x: nat) returns (p: nat)
    ensures x == 0 ==> p == 0
    ensures x > 0 ==> x <= p && exists r: nat :: r > 0 && p == PowerOfTwo(r) && (r > 1 ==> PowerOfTwo(r - 1) < x)
  {
    if x == 0 {
      return 0;
    }
    var r := 1;
    var y := x - 1;
    ghost var scale := 1;
    p := 2;
    while y / 2 > 0
      invariant r > 0 && p == PowerOfTwo(r) && scale == PowerOfTwo(r - 1)
      invariant y * scale <= x - 1 < (y + 1) * scale
      invariant r > 1 ==> y > 0
      decreases y
    {
      HalfScales(y, scale, x - 1);
      y := y / 2;
      scale := 2 * scale;
      r := r + 1;
      p := 2 * p;
    }
    if y == 1 {
      assert y * scale == scale;
    } else {
      assert (y + 1) * scale == scale;
    }
    assert r > 1 ==> PowerOfTwo(r - 1) < x;
  }

  lemma HalfScales(y: nat, scale: nat, x: nat)
    requires y * scale <= x < (y + 1) * scale
    ensures (y / 2) * (2 * scale) <= x < (y / 2 + 1) * (2 * scale)
  {
    var h := y / 2;
    assert h * (2 * scale) == (2 * h) * scale;
    assert (h + 1) * (2 * scale) == (2 * h + 2) * scale;
    assert y == 2 * h || y == 2 * h + 1;
    if y == 2 * h {
      assert (2 * h + 2) * scale == (2 * h + 1) * scale + scale;
    } else {
      assert (2 * h + 1) * scale == (2 * h) * scale + scale;
    }
  }

  class Node<K, V> {
    const key: K
    const hash: nat
    var data: V
    var hashNext: Node?<K, V>
    var next: Node?<K, V>
    var prev: Node?<K, V>

    constructor (key: K, data: V, hash: nat)
      ensures this.key == key && this.data == data && this.hash == hash
      ensures hashNext == next == prev == null
    {
      this.key, this.data, this.hash := key, data, hash;
      hashNext, next, prev := null, null, null;
    }
  }

  ghost predicate Distinct<T>(s: seq<T>) {
    forall i, j :: 0 <= i < j < |s| ==> s[i] != s[j]
  }

  lemma SameIndex<T>(s: seq<T>, i: int, j: int)
    requires Distinct(s)
    ensures 0 <= i < |s| && 0 <= j < |s| && s[i] == s[j] ==> i == j
  {
  }

  lemma OneMoreDistinct<T>(s: seq<T>, x: T)
    requires Distinct(s) && x !in s
    ensures Distinct(s + [x]) && Distinct([x] + s)
  {
  }

  ghost function At<K, V>(s: seq<Node<K, V>>, i: int): Node?<K, V> {
    if 0 <= i < |s| then s[i] else null
  }

  function Cut<T>(s: seq<T>, i: nat): (r: seq<T>)
    requires i < |s|
    ensures |r| == |s| - 1
    ensures forall j :: 0 <= j < i ==> r[j] == s[j]
    ensures forall j :: i <= j < |r| ==> r[j] == s[j + 1]
  {
    s[..i] + s[i + 1..]
  }

  lemma CutDistinct<T>(s: seq<T>, i: nat)
    requires Distinct(s) && i < |s|
    ensures Distinct(Cut(s, i))
    ensures forall x :: x in Cut(s, i) <==> x in s && x != s[i]
  {
    hide Cut;
    forall x | x in s && x != s[i]
      ensures x in Cut(s, i)
    {
      var j :| 0 <= j < |s| && s[j] == x;
      assert x == Cut(s, i)[if j < i then j else j - 1];
    }
  }

  ghost predicate LinkAt<K, V>(s: seq<Node<K, V>>, i: int)
    requires 0 <= i < |s|
    reads (set n | n in s)`next, (set n | n in s)`prev
  {
    s[i].next == At(s, i + 1) && s[i].prev == At(s, i - 1)
  }

  ghost predicate Linked<K, V>(s: seq<Node<K, V>>, first: Node?<K, V>, last: Node?<K, V>)
    reads (set n | n in s)`next, (set n | n in s)`prev
  {
    Distinct(s) && first == At(s, 0) && last == At(s, |s| - 1) &&
    forall i :: 0 <= i < |s| ==> LinkAt(s, i)
  }

  /** The recency list (TAILQ): nodes from the most stale to the most fresh. */
  class LruList<K, V> {
    var first: Node?<K, V>
    var last: Node?<K, V>
    ghost var nodes: seq<Node<K, V>>

    ghost predicate Valid()
      reads this, (set n | n in nodes)`next, (set n | n in nodes)`prev
    {
      Linked(nodes, first, last)
    }

    constructor ()
      ensures Valid() && nodes == []
    {
      first, last, nodes := null, null, [];
    }

    method InsertTail(n: Node<K, V>)
      requires Valid() && n !in nodes
      modifies this, n`next, n`prev, (set m | m in nodes)`next
      ensures Valid() && nodes == old(nodes) + [n]
    {
      hide Distinct;
      OneMoreDistinct(nodes, n);
      n.next := null;
      n.prev := last;
      if last == null {
        first := n;
      } else {
        last.next := n;
      }
      last := n;
      ghost var s := nodes;
      nodes := nodes + [n];
      forall i | 0 <= i < |nodes|
        ensures LinkAt(nodes, i)
      {
        if i < |s| {
          assert old(LinkAt(s, i));
          SameIndex(s, i, |s| - 1);
        }
      }
    }

    method InsertHead(n: Node<K, V>)
      requires Valid() && n !in nodes
      modifies this, n`next, n`prev, (set m | m in nodes)`prev
      ensures Valid() && nodes == [n] + old(nodes)
    {
      hide Distinct;
      OneMoreDistinct(nodes, n);
      n.prev := null;
      n.next := first;
      if first == null {
        last := n;
      } else {
        first.prev := n;
      }
      first := n;
      ghost var s := nodes;
      nodes := [n] + nodes;
      forall i | 0 <= i < |nodes|
        ensures LinkAt(nodes, i)
      {
        if i > 0 {
          assert old(LinkAt(s, i - 1));
          SameIndex(s, i - 1, 0);
        }
      }
    }

    method Remove(n: Node<K, V>, ghost i: nat)
      requires Valid() && i < |nodes| && nodes[i] == n
      modifies this, (set m | m in nodes)`next, (set m | m in nodes)`prev
      ensures Valid() && nodes == Cut(old(nodes), i)
    {
      hide Distinct, Cut;
      CutDistinct(nodes, i);
      assert LinkAt(nodes, i);
      if n.next != null {
        n.next.prev := n.prev;
      } else {
        last := n.prev;
      }
      if n.prev != null {
        n.prev.next := n.next;
      } else {
        first := n.next;
      }
      ghost var s := nodes;
      nodes := Cut(nodes, i);
      forall j | 0 <= j < |nodes|
        ensures LinkAt(nodes, j)
      {
        ghost var k := if j < i then j else j + 1;
        assert old(LinkAt(s, k));
        SameIndex(s, k, i - 1);
        SameIndex(s, k, i + 1);
      }
    }
  }

  ghost predicate ChainAt<K, V>(s: seq<Node<K, V>>, i: int)
    requires 0 <= i < |s|
    reads (set n | n in s)`hashNext
  {
    s[i].hashNext == At(s, i + 1)
  }

  /** The nodes of one slot, linked from its head. */
  ghost predicate Chain<K, V>(s: seq<Node<K, V>>, head: Node?<K, V>)
    reads (set n | n in s)`hashNext
  {
    Distinct(s) && head == At(s, 0) && forall i :: 0 <= i < |s| ==> ChainAt(s, i)
  }

  ghost function Flat<K, V>(chains: seq<seq<Node<K, V>>>): set<Node<K, V>> {
    set b, n | 0 <= b < |chains| && n in chains[b] :: n
  }

  ghost predicate Chained<K, V>(chains: seq<seq<Node<K, V>>>, heads: seq<Node?<K, V>>)
    requires |heads| == |chains|
    reads Flat(chains)`hashNext
  {
    forall b :: 0 <= b < |chains| ==> Chain(chains[b], heads[b])
  }

  /** Every node of a chain is a node of the list and belongs to the slot of the chain. */
  ghost predicate Hung<K, V>(nodes: seq<Node<K, V>>, chains: seq<seq<Node<K, V>>>)
    requires |chains| > 0
  {
    forall b, n :: 0 <= b < |chains| && n in chains[b] ==> n in nodes && n.hash % |chains| == b
  }

  lemma HungFlat<K, V>(nodes: seq<Node<K, V>>, chains: seq<seq<Node<K, V>>>)
    requires |chains| > 0 && Hung(nodes, chains)
    ensures forall n :: n in Flat(chains) ==> n in nodes
  {
  }

  /** List and chains hold the same nodes, each in the chain of its hash, with no key twice. */
  ghost predicate Placed<K, V>(nodes: seq<Node<K, V>>, chains: seq<seq<Node<K, V>>>, hashOf: K -> nat)
    requires |chains| > 0
  {
    && Hung(nodes, chains)
    && (forall n :: n in nodes ==> n.hash == hashOf(n.key) && n in chains[n.hash % |chains|])
    && (forall i, j :: 0 <= i < j < |nodes| ==> nodes[i].key != nodes[j].key)
  }

  ghost function Entries<K, V>(s: seq<Node<K, V>>): (r: seq<Entry<K, V>>)
    reads (set n | n in s)`data
    ensures |r| == |s|
    ensures forall i :: 0 <= i < |s| ==> r[i] == Entry(s[i].key, s[i].data)
  {
    if s == [] then [] else
      assert forall n :: n in s[1..] ==> n in s;
      [Entry(s[0].key, s[0].data)] + Entries(s[1..])
  }

  lemma KeyIsThere<K, V>(s: seq<Node<K, V>>, key: K)
    ensures Has(Entries(s), key) <==> exists n :: n in s && n.key == key
  {
    var p := Position(Entries(s), key);
    if p < |s| {
      assert s[p] in s;
    }
    if n :| n in s && n.key == key {
      var i :| 0 <= i < |s| && s[i] == n;
      assert Entries(s)[i].key == key;
    }
  }

  lemma EntriesCut<K, V>(s: seq<Node<K, V>>, i: nat)
    requires i < |s|
    ensures Entries(Cut(s, i)) == Entries(s)[..i] + Entries(s)[i + 1..]
  {
    hide Entries;
    forall n | n in Cut(s, i)
      ensures n in s
    {
    }
  }

  lemma EntriesJoin<K, V>(s: seq<Node<K, V>>, t: seq<Node<K, V>>)
    ensures Entries(s + t) == Entries(s) + Entries(t)
  {
    hide Entries;
  }

  lemma EntriesOne<K, V>(n: Node<K, V>)
    ensures Entries([n]) == [Entry(n.key, n.data)]
  {
  }

  lemma EntriesDiffer<K, V>(s: seq<Node<K, V>>)
    requires forall i, j :: 0 <= i < j < |s| ==> s[i].key != s[j].key
    ensures KeysDiffer(Entries(s))
  {
    hide Entries;
  }

  /** Taking a node out of the list, or to one of its ends, does that to the entries. */
  lemma MovedEntries<K, V>(s: seq<Node<K, V>>, i: nat)
    requires i < |s|
    requires forall j, k :: 0 <= j < k < |s| ==> s[j].key != s[k].key
    ensures Entries(Cut(s, i)) == Without(Entries(s), s[i].key)
    ensures Entries(Cut(s, i) + [s[i]]) == Used(Entries(s), s[i].key)
    ensures Entries([s[i]] + Cut(s, i)) == Staled(Entries(s), s[i].key)
  {
    hide Entries, Cut, Without, Used, Staled, KeysDiffer;
    EntriesDiffer(s);
    PresentAt(Entries(s), i);
    EntriesCut(s, i);
    EntriesJoin(Cut(s, i), [s[i]]);
    EntriesJoin([s[i]], Cut(s, i));
    EntriesOne(s[i]);
  }

  lemma PlacedMoved<K, V>(s: seq<Node<K, V>>, t: seq<Node<K, V>>, i: nat, chains: seq<seq<Node<K, V>>>, hashOf: K -> nat)
    requires |chains| > 0 && i < |s| && Placed(s, chains, hashOf)
    requires t == Cut(s, i) + [s[i]] || t == [s[i]] + Cut(s, i)
    requires Distinct(s)
    ensures Placed(t, chains, hashOf)
  {
    hide Cut;
    CutDistinct(s, i);
    forall n
      ensures n in t <==> n in s
    {
    }
  }

  lemma KeysOf<K, V>(s: seq<Node<K, V>>, chains: seq<seq<Node<K, V>>>, hashOf: K -> nat)
    requires |chains| > 0 && Placed(s, chains, hashOf)
    ensures Hung(s, chains)
    ensures forall i, j :: 0 <= i < j < |s| ==> s[i].key != s[j].key
  {
  }

  lemma PlacedCut<K, V>(s: seq<Node<K, V>>, i: nat, chains: seq<seq<Node<K, V>>>, j: nat, hashOf: K -> nat)
    requires |chains| > 0 && i < |s| && Placed(s, chains, hashOf) && Distinct(s)
    requires var c := chains[s[i].hash % |chains|]; j < |c| && c[j] == s[i] && Distinct(c)
    ensures var b := s[i].hash % |chains|; Placed(Cut(s, i), chains[b := Cut(chains[b], j)], hashOf)
  {
    hide Cut, Distinct;
    CutDistinct(s, i);
    CutDistinct(chains[s[i].hash % |chains|], j);
  }

  lemma PlacedMore<K, V>(s: seq<Node<K, V>>, n: Node<K, V>, chains: seq<seq<Node<K, V>>>, hashOf: K -> nat)
    requires |chains| > 0 && Placed(s, chains, hashOf) && n.hash == hashOf(n.key)
    requires forall m :: m in s ==> m.key != n.key
    ensures var b := n.hash % |chains|; Placed(s + [n], chains[b := [n] + chains[b]], hashOf)
    ensures n !in s && Hung(s + [n], chains) && n !in chains[n.hash % |chains|]
  {
  }

  /** The stalest entry is the first. */
  lemma FirstEntry<K, V>(s: seq<Node<K, V>>)
    requires s != []
    requires forall j, k :: 0 <= j < k < |s| ==> s[j].key != s[k].key
    ensures Without(Entries(s), s[0].key) == Entries(s)[1..]
  {
    hide Entries, Without, KeysDiffer;
    EntriesDiffer(s);
    PresentAt(Entries(s), 0);
  }

  /** What the first node of a list is to the entries. */
  lemma StalestOf<K, V>(s: seq<Node<K, V>>, chains: seq<seq<Node<K, V>>>, hashOf: K -> nat)
    requires s != [] && |chains| > 0 && Placed(s, chains, hashOf)
    ensures Without(Entries(s), s[0].key) == Entries(s)[1..]
  {
    hide Entries, Without;
    FirstEntry(s);
  }

  /** Writing new data into a stored node changes its entry alone. */
  lemma UsedRewritten<K, V>(before: seq<Entry<K, V>>, now: seq<Entry<K, V>>, i: nat, val: V)
    requires KeysDiffer(before) && i < |before| && now == before[i := Entry(before[i].key, val)]
    ensures KeysDiffer(now)
    ensures Used(now, before[i].key) == Without(before, before[i].key) + [Entry(before[i].key, val)]
    ensures Has(before, before[i].key)
  {
    hide Used, Without, Has;
    PresentAt(before, i);
    PresentAt(now, i);
  }

  class LruHashMap<K(==), V> {
    const slotNum: nat
    const maxNum: nat
    const hashOf: K -> nat
    const tab: array<Node?<K, V>>
    const lru: LruList<K, V>
    var total: nat
    ghost var chains: seq<seq<Node<K, V>>>

    constructor (slots: nat, max: nat, hashOf: K -> nat)
      ensures Valid() && Contents() == []
      ensures this.hashOf == hashOf && maxNum == if max == 0 then slots else max
      ensures exists r: nat :: slotNum == PowerOfTwo(r)
      ensures var wanted := if max != 0 && slots > max then max else slots;
        var some := if wanted > 0x7FFF_FFFF then 0x7FFF_FFFF else wanted;
        some <= slotNum && slotNum >= 32 && (slotNum > 32 ==> slotNum / 2 < some)
      ensures fresh(tab) && fresh(lru)
    {
      maxNum := if max == 0 then slots else max;
      var wanted := if max != 0 && slots > max then max else slots;
      if wanted > INT_MAX {
        wanted := INT_MAX;
      }
      var rounded := RoundUpPowerTwo(wanted);
      if rounded < MIN_SLOT_NUMBER {
        assert MIN_SLOT_NUMBER == PowerOfTwo(5);
        rounded := MIN_SLOT_NUMBER;
      }
      slotNum := rounded;
      this.hashOf := hashOf;
      tab := new Node?<K, V>[rounded](i => null);
      lru := new LruList<K, V>();
      total := 0;
      chains := seq(rounded, i => []);
    }

    ghost function Nodes(): set<Node<K, V>>
      reads this, lru
    {
      set n | n in lru.nodes
    }

    ghost predicate Valid()
      reads this, lru, tab, Nodes()
    {
      && tab.Length == slotNum == |chains| && slotNum >= MIN_SLOT_NUMBER
      && lru.Valid()
      && Placed(lru.nodes, chains, hashOf)
      && Chained(chains, tab[..])
      && total == |lru.nodes| <= maxNum
    }

    /** The entries from the most stale to the most fresh. */
    ghost function Contents(): (s: seq<Entry<K, V>>)
      reads this, lru, Nodes()`data
    {
      Entries(lru.nodes)
    }

    /** Walks the chain of a key; prev is the node before the one found. */
    method Locate(key: K) returns (node: Node?<K, V>, prev: Node?<K, V>, ghost j: nat)
      requires Valid()
      ensures node == null ==> forall n :: n in lru.nodes ==> n.key != key
      ensures node != null ==> node in lru.nodes && node.key == key && j < |chains[hashOf(key) % slotNum]|
      ensures node != null ==> node == chains[hashOf(key) % slotNum][j] && prev == At(chains[hashOf(key) % slotNum], j - 1)
    {
      var hash := hashOf(key);
      var bkt := hash % slotNum;
      ghost var c := chains[bkt];
      prev := null;
      node := tab[bkt];
      j := 0;
      assert Chain(c, tab[bkt]);
      while node != null
        invariant j <= |c| && node == At(c, j) && prev == At(c, j - 1)
        invariant forall i :: 0 <= i < j ==> c[i].key != key
        decreases |c| - j
      {
        if node.hash == hash && node.key == key {
          return;
        }
        assert ChainAt(c, j);
        prev := node;
        node := node.hashNext;
        j := j + 1;
      }
    }

    method Find(key: K) returns (node: Node?<K, V>)
      requires Valid()
      ensures node == null <==> !Has(Contents(), key)
      ensures node != null ==> node in lru.nodes && node.key == key
    {
      hide Placed, Chained, Has, Entries, Linked;
      var prev;
      ghost var j;
      node, prev, j := Locate(key);
      KeyIsThere(lru.nodes, key);
    }

    /** Makes a stored node the most fresh (fresh_node). */
    method FreshNode(n: Node<K, V>)
      requires Valid() && n in lru.nodes
      modifies lru, Nodes()`next, Nodes()`prev
      ensures Valid() && Nodes() == old(Nodes())
      ensures Contents() == Used(old(Contents()), n.key)
    {
      hide Has, Used, Staled, Without, Cut, Entries, Placed;
      ghost var s := lru.nodes;
      ghost var i :| 0 <= i < |s| && s[i] == n;
      KeysOf(s, chains, hashOf);
      MovedEntries(s, i);
      PlacedMoved(s, Cut(s, i) + [n], i, chains, hashOf);
      CutDistinct(s, i);
      if n != lru.last {
        lru.Remove(n, i);
        lru.InsertTail(n);
      } else {
        SameIndex(s, i, |s| - 1);
        assert Cut(s, i) + [n] == s;
      }
    }

    /** Makes a stored node the most stale (stale_node). */
    method StaleNode(n: Node<K, V>)
      requires Valid() && n in lru.nodes
      modifies lru, Nodes()`next, Nodes()`prev
      ensures Valid() && Nodes() == old(Nodes())
      ensures Contents() == Staled(old(Contents()), n.key)
    {
      hide Has, Used, Staled, Without, Cut, Entries, Placed;
      ghost var s := lru.nodes;
      ghost var i :| 0 <= i < |s| && s[i] == n;
      KeysOf(s, chains, hashOf);
      MovedEntries(s, i);
      PlacedMoved(s, [n] + Cut(s, i), i, chains, hashOf);
      CutDistinct(s, i);
      if n != lru.first {
        lru.Remove(n, i);
        lru.InsertHead(n);
      } else {
        SameIndex(s, i, 0);
        assert [n] + Cut(s, i) == s;
      }
    }

    method Use(key: K) returns (node: Node?<K, V>)
      requires Valid()
      modifies lru, Nodes()`next, Nodes()`prev
      ensures Valid() && Nodes() == old(Nodes())
      ensures node == null <==> !Has(old(Contents()), key)
      ensures node != null ==> node in lru.nodes && node.key == key
      ensures Contents() == Used(old(Contents()), key)
    {
      hide Staled, Without, Cut, Entries, Placed, Chained, Linked, Used, Has, Valid;
      UsedAbsent(Contents(), key);
      node := Find(key);
      if node != null {
        assert node in Nodes();
        FreshNode(node);
        assert node in Nodes();
      }
    }

    /** Takes a node out of its chain. */
    method Unlink(node: Node<K, V>, prev: Node?<K, V>, ghost j: nat)
      requires tab.Length == slotNum == |chains| > 0 && Hung(lru.nodes, chains) && Chained(chains, tab[..])
      requires j < |chains[node.hash % slotNum]| && chains[node.hash % slotNum][j] == node
      requires prev == At(chains[node.hash % slotNum], j - 1)
      modifies this`chains, tab, Nodes()`hashNext
      ensures chains == old(chains)[node.hash % slotNum := Cut(old(chains)[node.hash % slotNum], j)]
      ensures Hung(lru.nodes, chains) && Chained(chains, tab[..])
    {
      hide Cut, Distinct;
      var bkt := node.hash % slotNum;
      ghost var c := chains[bkt];
      assert Chain(c, tab[bkt]) && ChainAt(c, j);
      CutDistinct(c, j);
      if prev != null {
        prev.hashNext := node.hashNext;
      } else {
        tab[bkt] := node.hashNext;
      }
      chains := chains[bkt := Cut(c, j)];
      forall k | 0 <= k < |chains[bkt]|
        ensures ChainAt(chains[bkt], k)
      {
        ghost var m := if k < j then k else k + 1;
        assert old(ChainAt(c, m));
        SameIndex(c, m, j - 1);
      }
      forall b | 0 <= b < |chains|
        ensures Chain(chains[b], tab[b])
      {
        if b != bkt {
          assert old(Chain(chains[b], tab[b]));
          assert prev !in chains[b];
        }
      }
    }

    /** Takes a node out of chain and list. */
    method Detach(node: Node<K, V>, prev: Node?<K, V>, ghost j: nat)
      requires Valid() && node in lru.nodes
      requires j < |chains[node.hash % slotNum]| && chains[node.hash % slotNum][j] == node
      requires prev == At(chains[node.hash % slotNum], j - 1)
      modifies this, tab, lru, Nodes()`hashNext, Nodes()`next, Nodes()`prev
      ensures Valid() && Nodes() == old(Nodes()) - {node}
      ensures Contents() == Without(old(Contents()), node.key)
    {
      hide Has, Used, Staled, Without, Cut, Entries, Placed, Distinct, Hung, Chained, Flat;
      ghost var s := lru.nodes;
      ghost var i :| 0 <= i < |s| && s[i] == node;
      KeysOf(s, chains, hashOf);
      MovedEntries(s, i);
      ChainedAt(node.hash % slotNum);
      PlacedCut(s, i, chains, j, hashOf);
      CutDistinct(s, i);
      ghost var after := Entries(Cut(s, i));
      Unlink(node, prev, j);
      ghost var heads := tab[..];
      HungFlat(s, chains);
      assert Entries(Cut(s, i)) == after;
      lru.Remove(node, i);
      assert Entries(Cut(s, i)) == after && tab[..] == heads && Chained(chains, heads);
      total := total - 1;
    }

    /** Finds the chain place of a node by its identity, and takes it out. */
    method RemoveNode(the: Node<K, V>)
      requires Valid() && the in lru.nodes
      modifies this, tab, lru, Nodes()`hashNext, Nodes()`next, Nodes()`prev
      ensures Valid() && Nodes() == old(Nodes()) - {the}
      ensures Contents() == Without(old(Contents()), the.key)
    {
      hide Has, Used, Staled, Without, Cut, Entries, Distinct, Linked, Chained;
      var bkt := the.hash % slotNum;
      ghost var c := chains[bkt];
      ghost var j := 0;
      var node := tab[bkt];
      var prev: Node?<K, V> := null;
      assert Chain(c, tab[bkt]) by { ChainedAt(bkt); }
      while node != the
        invariant j <= |c| && node == At(c, j) && prev == At(c, j - 1)
        invariant the !in c[..j]
        decreases |c| - j
      {
        assert the in c;
        assert ChainAt(c, j);
        prev := node;
        node := node.hashNext;
        j := j + 1;
      }
      Detach(the, prev, j);
    }

    lemma ChainedAt(b: nat)
      requires Valid() && b < slotNum
      ensures Chain(chains[b], tab[b])
    {
    }

    method Remove(key: K) returns (ok: bool)
      requires Valid()
      modifies this, tab, lru, Nodes()`hashNext, Nodes()`next, Nodes()`prev
      ensures Valid() && Nodes() <= old(Nodes())
      ensures ok <==> Has(old(Contents()), key)
      ensures Contents() == Without(old(Contents()), key)
    {
      hide Used, Staled, Cut, Entries, Linked, Chained, Distinct;
      KeyIsThere(lru.nodes, key);
      var node, prev;
      ghost var j;
      node, prev, j := Locate(key);
      if node == null {
        WithoutAbsent(Contents(), key);
        return false;
      }
      KeysHash();
      Detach(node, prev, j);
      ok := true;
    }

    lemma KeysHash()
      requires Valid()
      ensures forall n :: n in lru.nodes ==> n.hash == hashOf(n.key)
    {
    }

    /** Hangs a node at the head of its chain. */
    method Link(node: Node<K, V>)
      requires tab.Length == slotNum == |chains| > 0 && Hung(lru.nodes, chains) && Chained(chains, tab[..])
      requires node in lru.nodes && node !in chains[node.hash % slotNum]
      modifies this`chains, tab, node`hashNext
      ensures chains == old(chains)[node.hash % slotNum := [node] + old(chains)[node.hash % slotNum]]
      ensures Hung(lru.nodes, chains) && Chained(chains, tab[..])
    {
      hide Distinct;
      var bkt := node.hash % slotNum;
      ghost var c := chains[bkt];
      assert Chain(c, tab[bkt]);
      OneMoreDistinct(c, node);
      node.hashNext := tab[bkt];
      tab[bkt] := node;
      chains := chains[bkt := [node] + c];
      forall k | 0 <= k < |chains[bkt]|
        ensures ChainAt(chains[bkt], k)
      {
        if k > 0 {
          assert old(ChainAt(c, k - 1));
        }
      }
      forall b | 0 <= b < |chains|
        ensures Chain(chains[b], tab[b])
      {
        if b != bkt {
          assert old(Chain(chains[b], tab[b]));
        }
      }
    }

    /** Hangs a new node at the head of its chain and at the fresh end of the list. */
    method Attach(node: Node<K, V>)
      requires Valid() && total < maxNum && node.hash == hashOf(node.key)
      requires forall n :: n in lru.nodes ==> n.key != node.key
      modifies this, tab, lru, node`hashNext, node`next, node`prev, Nodes()`next
      ensures Valid() && lru.nodes == old(lru.nodes) + [node]
      ensures Contents() == old(Contents()) + [Entry(node.key, node.data)]
    {
      hide Has, Used, Staled, Without, Cut, Entries, Placed, Distinct, Linked, Hung, Chained, Flat;
      ghost var s := lru.nodes;
      ghost var before := Entries(s);
      ghost var heads := tab[..];
      KeysOf(s, chains, hashOf);
      PlacedMore(s, node, chains, hashOf);
      HungFlat(s, chains);
      lru.InsertTail(node);
      assert Entries(s) == before && tab[..] == heads && Chained(chains, heads);
      Link(node);
      assert Entries(s) == before;
      EntriesJoin(s, [node]);
      EntriesOne(node);
      total := total + 1;
      assert Entries(lru.nodes) == before + [Entry(node.key, node.data)];
    }

    /** Stores an absent key; a full map first gives up its stalest node. */
    method Push(key: K, val: V) returns (node: Node<K, V>)
      requires Valid() && maxNum > 0
      requires forall n :: n in lru.nodes ==> n.key != key
      modifies this, tab, lru, Nodes()`hashNext, Nodes()`next, Nodes()`prev
      ensures Valid() && fresh(node) && Nodes() <= old(Nodes()) + {node} && node in Nodes()
      ensures node.key == key && node.data == val
      ensures Contents() == Pushed(old(Contents()), key, val, maxNum)
    {
      hide Has, Used, Staled, Without, Entries, Placed, Linked, Hung, Chained, Flat;
      if total >= maxNum {
        var stalest := lru.first;
        assert stalest == lru.nodes[0] by { FirstIsStalest(); }
        StalestOf(lru.nodes, chains, hashOf);
        RemoveNode(stalest);
      }
      label removed:
      node := new Node(key, val, hashOf(key));
      assert Valid() && Contents() == old@removed(Contents());
      Attach(node);
    }

    lemma FirstIsStalest()
      requires Valid()
      ensures lru.first == At(lru.nodes, 0)
    {
    }

    /** Adds a key; null if the map already has it. */
    method Insert(key: K, val: V) returns (node: Node?<K, V>)
      requires Valid() && maxNum > 0
      modifies this, tab, lru, Nodes()`hashNext, Nodes()`next, Nodes()`prev
      ensures Valid()
      ensures node == null <==> Has(old(Contents()), key)
      ensures node != null ==> fresh(node) && node in Nodes() && node.key == key && node.data == val
      ensures Nodes() <= old(Nodes()) + if node == null then {} else {node}
      ensures Contents() == Inserted(old(Contents()), key, val, maxNum)
    {
      hide Used, Staled, Without, Entries, Placed, Linked, Hung, Chained, Flat;
      KeyIsThere(lru.nodes, key);
      var found, prev;
      ghost var j;
      found, prev, j := Locate(key);
      if found != null {
        return null;
      }
      node := Push(key, val);
    }

    /** Stores a key, whether or not the map has it. */
    method Replace(key: K, val: V) returns (node: Node<K, V>)
      requires Valid() && maxNum > 0
      modifies this, tab, lru, Nodes()
      ensures Valid()
      ensures node in Nodes() && node.key == key && node.data == val
      ensures fresh(Nodes() - old(Nodes()))
      ensures Contents() == Replaced(old(Contents()), key, val, maxNum)
    {
      hide Used, Staled, Without, Entries, Placed, Linked, Hung, Chained, Flat, KeysDiffer;
      KeyIsThere(lru.nodes, key);
      var found, prev;
      ghost var j;
      found, prev, j := Locate(key);
      if found == null {
        node := Push(key, val);
      } else {
        node := found;
        ghost var s := lru.nodes;
        ghost var i :| 0 <= i < |s| && s[i] == node;
        KeysOf(s, chains, hashOf);
        EntriesDiffer(s);
        HungFlat(s, chains);
        ghost var before := Entries(s);
        node.data := val;
        assert lru.Valid() && Chained(chains, tab[..]);
        assert Entries(s) == before[i := Entry(key, val)];
        UsedRewritten(before, Entries(s), i, val);
        FreshNode(node);
      }
    }

    /** Gives up the stalest nodes, num of them or all. */
    method Drain(num: nat) returns (left: nat)
      requires Valid()
      modifies this, tab, lru, Nodes()`hashNext, Nodes()`next, Nodes()`prev
      ensures Valid() && Nodes() <= old(Nodes())
      ensures Contents() == Drained(old(Contents()), num) && left == |Contents()|
    {
      hide Used, Staled, Without, Entries, Placed, Linked, Hung, Chained, Flat;
      var i := 0;
      while lru.first != null && i < num
        invariant Valid() && Nodes() <= old(Nodes())
        invariant i <= num && i <= |old(Contents())| && Contents() == old(Contents())[i..]
        decreases num - i
      {
        FirstIsStalest();
        StalestOf(lru.nodes, chains, hashOf);
        RemoveNode(lru.first);
        i := i + 1;
      }
      FirstIsStalest();
      left := total;
    }
  }
}
