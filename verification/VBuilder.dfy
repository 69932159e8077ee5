/**
 * The writers themselves: entities on the heap that share one packer and hang
 * together by their child links.
 */
module VBuilder {
  import opened Prelude
  import opened Bytes
  import opened VbsNumber
  import opened VWriter

  ghost predicate Distinct<T>(s: seq<T>) {
    forall i, j :: 0 <= i < j < |s| ==> s[i] != s[j]
  }

  /** What a packer with these open containers, or with this finished one, has written. */
  ghost function Written(stack: seq<Frame>, whole: Option<Tree>): seq<byte> {
    if stack != [] then Rendered(stack) else if whole.Some? then BytesOf(whole.value) else []
  }

  class Packer {
    var out: seq<byte>
    var depth: int
    ghost var base: seq<byte>
    /** The open entities, the outermost first, and what each of them holds so far. */
    ghost var chain: seq<Entity>
    ghost var stack: seq<Frame>
    /** The outermost container, once it is closed. */
    ghost var whole: Option<Tree>
    ghost var all: set<Entity>

    /** Entity i of the chain leads to the next one; the last may still point to a closed child. */
    ghost predicate LinkAt(i: int)
      requires 0 <= i < |chain|
      reads this`chain, this`all, all
    {
      var e := chain[i];
      e in all && e.pk == this &&
      if i + 1 < |chain| then e.child == chain[i + 1] else e.child == null || (e.child in all && e.child !in chain)
    }

    /** The entities before k may be about to close. */
    ghost predicate Linked(k: nat)
      reads this`chain, this`all, all
    {
      && Distinct(chain)
      && (forall i :: 0 <= i < |chain| ==> LinkAt(i))
      && (forall i :: k <= i < |chain| ==> chain[i] in all && !chain[i].closed)
      && (forall e :: e in all && e !in chain ==> e.closed)
    }

    ghost predicate Ok(k: nat)
      reads this, all
    {
      |chain| == |stack| == depth && Linked(k) && out == base + Written(stack, whole)
    }

    constructor (base: seq<byte>)
      ensures Ok(0) && chain == [] && whole == None && all == {} && this.base == base
    {
      out, depth, this.base := base, 0, base;
      chain, stack, whole, all := [], [], None, {};
    }

    method Write(bytes: seq<byte>)
      modifies this`out
      ensures out == old(out) + bytes
    {
      out := out + bytes;
    }

    method PackTail()
      requires depth > 0
      modifies this`out, this`depth
      ensures out == old(out) + [TAIL] && depth == old(depth) - 1
    {
      out := out + [TAIL];
      depth := depth - 1;
    }
  }

  lemma SameIndex<T>(s: seq<T>, i: int, j: int)
    requires Distinct(s)
    ensures 0 <= i < |s| && 0 <= j < |s| && s[i] == s[j] ==> i == j
  {
  }

  lemma PrefixDistinct<T>(s: seq<T>, n: nat)
    requires Distinct(s) && n <= |s|
    ensures Distinct(s[..n])
    ensures forall i :: n <= i < |s| ==> s[i] !in s[..n]
    ensures forall e :: e in s <==> e in s[..n] || e in s[n..]
    ensures forall e :: e in s[..n] ==> e !in s[n..]
  {
  }

  lemma AlreadyClosed(stack: seq<Frame>, n: nat)
    requires 0 < n <= |stack|
    ensures |stack| == n ==> ClosedTo(stack, n) == stack
  {
  }

  /** Closing to level n is closing to the level below and then one more. */
  lemma {:induction false} ClosedToNext(stack: seq<Frame>, n: nat)
    requires n < |stack|
    ensures n > 0 ==> ClosedTo(stack, n) == ClosedTop(ClosedTo(stack, n + 1))
    decreases |stack|
  {
    if n > 0 && n + 1 < |stack| {
      ClosedToNext(ClosedTop(stack), n);
    }
  }

  class Entity {
    var closed: bool
    var pk: Packer?
    var child: Entity?

    constructor (pk: Packer)
      ensures this.pk == pk && !closed && child == null
    {
      this.pk, closed, child := pk, false, null;
    }

    /** This is the entity at place i of a packer whose links are in order from k on. */
    ghost predicate At(p: Packer, i: nat, k: nat)
      reads p, p.all
    {
      p.Ok(k) && i < |p.chain| && p.chain[i] == this
    }

    /** The innermost entity ends: its tail is packed and it leaves the chain. */
    method EndTop(ghost i: nat)
      requires pk != null && At(pk, i, i + 1) && |pk.chain| == i + 1 && closed && child == null
      modifies pk`out, pk`depth, pk`chain, pk`stack, pk`whole, this`pk
      ensures var p := old(pk); p.Ok(i) && p.chain == old(pk.chain)[..i] && pk == null
      ensures var p := old(pk); p.stack == if i == 0 then [] else ClosedTop(old(pk.stack))
      ensures old(pk).whole == if i == 0 then Some(Finished(old(pk.stack)[0])) else old(pk.whole)
    {
      hide Rendered, BytesOf, ClosedTop, Distinct;
      var p := pk;
      if i == 0 {
        OneLevel(p.stack[0]);
        assert p.stack == [p.stack[0]];
      } else {
        TailClosesTop(p.stack);
      }
      PrefixDistinct(p.chain, i);
      ghost var chain := p.chain;
      assert p.LinkAt(i);
      p.PackTail();
      pk := null;
      p.chain := chain[..i];
      if i == 0 {
        p.whole := Some(Finished(p.stack[0]));
        p.stack := [];
      } else {
        p.stack := ClosedTop(p.stack);
      }
      forall j | 0 <= j < i
        ensures p.LinkAt(j)
      {
        assert old(p.LinkAt(j));
        SameIndex(chain, i, j);
      }
    }

    /** Closes the child, if there is one, and lets it go (finish_child). */
    method FinishChild(ghost i: nat)
      requires pk != null && At(pk, i, i + 1)
      modifies pk, pk.all
      ensures pk == old(pk) && At(pk, i, i + 1) && pk.chain == old(pk.chain)[..i + 1] && child == null
      ensures pk.stack == ClosedTo(old(pk.stack), i + 1)
      ensures pk.all == old(pk.all) && pk.base == old(pk.base) && pk.whole == old(pk.whole)
      ensures forall e :: e in pk.all && e !in old(pk.chain)[i + 1..] ==>
                e.closed == old(e.closed) && e.pk == old(e.pk) && (e != this ==> e.child == old(e.child))
      decreases |pk.chain| - i, 0
    {
      hide Written, ClosedTo, Distinct;
      assert pk.LinkAt(i);
      AlreadyClosed(pk.stack, i + 1);
      if child != null {
        if !child.closed {
          assert i + 1 < |pk.chain| && pk.LinkAt(i + 1);
          PrefixDistinct(pk.chain, i + 1);
          assert this == pk.chain[..i + 1][i];
          child.Close(i + 1);
        } else {
          assert pk.chain[..i + 1] == pk.chain;
        }
        label closed:
        assert pk.LinkAt(i);
        child := null;
        forall j | 0 <= j < |pk.chain|
          ensures pk.LinkAt(j)
        {
          assert old@closed(pk.LinkAt(j));
          SameIndex(pk.chain, i, j);
        }
      } else {
        assert pk.chain[..i + 1] == pk.chain;
      }
    }

    /** Ends this container and all below it, the innermost first (Entity::close). */
    method Close(ghost i: nat)
      requires pk != null && At(pk, i, i)
      modifies pk, pk.all
      ensures var p := old(pk); p.Ok(i) && p.chain == old(pk.chain)[..i] && p.all == old(pk.all) && p.base == old(pk.base)
      ensures var p := old(pk); p.stack == if i == 0 then [] else ClosedTo(old(pk.stack), i)
      ensures old(pk).whole == if i == 0 then Some(Finished(ClosedTo(old(pk.stack), 1)[0])) else old(pk.whole)
      ensures closed && child == null && pk == null
      ensures forall e :: e in old(pk.all) && e !in old(pk.chain)[i..] ==>
                e.closed == old(e.closed) && e.child == old(e.child) && e.pk == old(e.pk)
      decreases |pk.chain| - i, 1
    {
      hide Written, ClosedTo, ClosedTop, Distinct;
      ghost var chain := pk.chain;
      ClosedToNext(pk.stack, i);
      closed := true;
      forall j | 0 <= j < |chain|
        ensures pk.LinkAt(j)
      {
        assert old(pk.LinkAt(j));
      }
      forall j | i + 1 <= j < |chain|
        ensures !chain[j].closed
      {
        SameIndex(chain, i, j);
      }
      FinishChild(i);
      EndTop(i);
    }

    /** Ends whatever is open below this container (flush, and the first thing every write does). */
    method Flush(ghost i: nat)
      requires pk != null && At(pk, i, 0)
      modifies pk, pk.all
      ensures pk == old(pk) && At(pk, i, 0) && pk.chain == old(pk.chain)[..i + 1] && child == null
      ensures pk.stack == ClosedTo(old(pk.stack), i + 1)
      ensures pk.all == old(pk.all) && pk.base == old(pk.base) && pk.whole == old(pk.whole)
    {
      hide Written, ClosedTo, Distinct;
      PrefixDistinct(pk.chain, i + 1);
      ghost var chain := pk.chain;
      if child != null {
        FinishChild(i);
        forall j | 0 <= j < |pk.chain|
          ensures pk.chain[j] in pk.all && !pk.chain[j].closed
        {
          assert pk.chain[j] == chain[..i + 1][j];
          assert pk.LinkAt(j);
        }
      } else {
        AlreadyClosed(pk.stack, i + 1);
        assert pk.LinkAt(i);
        assert chain[..i + 1] == chain;
      }
    }

    /** Writes one piece of data that is not built in parts: v, kv and their like. */
    method Put(key: seq<byte>, bytes: seq<byte>, ghost i: nat)
      requires pk != null && At(pk, i, 0)
      modifies pk, pk.all
      ensures pk == old(pk) && At(pk, i, 0) && pk.chain == old(pk.chain)[..i + 1]
      ensures pk.stack == Added(ClosedTo(old(pk.stack), i + 1), Item(key, Leaf(bytes)))
      ensures pk.all == old(pk.all) && pk.base == old(pk.base) && pk.whole == old(pk.whole)
    {
      hide Rendered, ClosedTo, Distinct, Added;
      Flush(i);
      label flushed:
      AddingAppends(pk.stack, Item(key, Leaf(bytes)));
      LeafBytes(key, bytes);
      ghost var before := pk.out;
      pk.Write(key);
      pk.Write(bytes);
      assert pk.out == before + (key + bytes);
      pk.stack := Added(pk.stack, Item(key, Leaf(bytes)));
      forall j | 0 <= j < |pk.chain|
        ensures pk.LinkAt(j)
      {
        assert old@flushed(pk.LinkAt(j));
      }
    }

    /** Makes the child that a new container is written through. */
    method MakeChild(ghost i: nat) returns (e: Entity)
      requires pk != null && pk.Linked(0) && |pk.chain| == i + 1 && pk.chain[i] == this
      modifies pk`chain, pk`all, this`child
      ensures pk.Linked(0) && pk.chain == old(pk.chain) + [e] && pk.all == old(pk.all) + {e}
      ensures fresh(e) && e.pk == pk && child == e
    {
      hide Distinct;
      ghost var chain := pk.chain;
      assert forall j :: 0 <= j < |chain| ==> pk.LinkAt(j);
      e := new Entity(pk);
      child := e;
      ChainGrows(chain, e);
      pk.chain := chain + [e];
      pk.all := pk.all + {e};
      forall j | 0 <= j < |pk.chain|
        ensures pk.LinkAt(j)
      {
        if j <= i {
          assert old(pk.LinkAt(j));
          SameIndex(chain, i, j);
        }
      }
    }

    /** Opens a container inside this one: vlist, vdict, kvlist, kvdict. */
    method Open(key: seq<byte>, mark: seq<byte>, head: seq<byte>, ghost i: nat) returns (e: Entity)
      requires pk != null && At(pk, i, 0)
      modifies pk, pk.all
      ensures pk == old(pk) && At(pk, i, 0) && pk.chain == old(pk.chain)[..i + 1] + [e] && fresh(e)
      ensures e.pk == pk && e.At(pk, i + 1, 0)
      ensures pk.stack == Nested(ClosedTo(old(pk.stack), i + 1), key, mark, head)
      ensures pk.all == old(pk.all) + {e} && pk.base == old(pk.base) && pk.whole == old(pk.whole)
    {
      hide Rendered, ClosedTo, Distinct, Nested;
      Flush(i);
      assert pk.Linked(0);
      NestingAppends(pk.stack, key, mark, head);
      ghost var before := pk.out;
      pk.Write(key);
      pk.Write(mark);
      e := MakeChild(i);
      pk.Write(head);
      pk.depth := pk.depth + 1;
      assert pk.out == before + (key + (mark + head));
      pk.stack := Nested(pk.stack, key, mark, head);
    }

    /** Writes a whole tree as one item, its containers through writers that nobody closes. */
    method PutTree(key: seq<byte>, t: Tree, ghost i: nat)
      requires pk != null && At(pk, i, 0)
      modifies pk, pk.all
      ensures pk == old(pk) && pk.Ok(0) && i < |pk.chain| && pk.chain[..i + 1] == old(pk.chain)[..i + 1]
      ensures ClosedTo(pk.stack, i + 1) == Added(ClosedTo(old(pk.stack), i + 1), Item(key, t))
      ensures pk.base == old(pk.base) && pk.whole == old(pk.whole) && fresh(pk.all - old(pk.all))
      decreases t, 1
    {
      hide Rendered, ClosedTo, Distinct, Added, Nested, ClosedTop, Written;
      var p := pk;
      match t {
        case Leaf(bytes) =>
          Put(key, bytes, i);
          AlreadyClosed(pk.stack, i + 1);
        case Node(mark, head, items) =>
          ghost var s := ClosedTo(pk.stack, i + 1);
          var e := Open(key, mark, head, i);
          AlreadyClosed(p.stack, i + 2);
          ghost var chain := p.chain;
          NestedTop(s, key, mark, head);
          e.PutItems(items, i + 1);
          assert chain[..i + 2] == chain;
          assert p.chain[..i + 1] == p.chain[..i + 2][..i + 1];
          assert p.LinkAt(i);
          ClosedToNext(p.stack, i + 1);
          NestedAndClosed(s, key, mark, head, items);
      }
    }

    /** Writes items to a container that has none yet. */
    method PutItems(items: seq<Item>, ghost i: nat)
      requires pk != null && At(pk, i, 0) && |pk.chain| == i + 1 && pk.stack[i].items == [] && pk.stack[i].key == []
      modifies pk, pk.all
      ensures pk == old(pk) && pk.Ok(0) && i < |pk.chain| && pk.chain[..i + 1] == old(pk.chain)[..i + 1]
      ensures ClosedTo(pk.stack, i + 1) == old(pk.stack)[..i] + [old(pk.stack)[i].(items := items)]
      ensures pk.base == old(pk.base) && pk.whole == old(pk.whole) && fresh(pk.all - old(pk.all))
      decreases items, 0
    {
      hide Rendered, ClosedTo, Distinct, Nested, ClosedTop, Written;
      AlreadyClosed(pk.stack, i + 1);
      ghost var s, chain := pk.stack, pk.chain;
      var j := 0;
      assert s[..i] + [s[i].(items := items[..0])] == s;
      assert chain[..i + 1] == chain;
      while j < |items|
        invariant j <= |items| && pk == old(pk) && pk.Ok(0) && i < |pk.chain| && pk.chain[..i + 1] == chain
        invariant ClosedTo(pk.stack, i + 1) == s[..i] + [s[i].(items := items[..j])]
        invariant pk.base == old(pk.base) && pk.whole == old(pk.whole) && fresh(pk.all - old(pk.all))
      {
        assert pk.chain[i] == pk.chain[..i + 1][i];
        assert items[j] in items;
        PutTree(items[j].key, items[j].tree, i);
        AddedTop(s, i, items, j);
        j := j + 1;
      }
      assert items[..|items|] == items;
    }
  }

  lemma NestedTop(s: seq<Frame>, key: seq<byte>, mark: seq<byte>, head: seq<byte>)
    requires s != []
    ensures var n := Nested(s, key, mark, head);
            n[|s|] == Frame(mark, head, [], []) &&
            forall items :: n[..|s|] + [n[|s|].(items := items)] ==
                            s[..|s| - 1] + [s[|s| - 1].(key := key), Frame(mark, head, items, [])]
  {
  }

  lemma AddedTop(s: seq<Frame>, i: nat, items: seq<Item>, j: nat)
    requires |s| == i + 1 && j < |items| && s[i].key == []
    ensures Added(s[..i] + [s[i].(items := items[..j])], Item(items[j].key, items[j].tree)) ==
            s[..i] + [s[i].(items := items[..j + 1])]
  {
    assert items[..j] + [items[j]] == items[..j + 1];
  }

  /** A document built through writers is the recursive encoding of what they describe. */
  method Build(pk: Packer, head: seq<byte>, items: seq<Item>)
    requires pk.Ok(0) && pk.chain == [] && pk.whole == None
    modifies pk, pk.all
    ensures pk.Ok(0) && pk.chain == [] && pk.whole == Some(Node([], head, items))
    ensures pk.out == pk.base + BytesOf(Node([], head, items)) && pk.base == old(pk.base)
  {
    hide Rendered, ClosedTo, Distinct, BytesOf;
    var e := OpenFirst(pk, head);
    e.PutItems(items, 0);
    assert pk.chain[0] == pk.chain[..1][0];
    assert pk.LinkAt(0);
    e.Close(0);
  }

  lemma ChainGrows(chain: seq<Entity>, e: Entity)
    requires Distinct(chain) && e !in chain
    ensures Distinct(chain + [e])
  {
  }

  lemma LeafBytes(key: seq<byte>, bytes: seq<byte>)
    ensures ItemBytes(Item(key, Leaf(bytes))) == key + bytes
  {
  }

  /** Opens the outermost container on a packer that has none yet. */
  method OpenFirst(pk: Packer, head: seq<byte>) returns (e: Entity)
    requires pk.Ok(0) && pk.chain == [] && pk.whole == None
    modifies pk
    ensures fresh(e) && e.pk == pk && e.At(pk, 0, 0) && pk.chain == [e]
    ensures pk.stack == [Frame([], head, [], [])] && pk.all == old(pk.all) + {e} && pk.base == old(pk.base) && pk.whole == None
  {
    e := new Entity(pk);
    pk.Write(head);
    pk.depth := pk.depth + 1;
    pk.chain := [e];
    pk.all := pk.all + {e};
    pk.stack := [Frame([], head, [], [])];
    OneLevel(Frame([], head, [], []));
    EmptyItems();
    assert pk.LinkAt(0);
  }
}
