/**
 * The incremental builder of VBS lists and dicts (xic/VWriter.cpp, xic/VWriter.h):
 * writers share a packer; writing to one closes whatever is open below it.
 */
module VWriter {
  import opened Bytes
  import opened VbsNumber

  // ------------------------------------------------- what is being described

  /** A finished piece of data: a scalar's bytes, or a container with what stands before and opens it. */
  datatype Tree = Leaf(bytes: seq<byte>) | Node(mark: seq<byte>, head: seq<byte>, items: seq<Item>)

  /** An item of a container, with the bytes of its key; empty for an item of a list. */
  datatype Item = Item(key: seq<byte>, tree: Tree)

  /** The recursive encoding. */
  function BytesOf(t: Tree): (s: seq<byte>)
    decreases t, 1
  {
    match t
    case Leaf(bytes) => bytes
    case Node(mark, head, items) => mark + head + ItemsBytes(items) + [TAIL]
  }

  function ItemsBytes(items: seq<Item>): (s: seq<byte>)
    decreases items, 0
  {
    if items == [] then [] else ItemBytes(items[0]) + ItemsBytes(items[1..])
  }

  function ItemBytes(i: Item): (s: seq<byte>)
    decreases i, 2
  {
    i.key + BytesOf(i.tree)
  }

  /** An open container; key is the key of its open child, if it has one. */
  datatype Frame = Frame(mark: seq<byte>, head: seq<byte>, items: seq<Item>, key: seq<byte>)

  function Finished(f: Frame): Tree {
    Node(f.mark, f.head, f.items)
  }

  /** The bytes written so far for nested open containers, the outermost first. */
  function Rendered(stack: seq<Frame>): (s: seq<byte>)
    decreases |stack|
  {
    if stack == [] then []
    else
      stack[0].mark + stack[0].head + ItemsBytes(stack[0].items) +
      (if |stack| > 1 then stack[0].key else []) + Rendered(stack[1..])
  }

  /** The innermost container ends and becomes an item of the one around it. */
  function ClosedTop(stack: seq<Frame>): (r: seq<Frame>)
    requires |stack| > 1
    ensures |r| == |stack| - 1
    ensures r[..|r| - 1] == stack[..|stack| - 2]
  {
    var f, top := stack[|stack| - 2], stack[|stack| - 1];
    stack[..|stack| - 2] + [f.(items := f.items + [Item(f.key, Finished(top))], key := [])]
  }

  /** Everything below level n ends, the innermost first. */
  function ClosedTo(stack: seq<Frame>, n: nat): (r: seq<Frame>)
    requires 0 < n <= |stack|
    ensures |r| == n && r[..n - 1] == stack[..n - 1]
    decreases |stack|
  {
    if |stack| == n then stack else ClosedTo(ClosedTop(stack), n)
  }

  lemma {:induction false} ItemsBytesMore(items: seq<Item>, i: Item)
    ensures ItemsBytes(items + [i]) == ItemsBytes(items) + ItemBytes(i)
  {
    if items == [] {
      assert ItemsBytes([i]) == ItemBytes(i) + ItemsBytes([]);
      assert items + [i] == [i];
    } else {
      ItemsBytesMore(items[1..], i);
      assert (items + [i])[1..] == items[1..] + [i];
      hide ItemBytes;
      Regroup(ItemBytes(items[0]), ItemsBytes(items[1..]), ItemBytes(i));
    }
  }

  lemma Regroup(a: seq<byte>, b: seq<byte>, c: seq<byte>)
    ensures a + (b + c) == a + b + c
  {
  }

  /** Packing one tail is what closing the innermost container amounts to. */
  lemma {:induction false} TailClosesTop(stack: seq<Frame>)
    requires |stack| > 1
    ensures Rendered(ClosedTop(stack)) == Rendered(stack) + [TAIL]
    decreases |stack|
  {
    var f := stack[0];
    if |stack| == 2 {
      TwoLevels(f, stack[1]);
      assert stack == [f, stack[1]];
    } else {
      TailClosesTop(stack[1..]);
      assert ClosedTop(stack)[1..] == ClosedTop(stack[1..]);
      assert ClosedTop(stack)[0] == f;
      hide ClosedTop, ItemsBytes;
      Regroup(f.mark + f.head + ItemsBytes(f.items) + f.key, Rendered(stack[1..]), [TAIL]);
    }
  }

  lemma OneLevel(f: Frame)
    ensures Rendered([f]) == f.mark + f.head + ItemsBytes(f.items)
    ensures Rendered([f]) + [TAIL] == BytesOf(Finished(f))
  {
    assert [f][1..] == [];
  }

  lemma TwoLevels(f: Frame, top: Frame)
    ensures Rendered(ClosedTop([f, top])) == Rendered([f, top]) + [TAIL]
  {
    var g := f.(items := f.items + [Item(f.key, Finished(top))], key := []);
    assert [f, top][..0] == [];
    assert ClosedTop([f, top]) == [g];
    OneLevel(g);
    OneLevel(top);
    assert [f, top][1..] == [top];
    ItemsBytesMore(f.items, Item(f.key, Finished(top)));
    Spread(f.mark + f.head, ItemsBytes(f.items), f.key, Rendered([top]), [TAIL]);
  }

  lemma Spread(a: seq<byte>, b: seq<byte>, c: seq<byte>, d: seq<byte>, e: seq<byte>)
    ensures a + (b + (c + (d + e))) == a + b + c + d + e
  {
  }

  /** One more item in the innermost container. */
  function Added(stack: seq<Frame>, i: Item): (r: seq<Frame>)
    requires stack != []
    ensures |r| == |stack| && r[..|r| - 1] == stack[..|stack| - 1]
  {
    var f := stack[|stack| - 1];
    stack[..|stack| - 1] + [f.(items := f.items + [i], key := [])]
  }

  /** A container opened in the innermost one, under a key. */
  function Nested(stack: seq<Frame>, key: seq<byte>, mark: seq<byte>, head: seq<byte>): (r: seq<Frame>)
    requires stack != []
    ensures |r| == |stack| + 1 && r[..|stack| - 1] == stack[..|stack| - 1]
  {
    stack[..|stack| - 1] + [stack[|stack| - 1].(key := key)] + [Frame(mark, head, [], [])]
  }

  lemma {:induction false} AddingAppends(stack: seq<Frame>, i: Item)
    requires stack != []
    ensures Rendered(Added(stack, i)) == Rendered(stack) + ItemBytes(i)
    decreases |stack|
  {
    var f := stack[0];
    if |stack| == 1 {
      assert stack == [f] && stack[..0] == [];
      assert Added(stack, i) == [f.(items := f.items + [i], key := [])];
      OneLevel(f);
      OneLevel(f.(items := f.items + [i], key := []));
      ItemsBytesMore(f.items, i);
      hide ItemsBytes, ItemBytes;
      Regroup(f.mark + f.head, ItemsBytes(f.items), ItemBytes(i));
    } else {
      AddingAppends(stack[1..], i);
      assert Added(stack, i)[1..] == Added(stack[1..], i);
      assert Added(stack, i)[0] == f;
      hide Added, ItemsBytes, ItemBytes;
      Regroup(f.mark + f.head + ItemsBytes(f.items) + f.key, Rendered(stack[1..]), ItemBytes(i));
    }
  }

  lemma {:induction false} NestingAppends(stack: seq<Frame>, key: seq<byte>, mark: seq<byte>, head: seq<byte>)
    requires stack != []
    ensures Rendered(Nested(stack, key, mark, head)) == Rendered(stack) + (key + (mark + head))
    decreases |stack|
  {
    var f := stack[0];
    var n := Nested(stack, key, mark, head);
    if |stack| == 1 {
      assert stack == [f] && stack[..0] == [];
      assert n == [f.(key := key), Frame(mark, head, [], [])];
      assert n[1..] == [Frame(mark, head, [], [])];
      OneLevel(f);
      OneLevel(Frame(mark, head, [], []));
      hide ItemsBytes;
      EmptyItems();
      Regroup(f.mark + f.head + ItemsBytes(f.items), key, mark + head);
    } else {
      NestingAppends(stack[1..], key, mark, head);
      assert n[1..] == Nested(stack[1..], key, mark, head);
      assert n[0] == f;
      hide Nested, ItemsBytes;
      Regroup(f.mark + f.head + ItemsBytes(f.items) + f.key, Rendered(stack[1..]), key + (mark + head));
    }
  }

  lemma EmptyItems()
    ensures ItemsBytes([]) == []
  {
  }

  // -------------------------------------------------------- whole values

  /** A container that was opened, filled and closed is one more item of the one around it. */
  lemma NestedAndClosed(s: seq<Frame>, key: seq<byte>, mark: seq<byte>, head: seq<byte>, items: seq<Item>)
    requires s != []
    ensures ClosedTop(s[..|s| - 1] + [s[|s| - 1].(key := key), Frame(mark, head, items, [])]) ==
            Added(s, Item(key, Node(mark, head, items)))
  {
  }
}
