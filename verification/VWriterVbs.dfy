/** What the incremental builder writes is what the recursive encoder of the C library writes, and what the Java decoder makes of it. */
module VWriterVbs {
  import opened Bytes
  import opened VbsNumber
  import opened VbsDouble
  import opened Vbs
  import opened VbsRoundTrip
  import opened VWriter

  /** How a value is described to the writers: scalars as the C library packs them, containers item by item. */
  function TreeOf(v: Value): (t: Tree)
    requires Valid(Native, v)
    decreases v, 1
  {
    match v
    case List(items) => Node([], [LIST], TreesOf(items))
    case Dict(entries) => Node([], [DICT], PairsOf(entries))
    case _ => Leaf(Encode(Native, v))
  }

  function TreesOf(items: seq<Value>): (r: seq<Item>)
    requires ValidItems(Native, items)
    ensures |r| == |items|
    decreases items, 0
  {
    if items == [] then [] else [Item([], TreeOf(items[0]))] + TreesOf(items[1..])
  }

  function PairsOf(entries: seq<Entry>): (r: seq<Item>)
    requires ValidEntries(Native, entries)
    ensures |r| == |entries|
    decreases entries, 0
  {
    if entries == [] then [] else [PairOf(entries[0])] + PairsOf(entries[1..])
  }

  function PairOf(e: Entry): Item
    requires ValidEntry(Native, e)
    decreases e, 2
  {
    Item(Encode(Native, e.key), TreeOf(e.val))
  }

  lemma {:induction false} TreesEncode(v: Value)
    requires Valid(Native, v)
    ensures BytesOf(TreeOf(v)) == Encode(Native, v)
    decreases v, 1
  {
    hide EncodeDouble, EncodeInteger, IntStr, NumTag, DistinctKeys, IsDoubleOf;
    match v {
      case List(items) =>
        ItemsEncode(items);
        assert [] + [LIST] + ItemsBytes(TreesOf(items)) + [TAIL] == Encode(Native, v);
      case Dict(entries) =>
        PairsEncode(entries);
        assert [] + [DICT] + ItemsBytes(PairsOf(entries)) + [TAIL] == Encode(Native, v);
      case _ =>
    }
  }

  lemma {:induction false} ItemsEncode(items: seq<Value>)
    requires ValidItems(Native, items)
    ensures ItemsBytes(TreesOf(items)) == EncodeItems(Native, items)
    decreases items, 0
  {
    hide Encode, TreeOf, BytesOf;
    if items != [] {
      TreesEncode(items[0]);
      ItemsEncode(items[1..]);
      var r := TreesOf(items);
      assert r[1..] == TreesOf(items[1..]);
      assert ItemBytes(r[0]) == Encode(Native, items[0]);
    }
  }

  lemma {:induction false} PairsEncode(entries: seq<Entry>)
    requires ValidEntries(Native, entries)
    ensures ItemsBytes(PairsOf(entries)) == EncodeEntries(Native, entries)
    decreases entries, 0
  {
    if entries != [] {
      PairEncodes(entries[0]);
      PairsEncode(entries[1..]);
      assert PairsOf(entries)[1..] == PairsOf(entries[1..]);
    }
  }

  lemma {:induction false} PairEncodes(e: Entry)
    requires ValidEntry(Native, e)
    ensures ItemBytes(PairOf(e)) == EncodeEntry(Native, e)
    decreases e, 2
  {
    hide Encode, TreeOf;
    TreesEncode(e.val);
  }

  /** What the writers are told, the Java decoder gives back, whatever follows, exactly if no key is null or
      repeated and every NaN is the one Java has. */
  lemma BuiltIsReadBack(v: Value, rest: seq<byte>)
    requires Valid(Native, v)
    ensures Decode(BytesOf(TreeOf(v)) + rest, 0) == Val(v, |BytesOf(TreeOf(v))|) <==> Preserved(Native, v)
  {
    hide Decode, Encode, BytesOf, TreeOf, Preserved;
    TreesEncode(v);
    RoundTrip(Native, v, rest);
  }

  /** Of the scalars that Java knows, the two encoders write four differently: the most negative integer,
      zero of either sign, and negative infinity. */
  lemma ScalarsAgree(v: Value)
    requires Valid(Java, v) && !v.List? && !v.Dict?
    ensures Encode(Java, v) == Encode(Native, v) <==>
      v != Int(LONG_MIN) && v != Dbl(0) && v != Dbl(TWO_63) && v != Dbl(TWO_63 + INFINITY)
  {
    hide EncodeDouble, IntStr, NumTag;
    match v
    case Int(n) => IntegersAgree(n);
    case Dbl(bits) => DoublesAgree(bits);
    case _ =>
  }

  lemma IntegersAgree(n: int)
    requires IsLong(n)
    ensures PackedInteger(n) == NativeInteger(n) <==> n != LONG_MIN
  {
    if n == LONG_MIN {
      assert NativeInteger(n)[0] == 0x80;
    }
  }

  lemma DoublesAgree(bits: nat)
    requires IsDouble(bits)
    ensures EncodeDouble(Java, bits) == EncodeDouble(Native, bits) <==> bits !in {0, TWO_63, TWO_63 + INFINITY}
  {
    hide BreakDouble, BreakNative, NumTag;
    PartsAgree(bits);
    PartsAreSmall(bits);
    var p, q := BreakDouble(bits), BreakNative(bits);
    if p == q {
      IntegersAgree(p.expo);
    } else {
      EndsDiffer(NumTag(FLOATING, 0), PackedInteger(p.expo), NativeInteger(q.expo));
    }
  }

  lemma EndsDiffer(s: seq<byte>, t: seq<byte>, u: seq<byte>)
    requires |t| == |u| == 1 && t[0] != u[0]
    ensures s + t != s + u
  {
    assert (s + t)[|s|] == t[0] && (s + u)[|s|] == u[0];
  }
}
