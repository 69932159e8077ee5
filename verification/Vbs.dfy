/** The VBS encoding of nested values: what is written, what is read back, and when they agree. */
module Vbs {
  import opened Bytes
  import opened VbsNumber
  import opened VbsDouble

  /** Who encodes: the Java encoder, or the C library that the C++ writers use (xslib/vbs_pack.c).
      They differ in the most negative integer and in doubles. */
  datatype Writer = Java | Native

  /** A value an encoder takes. A double is given by its bits, a string by its bytes in the
      character set in use, a map by its entries in iteration order. */
  datatype Value =
    | Null
    | Bool(b: bool)
    | Int(n: int)
    | Str(s: seq<byte>)
    | Blob(s: seq<byte>)
    | Dbl(bits: nat)
    | List(items: seq<Value>)
    | Dict(entries: seq<Entry>)

  datatype Entry = Entry(key: Value, val: Value)

  const ARRAY_MAX := 0x8000_0000

  /** What every value given to an encoder satisfies: numbers in range, arrays not too long. In Java there is
      one pattern for NaN, and the keys of a map are distinct; a C++ writer takes any key any number of times. */
  predicate Valid(w: Writer, v: Value)
    decreases v, 1
  {
    match v
    case Null => true
    case Bool(_) => true
    case Int(n) => IsLong(n)
    case Str(s) => |s| < ARRAY_MAX
    case Blob(s) => |s| < ARRAY_MAX
    case Dbl(bits) => IsDoubleOf(w, bits)
    case List(items) => ValidItems(w, items)
    case Dict(entries) => ValidEntries(w, entries) && (w.Java? ==> DistinctKeys(entries))
  }

  predicate IsDoubleOf(w: Writer, bits: nat) {
    bits < TWO_64 && (w.Java? ==> IsDouble(bits))
  }

  predicate ValidItems(w: Writer, items: seq<Value>)
    decreases items, 0
  {
    items != [] ==> Valid(w, items[0]) && ValidItems(w, items[1..])
  }

  predicate ValidEntries(w: Writer, entries: seq<Entry>)
    decreases entries, 0
  {
    entries != [] ==> ValidEntry(w, entries[0]) && ValidEntries(w, entries[1..])
  }

  predicate ValidEntry(w: Writer, e: Entry)
    decreases e, 2
  {
    Valid(w, e.key) && Valid(w, e.val)
  }

  predicate DistinctKeys(entries: seq<Entry>) {
    forall i, j :: 0 <= i < j < |entries| ==> entries[i].key != entries[j].key
  }

  // ---- Encoding ----

  function EncodeDouble(w: Writer, bits: nat): seq<byte>
    requires IsDoubleOf(w, bits)
  {
    var p := PartsOf(w, bits);
    (if p.significant < 0 then NumTag(FLOATING + 1, -p.significant) else NumTag(FLOATING, p.significant)) + EncodeInteger(w, p.expo)
  }

  function PartsOf(w: Writer, bits: nat): (p: Parts)
    requires IsDoubleOf(w, bits)
    ensures IsLong(p.significant) && IsLong(p.expo)
  {
    NativePartsAreSmall(bits);
    if w.Java? then
      PartsAreSmall(bits);
      BreakDouble(bits)
    else BreakNative(bits)
  }

  function EncodeInteger(w: Writer, n: int): (s: seq<byte>)
    requires IsLong(n)
    ensures s != []
  {
    if w.Java? then PackedInteger(n) else NativeInteger(n)
  }

  /** _pack, and vbs_pack_data for the C library. */
  function Encode(w: Writer, v: Value): (s: seq<byte>)
    requires Valid(w, v)
    ensures s != []
    decreases v, 1
  {
    match v
    case Null => [NULL]
    case Bool(b) => [if b then BOOL + 1 else BOOL]
    case Int(n) => EncodeInteger(w, n)
    case Str(s) => IntStr(STRING, |s|) + s
    case Blob(s) => NumTag(BLOB, |s|) + s
    case Dbl(bits) => EncodeDouble(w, bits)
    case List(items) => [LIST] + EncodeItems(w, items) + [TAIL]
    case Dict(entries) => [DICT] + EncodeEntries(w, entries) + [TAIL]
  }

  function EncodeItems(w: Writer, items: seq<Value>): seq<byte>
    requires ValidItems(w, items)
    decreases items, 0
  {
    if items == [] then [] else Encode(w, items[0]) + EncodeItems(w, items[1..])
  }

  function EncodeEntries(w: Writer, entries: seq<Entry>): seq<byte>
    requires ValidEntries(w, entries)
    decreases entries, 0
  {
    if entries == [] then []
    else EncodeEntry(w, entries[0]) + EncodeEntries(w, entries[1..])
  }

  function EncodeEntry(w: Writer, e: Entry): seq<byte>
    requires ValidEntry(w, e)
    decreases e, 2
  {
    Encode(w, e.key) + Encode(w, e.val)
  }

  // ---- Decoding ----

  /** What _decode returns, and where it leaves the cursor. Java's null is also its answer to an error.
      Stray: a list whose end is missing, for which the source never returns, or a negative length,
      for which it moves its cursor backwards. */
  datatype Decoded = Val(v: Value, next: nat) | TailMark(next: nat) | Stray

  /** Map.put on entries in the order their keys first came. */
  function PutEntry(entries: seq<Entry>, k: Value, v: Value): (r: seq<Entry>)
    ensures |entries| <= |r| <= |entries| + 1
  {
    if entries == [] then [Entry(k, v)]
    else if entries[0].key == k then [Entry(k, v)] + entries[1..]
    else [entries[0]] + PutEntry(entries[1..], k, v)
  }

  /** The bytes a string or blob announces. */
  function DecodeBytes(buf: seq<byte>, t: Tag, blob: bool): Decoded
    requires t.Tag? && t.next <= |buf|
  {
    if t.num > |buf| - t.next then Val(Null, t.next)
    else if t.num < 0 then Stray
    else
      var s := buf[t.next..t.next + t.num];
      Val(if blob then Blob(s) else Str(s), t.next + t.num)
  }

  function DecodeDouble(buf: seq<byte>, t: Tag): Decoded
    requires t.Tag? && t.next <= |buf|
  {
    var x := UnpackTag(buf, t.next, 0);
    if x.Tag? && x.kind == INTEGER then Val(Dbl(MakeDouble(t.num, ToInt(x.num))), x.next)
    else Val(Null, x.next)
  }

  /** _decode */
  function Decode(buf: seq<byte>, i: nat): (d: Decoded)
    requires i <= |buf|
    ensures !d.Stray? ==> i <= d.next <= |buf| && (i < |buf| ==> i < d.next)
    ensures i == |buf| ==> d == Val(Null, i)
    ensures d.TailMark? ==> i < d.next
    decreases |buf| - i, 1
  {
    var t := UnpackTag(buf, i, 0);
    if !t.Tag? then Val(Null, t.next)
    else if t.kind == INTEGER then Val(Int(t.num), t.next)
    else if t.kind == STRING then DecodeBytes(buf, t, false)
    else if t.kind == BLOB then DecodeBytes(buf, t, true)
    else if t.kind == BOOL then Val(Bool(t.num != 0), t.next)
    else if t.kind == FLOATING then DecodeDouble(buf, t)
    else if t.kind == LIST then DecodeList(buf, t.next, [])
    else if t.kind == DICT then DecodeDict(buf, t.next, [])
    else if t.kind == TAIL then TailMark(t.next)
    else Val(Null, t.next)
  }

  /** _decode_list: at the end of the buffer it adds nulls for ever. */
  function DecodeList(buf: seq<byte>, i: nat, items: seq<Value>): (d: Decoded)
    requires i <= |buf|
    ensures !d.Stray? ==> i <= d.next <= |buf|
    ensures !d.TailMark?
    decreases |buf| - i, 2
  {
    if i == |buf| then Stray
    else
      match Decode(buf, i)
      case Stray => Stray
      case TailMark(next) => Val(List(items), next)
      case Val(v, next) => DecodeList(buf, next, items + [v])
  }

  /** _decode_dict: a null key or a missing value is an error. */
  function DecodeDict(buf: seq<byte>, i: nat, entries: seq<Entry>): (d: Decoded)
    requires i <= |buf|
    ensures !d.Stray? ==> i <= d.next <= |buf|
    ensures !d.TailMark?
    decreases |buf| - i, 2
  {
    match Decode(buf, i)
    case Stray => Stray
    case TailMark(next) => Val(Dict(entries), next)
    case Val(k, next) =>
      if k == Null then Val(Null, next)
      else
        match Decode(buf, next)
        case Stray => Stray
        case TailMark(after) => Val(Null, after)
        case Val(v, after) =>
          DecodeDict(buf, after, PutEntry(entries, k, v))
  }
}
