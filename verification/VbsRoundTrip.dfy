/** Decoding what was encoded. */
module VbsRoundTrip {
  import opened Bytes
  import opened VbsNumber
  import opened VbsDouble
  import opened Vbs

  // ---- What decoding makes of an encoding ----

  /** No dict at any depth has a null key. */
  predicate NoNullKeys(v: Value)
    decreases v, 1
  {
    match v
    case List(items) => NoNullKeysIn(items)
    case Dict(entries) => NoNullKeysAmong(entries)
    case _ => true
  }

  predicate NoNullKeysIn(items: seq<Value>)
    decreases items, 0
  {
    items != [] ==> NoNullKeys(items[0]) && NoNullKeysIn(items[1..])
  }

  predicate NoNullKeysAmong(entries: seq<Entry>)
    decreases entries, 0
  {
    entries != [] ==> EntryHasNoNullKeys(entries[0]) && NoNullKeysAmong(entries[1..])
  }

  predicate EntryHasNoNullKeys(e: Entry)
    decreases e, 2
  {
    e.key != Null && NoNullKeys(e.key) && NoNullKeys(e.val)
  }

  /** The value that comes back for one without null keys. */
  function Image(w: Writer, v: Value): (r: Value)
    requires Valid(w, v)
    ensures r == Null <==> v == Null
    decreases v, 1
  {
    match v
    case Int(n) => Int(if w.Java? then ReadBack(n) else n)
    case Dbl(bits) => Dbl(RebuiltFrom(w, bits))
    case List(items) => List(Images(w, items))
    case Dict(entries) => Dict(PutImages(w, [], entries))
    case _ => v
  }

  function RebuiltFrom(w: Writer, bits: nat): nat {
    if w.Java? then Rebuilt(bits) else if IsDouble(bits) then bits else NOT_A_NUMBER
  }

  function Images(w: Writer, items: seq<Value>): (r: seq<Value>)
    requires ValidItems(w, items)
    ensures |r| == |items|
    decreases items, 0
  {
    if items == [] then [] else [Image(w, items[0])] + Images(w, items[1..])
  }

  function PutImages(w: Writer, acc: seq<Entry>, entries: seq<Entry>): (r: seq<Entry>)
    requires ValidEntries(w, entries)
    ensures |r| <= |acc| + |entries|
    decreases entries, 0
  {
    if entries == [] then acc
    else
      var e := EntryImage(w, entries[0]);
      PutImages(w, PutEntry(acc, e.key, e.val), entries[1..])
  }

  function EntryImage(w: Writer, e: Entry): (r: Entry)
    requires ValidEntry(w, e)
    ensures e.key != Null ==> r.key != Null
    decreases e, 2
  {
    Entry(Image(w, e.key), Image(w, e.val))
  }

  lemma DecodeDoubleInverse(w: Writer, buf: seq<byte>, i: nat, bits: nat)
    requires IsDoubleOf(w, bits) && At(buf, i, EncodeDouble(w, bits))
    ensures Decode(buf, i) == Val(Dbl(RebuiltFrom(w, bits)), i + |EncodeDouble(w, bits)|)
  {
    hide BreakDouble, BreakNative, MakeDouble, UnpackTag, NumTag, PackedInteger, NativeInteger, DecodeList, DecodeDict, At;
    var p := PartsOf(w, bits);
    SmallParts(w, bits);
    var tag, n := if p.significant < 0 then FLOATING + 1 else FLOATING, if p.significant < 0 then 0 - p.significant else p.significant;
    AtSplits(buf, i, NumTag(tag, n), EncodeInteger(w, p.expo));
    UnpackNumTag(buf, i, tag, n);
    UnpackInteger(w, buf, i + |NumTag(tag, n)|, p.expo);
  }

  lemma SmallParts(w: Writer, bits: nat)
    requires IsDoubleOf(w, bits)
    ensures var p := PartsOf(w, bits);
      MakeDouble(p.significant, p.expo) == RebuiltFrom(w, bits) && -2 * TWO_52 < p.significant < 2 * TWO_52 && -2000 <= p.expo <= 2000
  {
    hide BreakDouble, BreakNative, MakeDouble, Rebuilt, IsDouble;
    if w.Java? {
      PartsAreSmall(bits);
      RebuildExactly(bits);
    } else {
      RebuildNative(bits);
    }
  }

  lemma UnpackInteger(w: Writer, buf: seq<byte>, i: nat, n: int)
    requires IsLong(n) && At(buf, i, EncodeInteger(w, n))
    ensures UnpackTag(buf, i, 0) == Tag(INTEGER, 0, if w.Java? then ReadBack(n) else n, i + |EncodeInteger(w, n)|)
  {
    hide UnpackTag, PackedInteger, NativeInteger;
    if w.Java? {
      UnpackPackedInteger(buf, i, n);
    } else {
      UnpackNativeInteger(buf, i, n);
    }
  }

  lemma DecodeBytesInverse(buf: seq<byte>, i: nat, s: seq<byte>, blob: bool)
    requires |s| < ARRAY_MAX && At(buf, i, (if blob then NumTag(BLOB, |s|) else IntStr(STRING, |s|)) + s)
    ensures Decode(buf, i) == Val(if blob then Blob(s) else Str(s), i + |(if blob then NumTag(BLOB, |s|) else IntStr(STRING, |s|)) + s|)
  {
    hide UnpackTag, NumTag, IntStr, DecodeList, DecodeDict;
    var head := if blob then NumTag(BLOB, |s|) else IntStr(STRING, |s|);
    AtSplits(buf, i, head, s);
    if blob {
      UnpackNumTag(buf, i, BLOB, |s|);
    } else {
      UnpackIntStr(buf, i, STRING, |s|);
    }
  }

  /** A one-byte tag. */
  lemma UnpackByte(buf: seq<byte>, i: nat, x: byte, rest: seq<byte>)
    requires x in {TAIL, LIST, DICT, NULL, BOOL, BOOL + 1} && At(buf, i, [x] + rest)
    ensures UnpackTag(buf, i, 0) == Tag(if x == BOOL + 1 then BOOL else x, 0, if x == BOOL + 1 then 1 else 0, i + 1)
    ensures At(buf, i + 1, rest)
  {
    AtHead(buf, i, x, rest);
  }

  lemma DecodeAtScalar(w: Writer, buf: seq<byte>, i: nat, v: Value)
    requires Valid(w, v) && !v.List? && !v.Dict? && At(buf, i, Encode(w, v))
    ensures Decode(buf, i) == Val(Image(w, v), i + |Encode(w, v)|)
  {
    hide UnpackTag, At, DecodeList, DecodeDict, EncodeInteger, EncodeDouble, IntStr, NumTag, RebuiltFrom, IsDoubleOf, DecodeBytes, DecodeDouble;
    match v
    case Null =>
      assert [NULL] == [NULL] + [];
      UnpackByte(buf, i, NULL, []);
    case Bool(b) =>
      var x: byte := if b then BOOL + 1 else BOOL;
      assert [x] == [x] + [];
      UnpackByte(buf, i, x, []);
    case Int(n) => UnpackInteger(w, buf, i, n);
    case Str(s) => DecodeBytesInverse(buf, i, s, false);
    case Blob(s) => DecodeBytesInverse(buf, i, s, true);
    case Dbl(bits) => DecodeDoubleInverse(w, buf, i, bits);
  }

  /** Wherever an encoding stands in a buffer, decoding there gives its image and stops right behind it. */
  lemma {:induction false} DecodeAtEncoding(w: Writer, buf: seq<byte>, i: nat, v: Value)
    requires Valid(w, v) && NoNullKeys(v) && At(buf, i, Encode(w, v))
    ensures Decode(buf, i) == Val(Image(w, v), i + |Encode(w, v)|)
    decreases v, 1
  {
    hide UnpackTag, At, DecodeList, DecodeDict, DistinctKeys, EncodeInteger, EncodeDouble, IntStr, NumTag, Images, PutImages;
    match v
    case List(items) =>
      OpenContainer(buf, i, LIST, EncodeItems(w, items));
      DecodeAtItems(w, buf, i + 1, [], items);
      assert [] + Images(w, items) == Images(w, items);
    case Dict(entries) =>
      OpenContainer(buf, i, DICT, EncodeEntries(w, entries));
      DecodeAtEntries(w, buf, i + 1, [], entries);
    case _ =>
      DecodeAtScalar(w, buf, i, v);
  }

  lemma OpenContainer(buf: seq<byte>, i: nat, x: byte, body: seq<byte>)
    requires (x == LIST || x == DICT) && At(buf, i, [x] + body + [TAIL])
    ensures i + 1 <= |buf| && UnpackTag(buf, i, 0) == Tag(x, 0, 0, i + 1) && At(buf, i + 1, body + [TAIL])
  {
    assert [x] + body + [TAIL] == [x] + (body + [TAIL]);
    UnpackByte(buf, i, x, body + [TAIL]);
  }

  lemma CloseContainer(buf: seq<byte>, i: nat)
    requires At(buf, i, [] + [TAIL])
    ensures i < |buf| && Decode(buf, i) == TailMark(i + 1)
  {
    assert [] + [TAIL] == [TAIL] + [];
    UnpackByte(buf, i, TAIL, []);
  }

  lemma AtFits(buf: seq<byte>, i: nat, s: seq<byte>)
    requires At(buf, i, s)
    ensures i + |s| <= |buf|
  {
  }

  lemma KeyIsNotNull(w: Writer, e: Entry)
    requires ValidEntry(w, e) && EntryHasNoNullKeys(e)
    ensures Image(w, e.key) != Null
  {
  }

  lemma {:induction false} DecodeAtItems(w: Writer, buf: seq<byte>, i: nat, acc: seq<Value>, items: seq<Value>)
    requires ValidItems(w, items) && NoNullKeysIn(items) && i <= |buf| && At(buf, i, EncodeItems(w, items) + [TAIL])
    ensures DecodeList(buf, i, acc) == Val(List(acc + Images(w, items)), i + |EncodeItems(w, items)| + 1)
    decreases items, 0
  {
    hide UnpackTag, At, Decode;
    if items == [] {
      CloseContainer(buf, i);
      assert acc + [] == acc;
    } else {
      var s, t := Encode(w, items[0]), EncodeItems(w, items[1..]) + [TAIL];
      assert EncodeItems(w, items) + [TAIL] == s + t;
      AtSplits(buf, i, s, t);
      AtFits(buf, i, s + t);
      DecodeAtEncoding(w, buf, i, items[0]);
      DecodeAtItems(w, buf, i + |s|, acc + [Image(w, items[0])], items[1..]);
      assert acc + [Image(w, items[0])] + Images(w, items[1..]) == acc + Images(w, items);
    }
  }

  lemma {:induction false} DecodeAtEntries(w: Writer, buf: seq<byte>, i: nat, acc: seq<Entry>, entries: seq<Entry>)
    requires ValidEntries(w, entries) && NoNullKeysAmong(entries) && i <= |buf| && At(buf, i, EncodeEntries(w, entries) + [TAIL])
    ensures DecodeDict(buf, i, acc) == Val(Dict(PutImages(w, acc, entries)), i + |EncodeEntries(w, entries)| + 1)
    decreases entries, 0
  {
    hide UnpackTag, At, Decode, Encode, EncodeEntry, PutEntry, EntryHasNoNullKeys;
    if entries == [] {
      CloseContainer(buf, i);
    } else {
      var e, rest := entries[0], EncodeEntries(w, entries[1..]) + [TAIL];
      assert EncodeEntries(w, entries) + [TAIL] == EncodeEntry(w, e) + rest;
      AtSplits(buf, i, EncodeEntry(w, e), rest);
      AtFits(buf, i, EncodeEntry(w, e) + rest);
      DecodeAtEntry(w, buf, i, e);
      KeyIsNotNull(w, e);
      DecodeAtEntries(w, buf, i + |EncodeEntry(w, e)|, PutEntry(acc, Image(w, e.key), Image(w, e.val)), entries[1..]);
    }
  }

  lemma {:induction false} DecodeAtEntry(w: Writer, buf: seq<byte>, i: nat, e: Entry)
    requires ValidEntry(w, e) && EntryHasNoNullKeys(e) && i <= |buf| && At(buf, i, EncodeEntry(w, e))
    ensures Decode(buf, i) == Val(Image(w, e.key), i + |Encode(w, e.key)|)
    ensures i + |Encode(w, e.key)| <= |buf|
    ensures Decode(buf, i + |Encode(w, e.key)|) == Val(Image(w, e.val), i + |EncodeEntry(w, e)|)
    decreases e, 2
  {
    hide Decode, Image, At, Encode, NoNullKeys, Valid;
    AtSplits(buf, i, Encode(w, e.key), Encode(w, e.val));
    AtFits(buf, i, Encode(w, e.key));
    DecodeAtEncoding(w, buf, i, e.key);
    DecodeAtEncoding(w, buf, i + |Encode(w, e.key)|, e.val);
  }

  // ---- When the image is the value itself ----

  /** From Java no most negative long, negative zero or negative infinity, from the C library no NaN but Java's own;
      and no null key or repeated key, at any depth. */
  predicate Preserved(w: Writer, v: Value)
    decreases v, 1
  {
    match v
    case Int(n) => w.Java? ==> n != LONG_MIN
    case Dbl(bits) => if w.Java? then bits != TWO_63 && bits != TWO_63 + INFINITY else IsDouble(bits)
    case List(items) => PreservedItems(w, items)
    case Dict(entries) => DistinctKeys(entries) && PreservedEntries(w, entries)
    case _ => true
  }

  predicate PreservedItems(w: Writer, items: seq<Value>)
    decreases items, 0
  {
    items != [] ==> Preserved(w, items[0]) && PreservedItems(w, items[1..])
  }

  predicate PreservedEntries(w: Writer, entries: seq<Entry>)
    decreases entries, 0
  {
    entries != [] ==> PreservedEntry(w, entries[0]) && PreservedEntries(w, entries[1..])
  }

  predicate PreservedEntry(w: Writer, e: Entry)
    decreases e, 2
  {
    e.key != Null && Preserved(w, e.key) && Preserved(w, e.val)
  }

  predicate HasKey(entries: seq<Entry>, k: Value) {
    exists i :: 0 <= i < |entries| && entries[i].key == k
  }

  lemma {:induction false} PutAppends(entries: seq<Entry>, k: Value, v: Value)
    ensures !HasKey(entries, k) ==> PutEntry(entries, k, v) == entries + [Entry(k, v)]
    ensures HasKey(entries, k) ==> |PutEntry(entries, k, v)| == |entries|
  {
    if entries != [] {
      assert HasKey(entries, k) <==> entries[0].key == k || HasKey(entries[1..], k) by {
        if HasKey(entries, k) && entries[0].key != k {
          var i :| 0 <= i < |entries| && entries[i].key == k;
          assert entries[1..][i - 1].key == k;
        }
        if HasKey(entries[1..], k) {
          var i :| 0 <= i < |entries[1..]| && entries[1..][i].key == k;
          assert entries[i + 1].key == k;
        }
      }
      if entries[0].key != k { PutAppends(entries[1..], k, v); }
    }
  }

  function EntryImages(w: Writer, entries: seq<Entry>): (r: seq<Entry>)
    requires ValidEntries(w, entries)
    ensures |r| == |entries|
  {
    if entries == [] then [] else [EntryImage(w, entries[0])] + EntryImages(w, entries[1..])
  }

  /** Nothing overwrote anything when as many entries come back as went in. */
  lemma {:induction false} AllAppended(w: Writer, acc: seq<Entry>, entries: seq<Entry>)
    requires ValidEntries(w, entries) && |PutImages(w, acc, entries)| == |acc| + |entries|
    ensures PutImages(w, acc, entries) == acc + EntryImages(w, entries)
    decreases entries
  {
    hide PutEntry, EntryImage, HasKey, ValidEntry;
    if entries != [] {
      var r := EntryImage(w, entries[0]);
      PutAppends(acc, r.key, r.val);
      AllAppended(w, PutEntry(acc, r.key, r.val), entries[1..]);
      assert acc + [r] + EntryImages(w, entries[1..]) == acc + EntryImages(w, entries);
    } else {
      assert acc + EntryImages(w, entries) == acc;
    }
  }

  /** Then all keys that came back were different. */
  lemma {:induction false} AllDistinct(w: Writer, acc: seq<Entry>, entries: seq<Entry>)
    requires ValidEntries(w, entries) && DistinctKeys(acc) && |PutImages(w, acc, entries)| == |acc| + |entries|
    ensures DistinctKeys(acc + EntryImages(w, entries))
    decreases entries
  {
    hide PutEntry, EntryImage, ValidEntry;
    if entries != [] {
      var r := EntryImage(w, entries[0]);
      PutAppends(acc, r.key, r.val);
      AllDistinct(w, PutEntry(acc, r.key, r.val), entries[1..]);
      assert acc + [r] + EntryImages(w, entries[1..]) == acc + EntryImages(w, entries);
    } else {
      assert acc + EntryImages(w, entries) == acc;
    }
  }

  lemma NoKeysAreDistinct()
    ensures DistinctKeys([])
  {
  }

  lemma {:induction false} DistinctAppend(w: Writer, acc: seq<Entry>, entries: seq<Entry>)
    requires ValidEntries(w, entries) && DistinctKeys(acc + entries) && EntryImages(w, entries) == entries
    ensures PutImages(w, acc, entries) == acc + entries
    decreases entries
  {
    hide PutEntry, EntryImage, ValidEntry;
    if entries != [] {
      var e := entries[0];
      assert EntryImage(w, e) == e && EntryImages(w, entries)[1..] == EntryImages(w, entries[1..]);
      assert (acc + entries)[|acc|] == e;
      assert forall i :: 0 <= i < |acc| ==> acc[i] == (acc + entries)[i];
      PutAppends(acc, e.key, e.val);
      assert acc + [e] + entries[1..] == acc + entries;
      DistinctAppend(w, acc + [e], entries[1..]);
    } else {
      assert acc + entries == acc;
    }
  }

  lemma DoubleIsExact(w: Writer, bits: nat)
    requires IsDoubleOf(w, bits)
    ensures RebuiltFrom(w, bits) == bits <==> Preserved(w, Dbl(bits))
  {
  }

  lemma {:induction false} ImageIsExact(w: Writer, v: Value)
    requires Valid(w, v) && NoNullKeys(v)
    ensures Image(w, v) == v <==> Preserved(w, v)
    decreases v, 1
  {
    hide IsDouble, RebuiltFrom, DistinctKeys, PutImages, Images;
    match v
    case List(items) =>
      ImagesAreExact(w, items);
    case Dict(entries) =>
      EntryImagesAreExact(w, entries);
      assert [] + entries == entries && [] + EntryImages(w, entries) == EntryImages(w, entries);
      if PutImages(w, [], entries) == entries { AllAppended(w, [], entries); NoKeysAreDistinct(); AllDistinct(w, [], entries); }
      if EntryImages(w, entries) == entries && DistinctKeys(entries) { DistinctAppend(w, [], entries); }
    case Dbl(bits) =>
      DoubleIsExact(w, bits);
    case _ =>
  }

  lemma {:induction false} ImagesAreExact(w: Writer, items: seq<Value>)
    requires ValidItems(w, items) && NoNullKeysIn(items)
    ensures Images(w, items) == items <==> PreservedItems(w, items)
    decreases items, 0
  {
    hide Image, Preserved, Valid, NoNullKeys;
    if items != [] {
      ImageIsExact(w, items[0]);
      ImagesAreExact(w, items[1..]);
      assert Images(w, items)[0] == Image(w, items[0]) && Images(w, items)[1..] == Images(w, items[1..]);
      assert items == [items[0]] + items[1..];
    }
  }

  lemma {:induction false} EntryImagesAreExact(w: Writer, entries: seq<Entry>)
    requires ValidEntries(w, entries) && NoNullKeysAmong(entries)
    ensures EntryImages(w, entries) == entries <==> PreservedEntries(w, entries)
    decreases entries, 0
  {
    hide EntryImage, PreservedEntry, ValidEntry, EntryHasNoNullKeys;
    if entries != [] {
      EntryImageIsExact(w, entries[0]);
      EntryImagesAreExact(w, entries[1..]);
      assert EntryImages(w, entries)[0] == EntryImage(w, entries[0]) && EntryImages(w, entries)[1..] == EntryImages(w, entries[1..]);
      assert entries == [entries[0]] + entries[1..];
    }
  }

  lemma {:induction false} EntryImageIsExact(w: Writer, e: Entry)
    requires ValidEntry(w, e) && EntryHasNoNullKeys(e)
    ensures EntryImage(w, e) == e <==> PreservedEntry(w, e)
    decreases e, 2
  {
    hide Image, Preserved, Valid, NoNullKeys;
    ImageIsExact(w, e.key);
    ImageIsExact(w, e.val);
  }

  // ---- What decoding can produce ----

  lemma {:induction false} PutKeepsNoNullKeys(entries: seq<Entry>, k: Value, v: Value)
    requires NoNullKeysAmong(entries) && EntryHasNoNullKeys(Entry(k, v))
    ensures NoNullKeysAmong(PutEntry(entries, k, v))
  {
    hide EntryHasNoNullKeys;
    if entries != [] && entries[0].key != k {
      PutKeepsNoNullKeys(entries[1..], k, v);
      assert PutEntry(entries, k, v)[1..] == PutEntry(entries[1..], k, v);
    } else {
      assert PutEntry(entries, k, v)[1..] == if entries == [] then [] else entries[1..];
    }
  }

  lemma {:induction false} AppendKeepsNoNullKeys(items: seq<Value>, v: Value)
    requires NoNullKeysIn(items) && NoNullKeys(v)
    ensures NoNullKeysIn(items + [v])
  {
    hide NoNullKeys;
    if items != [] {
      AppendKeepsNoNullKeys(items[1..], v);
      assert (items + [v])[1..] == items[1..] + [v];
    } else {
      assert (items + [v])[1..] == [];
    }
  }

  /** Whatever the bytes, a dict with a null key never comes out. */
  lemma {:induction false} DecodedHasNoNullKeys(buf: seq<byte>, i: nat)
    requires i <= |buf|
    ensures Decode(buf, i).Val? ==> NoNullKeys(Decode(buf, i).v)
    decreases |buf| - i, 1
  {
    hide DecodeList, DecodeDict, UnpackTag;
    var t := UnpackTag(buf, i, 0);
    if t.Tag? && t.kind == LIST { DecodedListHasNoNullKeys(buf, t.next, []); }
    if t.Tag? && t.kind == DICT { DecodedDictHasNoNullKeys(buf, t.next, []); }
  }

  lemma {:induction false} DecodedListHasNoNullKeys(buf: seq<byte>, i: nat, items: seq<Value>)
    requires i <= |buf| && NoNullKeysIn(items)
    ensures DecodeList(buf, i, items).Val? ==> NoNullKeys(DecodeList(buf, i, items).v)
    decreases |buf| - i, 2
  {
    hide Decode;
    if i < |buf| {
      DecodedHasNoNullKeys(buf, i);
      var d := Decode(buf, i);
      if d.Val? {
        AppendKeepsNoNullKeys(items, d.v);
        DecodedListHasNoNullKeys(buf, d.next, items + [d.v]);
      }
    }
  }

  lemma {:induction false} DecodedDictHasNoNullKeys(buf: seq<byte>, i: nat, entries: seq<Entry>)
    requires i <= |buf| && NoNullKeysAmong(entries)
    ensures DecodeDict(buf, i, entries).Val? ==> NoNullKeys(DecodeDict(buf, i, entries).v)
    decreases |buf| - i, 2
  {
    hide Decode, PutEntry;
    DecodedHasNoNullKeys(buf, i);
    var d := Decode(buf, i);
    if d.Val? && d.v != Null {
      DecodedHasNoNullKeys(buf, d.next);
      var d2 := Decode(buf, d.next);
      if d2.Val? {
        PutKeepsNoNullKeys(entries, d.v, d2.v);
        DecodedDictHasNoNullKeys(buf, d2.next, PutEntry(entries, d.v, d2.v));
      }
    }
  }

  lemma {:induction false} PreservedHasNoNullKeys(w: Writer, v: Value)
    requires Preserved(w, v)
    ensures NoNullKeys(v)
    decreases v, 1
  {
    match v
    case List(items) => PreservedItemsHaveNoNullKeys(w, items);
    case Dict(entries) => PreservedEntriesHaveNoNullKeys(w, entries);
    case _ =>
  }

  lemma {:induction false} PreservedItemsHaveNoNullKeys(w: Writer, items: seq<Value>)
    requires PreservedItems(w, items)
    ensures NoNullKeysIn(items)
    decreases items, 0
  {
    if items != [] {
      PreservedHasNoNullKeys(w, items[0]);
      PreservedItemsHaveNoNullKeys(w, items[1..]);
    }
  }

  lemma {:induction false} PreservedEntriesHaveNoNullKeys(w: Writer, entries: seq<Entry>)
    requires PreservedEntries(w, entries)
    ensures NoNullKeysAmong(entries)
    decreases entries, 0
  {
    if entries != [] {
      PreservedEntryHasNoNullKeys(w, entries[0]);
      PreservedEntriesHaveNoNullKeys(w, entries[1..]);
    }
  }

  lemma {:induction false} PreservedEntryHasNoNullKeys(w: Writer, e: Entry)
    requires PreservedEntry(w, e)
    ensures EntryHasNoNullKeys(e)
    decreases e, 2
  {
    PreservedHasNoNullKeys(w, e.key);
    PreservedHasNoNullKeys(w, e.val);
  }

  // ---- The theorems ----

  /** Exactly which objects come back: an encoding followed by anything decodes to the object itself,
      with the cursor right behind the encoding, if and only if the object is preserved. */
  lemma RoundTrip(w: Writer, v: Value, rest: seq<byte>)
    requires Valid(w, v)
    ensures Decode(Encode(w, v) + rest, 0) == Val(v, |Encode(w, v)|) <==> Preserved(w, v)
  {
    hide Decode, Encode, Image, Preserved, NoNullKeys;
    var buf := Encode(w, v) + rest;
    assert At(buf, 0, Encode(w, v)) by { assert buf[0..|Encode(w, v)|] == Encode(w, v); }
    if Preserved(w, v) { PreservedHasNoNullKeys(w, v); }
    DecodedHasNoNullKeys(buf, 0);
    if NoNullKeys(v) {
      DecodeAtEncoding(w, buf, 0, v);
      ImageIsExact(w, v);
    }
  }

  /** Encodings are self-delimiting, whoever wrote them: no two preserved values share a beginning of their encodings. */
  lemma PrefixFree(v: Value, u: Value, vBy: Writer, uBy: Writer, r: seq<byte>, s: seq<byte>)
    requires Valid(vBy, v) && Valid(uBy, u) && Preserved(vBy, v) && Preserved(uBy, u)
    requires Encode(vBy, v) + r == Encode(uBy, u) + s
    ensures v == u && r == s
  {
    hide Decode, Encode, Preserved;
    RoundTrip(vBy, v, r);
    RoundTrip(uBy, u, s);
    assert (Encode(vBy, v) + r)[|Encode(vBy, v)|..] == r && (Encode(uBy, u) + s)[|Encode(uBy, u)|..] == s;
  }
}
