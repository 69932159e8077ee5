/** The encoder and decoder as they run: bytes appended to a stream, a cursor moved over a buffer. */
module VbsStream {
  import opened Bytes
  import opened VbsNumber
  import opened VbsDouble
  import opened Vbs

  lemma ShortIntStr(kind: byte, n: nat)
    requires kind <= 0x60 && n < 0x20
    ensures IntStr(kind, n) == [kind + n]
  {
  }

  class Packer {
    var out: seq<byte>

    constructor ()
      ensures out == []
    {
      out := [];
    }

    method Write(s: seq<byte>)
      modifies this
      ensures out == old(out) + s
      ensures forall t: seq<byte> :: out + t == old(out) + (s + t)
    {
      out := out + s;
    }

    /** _pack_num_tag */
    method PackNumTag(tag: byte, n: nat)
      modifies this
      ensures out == old(out) + NumTag(tag, n)
    {
      var m := n;
      while m > 0
        invariant out + NumTag(tag, m) == old(out) + NumTag(tag, n)
      {
        Write([0x80 + m % 128]);
        m := m / 128;
      }
      Write([tag]);
    }

    /** The groups of a non-negative number before its last one. */
    method PackGroups(n: nat, ghost kind: byte) returns (top: nat)
      requires kind <= 0x60
      modifies this
      ensures top < 0x20 && out + [kind + top] == old(out) + IntStr(kind, n)
    {
      top := n;
      while top >= 0x20
        invariant out + IntStr(kind, top) == old(out) + IntStr(kind, n)
      {
        Write([0x80 + top % 128]);
        top := top / 128;
      }
    }

    /** _pack_integer: after negation a long is below 0x20, the most negative one too. */
    method PackInteger(n: int)
      requires IsLong(n)
      modifies this
      ensures out == old(out) + PackedInteger(n)
    {
      hide IntStr, Negate;
      var kind: byte, m := INTEGER, n;
      if m < 0 {
        NegateIs(m);
        m, kind := Negate(m), 0x60;
      }
      if m >= 0x20 {
        m := PackGroups(m, kind);
      } else if m >= 0 {
        ShortIntStr(kind, m);
      }
      Write([kind + m % 0x20]);
    }

    /** _pack_strlen */
    method PackStrlen(n: nat)
      modifies this
      ensures out == old(out) + IntStr(STRING, n)
    {
      var top := PackGroups(n, STRING);
      Write([STRING + top]);
    }

    method PackDouble(bits: nat)
      requires IsDouble(bits)
      modifies this
      ensures out == old(out) + EncodeDouble(Java, bits)
    {
      hide BreakDouble, NumTag, PackedInteger;
      PartsAreSmall(bits);
      var p := Break(bits);
      if p.significant < 0 {
        PackNumTag(FLOATING + 1, -p.significant);
      } else {
        PackNumTag(FLOATING, p.significant);
      }
      PackInteger(p.expo);
    }

    /** _pack */
    method Pack(v: Value)
      requires Valid(Java, v)
      modifies this
      ensures out == old(out) + Encode(Java, v)
      decreases v, 1
    {
      hide EncodeDouble, IntStr, NumTag, PackedInteger, IsDouble, DistinctKeys;
      match v
      case Null => Write([NULL]);
      case Bool(b) => Write([if b then BOOL + 1 else BOOL]);
      case Int(n) => PackInteger(n);
      case Str(s) => PackStrlen(|s|); Write(s);
      case Blob(s) => PackNumTag(BLOB, |s|); Write(s);
      case Dbl(bits) => PackDouble(bits);
      case List(items) => Write([LIST]); PackItems(items); Write([TAIL]);
      case Dict(entries) => Write([DICT]); PackEntries(entries); Write([TAIL]);
    }

    /** The iteration over a list. */
    method PackItems(items: seq<Value>)
      requires ValidItems(Java, items)
      modifies this
      ensures out == old(out) + EncodeItems(Java, items)
      decreases items, 0
    {
      hide Encode, Valid;
      var k := 0;
      assert items[0..] == items;
      while k < |items|
        invariant 0 <= k <= |items| && ValidItems(Java, items[k..])
        invariant out + EncodeItems(Java, items[k..]) == old(out) + EncodeItems(Java, items)
      {
        assert items[k..][1..] == items[k + 1..];
        ghost var before := out;
        Pack(items[k]);
        assert out + EncodeItems(Java, items[k + 1..]) == before + EncodeItems(Java, items[k..]);
        k := k + 1;
      }
    }

    /** The iteration over a map. */
    method PackEntries(entries: seq<Entry>)
      requires ValidEntries(Java, entries)
      modifies this
      ensures out == old(out) + EncodeEntries(Java, entries)
      decreases entries, 0
    {
      hide EncodeEntry, ValidEntry;
      var k := 0;
      assert entries[0..] == entries;
      while k < |entries|
        invariant 0 <= k <= |entries| && ValidEntries(Java, entries[k..])
        invariant out + EncodeEntries(Java, entries[k..]) == old(out) + EncodeEntries(Java, entries)
      {
        assert entries[k..][1..] == entries[k + 1..];
        ghost var before := out;
        PackEntry(entries[k]);
        assert out + EncodeEntries(Java, entries[k + 1..]) == before + EncodeEntries(Java, entries[k..]);
        k := k + 1;
      }
    }

    method PackEntry(e: Entry)
      requires ValidEntry(Java, e)
      modifies this
      ensures out == old(out) + EncodeEntry(Java, e)
      decreases e, 2
    {
      hide Encode, Valid;
      Pack(e.key);
      Pack(e.val);
    }
  }

  class DecodeCtx {
    const buf: seq<byte>
    var i: nat

    constructor (buf: seq<byte>)
      ensures this.buf == buf && i == 0
    {
      this.buf, i := buf, 0;
    }

    predicate Valid()
      reads this
    {
      i <= |buf|
    }

    /** The loop over the groups of a multi-byte tag, the first one read already. */
    method NextGroups(first: nat) returns (g: Groups)
      requires i < |buf|
      modifies this`i
      ensures g == ReadGroups(buf, old(i), first, 7) && i == g.next
    {
      var num: nat, shift: nat := first, 7;
      var x := buf[i];
      i := i + 1;
      while x >= 0x80
        invariant 0 < i <= |buf| && x == buf[i - 1]
        invariant ReadGroups(buf, old(i), first, 7) == ReadGroups(buf, i - 1, num, shift)
        decreases |buf| - i
      {
        if i >= |buf| {
          return NoMore(i);
        }
        if !GroupFits(x - 0x80, shift) {
          return BadGroup(i);
        }
        num := num + Shl(x - 0x80, shift);
        x := buf[i];
        i, shift := i + 1, shift + 7;
      }
      g := Last(x, num, shift, i);
    }

    /** _unpack_tag */
    method NextTag() returns (t: Tag)
      requires Valid()
      modifies this`i
      ensures t == UnpackTag(buf, old(i), 0) && i == t.next && Valid()
    {
      hide ReadGroups, GroupFits, ShortTag, LongTag, OrLow, OrSpecial, HasLow, HasSpecial, Shl;
      var d: bv32 := 0;
      while true
        invariant Valid()
        invariant UnpackTag(buf, old(i), 0) == UnpackTag(buf, i, d)
        decreases |buf| - i
      {
        if i >= |buf| {
          return Incomplete(i);
        }
        var x := buf[i];
        i := i + 1;
        if x < 0x80 {
          if !(DESCRIPTOR <= x < BOOL) {
            return ShortTag(x, d, i);
          } else if x == DESCRIPTOR {
            if HasSpecial(d) {
              return Invalid(i);
            }
            d := OrSpecial(d);
          } else {
            if HasLow(d) {
              return Invalid(i);
            }
            d := OrLow(d, x % 8);
          }
        } else {
          if i >= |buf| {
            return Incomplete(i);
          }
          var g := NextGroups(x - 0x80);
          match g {
            case BadGroup(_) => return Invalid(i);
            case NoMore(_) => return Incomplete(i);
            case Last(y, num, shift, _) =>
              if !(DESCRIPTOR <= y < BOOL) {
                return LongTag(y, num, shift, d, i);
              }
              if y % 8 != 0 && !GroupFits(y % 8, shift) {
                return Invalid(i);
              }
              var n := num + if y % 8 != 0 then Shl(y % 8, shift) else 0;
              if ToLong(n) == 0 || ToLong(n) >= DESCRIPTOR_MAX || HasLow(d) {
                return Invalid(i);
              }
              d := OrLow(d, n);
          }
        }
      }
    }

    /** A string or a blob whose tag was read. */
    method NextBytes(t: Tag, blob: bool) returns (r: Decoded)
      requires Valid() && t.Tag? && t.next == i
      modifies this`i
      ensures r == DecodeBytes(buf, t, blob) && Valid()
      ensures !r.Stray? ==> i == r.next
    {
      if t.num > |buf| - i {
        return Val(Null, i);
      }
      if t.num < 0 {
        return Stray;
      }
      var start := i;
      i := i + t.num;
      r := Val(if blob then Blob(buf[start..i]) else Str(buf[start..i]), i);
    }

    /** _decode */
    method Next() returns (r: Decoded)
      requires Valid()
      modifies this`i
      ensures r == Decode(buf, old(i)) && Valid()
      ensures !r.Stray? ==> i == r.next
      decreases |buf| - i, 1
    {
      hide UnpackTag, DecodeBytes, MakeDouble, DecodeList, DecodeDict;
      var t := NextTag();
      if !t.Tag? {
        r := Val(Null, i);
      } else if t.kind == INTEGER {
        r := Val(Int(t.num), i);
      } else if t.kind == STRING {
        r := NextBytes(t, false);
      } else if t.kind == BLOB {
        r := NextBytes(t, true);
      } else if t.kind == BOOL {
        r := Val(Bool(t.num != 0), i);
      } else if t.kind == FLOATING {
        var x := NextTag();
        if x.Tag? && x.kind == INTEGER {
          var bits := Make(t.num, ToInt(x.num));
          r := Val(Dbl(bits), i);
        } else {
          r := Val(Null, i);
        }
      } else if t.kind == LIST {
        r := NextList();
      } else if t.kind == DICT {
        r := NextDict();
      } else {
        r := if t.kind == TAIL then TailMark(i) else Val(Null, i);
      }
    }

    /** _decode_list */
    method NextList() returns (r: Decoded)
      requires Valid()
      modifies this`i
      ensures r == DecodeList(buf, old(i), []) && Valid()
      ensures !r.Stray? ==> i == r.next
      decreases |buf| - i, 2
    {
      hide Decode;
      var items := [];
      while i < |buf|
        invariant Valid() && i >= old(i)
        invariant DecodeList(buf, old(i), []) == DecodeList(buf, i, items)
        decreases |buf| - i
      {
        var d := Next();
        match d {
          case Stray => return Stray;
          case TailMark(_) => return Val(List(items), i);
          case Val(v, _) => items := items + [v];
        }
      }
      r := Stray;
    }

    /** _decode_dict */
    method NextDict() returns (r: Decoded)
      requires Valid()
      modifies this`i
      ensures r == DecodeDict(buf, old(i), []) && Valid()
      ensures !r.Stray? ==> i == r.next
      decreases |buf| - i, 2
    {
      hide Decode, PutEntry;
      var entries := [];
      while true
        invariant Valid() && i >= old(i)
        invariant DecodeDict(buf, old(i), []) == DecodeDict(buf, i, entries)
        decreases |buf| - i
      {
        ghost var start := i;
        var k := Next();
        if k.Stray? {
          return Stray;
        } else if k.TailMark? {
          return Val(Dict(entries), i);
        } else if k.v == Null {
          return Val(Null, i);
        }
        var v := Next();
        if v.Stray? {
          return Stray;
        } else if v.TailMark? {
          return Val(Null, i);
        }
        entries := PutEntry(entries, k.v, v.v);
      }
    }
  }
}
