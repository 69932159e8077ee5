/** Packing records into blocks at dlogd, and walking a block's records at the center. */
module DlogPack {
  import opened Bytes
  import opened DlogRecord

  const PACKET_HEAD := 32
  const PACKET_MAX := 65280
  const BODY_MAX := PACKET_MAX - PACKET_HEAD

  const MARK_LF: byte := 26
  const MARK_CR: byte := 29

  // ---- Rewriting newlines ----

  /** The byte that replaces s[i]: only line feeds, and carriage returns right before one, change. */
  function RewrittenByte(s: seq<byte>, i: nat): byte
    requires i < |s|
  {
    if s[i] == LF then MARK_LF
    else if s[i] == CR && i + 1 < |s| && s[i + 1] == LF then MARK_CR
    else s[i]
  }

  function Rewritten(s: seq<byte>): (r: seq<byte>)
    ensures |r| == |s|
    ensures LF !in r
    ensures forall i :: 0 <= i < |s| ==> (r[i] == NUL <==> s[i] == NUL)
  {
    seq(|s|, i requires 0 <= i < |s| => RewrittenByte(s, i))
  }

  /** memchr for a line feed in a[lo..]; a.Length when there is none. */
  method FindLF(a: array<byte>, lo: nat) returns (p: nat)
    requires lo <= a.Length
    ensures lo <= p <= a.Length
    ensures forall i :: lo <= i < p ==> a[i] != LF
    ensures p < a.Length ==> a[p] == LF
  {
    p := lo;
    while p < a.Length && a[p] != LF
      invariant lo <= p <= a.Length
      invariant forall i :: lo <= i < p ==> a[i] != LF
    {
      p := p + 1;
    }
  }

  /** copy_and_replace, on a destination of the source's size. */
  method CopyAndReplace(dst: array<byte>, src: seq<byte>)
    requires dst.Length == |src|
    modifies dst
    ensures dst[..] == Rewritten(src)
  {
    forall i | 0 <= i < |src| { dst[i] := src[i]; }
    var start := 0;
    var p := FindLF(dst, start);
    while p < dst.Length
      invariant 0 <= start <= p <= dst.Length
      invariant start > 0 ==> src[start - 1] == LF
      invariant forall i :: 0 <= i < start ==> dst[i] == RewrittenByte(src, i)
      invariant forall i :: start <= i < dst.Length ==> dst[i] == src[i]
      invariant forall i :: start <= i < p ==> src[i] != LF
      invariant p < dst.Length ==> src[p] == LF
      decreases dst.Length - p
    {
      if p > start && dst[p - 1] == CR {
        dst[p - 1] := MARK_CR;
      }
      dst[p] := MARK_LF;
      start := p + 1;
      p := FindLF(dst, start);
    }
  }

  /** The record as it lies in a block. */
  function Kept(r: Record): Record {
    r.(str := Rewritten(r.str))
  }

  /** The bytes of a sequence of records, packed one behind the other. */
  function Packed(e: Endian, rs: seq<Record>): seq<byte>
    requires forall i :: 0 <= i < |rs| ==> rs[i].WellFormed()
  {
    if rs == [] then []
    else
      assert rs[0].WellFormed();
      RecordBytes(e, Kept(rs[0])) + Packed(e, rs[1..])
  }

  /** Appending a record appends its bytes. */
  lemma {:induction false} PackedAppends(e: Endian, rs: seq<Record>, r: Record)
    requires forall i :: 0 <= i < |rs| ==> rs[i].WellFormed()
    requires r.WellFormed()
    ensures Packed(e, rs + [r]) == Packed(e, rs) + RecordBytes(e, Kept(r))
  {
    hide RecordBytes, Kept;
    if rs == [] {
      assert rs + [r] == [r];
    } else {
      assert (rs + [r])[1..] == rs[1..] + [r];
      PackedAppends(e, rs[1..], r);
    }
  }

  // ---- The center's walk over a block ----

  /** What the center prints of a record, the network addresses and the time string aside. */
  datatype Line = Line(kind: nat, msec: nat, pid: nat, port: nat, text: seq<byte>, truncated: bool)

  datatype Walked = Walked(lines: seq<Line>, error: bool)

  /** Adding the clock difference to a record's time stamp, on 64 bits. */
  function Shifted(msec: nat, shift: int): nat {
    (msec + shift) % Pow256(8)
  }

  predicate RecordFits(e: Endian, s: seq<byte>) {
    && |s| > HEAD
    && (VersionOf(s) == VERSION || VersionOf(s) == 5)
    && HEAD + LocusEndOf(s) + 2 <= SizeOf(e, s) <= |s|
    && !BigendianOf(s)
  }

  /** The line for the record at the front of s. */
  function LineOf(e: Endian, shift: int, s: seq<byte>): Line
    requires RecordFits(e, s)
  {
    var n := if SizeOf(e, s) > RECORD_MAX then RECORD_MAX else SizeOf(e, s);
    var truncated := TruncatedOf(s) || SizeOf(e, s) > RECORD_MAX;
    if VersionOf(s) == VERSION then
      Line(KindOf(s), Shifted(MsecOf(e, s), shift), PidOf(e, s), PortOf(e, s), CString(s[HEAD..n - 1]), truncated)
    else
      Line(KindOf(s), Shifted(MsecOf(e, s), shift), PidOfV5(e, s), PortOfV5(e, s), CString(s[HEAD_V5..n - 1]), truncated)
  }

  function Walk(e: Endian, shift: int, s: seq<byte>): Walked
    decreases |s|
  {
    if s == [] then Walked([], false)
    else if !RecordFits(e, s) then Walked([], true)
    else
      var w := Walk(e, shift, s[SizeOf(e, s)..]);
      Walked([LineOf(e, shift, s)] + w.lines, w.error)
  }

  /** The line the center prints for a record it finds intact. */
  function LineFor(shift: int, r: Record): Line
    requires r.str != []
  {
    Line(r.kind, Shifted(r.msec, shift), r.pid, r.port, CString(r.str[..|r.str| - 1]), r.truncated)
  }

  lemma WalkFront(e: Endian, shift: int, r: Record, rest: seq<byte>)
    requires r.WellFormed()
    ensures var s := RecordBytes(e, r) + rest;
      RecordFits(e, s) && SizeOf(e, s) == r.Size() && LineOf(e, shift, s) == LineFor(shift, r)
  {
    hide HeadBytes, SizeOf, VersionOf, BigendianOf, KindOf, TruncatedOf, LocusEndOf, PidOf, MsecOf, PortOf, PidOfV5, PortOfV5;
    var s := RecordBytes(e, r) + rest;
    assert s[..HEAD] == HeadBytes(e, r);
    HeadFields(e, r, s);
    assert s[HEAD..r.Size() - 1] == r.str[..|r.str| - 1];
  }

  lemma KeptIsWellFormed(r: Record)
    requires r.WellFormed()
    ensures Kept(r).WellFormed()
  {
    assert Rewritten(r.str)[|r.str| - 1] == NUL;
  }

  /** The lines of a block are exactly the records packed into it, in order, and no record is in error. */
  lemma {:induction false} WalkRecoversPacked(e: Endian, shift: int, rs: seq<Record>)
    requires forall i :: 0 <= i < |rs| ==> rs[i].WellFormed()
    ensures var w := Walk(e, shift, Packed(e, rs));
      && !w.error && |w.lines| == |rs|
      && forall i :: 0 <= i < |rs| ==> w.lines[i] == LineFor(shift, Kept(rs[i]))
  {
    hide RecordFits, LineOf, RecordBytes, LineFor, SizeOf;
    if rs != [] {
      var r, tail := Kept(rs[0]), Packed(e, rs[1..]);
      KeptIsWellFormed(rs[0]);
      WalkFront(e, shift, r, tail);
      var s := RecordBytes(e, r) + tail;
      assert s[SizeOf(e, s)..] == tail;
      WalkRecoversPacked(e, shift, rs[1..]);
      assert Walk(e, shift, s).lines == [LineFor(shift, r)] + Walk(e, shift, tail).lines;
    }
  }

  /** What is printed of each record packed: its own fields, and its time put forward by the difference of the clocks. */
  lemma PrintedFields(e: Endian, shift: int, rs: seq<Record>, i: nat)
    requires forall k :: 0 <= k < |rs| ==> rs[k].WellFormed()
    requires i < |rs|
    ensures i < |Walk(e, shift, Packed(e, rs)).lines|
    ensures var line, r := Walk(e, shift, Packed(e, rs)).lines[i], rs[i];
      && line.kind == r.kind && line.pid == r.pid && line.port == r.port && line.truncated == r.truncated
      && (0 <= r.msec + shift < 0x1_0000_0000_0000_0000 ==> line.msec == r.msec + shift)
      && (NUL !in r.str[..|r.str| - 1] ==> |line.text| == |r.str| - 1 && forall k :: 0 <= k < |line.text| ==>
           line.text[k] == if r.str[k] == 10 then 26 else if r.str[k] == 13 && r.str[k + 1] == 10 then 29 else r.str[k])
  {
    hide Walk, Packed;
    WalkRecoversPacked(e, shift, rs);
    EightBytes();
    var r := rs[i];
    if NUL !in r.str[..|r.str| - 1] {
      var t := Rewritten(r.str)[..|r.str| - 1];
      assert NUL !in t by {
        forall k | 0 <= k < |t|
          ensures t[k] != NUL
        {
          assert r.str[k] == r.str[..|r.str| - 1][k];
        }
      }
      assert t[..|t|] == t;
      CStringEndsAt(t, |t|);
    }
  }

  lemma EightBytes()
    ensures Pow256(8) == 0x1_0000_0000_0000_0000
  {
    assert Pow256(4) == 0x1_0000_0000;
    assert Pow256(6) == 0x1_0000_0000_0000;
  }

  /** A printed text has no line feed, so every record is one line of the log. */
  lemma LinesAreSingle(shift: int, r: Record)
    requires r.WellFormed()
    ensures LF !in LineFor(shift, Kept(r)).text
  {
    var t := Rewritten(r.str);
    assert CString(t[..|t| - 1]) <= t;
  }

  /** Reads a C string that is known to end before `end`. */
  method ReadCString(a: array<byte>, from: nat, end: nat) returns (text: seq<byte>)
    requires from < end <= a.Length && a[end - 1] == NUL
    ensures text == CString(a[from..end - 1])
  {
    var p := from;
    while a[p] != NUL
      invariant from <= p < end
      invariant NUL !in a[from..p]
      decreases end - p
    {
      p := p + 1;
    }
    text := a[from..p];
    assert a[from..end - 1][..p - from] == text;
    CStringEndsAt(a[from..end - 1], p - from);
  }

  /** Terminates the record that ends at `end` and reads its text. */
  method TerminatedText(pkt: array<byte>, from: nat, end: nat) returns (text: seq<byte>)
    requires from < end <= pkt.Length
    modifies pkt
    ensures text == CString(old(pkt[from..end - 1]))
    ensures forall i :: end <= i < pkt.Length ==> pkt[i] == old(pkt[i])
  {
    ghost var was := pkt[from..end - 1];
    pkt[end - 1] := NUL;
    assert pkt[from..end - 1] == was;
    text := ReadCString(pkt, from, end);
  }

  lemma SubSlice(t: seq<byte>, c: nat, a: nat, b: nat)
    requires a <= b && c + b <= |t|
    ensures t[c..][a..b] == t[c + a..c + b]
  {
  }

  /** The fields of a line, read from a copy of the record's head. */
  lemma LineOfHead(e: Endian, shift: int, s: seq<byte>, head: seq<byte>)
    requires RecordFits(e, s) && head == s[..HEAD]
    ensures |head| == HEAD && SizeOf(e, head) == SizeOf(e, s) <= |s|
    ensures var v6, over := VersionOf(head) == VERSION, SizeOf(e, s) > RECORD_MAX;
      var text := CString(s[(if v6 then HEAD else HEAD_V5)..(if over then RECORD_MAX - 1 else SizeOf(e, s) - 1)]);
      LineOf(e, shift, s) == Line(
           KindOf(head), Shifted(MsecOf(e, head), shift),
           if v6 then PidOf(e, head) else PidOfV5(e, head), if v6 then PortOf(e, head) else PortOfV5(e, head),
           text, TruncatedOf(head) || over)
  {
    hide SizeOf, VersionOf, BigendianOf, KindOf, TruncatedOf, LocusEndOf, MsecOf, PidOf, PortOf, PidOfV5, PortOfV5;
    SameHead(head, s);
  }

  /** Prints the record at the cursor, after terminating it in place. */
  method PrintRecord(e: Endian, shift: int, pkt: array<byte>, cur: nat) returns (line: Line, next: nat)
    requires cur <= pkt.Length && RecordFits(e, pkt[cur..])
    modifies pkt
    ensures line == LineOf(e, shift, old(pkt[cur..]))
    ensures next == cur + SizeOf(e, old(pkt[cur..])) <= pkt.Length
    ensures pkt[next..] == old(pkt[next..])
  {
    hide SizeOf, VersionOf, KindOf, TruncatedOf, MsecOf, PidOf, PortOf, PidOfV5, PortOfV5, LineOf, CString;
    var head := pkt[cur..cur + HEAD];
    SubSlice(pkt[..], cur, 0, HEAD);
    LineOfHead(e, shift, pkt[cur..], head);
    var size, truncated := SizeOf(e, head), TruncatedOf(head);
    next := cur + size;
    if size > RECORD_MAX {
      size, truncated := RECORD_MAX, true;
    }
    var v6 := VersionOf(head) == VERSION;
    var off := if v6 then HEAD else HEAD_V5;
    SubSlice(pkt[..], cur, off, size - 1);
    var text := TerminatedText(pkt, cur + off, cur + size);
    line := Line(KindOf(head), Shifted(MsecOf(e, head), shift),
                 if v6 then PidOf(e, head) else PidOfV5(e, head),
                 if v6 then PortOf(e, head) else PortOfV5(e, head), text, truncated);
  }

  /** The tests the walk makes before it takes a record. */
  method Acceptable(e: Endian, pkt: array<byte>, cur: nat) returns (ok: bool)
    requires cur < pkt.Length
    ensures ok == RecordFits(e, pkt[cur..])
  {
    hide SizeOf, VersionOf, BigendianOf, LocusEndOf;
    if cur + HEAD + 1 > pkt.Length {
      return false;
    }
    var head := pkt[cur..cur + HEAD];
    assert head == pkt[cur..][..HEAD];
    SameHead(head, pkt[cur..]);
    if VersionOf(head) != VERSION && VersionOf(head) != 5 {
      return false;
    }
    var size := SizeOf(e, head);
    ok := !(size < HEAD + LocusEndOf(head) + 2 || cur + size > pkt.Length || BigendianOf(head));
  }

  lemma SizeIsPositive(e: Endian, s: seq<byte>)
    requires RecordFits(e, s)
    ensures |s| >= HEAD && 0 < SizeOf(e, s) <= |s|
  {
  }

  lemma WalkedOn(e: Endian, shift: int, body: seq<byte>, cur: nat, lines: seq<Line>)
    requires cur < |body| && RecordFits(e, body[cur..])
    requires Walk(e, shift, body) == Walked(lines + Walk(e, shift, body[cur..]).lines, Walk(e, shift, body[cur..]).error)
    ensures var next, more := cur + SizeOf(e, body[cur..]), lines + [LineOf(e, shift, body[cur..])];
      Walk(e, shift, body) == Walked(more + Walk(e, shift, body[next..]).lines, Walk(e, shift, body[next..]).error)
  {
    hide RecordFits, SizeOf, LineOf;
    var s := body[cur..];
    SizeIsPositive(e, s);
    var next := cur + SizeOf(e, s);
    assert s[SizeOf(e, s)..] == body[next..];
    var rest := Walk(e, shift, body[next..]).lines;
    assert lines + ([LineOf(e, shift, s)] + rest) == (lines + [LineOf(e, shift, s)]) + rest;
  }

  /** The walk as the center does it: a cursor over the packet, terminating each record in place. */
  method WalkPacket(e: Endian, shift: int, pkt: array<byte>) returns (lines: seq<Line>, error: bool)
    modifies pkt
    ensures Walked(lines, error) == Walk(e, shift, old(pkt[..]))
  {
    hide LineOf, SizeOf, RecordFits;
    ghost var body := pkt[..];
    var cur := 0;
    lines, error := [], false;
    assert body[0..] == body;
    while cur < pkt.Length
      invariant 0 <= cur <= pkt.Length
      invariant pkt[cur..] == body[cur..]
      invariant var w := Walk(e, shift, body[cur..]); Walk(e, shift, body) == Walked(lines + w.lines, w.error)
      decreases pkt.Length - cur
    {
      var ok := Acceptable(e, pkt, cur);
      if !ok {
        return lines, true;
      }
      WalkedOn(e, shift, body, cur, lines);
      SizeIsPositive(e, body[cur..]);
      var line, next := PrintRecord(e, shift, pkt, cur);
      assert pkt[next..] == body[next..];
      lines := lines + [line];
      cur := next;
    }
    assert Walk(e, shift, body[cur..]).lines == [];
  }
}
