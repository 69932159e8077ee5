/** Which records dlogd takes, byte by byte, and how those of versions 3 to 5 are brought to version 6. */
module DlogVersions {
  import opened Bytes
  import opened DlogRecord
  import opened DlogReader
  import opened DlogPack

  /** The size at the front of a stream: two bytes in the order of the machine, or the high one first if flagged. */
  function FirstSize(e: Endian, s: seq<byte>): nat
    requires |s| >= 18
  {
    var first: nat, second: nat := s[0], s[1];
    if s[2] / 8 % 2 == 1 || e.Big? then 256 * first + second else first + 256 * second
  }

  lemma TwoBytes(e: Endian, a: byte, b: byte)
    ensures Get(e, [a, b]) == if e.Big? then 256 * a + b else a + 256 * b
  {
    assert [a, b][1..] == [b] && [b][1..] == [] && [a][1..] == [];
    assert FromLowFirst([b]) == b && FromLowFirst([a]) == a;
    assert FromLowFirst([a, b]) == a + 256 * b;
    assert Reverse([a, b]) == [b, a] && [b, a][1..] == [a];
    assert FromLowFirst([b, a]) == b + 256 * a;
  }

  lemma FirstSizeIs(e: Endian, s: seq<byte>)
    requires |s| >= 18
    ensures WireSize(e, s) == FirstSize(e, s)
  {
    hide Get;
    assert s[..2] == [s[0], s[1]];
    TwoBytes(if BigendianOf(s) then Big else e, s[0], s[1]);
  }

  /** What dlogd takes as a record: of version 3 to 6, raw, with at least a dash for each part in front of its
      content, long enough to end behind that, and ended by a NUL unless it is cut. */
  predicate Accepted(e: Endian, s: seq<byte>)
    requires |s| >= 18
  {
    var size, locusEnd: nat := FirstSize(e, s), s[3];
    && 3 <= s[2] % 8 <= 6 && s[2] / 16 % 8 == 0
    && locusEnd >= 5 && size >= 18 + locusEnd + 2
    && (size <= |s| && size <= 3992 ==> s[size - 1] == 0)
  }

  lemma TakenExactlyIf(e: Endian, port: nat, s: seq<byte>)
    ensures |s| < 18 ==> FrontOf(e, port, s).Short?
    ensures |s| >= 18 ==>
      var f, size := FrontOf(e, port, s), FirstSize(e, s);
      && (f.Bad? <==> !Accepted(e, s))
      && (f.Whole? <==> Accepted(e, s) && size <= |s|)
      && (f.Whole? ==> f.n == size)
  {
    if |s| >= 18 {
      FirstSizeIs(e, s);
      var size := FirstSize(e, s);
      hide FirstSize, WireSize;
      if CheckHeader(VersionOf(s), KindOf(s), LocusEndOf(s), size).Fine? && size <= |s| {
        EndsInNul(e, port, s[..size]);
      }
    }
  }

  lemma EndsInNul(e: Endian, port: nat, raw: seq<byte>)
    requires |raw| >= HEAD
    ensures Finished(e, port, raw).Logged? <==> |raw| > 3992 || raw[|raw| - 1] == 0
  {
  }

  // ---- Versions 3 to 5 ----

  /** A record as senders of those versions have it: a head of 16 bytes with the port and 16 bits of process number. */
  function OldBytes(order: Endian, r: Record): (s: seq<byte>)
    requires r.InRange() && r.pid < 65536
    ensures |s| == 16 + |r.str|
  {
    Put(order, 16 + |r.str|, 2) + [FlagByte(r), r.locusEnd] + Put(order, r.port, 2) + Put(order, r.pid, 2)
    + Put(order, r.msec, 8) + r.str
  }

  predicate OldRecord(r: Record) {
    && r.InRange() && r.pid < 65536 && 3 <= r.version <= 5 && r.kind == 0 && r.locusEnd >= 5
    && 16 + |r.str| >= 18 + r.locusEnd + 2 && r.str[|r.str| - 1] == 0
  }

  lemma OldSlices(order: Endian, r: Record, rest: seq<byte>)
    requires r.InRange() && r.pid < 65536 && |r.str| >= 2
    ensures var m := OldBytes(order, r) + rest;
      && m[..2] == Put(order, 16 + |r.str|, 2) && m[2] == FlagByte(r) && m[3] == r.locusEnd
      && m[4..6] == Put(order, r.port, 2) && m[6..8] == Put(order, r.pid, 2) && m[8..16] == Put(order, r.msec, 8)
      && m[16..16 + |r.str|] == r.str
  {
  }

  lemma OldFields(order: Endian, r: Record, rest: seq<byte>)
    requires r.InRange() && r.pid < 65536 && |r.str| >= 2
    ensures var m := OldBytes(order, r) + rest;
      && SizeOf(order, m) == 16 + |r.str|
      && VersionOf(m) == r.version && BigendianOf(m) == r.bigendian && KindOf(m) == r.kind
      && TruncatedOf(m) == r.truncated && LocusEndOf(m) == r.locusEnd
      && PidOfV5(order, m) == r.pid && MsecOf(order, m) == r.msec && PortOfV5(order, m) == r.port
  {
    hide OldBytes, Get, Put, FlagByte;
    OldSlices(order, r, rest);
    FlagByteFields(r);
    assert Pow256(2) == 65536;
    PutGet(order, 16 + |r.str|, 2);
    PutGet(order, r.pid, 2);
    PutGet(order, r.msec, 8);
    PutGet(order, r.port, 2);
  }

  /** A record of an old version is logged as one of version 6, with the peer's port. Its text is the same, or
      cut to 3973 bytes and marked as truncated if it has no room behind the longer head. */
  lemma OldRecordsAreWidened(e: Endian, port: nat, r: Record, rest: seq<byte>)
    requires OldRecord(r)
    ensures var s := OldBytes(if r.bigendian then Big else e, r) + rest;
      var over := 18 + |r.str| > 3992;
      FrontOf(e, port, s) == Whole(16 + |r.str|, Logged(Record(6, false, 0, r.truncated || over, r.locusEnd, r.pid, 0, port,
                                                               if over then r.str[..3973] + [0] else r.str)))
  {
    hide Get, Put, OldBytes, FlagByte;
    var order := if r.bigendian then Big else e;
    var raw := OldBytes(order, r);
    OldFields(order, r, rest);
    OldFields(order, r, []);
    assert raw + [] == raw;
    OldSlices(order, r, []);
    assert (raw + rest)[..|raw|] == raw;
    assert raw[16..] == r.str;
    OldText(raw, r.str);
  }

  lemma OldText(raw: seq<byte>, str: seq<byte>)
    requires |raw| == 16 + |str| && raw[16..] == str && |str| >= 2 && str[|str| - 1] == 0
    ensures var cut := CutToMax(raw);
      && cut[|cut| - 1] == 0
      && TextV5(cut) == (if 18 + |str| > 3992 then str[..3973] + [0] else str)
      && (|raw| > RECORD_MAX || |cut| + HEAD - HEAD_V5 > RECORD_MAX <==> 18 + |str| > 3992)
  {
    assert raw[|raw| - 1] == str[|str| - 1];
    var cut := CutToMax(raw);
    if 18 + |str| > 3992 {
      assert cut[16..3989] == raw[16..3989] == str[..3973];
    }
  }

  /** The center prints a record of version 5 with its own fields, from its shorter head. */
  lemma OldRecordsArePrinted(e: Endian, shift: int, r: Record, rest: seq<byte>)
    requires OldRecord(r) && r.version == 5 && !r.bigendian && 16 + |r.str| <= 3992
    ensures var s := OldBytes(e, r) + rest;
      && RecordFits(e, s) && SizeOf(e, s) == 16 + |r.str|
      && LineOf(e, shift, s) ==
           Line(0, (r.msec + shift) % 0x1_0000_0000_0000_0000, r.pid, r.port, CString(r.str[..|r.str| - 1]), r.truncated)
  {
    hide Get, Put, OldBytes, FlagByte, CString;
    OldFields(e, r, rest);
    OldSlices(e, r, rest);
    EightBytes();
    var s, n := OldBytes(e, r) + rest, 16 + |r.str|;
    assert s[16..n - 1] == s[16..n][..n - 17] == r.str[..|r.str| - 1];
  }
}
