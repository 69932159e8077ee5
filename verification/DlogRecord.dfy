/** Log records: their layout, how a client composes one, and the checks dlogd makes on one. */
module DlogRecord {
  import opened Bytes

  const HEAD := 18
  const HEAD_V5 := 16
  const RECORD_MAX := 3992
  const VERSION := 6

  const IDENTITY_MAX := 63
  const TAG_MAX := 63
  const LOCUS_MAX := 127

  const RAW := 0

  const NUL: byte := 0
  const LF: byte := 10
  const CR: byte := 13
  const SPACE: byte := 32
  const DASH: byte := 45

  /** A record in its version 6 form. `str` runs to the end of the record, NUL included. */
  datatype Record = Record(
    version: nat, bigendian: bool, kind: nat, truncated: bool, locusEnd: nat,
    pid: nat, msec: nat, port: nat, str: seq<byte>)
  {
    function Size(): nat { HEAD + |str| }

    /** Every field fits the bits the structure gives it. */
    predicate InRange() {
      && version < 8 && kind < 8 && locusEnd < 256
      && pid < Pow256(4) && msec < Pow256(8) && port < Pow256(2)
      && Size() < Pow256(2)
    }

    /** What every consumer of a record relies on. */
    predicate WellFormed() {
      && InRange()
      && version == VERSION && !bigendian
      && HEAD + locusEnd + 2 <= Size() <= RECORD_MAX
      && str[|str| - 1] == NUL
    }
  }

  /** The byte that packs version:3, bigendian:1, type:3 and truncated:1. */
  function FlagByte(r: Record): byte
    requires r.InRange()
  {
    r.version + (if r.bigendian then 8 else 0) + 16 * r.kind + (if r.truncated then 128 else 0)
  }

  /** The first HEAD bytes of a record, on a machine of byte order e. */
  function HeadBytes(e: Endian, r: Record): (s: seq<byte>)
    requires r.InRange()
    ensures |s| == HEAD
  {
    Put(e, r.Size(), 2) + [FlagByte(r), r.locusEnd] + Put(e, r.pid, 4) + Put(e, r.msec, 8) + Put(e, r.port, 2)
  }

  function RecordBytes(e: Endian, r: Record): (s: seq<byte>)
    requires r.InRange()
    ensures |s| == r.Size()
  {
    HeadBytes(e, r) + r.str
  }

  // Reading the fields of a head back out of memory.

  function SizeOf(e: Endian, h: seq<byte>): nat requires |h| >= HEAD { Get(e, h[..2]) }
  function VersionOf(h: seq<byte>): nat requires |h| >= HEAD { h[2] % 8 }
  predicate BigendianOf(h: seq<byte>) requires |h| >= HEAD { h[2] / 8 % 2 == 1 }
  function KindOf(h: seq<byte>): nat requires |h| >= HEAD { h[2] / 16 % 8 }
  predicate TruncatedOf(h: seq<byte>) requires |h| >= HEAD { h[2] / 128 == 1 }
  function LocusEndOf(h: seq<byte>): nat requires |h| >= HEAD { h[3] }
  function PidOf(e: Endian, h: seq<byte>): nat requires |h| >= HEAD { Get(e, h[4..8]) }
  function MsecOf(e: Endian, h: seq<byte>): nat requires |h| >= HEAD { Get(e, h[8..16]) }
  function PortOf(e: Endian, h: seq<byte>): nat requires |h| >= HEAD { Get(e, h[16..18]) }
  function PidOfV5(e: Endian, h: seq<byte>): nat requires |h| >= HEAD { Get(e, h[6..8]) }
  function PortOfV5(e: Endian, h: seq<byte>): nat requires |h| >= HEAD { Get(e, h[4..6]) }

  /** The fields of a record depend on its head alone. */
  lemma SameHead(s: seq<byte>, t: seq<byte>)
    requires |s| >= HEAD && |t| >= HEAD && s[..HEAD] == t[..HEAD]
    ensures VersionOf(s) == VersionOf(t) && BigendianOf(s) == BigendianOf(t) && KindOf(s) == KindOf(t)
    ensures TruncatedOf(s) == TruncatedOf(t) && LocusEndOf(s) == LocusEndOf(t)
    ensures forall e :: SizeOf(e, s) == SizeOf(e, t) && MsecOf(e, s) == MsecOf(e, t)
    ensures forall e :: PidOf(e, s) == PidOf(e, t) && PortOf(e, s) == PortOf(e, t)
    ensures forall e :: PidOfV5(e, s) == PidOfV5(e, t) && PortOfV5(e, s) == PortOfV5(e, t)
  {
    hide Get;
    var h := s[..HEAD];
    assert s[2] == h[2] == t[2] && s[3] == h[3] == t[3];
    assert s[..2] == h[..2] == t[..2] && s[8..16] == h[8..16] == t[8..16] && s[16..18] == h[16..18] == t[16..18];
    assert s[4..6] == h[4..6] == t[4..6] && s[4..8] == h[4..8] == t[4..8] && s[6..8] == h[6..8] == t[6..8];
  }

  lemma FlagByteFields(r: Record)
    requires r.InRange()
    ensures FlagByte(r) % 8 == r.version
    ensures (FlagByte(r) / 8 % 2 == 1) == r.bigendian
    ensures FlagByte(r) / 16 % 8 == r.kind
    ensures (FlagByte(r) / 128 == 1) == r.truncated
  {
    var low := r.version + if r.bigendian then 8 else 0;
    var high := r.kind + if r.truncated then 8 else 0;
    assert FlagByte(r) == low + 16 * high;
    assert FlagByte(r) / 16 == high && FlagByte(r) / 128 == high / 8;
  }

  /** The integers of a head, where they lie in any memory m that starts with it. */
  lemma HeadSlices(e: Endian, r: Record, m: seq<byte>)
    requires r.InRange()
    requires |m| >= HEAD && m[..HEAD] == HeadBytes(e, r)
    ensures m[..2] == Put(e, r.Size(), 2) && m[2] == FlagByte(r) && m[3] == r.locusEnd
    ensures m[4..8] == Put(e, r.pid, 4) && m[8..16] == Put(e, r.msec, 8) && m[16..18] == Put(e, r.port, 2)
  {
    var h := HeadBytes(e, r);
    assert m[..2] == h[..2] && m[2] == h[2] && m[3] == h[3];
    assert m[4..8] == h[4..8] && m[8..16] == h[8..16] && m[16..18] == h[16..18];
  }

  /** The fields of a head read back are the fields of the record it was written from. */
  lemma HeadFields(e: Endian, r: Record, m: seq<byte>)
    requires r.InRange()
    requires |m| >= HEAD && m[..HEAD] == HeadBytes(e, r)
    ensures SizeOf(e, m) == r.Size()
    ensures VersionOf(m) == r.version && BigendianOf(m) == r.bigendian && KindOf(m) == r.kind
    ensures TruncatedOf(m) == r.truncated && LocusEndOf(m) == r.locusEnd
    ensures PidOf(e, m) == r.pid && MsecOf(e, m) == r.msec && PortOf(e, m) == r.port
  {
    HeadSlices(e, r, m);
    FlagByteFields(r);
    PutGet(e, r.Size(), 2);
    PutGet(e, r.pid, 4);
    PutGet(e, r.msec, 8);
    PutGet(e, r.port, 2);
  }

  // ---- Composing a record ----

  function Clip(s: seq<byte>, max: nat): seq<byte> {
    if |s| <= max then s else s[..max]
  }

  /** A C string ends at its first NUL. */
  function CString(s: seq<byte>): (r: seq<byte>)
    ensures r <= s && NUL !in r
  {
    if s == [] || s[0] == NUL then [] else [s[0]] + CString(s[1..])
  }

  lemma {:induction false} CStringEndsAt(s: seq<byte>, k: nat)
    requires k <= |s| && NUL !in s[..k] && (k < |s| ==> s[k] == NUL)
    ensures CString(s) == s[..k]
  {
    if k > 0 {
      assert s[0] == s[..k][0];
      assert s[..k][1..] == s[1..][..k - 1];
      CStringEndsAt(s[1..], k - 1);
    }
  }

  function Field(s: seq<byte>, max: nat): seq<byte> {
    if s == [] then [DASH] else Clip(s, max)
  }

  function IdentityField(identity: seq<byte>, program: seq<byte>): seq<byte> {
    if identity == [] then Field(CString(program), IDENTITY_MAX) else Clip(identity, IDENTITY_MAX)
  }

  /** "identity tag locus ", the part of a record's text before its content. */
  function Prefix(identity: seq<byte>, program: seq<byte>, tag: seq<byte>, locus: seq<byte>): (s: seq<byte>)
    ensures 6 <= |s| <= IDENTITY_MAX + TAG_MAX + LOCUS_MAX + 3
    ensures s[|s| - 1] == SPACE
  {
    IdentityField(identity, program) + [SPACE] + Field(tag, TAG_MAX) + [SPACE] + Field(locus, LOCUS_MAX) + [SPACE]
  }

  predicate IsNewline(b: byte) { b == CR || b == LF }

  /** s without the carriage returns and line feeds at its end. */
  function TrimNewlines(s: seq<byte>): (r: seq<byte>)
    ensures r <= s
    ensures r != [] ==> !IsNewline(r[|r| - 1])
    ensures forall i :: |r| <= i < |s| ==> IsNewline(s[i])
  {
    if s != [] && IsNewline(s[|s| - 1]) then TrimNewlines(s[..|s| - 1]) else s
  }

  /** These three properties leave no freedom in the trimmed text. */
  lemma TrimIsUnique(s: seq<byte>, r: seq<byte>)
    requires r <= s
    requires r != [] ==> !IsNewline(r[|r| - 1])
    requires forall i :: |r| <= i < |s| ==> IsNewline(s[i])
    ensures r == TrimNewlines(s)
  {
    var t := TrimNewlines(s);
    assert |r| == |t|;
  }

  /** memcpy of src to buf[p..]; the text written so far, from HEAD on, grows by src. */
  method Append(buf: array<byte>, p: nat, src: seq<byte>) returns (end: nat)
    requires HEAD <= p && p + |src| <= buf.Length
    modifies buf
    ensures end == p + |src|
    ensures buf[HEAD..end] == old(buf[HEAD..p]) + src
  {
    forall i | 0 <= i < |src| { buf[p + i] := src[i]; }
    end := p + |src|;
  }

  /** Appends at most max bytes of src, or a dash when there are none. */
  method AppendField(buf: array<byte>, p: nat, src: seq<byte>, max: nat) returns (end: nat)
    requires 1 <= max && HEAD <= p && p + max <= buf.Length
    modifies buf
    ensures end == p + |Field(src, max)| <= p + max
    ensures buf[HEAD..end] == old(buf[HEAD..p]) + Field(src, max)
  {
    if |src| > 0 {
      var n := if |src| < max then |src| else max;
      end := Append(buf, p, src[..n]);
    } else {
      end := Append(buf, p, [DASH]);
    }
  }

  /** Fills the front of the text; p is where the content goes. */
  method PutIdentityTagLocus(buf: array<byte>, identity: seq<byte>, program: seq<byte>, tag: seq<byte>, locus: seq<byte>)
    returns (p: nat)
    requires buf.Length == RECORD_MAX
    modifies buf
    ensures p == HEAD + |Prefix(identity, program, tag, locus)|
    ensures buf[HEAD..p] == Prefix(identity, program, tag, locus)
  {
    ghost var first := IdentityField(identity, program);
    p := AppendField(buf, HEAD, if identity != [] then identity else CString(program), IDENTITY_MAX);
    assert buf[HEAD..p] == first;
    p := Append(buf, p, [SPACE]);
    p := AppendField(buf, p, tag, TAG_MAX);
    assert buf[HEAD..p] == first + [SPACE] + Field(tag, TAG_MAX);
    p := Append(buf, p, [SPACE]);
    p := AppendField(buf, p, locus, LOCUS_MAX);
    assert buf[HEAD..p] == first + [SPACE] + Field(tag, TAG_MAX) + [SPACE] + Field(locus, LOCUS_MAX);
    p := Append(buf, p, [SPACE]);
  }

  /** The text a record would carry were there no limit on its size. */
  function FullText(identity: seq<byte>, program: seq<byte>, tag: seq<byte>, locus: seq<byte>, content: seq<byte>): seq<byte> {
    Prefix(identity, program, tag, locus) + content
  }

  /** The first of the given texts that is not empty, cut to max bytes; a dash if all are empty. */
  function FirstOf(texts: seq<seq<byte>>, max: nat): seq<byte> {
    if texts == [] then [45]
    else if texts[0] == [] then FirstOf(texts[1..], max)
    else texts[0][..if |texts[0]| < max then |texts[0]| else max]
  }

  /** who, a space, what, a space, place, a space at locusEnd, and then as much of the content as there is. */
  predicate LieIn(text: seq<byte>, who: seq<byte>, what: seq<byte>, place: seq<byte>, locusEnd: nat, content: seq<byte>) {
    var b := |who| + 1 + |what|;
    && locusEnd == b + 1 + |place| < |text| <= 3973
    && text[..|who|] == who && text[|who|] == 32 && text[|who| + 1..b] == what && text[b] == 32
    && text[b + 1..locusEnd] == place && text[locusEnd] == 32
    && text[locusEnd + 1..] <= content
  }

  /** Cutting and trimming leave the front, which ends in a space. */
  lemma KeepsFront(pre: seq<byte>, content: seq<byte>)
    requires 0 < |pre| <= RECORD_MAX - 1 - HEAD && pre[|pre| - 1] == SPACE
    ensures var text := TrimNewlines(Clip(pre + content, RECORD_MAX - 1 - HEAD));
      |pre| <= |text| <= RECORD_MAX - 1 - HEAD && text[..|pre|] == pre && text[|pre|..] <= content
  {
    hide TrimNewlines;
    var full := Clip(pre + content, RECORD_MAX - 1 - HEAD);
    var text := TrimNewlines(full);
    assert full[..|pre|] == pre && full[|pre| - 1] == SPACE;
    assert text == full[..|text|] && text[..|pre|] == full[..|pre|];
    assert text[|pre|..] == content[..|text| - |pre|];
  }

  lemma ThreeParts(text: seq<byte>, who: seq<byte>, what: seq<byte>, place: seq<byte>, content: seq<byte>)
    requires var pre := who + [32] + what + [32] + place + [32];
      |pre| <= |text| <= 3973 && text[..|pre|] == pre && text[|pre|..] <= content
    ensures LieIn(text, who, what, place, |who| + 1 + |what| + 1 + |place|, content)
  {
    var b := |who| + 1 + |what|;
    var pre := who + [32] + what + [32] + place + [32];
    assert forall i :: 0 <= i < |pre| ==> text[i] == text[..|pre|][i];
  }

  lemma PrefixOfParts(identity: seq<byte>, program: seq<byte>, tag: seq<byte>, locus: seq<byte>)
    ensures Prefix(identity, program, tag, locus) ==
      FirstOf([identity, CString(program)], 63) + [32] + FirstOf([tag], 63) + [32] + FirstOf([locus], 127) + [32]
  {
    assert [identity, CString(program)][1..] == [CString(program)] && [CString(program)][1..] == [] && [tag][1..] == [] && [locus][1..] == [];
    assert FirstOf([CString(program)], 63) == Field(CString(program), 63);
    assert FirstOf([tag], 63) == Field(tag, 63) && FirstOf([locus], 127) == Field(locus, 127);
  }

  /** Where the parts of a composed text lie: the identity, or else the program's name, in at most 63 bytes, the
      tag in at most 63, the locus in at most 127, a dash for none of them, and the content behind them. */
  lemma PartsOfText(identity: seq<byte>, program: seq<byte>, tag: seq<byte>, locus: seq<byte>, content: seq<byte>)
    ensures LieIn(TrimNewlines(Clip(FullText(identity, program, tag, locus, content), RECORD_MAX - 1 - HEAD)),
                  FirstOf([identity, CString(program)], 63), FirstOf([tag], 63), FirstOf([locus], 127),
                  |Prefix(identity, program, tag, locus)| - 1, content)
  {
    var who, what, place := FirstOf([identity, CString(program)], 63), FirstOf([tag], 63), FirstOf([locus], 127);
    PrefixOfParts(identity, program, tag, locus);
    var pre := Prefix(identity, program, tag, locus);
    hide FirstOf, Prefix, TrimNewlines, Clip, LieIn, CString;
    KeepsFront(pre, content);
    ThreeParts(TrimNewlines(Clip(pre + content, RECORD_MAX - 1 - HEAD)), who, what, place, content);
  }

  /** The loop that drops newlines at the end of the text. `stop` is the last byte of the prefix. */
  method TrimTail(buf: array<byte>, end: nat, ghost stop: nat) returns (n: nat)
    requires HEAD <= stop < end <= buf.Length && !IsNewline(buf[stop])
    ensures stop < n <= end
    ensures buf[HEAD..n] == TrimNewlines(buf[HEAD..end])
  {
    n := end;
    while buf[n - 1] == CR || buf[n - 1] == LF
      invariant stop < n <= end
      decreases n
      invariant forall i :: n <= i < end ==> IsNewline(buf[i])
    {
      n := n - 1;
    }
    TrimIsUnique(buf[HEAD..end], buf[HEAD..n]);
  }

  /** dlog_compose: an absent identity, tag, locus or content is the empty sequence. */
  method Compose(identity: seq<byte>, program: seq<byte>, tag: seq<byte>, locus: seq<byte>, content: seq<byte>, pid: nat)
    returns (rec: Record)
    requires pid < Pow256(4)
    ensures rec.WellFormed() && rec.kind == RAW && rec.pid == pid
    ensures rec.locusEnd == |Prefix(identity, program, tag, locus)| - 1 >= 5
    ensures rec.truncated == (HEAD + |FullText(identity, program, tag, locus, content)| >= RECORD_MAX)
    ensures rec.str == TrimNewlines(Clip(FullText(identity, program, tag, locus, content), RECORD_MAX - 1 - HEAD)) + [NUL]
  {
    hide TrimNewlines, Prefix, CString, Clip, IdentityField, Field;
    var buf := new byte[RECORD_MAX](_ => NUL);
    var p := PutIdentityTagLocus(buf, identity, program, tag, locus);
    ghost var pre := Prefix(identity, program, tag, locus);
    assert buf[p - 1] == buf[HEAD..p][|pre| - 1];
    var truncated, n := PutContent(buf, p, content);
    assert buf[HEAD..p] == pre by { assert buf[HEAD..p] == buf[HEAD..n][..p - HEAD]; }
    assert buf[p - 1] == buf[HEAD..p][|pre| - 1];
    n := TrimTail(buf, n, p - 1);
    ghost var kept := buf[HEAD..n];
    buf[n] := NUL;
    assert buf[HEAD..n + 1] == kept + [NUL];
    rec := Record(VERSION, false, RAW, truncated, p - 1 - HEAD, pid, 0, 0, buf[HEAD..n + 1]);
  }

  /** The content, cut to what leaves room for the NUL. */
  method PutContent(buf: array<byte>, p: nat, content: seq<byte>) returns (truncated: bool, n: nat)
    requires HEAD <= p < RECORD_MAX == buf.Length
    modifies buf
    ensures truncated == (p + |content| >= RECORD_MAX)
    ensures p <= n < RECORD_MAX && buf[HEAD..n] == Clip(old(buf[HEAD..p]) + content, RECORD_MAX - 1 - HEAD)
    ensures buf[HEAD..p] == old(buf[HEAD..p])
  {
    ghost var pre := buf[HEAD..p];
    truncated := p + |content| >= RECORD_MAX;
    n := Append(buf, p, if truncated then content[..RECORD_MAX - 1 - p] else content);
    assert buf[HEAD..n] == (pre + content)[..n - HEAD];
    assert buf[HEAD..p] == buf[HEAD..n][..p - HEAD];
  }

  // ---- The checks dlogd makes on a record it receives ----

  datatype Verdict = Fine | UnknownVersion | NotRaw | BadLocusEnd | BadSize | NotTerminated

  /** check_record_header: the first test that fails names the verdict. */
  function CheckHeader(version: nat, kind: nat, locusEnd: nat, size: nat): Verdict {
    if version < 3 || version > VERSION then UnknownVersion
    else if kind != RAW then NotRaw
    else if locusEnd < 5 then BadLocusEnd
    else if size < HEAD + locusEnd + 2 then BadSize
    else Fine
  }
}
