/** How dlogd reads records from a client's stream, a few bytes at a time. */
module DlogReader {
  import opened Bytes
  import opened DlogRecord

  datatype Item = Logged(rec: Record) | Alert(why: Verdict) | Broken

  // ---- The one-shot parser ----

  /** The size field, converted to local order when the sender says it is big endian. */
  function WireSize(e: Endian, h: seq<byte>): nat
    requires |h| >= HEAD
  {
    SizeOf(if BigendianOf(h) then Big else e, h)
  }

  function WireVerdict(e: Endian, h: seq<byte>): Verdict
    requires |h| >= HEAD
  {
    CheckHeader(VersionOf(h), KindOf(h), LocusEndOf(h), WireSize(e, h))
  }

  /** A record cut to the maximum size; the cut is marked and terminated. */
  function CutToMax(raw: seq<byte>): (r: seq<byte>)
    requires |raw| >= HEAD
    ensures HEAD <= |r| <= RECORD_MAX && |r| <= |raw|
  {
    if |raw| > RECORD_MAX then raw[..RECORD_MAX - 1] + [NUL] else raw
  }

  /** The text of a version 5 record, cut where its longer version 6 head leaves no room. */
  function TextV5(cut: seq<byte>): seq<byte>
    requires HEAD <= |cut| <= RECORD_MAX
  {
    if |cut| + HEAD - HEAD_V5 > RECORD_MAX then cut[HEAD_V5..RECORD_MAX + HEAD_V5 - HEAD - 1] + [NUL]
    else cut[HEAD_V5..]
  }

  /** What check_record_whole makes of a complete record. */
  function Finished(e: Endian, port: nat, raw: seq<byte>): Item
    requires |raw| >= HEAD
  {
    var cut := CutToMax(raw);
    var order := if BigendianOf(raw) then Big else e;
    var truncated := |raw| > RECORD_MAX || TruncatedOf(raw);
    if cut[|cut| - 1] != NUL then Alert(NotTerminated)
    else if VersionOf(raw) == VERSION then
      Logged(Record(VERSION, false, KindOf(raw), truncated, LocusEndOf(raw), PidOf(order, raw), 0, port, cut[HEAD..]))
    else
      Logged(Record(VERSION, false, KindOf(raw), truncated || |cut| + HEAD - HEAD_V5 > RECORD_MAX,
                    LocusEndOf(raw), PidOfV5(order, raw), 0, port, TextV5(cut)))
  }

  /** What stands at the front of a stream: too little to tell, an error, or a whole record of n bytes. */
  datatype Front = Short | Bad(item: Item) | Whole(n: nat, item: Item)

  function FrontOf(e: Endian, port: nat, s: seq<byte>): (f: Front)
    ensures f.Whole? ==> HEAD <= f.n <= |s| && f.item.Logged?
    ensures f.Bad? ==> !f.item.Logged?
  {
    if |s| < HEAD then Short
    else if !WireVerdict(e, s).Fine? then Bad(Alert(WireVerdict(e, s)))
    else if |s| < WireSize(e, s) then Short
    else
      var item := Finished(e, port, s[..WireSize(e, s)]);
      if item.Logged? then Whole(WireSize(e, s), item) else Bad(item)
  }

  /** Where a parse of a stream stops: records found, whether it gave up, and the bytes of the unfinished record. */
  datatype Parsed = Parsed(items: seq<Item>, halted: bool, rest: seq<byte>)

  /** Two pieces of a parse put together. */
  function Then(p: Parsed, q: Parsed): Parsed {
    q.(items := p.items + q.items)
  }

  /** The one-shot parser. */
  function Parse(e: Endian, port: nat, s: seq<byte>): Parsed
    decreases |s|
  {
    match FrontOf(e, port, s)
    case Short => Parsed([], false, s)
    case Bad(item) => Parsed([item], true, [])
    case Whole(n, item) =>
      Then(Parsed([item], false, []), Parse(e, port, s[n..]))
  }

  lemma HeadOnly(e: Endian, s: seq<byte>, t: seq<byte>)
    requires |s| >= HEAD && |t| >= HEAD && s[..HEAD] == t[..HEAD]
    ensures WireSize(e, s) == WireSize(e, t) && WireVerdict(e, s) == WireVerdict(e, t)
  {
    SameHead(s, t);
  }

  /** Bytes that arrive later never change what was decided at the front. */
  lemma FrontIsStable(e: Endian, port: nat, s: seq<byte>, t: seq<byte>)
    requires !FrontOf(e, port, s).Short?
    ensures FrontOf(e, port, s + t) == FrontOf(e, port, s)
  {
    HeadOnly(e, s, s + t);
    var n := WireSize(e, s);
    if n <= |s| { assert (s + t)[..n] == s[..n]; }
  }

  lemma ThenAssociates(item: Item, p: Parsed, q: Parsed)
    ensures Then(Then(Parsed([item], false, []), p), q) == Then(Parsed([item], false, []), Then(p, q))
  {
    assert ([item] + p.items) + q.items == [item] + (p.items + q.items);
  }

  /** Parsing can stop anywhere and go on later from the unfinished record alone. */
  lemma {:induction false} ParseResumes(e: Endian, port: nat, s: seq<byte>, t: seq<byte>)
    ensures var p := Parse(e, port, s);
      Parse(e, port, s + t) == if p.halted then p else Then(p, Parse(e, port, p.rest + t))
    decreases |s|
  {
    match FrontOf(e, port, s)
    case Short =>
    case Bad(item) =>
      FrontIsStable(e, port, s, t);
    case Whole(n, item) =>
      FrontIsStable(e, port, s, t);
      assert (s + t)[n..] == s[n..] + t;
      ParseResumes(e, port, s[n..], t);
      var tail := Parse(e, port, s[n..]);
      ThenAssociates(item, tail, Parse(e, port, tail.rest + t));
  }

  /** One more piece of the stream: the front it completes, if any, is the next thing parsed. */
  lemma Fed(e: Endian, port: nat, s: seq<byte>, t: seq<byte>)
    requires !Parse(e, port, s).halted
    ensures var p := Parse(e, port, s);
      match FrontOf(e, port, p.rest + t)
      case Short => Parse(e, port, s + t) == Parsed(p.items, false, p.rest + t)
      case Bad(item) => Parse(e, port, s + t) == Parsed(p.items + [item], true, [])
      case Whole(n, item) => n == |p.rest + t| ==> Parse(e, port, s + t) == Parsed(p.items + [item], false, [])
  {
    var p := Parse(e, port, s);
    ParseResumes(e, port, s, t);
    var u := p.rest + t;
    match FrontOf(e, port, u)
    case Short =>
      assert p.items + [] == p.items;
    case Bad(_) =>
    case Whole(n, item) =>
      if n == |u| {
        assert u[n..] == [];
        assert [item] + [] == [item];
      }
  }

  /** Whatever bytes a client sends, a record that gets logged is well formed. */
  lemma FinishedIsWellFormed(e: Endian, port: nat, raw: seq<byte>)
    requires port < Pow256(2) && |raw| >= HEAD
    requires WireVerdict(e, raw).Fine? && |raw| == WireSize(e, raw)
    ensures Finished(e, port, raw).Logged? ==> Finished(e, port, raw).rec.WellFormed()
  {
    hide Get, SizeOf, MsecOf;
    var order := if BigendianOf(raw) then Big else e;
    PidBounds(order, raw);
  }

  lemma PidBounds(e: Endian, h: seq<byte>)
    requires |h| >= HEAD
    ensures PidOf(e, h) < Pow256(4) && PidOfV5(e, h) < Pow256(4)
  {
    hide Get;
    var v5 := h[6..8];
    assert |h[4..8]| == 4 && |v5| == 2;
    assert Pow256(2) <= Pow256(4);
  }

  ghost predicate GoodItem(item: Item) {
    item.Logged? ==> item.rec.WellFormed()
  }

  lemma {:induction false} LoggedAreWellFormed(e: Endian, port: nat, s: seq<byte>)
    requires port < Pow256(2)
    ensures forall item :: item in Parse(e, port, s).items ==> GoodItem(item)
    decreases |s|
  {
    hide Finished, WireVerdict, WireSize, GoodItem;
    match FrontOf(e, port, s)
    case Short =>
    case Bad(item) =>
      NotLoggedIsGood(item);
    case Whole(n, item) =>
      HeadOnly(e, s, s[..n]);
      FinishedIsWellFormed(e, port, s[..n]);
      LoggedIsGood(item);
      LoggedAreWellFormed(e, port, s[n..]);
  }

  lemma NotLoggedIsGood(item: Item)
    requires !item.Logged?
    ensures GoodItem(item)
  {
  }

  lemma LoggedIsGood(item: Item)
    requires item.Logged? && item.rec.WellFormed()
    ensures GoodItem(item)
  {
  }

  // ---- Round trip of a stream of records ----

  function WireBytes(e: Endian, r: Record): (s: seq<byte>)
    requires r.InRange()
    ensures |s| == r.Size()
  {
    RecordBytes(if r.bigendian then Big else e, r)
  }

  /** A version 6 record dlogd takes, whatever its size. */
  predicate Sendable(r: Record) {
    && r.InRange() && r.version == VERSION
    && CheckHeader(r.version, r.kind, r.locusEnd, r.Size()).Fine?
    && (r.str[|r.str| - 1] == NUL || r.Size() > RECORD_MAX)
  }

  /** What dlogd logs for it: same text up to the maximum size, the peer's port, local byte order. */
  function Delivered(port: nat, r: Record): Record
    requires Sendable(r)
  {
    var over := r.Size() > RECORD_MAX;
    r.(bigendian := false, msec := 0, port := port, truncated := r.truncated || over,
       str := if over then r.str[..RECORD_MAX - HEAD - 1] + [NUL] else r.str)
  }

  /** A composed record is taken as it is; only the port is added. */
  lemma ComposedIsSendable(port: nat, r: Record)
    requires r.WellFormed() && r.kind == RAW && r.locusEnd >= 5 && port < Pow256(2)
    ensures Sendable(r)
    ensures Delivered(port, r) == r.(port := port, msec := 0) && Delivered(port, r).WellFormed()
  {
  }

  function StreamOf(e: Endian, rs: seq<Record>): seq<byte>
    requires forall i :: 0 <= i < |rs| ==> Sendable(rs[i])
  {
    if rs == [] then [] else
      assert Sendable(rs[0]);
      WireBytes(e, rs[0]) + StreamOf(e, rs[1..])
  }

  lemma CutText(h: seq<byte>, str: seq<byte>)
    requires |h| == HEAD && str != []
    ensures var cut := CutToMax(h + str);
      cut[HEAD..] == if HEAD + |str| > RECORD_MAX then str[..RECORD_MAX - HEAD - 1] + [NUL] else str
    ensures var cut := CutToMax(h + str);
      cut[|cut| - 1] == if HEAD + |str| > RECORD_MAX then NUL else str[|str| - 1]
  {
  }

  lemma WireHead(e: Endian, r: Record)
    requires Sendable(r)
    ensures var raw := WireBytes(e, r);
      && SizeOf(if BigendianOf(raw) then Big else e, raw) == r.Size()
      && VersionOf(raw) == VERSION && BigendianOf(raw) == r.bigendian && KindOf(raw) == r.kind
      && TruncatedOf(raw) == r.truncated && LocusEndOf(raw) == r.locusEnd
      && PidOf(if BigendianOf(raw) then Big else e, raw) == r.pid
  {
    var raw := WireBytes(e, r);
    var order := if r.bigendian then Big else e;
    assert raw[..HEAD] == HeadBytes(order, r);
    HeadFields(order, r, raw);
  }

  lemma FinishedInverse(e: Endian, port: nat, r: Record)
    requires Sendable(r)
    ensures Finished(e, port, WireBytes(e, r)) == Logged(Delivered(port, r))
  {
    WireHead(e, r);
    CutText(HeadBytes(if r.bigendian then Big else e, r), r.str);
  }

  lemma FrontOfRecord(e: Endian, port: nat, r: Record, rest: seq<byte>)
    requires Sendable(r)
    ensures FrontOf(e, port, WireBytes(e, r) + rest) == Whole(r.Size(), Logged(Delivered(port, r)))
  {
    var raw := WireBytes(e, r);
    WireHead(e, r);
    HeadOnly(e, raw, raw + rest);
    assert (raw + rest)[..r.Size()] == raw;
    FinishedInverse(e, port, r);
  }

  /** Every record of a stream is recovered, an oversized one cut without losing the next one's start. */
  lemma {:induction false} StreamRoundTrip(e: Endian, port: nat, rs: seq<Record>)
    requires forall i :: 0 <= i < |rs| ==> Sendable(rs[i])
    ensures var p := Parse(e, port, StreamOf(e, rs));
      && !p.halted && p.rest == [] && |p.items| == |rs|
      && forall i :: 0 <= i < |rs| ==> p.items[i] == Logged(Delivered(port, rs[i]))
  {
    hide WireBytes, FrontOf, Delivered;
    if rs != [] {
      var tail := StreamOf(e, rs[1..]);
      FrontOfRecord(e, port, rs[0], tail);
      assert (WireBytes(e, rs[0]) + tail)[rs[0].Size()..] == tail;
      StreamRoundTrip(e, port, rs[1..]);
      var q := Parse(e, port, tail);
      assert Parse(e, port, StreamOf(e, rs)).items == [Logged(Delivered(port, rs[0]))] + q.items;
    } else {
      NothingToParse(e, port);
    }
  }

  lemma NothingToParse(e: Endian, port: nat)
    ensures Parse(e, port, []) == Parsed([], false, [])
  {
  }

  // ---- The resumable reader ----

  /** Where DlogWorker::do_read goes on when it is called again. */
  datatype Place = InHead | InBody | InSkip | Stopped | Ended(eof: bool)

  function Least(a: nat, b: nat): nat { if a <= b then a else b }

  /** What the end of the stream adds: nothing at a clean end between records or inside a head, otherwise an error. */
  function EndOf(rest: seq<byte>, eof: bool): seq<Item> {
    if eof && |rest| < HEAD then [] else [Broken]
  }

  /** A reader at `place`, `pos` bytes into a record and holding `held` of them, has parsed `seen`. */
  ghost predicate Tracks(e: Endian, port: nat, seen: seq<byte>, out: seq<Item>, place: Place, pos: nat, size: nat, held: seq<byte>) {
    var p := Parse(e, port, seen);
    && out == p.items + (if place.Ended? then EndOf(p.rest, place.eof) else [])
    && place.Stopped? == p.halted
    && (!place.Stopped? && !place.Ended? ==>
      && pos == |p.rest| && held == p.rest[..Least(pos, RECORD_MAX)]
      && if place.InHead? then pos < HEAD
         else
           && HEAD <= pos < size == WireSize(e, p.rest) && WireVerdict(e, p.rest).Fine?
           && if place.InBody? then pos < RECORD_MAX else RECORD_MAX <= pos)
  }

  /** A head that passes the checks announces more than a head. */
  lemma FineIsLonger(e: Endian, h: seq<byte>)
    requires |h| >= HEAD && WireVerdict(e, h).Fine?
    ensures WireSize(e, h) > HEAD
  {
  }

  lemma TracksHead(e: Endian, port: nat, seen: seq<byte>, out: seq<Item>, pos: nat, size: nat, held: seq<byte>, piece: seq<byte>)
    requires Tracks(e, port, seen, out, InHead, pos, size, held)
    requires pos + |piece| <= HEAD
    ensures var u := held + piece;
      if |u| < HEAD then Tracks(e, port, seen + piece, out, InHead, |u|, size, u)
      else if WireVerdict(e, u).Fine? then Tracks(e, port, seen + piece, out, InBody, HEAD, WireSize(e, u), u)
      else Tracks(e, port, seen + piece, out + [Alert(WireVerdict(e, u))], Stopped, HEAD, size, u)
  {
    hide Parse, WireVerdict, WireSize;
    Fed(e, port, seen, piece);
    var u := held + piece;
    assert held == Parse(e, port, seen).rest;
    if |u| == HEAD && WireVerdict(e, u).Fine? {
      FineIsLonger(e, u);
    }
  }

  /** The front of an unfinished body, grown by a piece. */
  lemma FrontOfBody(e: Endian, port: nat, rest: seq<byte>, piece: seq<byte>)
    requires |rest| >= HEAD && WireVerdict(e, rest).Fine?
    requires |rest + piece| <= WireSize(e, rest)
    ensures var u := rest + piece;
      && WireVerdict(e, u).Fine? && WireSize(e, u) == WireSize(e, rest)
      && FrontOf(e, port, u) ==
        if |u| < WireSize(e, rest) then Short
        else if Finished(e, port, u).Logged? then Whole(|u|, Finished(e, port, u))
        else Bad(Finished(e, port, u))
  {
    hide WireVerdict, WireSize, Finished;
    HeadOnly(e, rest, rest + piece);
    assert (rest + piece)[..|rest + piece|] == rest + piece;
  }

  /** Past the head: the record is still unfinished after this piece, or just complete. */
  lemma TracksBody(e: Endian, port: nat, seen: seq<byte>, out: seq<Item>, place: Place, pos: nat, size: nat, held: seq<byte>, piece: seq<byte>)
    requires Tracks(e, port, seen, out, place, pos, size, held) && (place.InBody? || place.InSkip?)
    requires pos + |piece| <= size
    ensures var u := Parse(e, port, seen).rest + piece;
      && |u| == pos + |piece|
      && u[..Least(|u|, RECORD_MAX)] == (held + piece)[..Least(|u|, RECORD_MAX)]
      && if |u| < size then
           Tracks(e, port, seen + piece, out, if |u| < RECORD_MAX then InBody else InSkip, |u|, size, u[..Least(|u|, RECORD_MAX)])
         else
           var item := Finished(e, port, u);
           Tracks(e, port, seen + piece, out + [item], if item.Logged? then InHead else Stopped, 0, size, [])
  {
    hide Parse, WireVerdict, WireSize, Finished, FrontOf;
    FrontOfBody(e, port, Parse(e, port, seen).rest, piece);
    Fed(e, port, seen, piece);
  }

  class DlogWorker {
    const e: Endian
    const port: nat
    const buf: array<byte>
    var place: Place
    var pos: nat
    var size: nat
    var input: seq<byte>          // what the socket holds for us
    var out: seq<Item>
    ghost var seen: seq<byte>     // what has been read so far

    /** The fields say where the one-shot parse of the bytes seen so far stands. */
    ghost predicate Valid()
      reads this, buf
    {
      && buf.Length == RECORD_MAX
      && Tracks(e, port, seen, out, place, pos, size, buf[..Least(pos, RECORD_MAX)])
    }

    constructor (e: Endian, port: nat)
      ensures Valid() && fresh(buf) && this.e == e && this.port == port
      ensures seen == [] && input == []
    {
      this.e, this.port := e, port;
      buf := new byte[RECORD_MAX](_ => NUL);
      place, pos, size, input, out, seen := InHead, 0, 0, [], [], [];
    }

    /** iobuf_read: at most `want` bytes, fewer when the socket has fewer or the read is cut short. */
    method Read(want: nat, cut: nat) returns (piece: seq<byte>)
      modifies this`input
      ensures |piece| <= want && old(input) == piece + input
      ensures |piece| < want ==> input == [] || |piece| == cut
    {
      var n := if want < cut then want else cut;
      n := if |input| < n then |input| else n;
      piece := input[..n];
      input := input[n..];
    }

    /** Accounts for a piece just read: nothing of the stream is lost or seen twice. */
    ghost method Saw(piece: seq<byte>)
      modifies this`seen
      ensures seen == old(seen) + piece
      ensures forall more: seq<byte> :: seen + more == old(seen) + (piece + more)
    {
      seen := seen + piece;
    }

    /** Puts a piece behind what the buffer holds already. */
    method Store(piece: seq<byte>)
      requires pos + |piece| <= buf.Length
      modifies this`pos, buf
      ensures pos == old(pos) + |piece| && buf[..pos] == old(buf[..pos]) + piece
    {
      forall i | 0 <= i < |piece| { buf[pos + i] := piece[i]; }
      pos := pos + |piece|;
    }

    /** One resumption inside the head; `more` unless the read came up short or the head is bad. */
    method ReadHead(cut: nat) returns (more: bool)
      requires Valid() && place.InHead?
      modifies this, buf
      ensures Valid() && seen + input == old(seen + input) && |input| <= |old(input)|
      ensures !place.Ended? && (more ==> |input| < |old(input)| && !place.Stopped?)
      ensures !more ==> place.Stopped? || input == [] || |old(input)| - |input| == cut
    {
      hide Parse, WireVerdict, WireSize, FrontOf;
      var piece := Read(HEAD - pos, cut);
      ghost var held := buf[..pos];
      TracksHead(e, port, seen, out, pos, size, held, piece);
      Store(piece);
      Saw(piece);
      more := false;
      if pos == HEAD {
        var verdict := WireVerdict(e, buf[..HEAD]);
        if verdict.Fine? {
          size := WireSize(e, buf[..HEAD]);
          place := InBody;
          more := true;
        } else {
          out := out + [Alert(verdict)];
          place := Stopped;
        }
      }
    }

    /** Moves the text of a version 5 record to where version 6 has it. */
    method WidenV5(len: nat) returns (wide: nat)
      requires HEAD < len <= RECORD_MAX == buf.Length && buf[len - 1] == NUL
      modifies buf
      ensures wide == Least(len + HEAD - HEAD_V5, RECORD_MAX)
      ensures buf[HEAD..wide] == TextV5(old(buf[..len]))
    {
      ghost var text := TextV5(buf[..len]);
      wide := Least(len + HEAD - HEAD_V5, RECORD_MAX);
      assert |text| == wide - HEAD;
      assert forall i :: 0 <= i < |text| - 1 ==> text[i] == buf[HEAD_V5 + i];
      forall i | HEAD <= i < wide { buf[i] := buf[i - 2]; }
      buf[wide - 1] := NUL;
      assert forall i :: 0 <= i < |text| ==> buf[HEAD + i] == text[i];
    }

    /** check_record_whole, in place on the record in the buffer; an oversized one is cut first. */
    method Complete(ghost raw: seq<byte>) returns (item: Item)
      requires buf.Length == RECORD_MAX && HEAD < size == |raw|
      requires buf[..Least(size, RECORD_MAX)] == raw[..Least(size, RECORD_MAX)]
      modifies buf
      ensures item == Finished(e, port, raw)
    {
      hide PidOf, PidOfV5, VersionOf, BigendianOf, KindOf, TruncatedOf, LocusEndOf;
      var len, over := size, size > RECORD_MAX;
      if over {
        len := RECORD_MAX;
        buf[len - 1] := NUL;
      }
      ghost var cut := CutToMax(raw);
      assert buf[..len] == cut;
      if buf[len - 1] != NUL {
        return Alert(NotTerminated);
      }
      var head := buf[..HEAD];
      assert head == raw[..HEAD] by { assert head == cut[..HEAD]; }
      SameHead(raw, head);
      var truncated := over || TruncatedOf(head);
      var order := if BigendianOf(head) then Big else e;
      if VersionOf(head) == VERSION {
        assert buf[HEAD..len] == cut[HEAD..];
        return Logged(Record(VERSION, false, KindOf(head), truncated, LocusEndOf(head), PidOf(order, head), 0, port, buf[HEAD..len]));
      }
      var wide := WidenV5(len);
      truncated := truncated || wide < len + HEAD - HEAD_V5;
      item := Logged(Record(VERSION, false, KindOf(head), truncated, LocusEndOf(head), PidOfV5(order, head), 0, port, buf[HEAD..wide]));
    }

    /** One resumption past the head: the body into the buffer, or the excess of an oversized record skipped. */
    method ReadOn(cut: nat) returns (more: bool)
      requires Valid() && (place.InBody? || place.InSkip?)
      modifies this, buf
      ensures Valid() && seen + input == old(seen + input) && |input| <= |old(input)|
      ensures !place.Ended? && (more ==> |input| < |old(input)| && !place.Stopped?)
      ensures !more ==> place.Stopped? || input == [] || |old(input)| - |input| == cut
    {
      hide Parse, WireVerdict, WireSize, Finished;
      ghost var u := Parse(e, port, seen).rest;
      ghost var held := buf[..Least(pos, RECORD_MAX)];
      var target := if place.InBody? then Least(size, RECORD_MAX) else size;
      var piece := Read(target - pos, cut);
      TracksBody(e, port, seen, out, place, pos, size, held, piece);
      u := u + piece;
      if place.InBody? {
        Store(piece);
      } else {
        assert (held + piece)[..RECORD_MAX] == held;
        pos := pos + |piece|;
      }
      Saw(piece);
      assert buf[..Least(pos, RECORD_MAX)] == u[..Least(pos, RECORD_MAX)];
      more := pos == target;
      if more && pos < size {
        place := InSkip;
      } else if more {
        var item := Complete(u);
        out := out + [item];
        pos := 0;
        place := if item.Logged? then InHead else Stopped;
        more := item.Logged?;
        assert buf[..Least(pos, RECORD_MAX)] == [];
      }
    }

    /** DlogWorker::do_read: goes on until a read comes up short or a record is bad.
        Read number k is cut short at cuts[k] bytes; reads after those return all there is. */
    method DoRead(cuts: seq<nat>)
      requires Valid() && !place.Ended?
      modifies this, buf
      ensures Valid() && seen + input == old(seen + input) && !place.Ended?
      ensures out <= Parse(e, port, old(seen + input)).items
      ensures place.Stopped? || input == [] ==> out == Parse(e, port, old(seen + input)).items
      ensures cuts == [] && !place.Stopped? ==> input == []
    {
      hide Parse;
      var k, more := 0, !place.Stopped?;
      while more
        invariant Valid() && seen + input == old(seen + input)
        invariant !place.Ended? && (more ==> !place.Stopped?)
        invariant !more && cuts == [] ==> place.Stopped? || input == []
        decreases |input|, more
      {
        var cut := if k < |cuts| then cuts[k] else |input| + 1;
        k := k + 1;
        if place.InHead? {
          more := ReadHead(cut);
        } else {
          more := ReadOn(cut);
        }
      }
      ParseResumes(e, port, seen, input);
      if input == [] { assert seen + input == seen; }
    }

    /** The stream ends or fails: what was logged is the parse of all bytes seen, and an error unless the stream
        ended between records or inside a head. */
    method Hangup(eof: bool)
      requires Valid() && !place.Stopped? && !place.Ended?
      modifies this`place, this`out
      ensures Valid() && place == Ended(eof)
      ensures out == Parse(e, port, seen).items + if eof && |Parse(e, port, seen).rest| < 18 then [] else [Broken]
    {
      hide Parse;
      if !(eof && place.InHead?) {
        out := out + [Broken];
      }
      place := Ended(eof);
    }
  }
}
