/** Shipping blocks from dlogd to the center over connections that may break. */
module DlogDelivery {
  import opened Prelude
  import opened Bytes
  import opened DlogRecord
  import opened DlogPack

  const BATCH_SIZE := 128

  // ---- dlogd's blocks ----

  /** dlogd's blocks, each named by the order in which it was opened.
      `bodies` are the bytes behind each packet's head; `given` are the records they were made from. */
  datatype Daemon = Daemon(
    e: Endian, pool: nat, bodies: seq<seq<byte>>, given: seq<seq<Record>>,
    open: Option<nat>, q: seq<nat>, todo: seq<nat>, acquired: nat,
    released: set<nat>, dropped: set<nat>)

  function OpenList(d: Daemon): seq<nat> {
    if d.open.Some? then [d.open.value] else []
  }

  /** The blocks that hold undelivered records, oldest first: the batch, the queue, the open block. */
  function Live(d: Daemon): seq<nat> {
    d.todo + d.q + OpenList(d)
  }

  function Fresh(e: Endian, pool: nat): Daemon {
    Daemon(e, pool, [], [], None, [], [], 0, {}, {})
  }

  predicate NeedsBlock(d: Daemon, r: Record) {
    d.open.None? || d.open.value >= |d.bodies| || PACKET_HEAD + |d.bodies[d.open.value]| + r.Size() > PACKET_MAX
  }

  /** The pool is exhausted and no queued block is there to be given up: the source takes one all the same. */
  predicate NoVictim(d: Daemon, r: Record) {
    NeedsBlock(d, r) && d.open.None? && d.q == [] && d.acquired >= d.pool
  }

  /** Queues the open block and opens another, giving up the oldest queued block when the pool is exhausted. */
  function Rotate(d: Daemon): Daemon
    requires d.acquired < d.pool || d.q + OpenList(d) != []
  {
    var q := d.q + OpenList(d);
    var n := d.(bodies := d.bodies + [[]], given := d.given + [[]], open := Some(|d.bodies|));
    if d.acquired < d.pool then n.(q := q, acquired := d.acquired + 1)
    else n.(q := q[1..], dropped := d.dropped + {q[0]})
  }

  /** do_log, with no plugin loaded. */
  function DoLog(d: Daemon, r: Record): Daemon
    requires r.WellFormed() && !NoVictim(d, r) && |d.given| == |d.bodies|
  {
    var n := if NeedsBlock(d, r) then Rotate(d) else d;
    var b := n.open.value;
    n.(bodies := n.bodies[b := n.bodies[b] + RecordBytes(d.e, Kept(r))], given := n.given[b := n.given[b] + [r]])
  }

  predicate CanFlush(d: Daemon) {
    d.open.Some? && d.open.value < |d.bodies| && d.bodies[d.open.value] != [] && d.q == []
  }

  /** The flush step of log_thread. */
  function Flush(d: Daemon): Daemon
    requires CanFlush(d)
  {
    d.(q := OpenList(d), open := None)
  }

  function BatchLength(q: seq<nat>): nat {
    if |q| <= BATCH_SIZE then |q| else BATCH_SIZE + 1
  }

  /** The sender moves the front of the queue into its batch. */
  function Take(d: Daemon): Daemon {
    d.(todo := d.q[..BatchLength(d.q)], q := d.q[BatchLength(d.q)..])
  }

  /** The sender returns acknowledged blocks to the pool and puts the others back at the front. */
  function Settle(d: Daemon, acked: nat): Daemon
    requires acked <= |d.todo| && acked <= d.acquired
  {
    d.(todo := [], q := d.todo[acked..] + d.q, acquired := d.acquired - acked,
       released := d.released + set i | 0 <= i < acked :: d.todo[i])
  }

  // ---- Connections ----

  /** One connection: blocks on their way to the center, acknowledgements on their way back.
      `ackNum` is Worker::_ack_num; `sent`, `took` and `read` count blocks written, blocks the center
      queued for logging, and acknowledgements read. */
  datatype Link = Link(wire: seq<nat>, acks: nat, ackNum: nat, reading: bool, cut: bool, sent: nat, took: nat, read: nat)

  const NEW_LINK := Link([], 0, 0, true, false, 0, 0, 0)

  /** What the sender thread does next: look for a block in the queue, connect if it has to and take a batch (the
      log thread may have emptied the queue meanwhile), write block `done` of its batch, read
      acknowledgement `got`, or settle the batch with `acked` blocks acknowledged. */
  datatype Phase = Resting | Ready | Writing(done: nat) | Reading(got: nat) | Settling(acked: nat)

  /** Both sides. The last link is the sender's socket while it is connected; the center may still
      be reading from the others. `logged` is what the center queued for logging, in order. */
  datatype World = World(d: Daemon, phase: Phase, links: seq<Link>, connected: bool, logged: seq<nat>)

  function Start(e: Endian, pool: nat): World {
    World(Fresh(e, pool), Resting, [], false, [])
  }

  datatype Event =
    | LogRecord(r: Record)
    | FlushOpen
    | Look
    | Connect
    | ConnectFails
    | HangUp
    | TakeBatch
    | Write
    | WriteFails
    | AllWritten
    | ReadAck
    | ReadFails
    | AllAcked
    | SettleBatch
    | Receive(link: nat, wrote: nat, fails: bool)
    | PumpAcks(link: nat, wrote: nat, fails: bool)
    | CenterCloses(link: nat)
    | Cut(link: nat, wireLeft: nat, acksLeft: nat)

  /** Worker::do_write with n acknowledgements due: it fails only with some of them unwritten. */
  predicate DoWriteMay(n: nat, wrote: nat, fails: bool) {
    wrote <= n && (fails ==> wrote < n)
  }

  predicate Possible(w: World, ev: Event) {
    match ev
    case LogRecord(r) => r.WellFormed() && !NoVictim(w.d, r) && |w.d.given| == |w.d.bodies|
    case FlushOpen => CanFlush(w.d)
    case Look => w.phase.Resting? && w.d.q != []
    case Connect => w.phase.Ready? && !w.connected
    case ConnectFails => w.phase.Ready? && !w.connected
    case HangUp => w.phase.Resting? && w.connected
    case TakeBatch => w.phase.Ready? && w.connected
    case Write => w.phase.Writing? && w.phase.done < |w.d.todo| && w.connected && w.links != []
    case WriteFails => w.phase.Writing? && w.phase.done < |w.d.todo|
    case AllWritten => w.phase.Writing? && w.phase.done == |w.d.todo|
    case ReadAck => w.phase.Reading? && w.phase.got < |w.d.todo| && w.connected && w.links != [] && Socket(w).acks > 0
    case ReadFails => w.phase.Reading? && w.phase.got < |w.d.todo|
    case AllAcked => w.phase.Reading? && w.phase.got == |w.d.todo|
    case SettleBatch => w.phase.Settling? && w.phase.acked <= |w.d.todo| && w.phase.acked <= w.d.acquired
    case Receive(i, wrote, fails) =>
      i < |w.links| && w.links[i].reading && w.links[i].wire != [] && DoWriteMay(w.links[i].ackNum + 1, wrote, fails)
    case PumpAcks(i, wrote, fails) =>
      i < |w.links| && w.links[i].reading && DoWriteMay(w.links[i].ackNum, wrote, fails)
    case CenterCloses(i) => i < |w.links| && w.links[i].reading
    case Cut(i, wireLeft, acksLeft) =>
      i < |w.links| && wireLeft <= |w.links[i].wire| && acksLeft <= w.links[i].acks
  }

  function Socket(w: World): Link
    requires w.links != []
  {
    w.links[|w.links| - 1]
  }

  function WithSocket(w: World, l: Link): World
    requires w.links != []
  {
    w.(links := w.links[|w.links| - 1 := l])
  }

  function Closed(l: Link): Link {
    l.(reading := false, wire := [], ackNum := 0)
  }

  /** Written acknowledgements travel back unless the link is cut. */
  function Acked(l: Link, wrote: nat): Link
    requires wrote <= l.ackNum
  {
    l.(ackNum := l.ackNum - wrote, acks := if l.cut then l.acks else l.acks + wrote)
  }

  /** The block at the end of the wire arrives: Worker::do_read counts it, writes acknowledgements,
      and queues the block for logging unless that writing failed. */
  function Arrived(l: Link, wrote: nat, fails: bool): Link
    requires l.wire != [] && DoWriteMay(l.ackNum + 1, wrote, fails)
  {
    var counted := Acked(l.(wire := l.wire[1..], ackNum := l.ackNum + 1), wrote);
    if fails then Closed(counted) else counted.(took := l.took + 1)
  }

  function Sent(l: Link, b: nat): Link {
    l.(sent := l.sent + 1, wire := if l.reading && !l.cut then l.wire + [b] else l.wire)
  }

  function Next(w: World, ev: Event): World
    requires Possible(w, ev)
  {
    match ev
    case LogRecord(r) => w.(d := DoLog(w.d, r))
    case FlushOpen => w.(d := Flush(w.d))
    case Look => w.(phase := Ready)
    case ConnectFails => w.(phase := Resting)
    case Connect => w.(links := w.links + [NEW_LINK], connected := true)
    case HangUp => w.(connected := false)
    case TakeBatch => w.(d := Take(w.d), phase := Writing(0))
    case Write => WithSocket(w, Sent(Socket(w), w.d.todo[w.phase.done])).(phase := Writing(w.phase.done + 1))
    case WriteFails => w.(connected := false, phase := Settling(0))
    case AllWritten => w.(phase := Reading(0))
    case ReadAck =>
      var l := Socket(w);
      WithSocket(w, l.(acks := l.acks - 1, read := l.read + 1)).(phase := Reading(w.phase.got + 1))
    case ReadFails => w.(connected := false, phase := Settling(w.phase.got))
    case AllAcked => w.(phase := Settling(w.phase.got))
    case SettleBatch => w.(d := Settle(w.d, w.phase.acked), phase := Resting)
    case Receive(i, wrote, fails) =>
      var l := w.links[i];
      w.(links := w.links[i := Arrived(l, wrote, fails)], logged := if fails then w.logged else w.logged + [l.wire[0]])
    case PumpAcks(i, wrote, fails) =>
      var l := Acked(w.links[i], wrote);
      w.(links := w.links[i := if fails then Closed(l) else l])
    case CenterCloses(i) => w.(links := w.links[i := Closed(w.links[i])])
    case Cut(i, wireLeft, acksLeft) =>
      var l := w.links[i];
      w.(links := w.links[i := l.(cut := true, wire := l.wire[..wireLeft], acks := acksLeft)])
  }

  /** The outcome of a run; none when some step of it was not possible. */
  function Outcome(e: Endian, pool: nat, run: seq<Event>): Option<World> {
    if run == [] then Some(Start(e, pool))
    else
      var before := Outcome(e, pool, run[..|run| - 1]);
      if before.Some? && Possible(before.value, run[|run| - 1]) then Some(Next(before.value, run[|run| - 1]))
      else None
  }

  // ---- What every run keeps: dlogd's blocks ----

  ghost predicate Ordered(s: seq<nat>) {
    forall i, j :: 0 <= i < j < |s| ==> s[i] < s[j]
  }

  /** Live blocks are in creation order, and their number is what the pool has given out. */
  ghost predicate InOrder(d: Daemon) {
    && |d.given| == |d.bodies|
    && Ordered(Live(d))
    && (forall i :: 0 <= i < |Live(d)| ==> Live(d)[i] < |d.bodies|)
    && (d.open.Some? ==> d.open.value == |d.bodies| - 1)
    && d.acquired == |Live(d)| <= d.pool
    && |d.todo| <= BATCH_SIZE + 1
  }

  /** Every block ever opened is live, or acknowledged and released, or given up: exactly one of them. */
  ghost predicate Accounted(d: Daemon) {
    && (forall x: nat :: x < |d.bodies| ==> x in Live(d) || x in d.released || x in d.dropped)
    && (forall x :: x in d.released ==> x < |d.bodies| && x !in Live(d) && x !in d.dropped)
    && (forall x :: x in d.dropped ==> x < |d.bodies| && x !in Live(d))
  }

  /** Blocks hold the packed bytes of the records given to them, within the packet limit. */
  ghost predicate Filled(d: Daemon) {
    && |d.given| == |d.bodies|
    && (forall i :: 0 <= i < |d.bodies| ==> |d.bodies[i]| <= BODY_MAX)
    && (forall i :: 0 <= i < |d.given| ==> forall k :: 0 <= k < |d.given[i]| ==> d.given[i][k].WellFormed())
    && (forall i :: 0 <= i < |d.bodies| ==> d.bodies[i] == Packed(d.e, d.given[i]))
  }

  lemma OrderedWithout(s: seq<nat>, k: nat, x: nat)
    requires k < |s| && Ordered(s) && forall i :: 0 <= i < |s| ==> s[i] < x
    ensures Ordered(s[..k] + s[k + 1..] + [x])
  {
    var t := s[..k] + s[k + 1..] + [x];
    assert forall i :: 0 <= i < |t| - 1 ==> t[i] == s[if i < k then i else i + 1];
  }

  lemma RotateInOrder(d: Daemon)
    requires InOrder(d) && (d.acquired < d.pool || d.q + OpenList(d) != [])
    ensures InOrder(Rotate(d))
    ensures d.acquired < d.pool ==> Live(Rotate(d)) == Live(d) + [|d.bodies|]
    ensures d.acquired >= d.pool ==>
      var k := |d.todo|; k < |Live(d)| && Live(Rotate(d)) == Live(d)[..k] + Live(d)[k + 1..] + [|d.bodies|]
                         && Rotate(d).dropped == d.dropped + {Live(d)[k]}
  {
    RotateLive(d);
    var live := Live(d);
    hide Live;
    if d.acquired < d.pool {
      assert Ordered(live + [|d.bodies|]);
    } else {
      OrderedWithout(live, |d.todo|, |d.bodies|);
    }
  }

  lemma RotateLive(d: Daemon)
    requires d.acquired < d.pool || d.q + OpenList(d) != []
    ensures d.acquired < d.pool ==> Live(Rotate(d)) == Live(d) + [|d.bodies|]
    ensures d.acquired >= d.pool ==>
      var k := |d.todo|; k < |Live(d)| && Live(Rotate(d)) == Live(d)[..k] + Live(d)[k + 1..] + [|d.bodies|]
                         && Rotate(d).dropped == d.dropped + {Live(d)[k]}
  {
    var rest, k, live := d.q + OpenList(d), |d.todo|, Live(d);
    assert live == d.todo + rest;
    if d.acquired >= d.pool {
      assert live[..k] == d.todo && live[k + 1..] == rest[1..] && live[k] == rest[0];
    }
  }

  /** Membership once one element is taken out of an increasing sequence and a new last one added. */
  lemma WithoutOne(s: seq<nat>, k: nat, y: nat)
    requires k < |s| && Ordered(s) && forall i :: 0 <= i < |s| ==> s[i] < y
    ensures forall x :: x in s[..k] + s[k + 1..] + [y] <==> x == y || (x in s && x != s[k])
    ensures s[k] in s && y !in s
  {
    assert s == s[..k] + [s[k]] + s[k + 1..];
    assert forall x :: x in s <==> x in s[..k] || x == s[k] || x in s[k + 1..];
  }

  lemma RotateFields(d: Daemon)
    requires d.acquired < d.pool || d.q + OpenList(d) != []
    ensures var n := Rotate(d); |n.bodies| == |d.bodies| + 1 && n.released == d.released && (d.acquired < d.pool ==> n.dropped == d.dropped)
  {
  }

  lemma RotateAccounted(d: Daemon)
    requires InOrder(d) && Accounted(d) && (d.acquired < d.pool || d.q + OpenList(d) != [])
    ensures Accounted(Rotate(d))
  {
    RotateInOrder(d);
    var n, live := Rotate(d), Live(d);
    RotateFields(d);
    hide Live, Rotate;
    if d.acquired >= d.pool {
      WithoutOne(live, |d.todo|, |d.bodies|);
    }
  }

  lemma LogKeepsBlocks(d: Daemon, r: Record)
    requires InOrder(d) && Accounted(d) && r.WellFormed() && !NoVictim(d, r)
    ensures InOrder(DoLog(d, r)) && Accounted(DoLog(d, r))
  {
    hide RecordBytes, Kept;
    if NeedsBlock(d, r) {
      RotateInOrder(d);
      RotateAccounted(d);
      assert Live(DoLog(d, r)) == Live(Rotate(d));
    } else {
      assert Live(DoLog(d, r)) == Live(d);
    }
  }

  lemma FlushKeepsBlocks(d: Daemon)
    requires InOrder(d) && Accounted(d) && CanFlush(d)
    ensures InOrder(Flush(d)) && Accounted(Flush(d))
  {
    assert Live(Flush(d)) == Live(d);
  }

  lemma TakeKeepsBlocks(d: Daemon)
    requires InOrder(d) && Accounted(d) && d.todo == []
    ensures InOrder(Take(d)) && Accounted(Take(d))
  {
    assert Live(Take(d)) == Live(d);
  }

  lemma SettleLive(d: Daemon, acked: nat)
    requires acked <= |d.todo| && acked <= d.acquired
    ensures Live(Settle(d, acked)) == Live(d)[acked..]
    ensures forall i :: 0 <= i < acked ==> Live(d)[i] == d.todo[i]
  {
  }

  lemma SettleKeepsBlocks(d: Daemon, acked: nat)
    requires InOrder(d) && Accounted(d) && acked <= |d.todo| && acked <= d.acquired
    ensures InOrder(Settle(d, acked)) && Accounted(Settle(d, acked))
  {
    SettleLive(d, acked);
    var n, live := Settle(d, acked), Live(d);
    hide Live;
    forall x | x in n.released ensures x !in Live(n) && x < |d.bodies| && x !in n.dropped {
      if x !in d.released {
        var i :| 0 <= i < acked && x == d.todo[i];
        assert live[i] == x && x in live;
        assert forall j :: acked <= j < |live| ==> live[j] != live[i];
      }
    }
    forall x: nat | x < |d.bodies| && x in live ensures x in Live(n) || x in n.released {
      var i :| 0 <= i < |live| && live[i] == x;
      if i >= acked { assert live[acked..][i - acked] == x; }
    }
  }

  lemma PackedNil(e: Endian)
    ensures Packed(e, []) == []
  {
  }

  lemma RotateKeepsFilled(d: Daemon)
    requires InOrder(d) && Filled(d) && (d.acquired < d.pool || d.q + OpenList(d) != [])
    ensures Filled(Rotate(d))
  {
    hide Packed, Live, Ordered;
    PackedNil(d.e);
  }

  lemma LogKeepsFilled(d: Daemon, r: Record)
    requires InOrder(d) && Filled(d) && r.WellFormed() && !NoVictim(d, r)
    ensures Filled(DoLog(d, r))
  {
    hide RecordBytes, Packed, Live, Ordered;
    var n := if NeedsBlock(d, r) then Rotate(d) else d;
    if NeedsBlock(d, r) { RotateKeepsFilled(d); }
    var b := n.open.value;
    PackedAppends(d.e, n.given[b], r);
    assert |n.bodies[b]| + r.Size() <= BODY_MAX;
    assert Kept(r).Size() == r.Size();
  }

  // ---- What every run keeps: connections and the center ----

  /** A block that exists and gets no more records. */
  predicate Frozen(d: Daemon, x: nat) {
    x < |d.bodies| && d.open != Some(x)
  }

  /** The center has it, or it was given up. */
  predicate Settled(w: World, x: nat) {
    x in w.logged || x in w.d.dropped
  }

  /** Acknowledgements never outrun the blocks queued for logging; and whatever is older than a block
      on the wire is settled or ahead of it on the same wire. */
  ghost predicate LinkOK(w: World, l: Link) {
    && l.read + l.acks + l.ackNum <= l.took && l.took + |l.wire| <= l.sent
    && (l.reading && !l.cut ==> l.read + l.acks + l.ackNum == l.took)
    && (!l.reading ==> l.wire == [])
    && (forall k :: 0 <= k < |l.wire| ==> Frozen(w.d, l.wire[k]))
    && (forall k, x: nat :: 0 <= k < |l.wire| && x < l.wire[k] ==> Settled(w, x) || x in l.wire[..k])
  }

  ghost predicate LinksOK(w: World) {
    forall i :: 0 <= i < |w.links| ==> LinkOK(w, w.links[i])
  }

  /** Whatever is older than a block the center has was there before it, or was given up. */
  ghost predicate LoggedInOrder(w: World) {
    && (forall p :: 0 <= p < |w.logged| ==> Frozen(w.d, w.logged[p]))
    && (forall p, x: nat :: 0 <= p < |w.logged| && x < w.logged[p] ==> x in w.logged[..p] || x in w.d.dropped)
  }

  ghost predicate ReleasedAreLogged(w: World) {
    forall x :: x in w.d.released ==> x in w.logged
  }

  /** Of the batch, `done` blocks are written to l and `got` acknowledged: the center has its first
      blocks, and the wire carries the ones right behind them. */
  ghost predicate Progress(w: World, l: Link, done: nat, got: nat) {
    && got <= done <= |w.d.todo| && got <= l.read
    && l.sent == l.read - got + done
    && var n := l.took - l.read + got;
      && 0 <= n && n + |l.wire| <= done
      && (forall i :: 0 <= i < n ==> w.d.todo[i] in w.logged)
      && l.wire == w.d.todo[n..n + |l.wire|]
      && (l.reading && !l.cut ==> n + |l.wire| == done)
  }

  ghost predicate BatchOK(w: World) {
    && (w.connected ==> w.links != [])
    && match w.phase
       case Resting => w.d.todo == [] && (w.connected ==> Progress(w, Socket(w), 0, 0))
       case Ready => w.d.todo == [] && (w.connected ==> Progress(w, Socket(w), 0, 0))
       case Writing(done) => w.connected && Progress(w, Socket(w), done, 0)
       case Reading(got) => w.connected && Progress(w, Socket(w), |w.d.todo|, got)
       case Settling(acked) =>
         && acked <= |w.d.todo| && (forall i :: 0 <= i < acked ==> w.d.todo[i] in w.logged)
         && (w.connected ==> acked == |w.d.todo| && Progress(w, Socket(w), acked, acked))
  }

  ghost predicate Good(w: World) {
    && InOrder(w.d) && Accounted(w.d) && Filled(w.d)
    && LinksOK(w) && LoggedInOrder(w) && ReleasedAreLogged(w) && BatchOK(w)
  }

  /** Only more is settled in w', and no frozen block thaws. */
  ghost predicate Extends(w: World, w': World) {
    && w.logged <= w'.logged && w.d.dropped <= w'.d.dropped
    && (forall x: nat :: Frozen(w.d, x) ==> Frozen(w'.d, x))
  }

  lemma LinkStaysOK(w: World, w': World, l: Link)
    requires LinkOK(w, l) && Extends(w, w')
    ensures LinkOK(w', l)
  {
    forall k, x: nat | 0 <= k < |l.wire| && x < l.wire[k] ensures Settled(w', x) || x in l.wire[..k] {
      assert Settled(w, x) || x in l.wire[..k];
    }
  }

  lemma LoggedStaysInOrder(w: World, w': World)
    requires LoggedInOrder(w) && Extends(w, w') && w'.logged == w.logged
    ensures LoggedInOrder(w')
  {
  }

  // The log thread's steps.

  lemma LogKeepsGood(w: World, r: Record)
    requires Good(w) && Possible(w, LogRecord(r))
    ensures Good(Next(w, LogRecord(r)))
  {
    var w' := Next(w, LogRecord(r));
    hide InOrder, Accounted, Filled, LoggedInOrder, LinkOK, RecordBytes, Kept;
    LogKeepsBlocks(w.d, r);
    LogKeepsFilled(w.d, r);
    LogExtends(w.d, r);
    LoggedStaysInOrder(w, w');
    forall i | 0 <= i < |w.links| ensures LinkOK(w', w'.links[i]) {
      LinkStaysOK(w, w', w.links[i]);
    }
    SameBatch(w, w');
  }

  lemma LogExtends(d: Daemon, r: Record)
    requires InOrder(d) && r.WellFormed() && !NoVictim(d, r)
    ensures var n := DoLog(d, r);
      && d.dropped <= n.dropped && n.todo == d.todo && n.released == d.released
      && forall x: nat :: Frozen(d, x) ==> Frozen(n, x)
  {
    hide RecordBytes, Kept;
  }

  /** The batch is not touched by a step that leaves it, the phase and the links alone. */
  lemma SameBatch(w: World, w': World)
    requires BatchOK(w)
    requires w'.d.todo == w.d.todo && w'.phase == w.phase && w'.links == w.links && w'.connected == w.connected
    requires w.logged <= w'.logged
    ensures BatchOK(w')
  {
    forall x | x in w.logged ensures x in w'.logged {}
  }

  lemma FlushKeepsGood(w: World)
    requires Good(w) && Possible(w, FlushOpen)
    ensures Good(Next(w, FlushOpen))
  {
    var w' := Next(w, FlushOpen);
    hide InOrder, Accounted, LoggedInOrder, LinkOK, Packed, Progress;
    FlushKeepsBlocks(w.d);
    LoggedStaysInOrder(w, w');
    forall i | 0 <= i < |w.links| ensures LinkOK(w', w'.links[i]) {
      LinkStaysOK(w, w', w.links[i]);
    }
    SameBatch(w, w');
  }

  // The sender's steps.

  lemma SameLinks(w: World, w': World)
    requires LinksOK(w) && Extends(w, w') && w'.links == w.links
    ensures LinksOK(w')
  {
    hide LinkOK;
    forall i | 0 <= i < |w.links| ensures LinkOK(w', w'.links[i]) {
      LinkStaysOK(w, w', w.links[i]);
    }
  }

  lemma ConnectKeepsGood(w: World)
    requires Good(w) && Possible(w, Connect)
    ensures Good(Next(w, Connect))
  {
    var w' := Next(w, Connect);
    hide InOrder, Accounted, Filled, LoggedInOrder;
    LoggedStaysInOrder(w, w');
    forall i | 0 <= i < |w'.links| ensures LinkOK(w', w'.links[i]) {
      if i < |w.links| { LinkStaysOK(w, w', w.links[i]); }
    }
  }

  /** Closing the socket between batches, or in the middle of one. */
  lemma SocketLossKeepsGood(w: World, ev: Event)
    requires Good(w) && Possible(w, ev) && (ev.HangUp? || ev.WriteFails? || ev.ReadFails?)
    ensures Good(Next(w, ev))
  {
    var w' := Next(w, ev);
    hide InOrder, Accounted, Filled;
    LoggedStaysInOrder(w, w');
    SameLinks(w, w');
    if ev.ReadFails? { AcknowledgedAreLogged(w, Socket(w), |w.d.todo|, w.phase.got); }
  }

  /** An acknowledgement read is for a block of this batch that the center has. */
  lemma AcknowledgedAreLogged(w: World, l: Link, done: nat, got: nat)
    requires Progress(w, l, done, got) && LinkOK(w, l)
    ensures forall i :: 0 <= i < got ==> w.d.todo[i] in w.logged
  {
  }

  /** Between batches nothing of a batch is on the way. */
  lemma NothingUnderWay(w: World, w': World, l: Link)
    requires Progress(w, l, 0, 0)
    ensures Progress(w', l, 0, 0)
  {
  }

  lemma TurnKeepsGood(w: World, ev: Event)
    requires Good(w) && Possible(w, ev) && (ev.Look? || ev.ConnectFails?)
    ensures Good(Next(w, ev))
  {
    var w' := Next(w, ev);
    hide InOrder, Accounted, Filled, LinkOK, LoggedInOrder, Progress;
    LoggedStaysInOrder(w, w');
    SameLinks(w, w');
    if w.connected { NothingUnderWay(w, w', Socket(w)); }
  }

  lemma TakeKeepsFilled(d: Daemon)
    requires Filled(d)
    ensures Filled(Take(d))
  {
    hide Packed;
  }

  lemma TakeExtends(w: World)
    requires Possible(w, TakeBatch)
    ensures Extends(w, Next(w, TakeBatch)) && Take(w.d).released == w.d.released
  {
    hide BatchLength;
  }

  lemma TakeKeepsBatch(w: World)
    requires BatchOK(w) && Possible(w, TakeBatch)
    ensures w.d.todo == [] && BatchOK(Next(w, TakeBatch))
  {
    hide Progress, Take;
    NothingUnderWay(w, Next(w, TakeBatch), Socket(w));
  }

  lemma TakeKeepsGood(w: World)
    requires Good(w) && Possible(w, TakeBatch)
    ensures Good(Next(w, TakeBatch))
  {
    hide InOrder, Accounted, Filled, LinksOK, LoggedInOrder, BatchOK, Extends, Take;
    var w' := Next(w, TakeBatch);
    TakeKeepsBatch(w);
    TakeKeepsBlocks(w.d);
    TakeKeepsFilled(w.d);
    TakeExtends(w);
    LoggedStaysInOrder(w, w');
    SameLinks(w, w');
  }

  lemma AllWrittenKeepsGood(w: World)
    requires Good(w) && Possible(w, AllWritten)
    ensures Good(Next(w, AllWritten))
  {
    var w' := Next(w, AllWritten);
    hide InOrder, Accounted, Filled, LinkOK, LoggedInOrder;
    LoggedStaysInOrder(w, w');
    SameLinks(w, w');
  }

  lemma AllAckedKeepsGood(w: World)
    requires Good(w) && Possible(w, AllAcked)
    ensures Good(Next(w, AllAcked))
  {
    var w' := Next(w, AllAcked);
    hide InOrder, Accounted, Filled, LinkOK, LoggedInOrder;
    LoggedStaysInOrder(w, w');
    SameLinks(w, w');
    AcknowledgedAreLogged(w, Socket(w), |w.d.todo|, w.phase.got);
  }

  lemma SettleKeepsGood(w: World)
    requires Good(w) && Possible(w, SettleBatch)
    ensures Good(Next(w, SettleBatch))
  {
    var w' := Next(w, SettleBatch);
    hide InOrder, Accounted, LinkOK, LoggedInOrder, Packed;
    SettleKeepsBlocks(w.d, w.phase.acked);
    LoggedStaysInOrder(w, w');
    SameLinks(w, w');
  }

  /** Replacing one link: the others need only that w' extends w. */
  lemma LinkReplaced(w: World, w': World, i: nat, l: Link)
    requires LinksOK(w) && Extends(w, w') && i < |w.links| && w'.links == w.links[i := l]
    requires LinkOK(w', l)
    ensures LinksOK(w')
  {
    hide LinkOK;
    forall j | 0 <= j < |w.links| ensures LinkOK(w', w'.links[j]) {
      if j != i { LinkStaysOK(w, w', w.links[j]); }
    }
  }

  /** Everything older than the next block to write is settled or on the wire ahead of it. */
  lemma NextToWrite(w: World, l: Link, done: nat)
    requires InOrder(w.d) && Accounted(w.d) && ReleasedAreLogged(w)
    requires Progress(w, l, done, 0) && done < |w.d.todo| && l.reading && !l.cut
    ensures Frozen(w.d, w.d.todo[done])
    ensures forall x: nat :: x < w.d.todo[done] ==> Settled(w, x) || x in l.wire
  {
    hide Settled, Filled;
    var live, b := Live(w.d), w.d.todo[done];
    assert forall i :: 0 <= i < |w.d.todo| ==> live[i] == w.d.todo[i];
    assert w.d.open.Some? ==> live[|live| - 1] == w.d.open.value && done < |live| - 1;
    forall x: nat | x < b ensures Settled(w, x) || x in l.wire {
      OlderIsSettled(w, l, done, x);
    }
  }

  lemma OlderIsInBatch(d: Daemon, done: nat, x: nat)
    requires InOrder(d) && done < |d.todo| && x < d.todo[done]
    ensures x < |d.bodies|
    ensures x in Live(d) ==> exists i :: 0 <= i < done && d.todo[i] == x
  {
    var live := Live(d);
    assert live[done] == d.todo[done] < |d.bodies|;
    if x in live {
      var i :| 0 <= i < |live| && live[i] == x;
      assert i < done;
      assert d.todo[i] == x;
    }
  }

  lemma OlderIsSettled(w: World, l: Link, done: nat, x: nat)
    requires InOrder(w.d) && Accounted(w.d) && ReleasedAreLogged(w)
    requires Progress(w, l, done, 0) && done < |w.d.todo| && l.reading && !l.cut
    requires x < w.d.todo[done]
    ensures Settled(w, x) || x in l.wire
  {
    OlderIsInBatch(w.d, done, x);
    if x in Live(w.d) {
      var i :| 0 <= i < done && w.d.todo[i] == x;
      var n := l.took - l.read;
      if i >= n { assert l.wire[i - n] == x; }
    }
  }

  lemma WriteKeepsGood(w: World)
    requires Good(w) && Possible(w, Write)
    ensures Good(Next(w, Write))
  {
    hide InOrder, Accounted, Filled, LinkOK, LoggedInOrder, Progress, Sent, Settled;
    var w' := Next(w, Write);
    var l, b := Socket(w), w.d.todo[w.phase.done];
    LoggedStaysInOrder(w, w');
    if l.reading && !l.cut { NextToWrite(w, l, w.phase.done); }
    WrittenLink(w, w', l, b);
    LinkReplaced(w, w', |w.links| - 1, Sent(l, b));
    WrittenProgress(w, w', l, w.phase.done);
  }

  lemma WrittenProgress(w: World, w': World, l: Link, done: nat)
    requires Progress(w, l, done, 0) && done < |w.d.todo|
    requires w'.d == w.d && w'.logged == w.logged
    requires LinkOK(w, l)
    ensures Progress(w', Sent(l, w.d.todo[done]), done + 1, 0)
  {
    hide Settled;
    var m, n := Sent(l, w.d.todo[done]), l.took - l.read;
    if l.reading && !l.cut {
      assert m.wire == w.d.todo[n..n + |m.wire|];
    }
  }

  lemma WrittenLink(w: World, w': World, l: Link, b: nat)
    requires LinkOK(w, l) && Extends(w, w')
    requires l.reading && !l.cut ==> Frozen(w.d, b) && forall x: nat :: x < b ==> Settled(w, x) || x in l.wire
    ensures LinkOK(w', Sent(l, b))
  {
    LinkStaysOK(w, w', l);
    var m := Sent(l, b);
    forall k, x: nat | 0 <= k < |m.wire| && x < m.wire[k] ensures Settled(w', x) || x in m.wire[..k] {
      if k < |l.wire| {
        assert m.wire[..k] == l.wire[..k];
        assert Settled(w', x) || x in l.wire[..k];
      } else {
        assert m.wire[..k] == l.wire;
        assert Settled(w, x) || x in l.wire;
      }
    }
  }

  lemma ReadAckKeepsGood(w: World)
    requires Good(w) && Possible(w, ReadAck)
    ensures Good(Next(w, ReadAck))
  {
    hide InOrder, Accounted, Filled, LoggedInOrder;
    var w' := Next(w, ReadAck);
    LoggedStaysInOrder(w, w');
    AckedLink(w, w', Socket(w), |w.d.todo|, w.phase.got);
    hide LinkOK, Progress;
    LinkReplaced(w, w', |w.links| - 1, Socket(w'));
  }

  lemma AckedLink(w: World, w': World, l: Link, done: nat, got: nat)
    requires LinkOK(w, l) && Extends(w, w') && w'.d == w.d && w'.logged == w.logged
    requires Progress(w, l, done, got) && got < done && l.acks > 0
    ensures var m := l.(acks := l.acks - 1, read := l.read + 1);
      LinkOK(w', m) && Progress(w', m, done, got + 1)
  {
    LinkStaysOK(w, w', l);
  }

  // The center's steps, and breaks.

  /** A link changes in a way that only consumes its wire and its counters. */
  lemma LinkStepKeepsGood(w: World, w': World, i: nat, m: Link)
    requires Good(w) && i < |w.links| && Extends(w, w')
    requires w' == w.(links := w.links[i := m], logged := w'.logged)
    requires LinkOK(w', m) && LoggedInOrder(w')
    requires forall done, got :: Progress(w, w.links[i], done, got) ==> Progress(w', m, done, got)
    ensures Good(w')
  {
    hide InOrder, Accounted, Filled, LinkOK, LoggedInOrder, Progress;
    LinkReplaced(w, w', i, m);
    if w.connected {
      if i < |w.links| - 1 { SocketElsewhere(w, w', i); }
      BatchFollows(w, w');
    }
    forall x | x in w.logged ensures x in w'.logged {}
  }

  lemma BatchFollows(w: World, w': World)
    requires BatchOK(w) && w.connected && w'.connected && w'.links != []
    requires w'.d == w.d && w'.phase == w.phase && w.logged <= w'.logged
    requires forall done, got :: Progress(w, Socket(w), done, got) ==> Progress(w', Socket(w'), done, got)
    ensures BatchOK(w')
  {
    hide Progress;
    forall x | x in w.logged ensures x in w'.logged {}
  }

  lemma SocketElsewhere(w: World, w': World, i: nat)
    requires i < |w.links| - 1 && |w'.links| == |w.links|
    requires Socket(w') == Socket(w) && w'.d == w.d && w.logged <= w'.logged
    ensures forall done, got :: Progress(w, Socket(w), done, got) ==> Progress(w', Socket(w'), done, got)
  {
    forall x | x in w.logged ensures x in w'.logged {}
  }

  lemma ArrivedLink(w: World, w': World, l: Link, wrote: nat, fails: bool)
    requires LinkOK(w, l) && Extends(w, w') && l.reading && l.wire != []
    requires DoWriteMay(l.ackNum + 1, wrote, fails)
    requires w'.logged == if fails then w.logged else w.logged + [l.wire[0]]
    ensures LinkOK(w', Arrived(l, wrote, fails))
  {
    LinkStaysOK(w, w', l);
    var m := Arrived(l, wrote, fails);
    if !fails {
      assert l.wire[0] == w'.logged[|w.logged|];
      forall k, x: nat | 0 <= k < |m.wire| && x < m.wire[k] ensures Settled(w', x) || x in m.wire[..k] {
        assert m.wire[k] == l.wire[k + 1];
        assert l.wire[..k + 1] == [l.wire[0]] + m.wire[..k];
        assert Settled(w', x) || x in l.wire[..k + 1];
      }
    }
  }

  lemma ArrivedProgress(w: World, w': World, l: Link, wrote: nat, fails: bool, done: nat, got: nat)
    requires Progress(w, l, done, got) && l.reading && l.wire != []
    requires DoWriteMay(l.ackNum + 1, wrote, fails)
    requires w'.d == w.d && w'.logged == if fails then w.logged else w.logged + [l.wire[0]]
    ensures Progress(w', Arrived(l, wrote, fails), done, got)
  {
    var n := l.took - l.read + got;
    assert l.wire[0] == w.d.todo[n];
    assert forall x :: x in w.logged ==> x in w'.logged;
    if !fails {
      assert w'.logged[|w.logged|] == l.wire[0];
      assert l.wire[1..] == w.d.todo[n + 1..n + |l.wire|];
    }
  }

  lemma ReceiveKeepsGood(w: World, ev: Event)
    requires Good(w) && Possible(w, ev) && ev.Receive?
    ensures Good(Next(w, ev))
  {
    hide InOrder, Accounted, Filled, Progress, Arrived, BatchOK;
    var w' := Next(w, ev);
    var l := w.links[ev.link];
    ArrivedLink(w, w', l, ev.wrote, ev.fails);
    forall done, got | Progress(w, l, done, got) ensures Progress(w', Arrived(l, ev.wrote, ev.fails), done, got) {
      ArrivedProgress(w, w', l, ev.wrote, ev.fails, done, got);
    }
    LoggedGrows(w, w', l, ev.fails);
    LinkStepKeepsGood(w, w', ev.link, Arrived(l, ev.wrote, ev.fails));
  }

  lemma LoggedGrows(w: World, w': World, l: Link, fails: bool)
    requires LoggedInOrder(w) && LinkOK(w, l) && l.wire != []
    requires w'.d == w.d && w'.logged == if fails then w.logged else w.logged + [l.wire[0]]
    ensures LoggedInOrder(w')
  {
    forall p, x: nat | 0 <= p < |w'.logged| && x < w'.logged[p] ensures x in w'.logged[..p] || x in w'.d.dropped {
      if p < |w.logged| {
        assert w'.logged[..p] == w.logged[..p];
      } else {
        assert w'.logged[..p] == w.logged;
        FrontIsForeseen(w, l, x);
      }
    }
  }

  lemma FrontIsForeseen(w: World, l: Link, x: nat)
    requires LinkOK(w, l) && l.wire != [] && x < l.wire[0]
    ensures Settled(w, x)
  {
    assert x !in l.wire[..0];
  }

  lemma QuietLinkKeepsGood(w: World, ev: Event)
    requires Good(w) && Possible(w, ev) && (ev.PumpAcks? || ev.CenterCloses? || ev.Cut?)
    ensures Good(Next(w, ev))
  {
    hide InOrder, Accounted, Filled, BatchOK, LoggedInOrder, Progress, LinkOK, Settled;
    var w' := Next(w, ev);
    var l, m := w.links[ev.link], w'.links[ev.link];
    LoggedStaysInOrder(w, w');
    LinkStaysOK(w, w', l);
    LinkBounds(w', l);
    QuietLink(w', l, m);
    forall done, got | Progress(w, l, done, got) ensures Progress(w', m, done, got) {
      QuietProgress(w, w', l, m, done, got);
    }
    LinkStepKeepsGood(w, w', ev.link, m);
  }

  lemma LinkBounds(w: World, l: Link)
    requires LinkOK(w, l)
    ensures !l.reading ==> l.wire == []
  {
  }

  lemma QuietProgress(w: World, w': World, l: Link, m: Link, done: nat, got: nat)
    requires Progress(w, l, done, got) && w'.d == w.d && w'.logged == w.logged
    requires m.wire <= l.wire && m.sent == l.sent && m.took == l.took && m.read == l.read
    requires m.reading ==> l.reading
    requires l.cut ==> m.cut
    requires m.reading && !m.cut ==> m.wire == l.wire
    ensures Progress(w', m, done, got)
  {
    var n := l.took - l.read + got;
    assert l.wire[..|m.wire|] == w.d.todo[n..n + |m.wire|];
  }

  lemma QuietLink(w: World, l: Link, m: Link)
    requires LinkOK(w, l)
    requires m.wire <= l.wire && m.sent == l.sent && m.took == l.took && m.read == l.read
    requires m.reading ==> l.reading
    requires l.cut ==> m.cut
    requires m.acks + m.ackNum <= l.acks + l.ackNum && (m.reading && !m.cut ==> m.acks + m.ackNum == l.acks + l.ackNum)
    requires !m.reading ==> m.wire == []
    ensures LinkOK(w, m)
  {
    forall k, x: nat | 0 <= k < |m.wire| && x < m.wire[k] ensures Settled(w, x) || x in m.wire[..k] {
      assert m.wire[..k] == l.wire[..k];
      assert Settled(w, x) || x in l.wire[..k];
    }
  }

  // ---- Theorems about every run ----

  lemma StepKeepsGood(w: World, ev: Event)
    requires Good(w) && Possible(w, ev)
    ensures Good(Next(w, ev))
  {
    hide Good, Possible, Next;
    match ev
    case LogRecord(r) => LogKeepsGood(w, r);
    case FlushOpen => FlushKeepsGood(w);
    case Look => TurnKeepsGood(w, ev);
    case ConnectFails => TurnKeepsGood(w, ev);
    case Connect => ConnectKeepsGood(w);
    case HangUp => SocketLossKeepsGood(w, ev);
    case TakeBatch => TakeKeepsGood(w);
    case Write => WriteKeepsGood(w);
    case WriteFails => SocketLossKeepsGood(w, ev);
    case AllWritten => AllWrittenKeepsGood(w);
    case ReadAck => ReadAckKeepsGood(w);
    case ReadFails => SocketLossKeepsGood(w, ev);
    case AllAcked => AllAckedKeepsGood(w);
    case SettleBatch => SettleKeepsGood(w);
    case Receive(_, _, _) => ReceiveKeepsGood(w, ev);
    case PumpAcks(_, _, _) => QuietLinkKeepsGood(w, ev);
    case CenterCloses(_) => QuietLinkKeepsGood(w, ev);
    case Cut(_, _, _) => QuietLinkKeepsGood(w, ev);
  }

  lemma {:induction false} RunsAreGood(e: Endian, pool: nat, run: seq<Event>)
    requires Outcome(e, pool, run).Some?
    ensures Good(Outcome(e, pool, run).value)
  {
    hide Good, Possible, Next;
    if run == [] {
      StartIsGood(e, pool);
    } else {
      RunsAreGood(e, pool, run[..|run| - 1]);
      StepKeepsGood(Outcome(e, pool, run[..|run| - 1]).value, run[|run| - 1]);
    }
  }

  lemma StartIsGood(e: Endian, pool: nat)
    ensures Good(Start(e, pool))
  {
  }

  /** At least once: in every run a block opened is still held by dlogd, or given up for want of
      room in the pool, or queued for logging at the center; and none goes back to the pool on
      an acknowledgement before the center has it. */
  lemma NoBlockIsLost(e: Endian, pool: nat, run: seq<Event>)
    requires Outcome(e, pool, run).Some?
    ensures var w := Outcome(e, pool, run).value;
      && (forall x: nat :: x < |w.d.bodies| ==> x in Live(w.d) || x in w.d.dropped || x in w.logged)
      && (forall x :: x in w.d.released ==> x in w.logged)
  {
    RunsAreGood(e, pool, run);
  }

  /** What dlogd holds is in creation order, in every run: batch, then queue, then the open block. */
  lemma LiveBlocksAreInOrder(e: Endian, pool: nat, run: seq<Event>)
    requires Outcome(e, pool, run).Some?
    ensures var d := Outcome(e, pool, run).value.d;
      Ordered(d.todo + d.q + OpenList(d)) && |d.todo + d.q + OpenList(d)| == d.acquired <= pool
  {
    RunsAreGood(e, pool, run);
    PoolIsConstant(e, pool, run);
  }

  lemma {:induction false} PoolIsConstant(e: Endian, pool: nat, run: seq<Event>)
    requires Outcome(e, pool, run).Some?
    ensures var d := Outcome(e, pool, run).value.d; d.pool == pool && d.e == e
  {
    hide Possible, Next;
    if run != [] {
      PoolIsConstant(e, pool, run[..|run| - 1]);
      StepKeepsPool(Outcome(e, pool, run[..|run| - 1]).value, run[|run| - 1]);
    }
  }

  lemma StepKeepsPool(w: World, ev: Event)
    requires Possible(w, ev)
    ensures Next(w, ev).d.pool == w.d.pool && Next(w, ev).d.e == w.d.e
  {
    hide RecordBytes, Kept, NeedsBlock, BatchLength;
  }

  /** First receipts are in creation order: a block first received after a younger one is one that
      dlogd had given up. */
  lemma FirstReceiptsAreInOrder(e: Endian, pool: nat, run: seq<Event>, p: nat, r: nat)
    requires Outcome(e, pool, run).Some?
    requires var w := Outcome(e, pool, run).value;
      p < r < |w.logged| && w.logged[r] < w.logged[p] && w.logged[r] !in w.logged[..r]
    ensures var w := Outcome(e, pool, run).value; w.logged[r] in w.d.dropped
  {
    RunsAreGood(e, pool, run);
    var w := Outcome(e, pool, run).value;
    assert w.logged[r] !in w.logged[..p];
  }

  /** On a link that is up, the center's receipts are the acknowledgements read, in flight and due. */
  lemma AcksBalance(e: Endian, pool: nat, run: seq<Event>, i: nat)
    requires Outcome(e, pool, run).Some? && i < |Outcome(e, pool, run).value.links|
    ensures var l := Outcome(e, pool, run).value.links[i];
      && l.read + l.acks + l.ackNum <= l.took <= l.sent
      && (l.reading && !l.cut ==> l.took == l.read + l.acks + l.ackNum)
  {
    RunsAreGood(e, pool, run);
  }

  /** A pool larger than a batch can always make room for a record. */
  lemma LargePoolAlwaysHasRoom(e: Endian, pool: nat, run: seq<Event>, r: Record)
    requires Outcome(e, pool, run).Some? && r.WellFormed()
    requires pool > BATCH_SIZE + 1
    ensures Possible(Outcome(e, pool, run).value, LogRecord(r))
  {
    RunsAreGood(e, pool, run);
    PoolIsConstant(e, pool, run);
  }

  /** The records of a run's LogRecord steps. */
  function RecordsOf(run: seq<Event>): seq<Record> {
    if run == [] then []
    else RecordsOf(run[..|run| - 1]) + if run[|run| - 1].LogRecord? then [run[|run| - 1].r] else []
  }

  function Flatten(given: seq<seq<Record>>): seq<Record> {
    if given == [] then [] else Flatten(given[..|given| - 1]) + given[|given| - 1]
  }

  /** Every record handed to the log thread went into exactly one place of one block, in order. */
  lemma {:induction false} RecordsAreKeptInOrder(e: Endian, pool: nat, run: seq<Event>)
    requires Outcome(e, pool, run).Some?
    ensures Flatten(Outcome(e, pool, run).value.d.given) == RecordsOf(run)
  {
    if run != [] {
      hide Good, Possible, Next;
      var before, ev := Outcome(e, pool, run[..|run| - 1]).value, run[|run| - 1];
      RecordsAreKeptInOrder(e, pool, run[..|run| - 1]);
      RunsAreGood(e, pool, run[..|run| - 1]);
      if ev.LogRecord? {
        LogAppends(before, ev.r);
      } else {
        OtherStepsKeepRecords(before, ev);
        assert RecordsOf(run) == RecordsOf(run[..|run| - 1]);
      }
    }
  }

  lemma OtherStepsKeepRecords(w: World, ev: Event)
    requires Possible(w, ev) && !ev.LogRecord?
    ensures Next(w, ev).d.given == w.d.given
  {
  }

  lemma LogAppends(w: World, r: Record)
    requires Good(w) && Possible(w, LogRecord(r))
    ensures Flatten(Next(w, LogRecord(r)).d.given) == Flatten(w.d.given) + [r]
  {
    hide RecordBytes, Kept, Filled, Accounted, LinksOK, LoggedInOrder, BatchOK, ReleasedAreLogged, Ordered;
    var given, n := w.d.given, DoLog(w.d, r).given;
    if NeedsBlock(w.d, r) {
      assert [] + [r] == [r];
      assert n == given + [[r]];
      assert n[..|n| - 1] == given;
    } else {
      var k := |given| - 1;
      assert n[..k] == given[..k] && n[k] == given[k] + [r];
      assert Flatten(given[..k]) + (given[k] + [r]) == (Flatten(given[..k]) + given[k]) + [r];
    }
  }

  /** End to end: a record is in a block dlogd still holds, or in one it gave up, or the center has
      the block and its walk prints the record at its place, newlines rewritten, without error. */
  lemma RecordsArrive(e: Endian, pool: nat, run: seq<Event>, shift: int, x: nat, k: nat)
    requires Outcome(e, pool, run).Some?
    requires var d := Outcome(e, pool, run).value.d; x < |d.given| && k < |d.given[x]|
    ensures var w := Outcome(e, pool, run).value;
      || x in Live(w.d) || x in w.d.dropped
      || (x in w.logged && x < |w.d.bodies| && w.d.given[x][k].WellFormed() &&
          var walked := Walk(e, shift, w.d.bodies[x]);
          && !walked.error && |walked.lines| == |w.d.given[x]|
          && walked.lines[k] == LineFor(shift, Kept(w.d.given[x][k])))
  {
    hide Walk, LineFor, Packed;
    RunsAreGood(e, pool, run);
    PoolIsConstant(e, pool, run);
    var d := Outcome(e, pool, run).value.d;
    WalkRecoversPacked(e, shift, d.given[x]);
  }
}
