/**
 * The results of two-way quests over all connections of an engine
 * (xic/StEngineImp.cpp, xic/EngineImp.cpp): every one is completed once, by an
 * answer or an error, and retried at most once. The steps are the pieces of
 * code between which a cooperative thread may yield.
 */
module XicResults {
  import opened Prelude
  import C = XicConnection

  /** A proxy is bound to one connection, or picks live ones for its endpoints in turn. */
  datatype Proxy = Fixed(con: nat) | Normal(endpoints: seq<nat>, cons: seq<Option<nat>>, idx: nat)

  datatype Conn = Conn(state: nat, graceful: bool, nextId: int, pending: map<int, nat>, taken: seq<nat>)

  /** Where the ledger has a result. */
  datatype Place = Pending(con: nat) | Taken(con: nat) | Done

  /** A result; txid is the number its quest carries, done how often it was completed. */
  datatype Res = Res(proxy: nat, txid: int, retries: nat, sent: bool, done: nat, place: Place)

  datatype Engine = Engine(conns: seq<Conn>, results: seq<Res>, proxies: seq<Proxy>, conMap: map<nat, nat>)

  predicate Live(c: Conn) {
    c.state < C.ST_CLOSE
  }

  // -------------------------------------------------------- pieces of code

  function NewConn(): Conn {
    Conn(C.ST_INIT, false, 1, map[], [])
  }

  /** The live connection to an endpoint, or a new one; possible says whether one can be made. */
  function MakeConnection(e: Engine, endpoint: nat, possible: bool): (r: (Engine, Option<nat>)) {
    if !possible then (e, None)
    else if endpoint in e.conMap && e.conMap[endpoint] < |e.conns| && Live(e.conns[e.conMap[endpoint]]) then
      (e, Some(e.conMap[endpoint]))
    else
      (e.(conns := e.conns + [NewConn()], conMap := e.conMap[endpoint := |e.conns|]), Some(|e.conns|))
  }

  predicate ProxyOk(e: Engine, p: Proxy) {
    match p
    case Fixed(c) => c < |e.conns|
    case Normal(endpoints, cons, idx) =>
      endpoints != [] && |cons| == |endpoints| && idx < |endpoints| &&
      forall i :: 0 <= i < |cons| && cons[i].Some? ==> cons[i].value < |e.conns|
  }

  /** pickConnection without load balancing: a dead connection moves the proxy to its next endpoint. */
  function PickConnection(e: Engine, p: nat, possible: bool): (r: (Engine, Option<nat>))
    requires p < |e.proxies| && ProxyOk(e, e.proxies[p]) && e.proxies[p].Normal?
  {
    var prx := e.proxies[p];
    var con := prx.cons[prx.idx];
    if con.Some? && Live(e.conns[con.value]) then
      (e, con)
    else
      var idx := if prx.idx + 1 >= |prx.endpoints| then 0 else prx.idx + 1;
      var (f, made) := MakeConnection(e, prx.endpoints[idx], possible);
      var cons := if made.Some? then prx.cons[idx := made] else prx.cons;
      (f.(proxies := f.proxies[p := prx.(idx := idx, cons := cons)]), made)
  }

  /** giveAnswer or giveError. */
  function Complete(e: Engine, r: nat): Engine
    requires r < |e.results|
  {
    e.(results := e.results[r := e.results[r].(done := e.results[r].done + 1, place := Done)])
  }

  /** sendQuest of a two-way quest. */
  function SendQuest(e: Engine, c: nat, r: nat): Engine
    requires c < |e.conns| && r < |e.results|
  {
    var con := e.conns[c];
    var s := C.QuestSent(con.state, con.nextId, con.pending, e.results[r].txid, r);
    var f := e.(conns := e.conns[c := con.(nextId := s.nextId, pending := s.resultMap)]);
    if Live(con) then f.(results := e.results[r := e.results[r].(txid := s.txid, place := Pending(c))])
    else if s.failed.Some? && s.failed.value < |e.results| then Complete(f, s.failed.value)
    else f
  }

  // -------------------------------------------------------------- events

  datatype Event =
    | Emit(proxy: nat, possible: bool)
    | Sent(con: nat, id: int)
    | Answered(con: nat, id: int)
    | Shift(con: nat, to: nat, grace: bool)
    | Disconnect(con: nat, order: seq<nat>)
    | Settle(con: nat, possible: bool)
    | NewProxy(made: Proxy)
    | Incoming

  /** order lists the results that wait on the connection, in whatever order. */
  ghost predicate Lists(order: seq<nat>, pending: map<int, nat>) {
    (forall i, j :: 0 <= i < j < |order| ==> order[i] != order[j]) &&
    (forall r :: r in order ==> exists t :: t in pending && pending[t] == r) &&
    (forall t :: t in pending ==> pending[t] in order)
  }

  ghost predicate Possible(e: Engine, ev: Event) {
    match ev
    case Emit(p, _) => p < |e.proxies| && Roomy(e)
    case Sent(c, id) => c < |e.conns| && id in e.conns[c].pending
    case Answered(c, _) => c < |e.conns|
    case Shift(c, to, _) => c < |e.conns| && (!Live(e.conns[c]) ==> to >= C.ST_CLOSE)
    case Disconnect(c, order) => c < |e.conns| && Lists(order, e.conns[c].pending)
    case Settle(c, _) => c < |e.conns| && e.conns[c].taken != [] && Roomy(e)
    case NewProxy(p) => ProxyOk(e, p) && (p.Normal? ==> forall i :: 0 <= i < |p.cons| ==> p.cons[i] == None)
    case Incoming => true
  }

  /** No counter is about to wrap. */
  predicate Roomy(e: Engine) {
    forall c :: 0 <= c < |e.conns| ==> e.conns[c].nextId < C.INT64_MAX
  }

  ghost predicate WellFormed(e: Engine) {
    && (forall p :: 0 <= p < |e.proxies| ==> ProxyOk(e, e.proxies[p]))
    && (forall r :: 0 <= r < |e.results| ==> e.results[r].proxy < |e.proxies|)
    && (forall c, t :: 0 <= c < |e.conns| && t in e.conns[c].pending ==> e.conns[c].pending[t] < |e.results|)
    && (forall c, i :: 0 <= c < |e.conns| && 0 <= i < |e.conns[c].taken| ==> e.conns[c].taken[i] < |e.results|)
  }

  /** A quest is emitted: its connection is found, and it is sent or fails. */
  ghost function Emitted(e: Engine, p: nat, possible: bool): Engine
    requires WellFormed(e) && p < |e.proxies|
  {
    var r := |e.results|;
    var f := e.(results := e.results + [Res(p, -1, 0, false, 0, Done)]);
    match e.proxies[p]
    case Fixed(c) => SendQuest(f, c, r)
    case Normal(_, _, _) =>
      var (g, con) := PickConnection(f, p, possible);
      PickKeeps(f, p, possible);
      if con.None? then Complete(g, r) else SendQuest(g, con.value, r)
  }

  /** The first result that a disconnect holds, taken in hand; again says that it will be retried. */
  function InHand(e: Engine, c: nat, again: bool): Engine
    requires c < |e.conns| && e.conns[c].taken != [] && e.conns[c].taken[0] < |e.results|
  {
    var r := e.conns[c].taken[0];
    var res := e.results[r].(place := Done);
    e.(conns := e.conns[c := e.conns[c].(taken := e.conns[c].taken[1..])],
       results := e.results[r := if again then res.(retries := 1, sent := false) else res])
  }

  /** It is sent anew if that is safe and was not done before; otherwise it fails. */
  ghost function Settled(e: Engine, c: nat, possible: bool): Engine
    requires WellFormed(e) && c < |e.conns| && e.conns[c].taken != []
  {
    var r := e.conns[c].taken[0];
    var again := (e.conns[c].graceful || !e.results[r].sent) && e.results[r].retries == 0;
    var f := InHand(e, c, again);
    if again && e.proxies[e.results[r].proxy].Normal? then
      var p := e.results[r].proxy;
      assert ProxyOk(f, f.proxies[p]) by { assert ProxyOk(e, e.proxies[p]); }
      var (h, con) := PickConnection(f, p, possible);
      PickKeeps(f, p, possible);
      if con.None? then Complete(h, r) else SendQuest(h, con.value, r)
    else
      Complete(f, r)
  }

  ghost function Next(e: Engine, ev: Event): Engine
    requires WellFormed(e) && Possible(e, ev)
  {
    match ev
    case Emit(p, possible) => Emitted(e, p, possible)
    case Sent(c, id) =>
      var r := e.conns[c].pending[id];
      e.(results := e.results[r := e.results[r].(sent := true)])
    case Answered(c, id) =>
      var con := e.conns[c];
      if id in con.pending then
        Complete(e.(conns := e.conns[c := con.(pending := con.pending - {id})]), con.pending[id])
      else
        e.(conns := e.conns[c := con.(state := C.ST_ERROR)])
    case Shift(c, to, grace) =>
      e.(conns := e.conns[c := e.conns[c].(state := to, graceful := e.conns[c].graceful || grace)])
    case Disconnect(c, order) =>
      var con := e.conns[c];
      var state := if con.state < C.ST_CLOSED then C.ST_CLOSED else con.state;
      e.(conns := e.conns[c := con.(state := state, pending := map[], taken := con.taken + order)],
         results := seq(|e.results|, r requires 0 <= r < |e.results| =>
           if r in order then e.results[r].(place := Taken(c)) else e.results[r]))
    case Settle(c, possible) => Settled(e, c, possible)
    case NewProxy(p) => e.(proxies := e.proxies + [p])
    case Incoming => e.(conns := e.conns + [NewConn()])
  }

  lemma PickKeeps(e: Engine, p: nat, possible: bool)
    requires p < |e.proxies| && ProxyOk(e, e.proxies[p]) && e.proxies[p].Normal?
    ensures var (f, con) := PickConnection(e, p, possible);
            && |f.proxies| == |e.proxies| && f.results == e.results
            && (f.conns == e.conns || f.conns == e.conns + [NewConn()])
            && (con.Some? ==> con.value < |f.conns| && Live(f.conns[con.value]))
            && ProxyOk(f, f.proxies[p]) && f.proxies[p].Normal?
            && forall q :: 0 <= q < |e.proxies| && q != p ==> f.proxies[q] == e.proxies[q]
  {
  }

  // ----------------------------------------------------------- invariant

  /** The ledger entry of one result is true. */
  ghost predicate ResultOk(conns: seq<Conn>, results: seq<Res>, r: nat)
    requires r < |results|
  {
    var res := results[r];
    res.retries <= 1 &&
    match res.place
    case Pending(c) => res.done == 0 && c < |conns| && res.txid in conns[c].pending && conns[c].pending[res.txid] == r
    case Taken(c) => res.done == 0 && c < |conns| && r in conns[c].taken
    case Done => res.done == 1
  }

  /** What a connection holds is entered under it. */
  ghost predicate ConnOk(con: Conn, results: seq<Res>, c: nat) {
    && con.nextId >= 1
    && (forall t :: t in con.pending ==>
          0 < t < con.nextId && con.pending[t] < |results| &&
          results[con.pending[t]].place == Pending(c) && results[con.pending[t]].txid == t)
    && (forall i :: 0 <= i < |con.taken| ==> con.taken[i] < |results| && results[con.taken[i]].place == Taken(c))
    && (forall i, j :: 0 <= i < j < |con.taken| ==> con.taken[i] != con.taken[j])
  }

  /** All is in order, but for a result that only running code holds. */
  ghost predicate Good(e: Engine, loose: Option<nat>) {
    && (forall p :: 0 <= p < |e.proxies| ==> ProxyOk(e, e.proxies[p]))
    && (forall r :: 0 <= r < |e.results| ==> e.results[r].proxy < |e.proxies|)
    && (forall c :: 0 <= c < |e.conns| ==> ConnOk(e.conns[c], e.results, c))
    && (forall r :: 0 <= r < |e.results| && loose != Some(r) ==> ResultOk(e.conns, e.results, r))
    && (loose.Some? ==> loose.value < |e.results| && e.results[loose.value].place == Done &&
                        e.results[loose.value].done == 0 && e.results[loose.value].retries <= 1)
  }

  lemma GoodIsWellFormed(e: Engine)
    requires Good(e, None)
    ensures WellFormed(e)
  {
    hide ResultOk, ProxyOk;
  }

  lemma CompleteSettles(e: Engine, r: nat)
    requires Good(e, Some(r))
    ensures Good(Complete(e, r), None)
  {
    var f := Complete(e, r);
    forall p | 0 <= p < |f.proxies|
      ensures ProxyOk(f, f.proxies[p])
    {
      assert ProxyOk(e, e.proxies[p]);
    }
  }

  lemma SendSettles(e: Engine, c: nat, r: nat)
    requires Good(e, Some(r)) && c < |e.conns| && e.conns[c].nextId < C.INT64_MAX
    requires Live(e.conns[c]) || e.results[r].txid <= 0
    ensures Good(SendQuest(e, c, r), None)
  {
    if !Live(e.conns[c]) {
      CompleteSettles(e, r);
    } else {
      var f := SendQuest(e, c, r);
      forall p | 0 <= p < |f.proxies|
        ensures ProxyOk(f, f.proxies[p])
      {
        assert ProxyOk(e, e.proxies[p]);
      }
    }
  }

  lemma PickStaysGood(e: Engine, p: nat, possible: bool, r: nat)
    requires Good(e, Some(r)) && p < |e.proxies| && e.proxies[p].Normal?
    ensures Good(PickConnection(e, p, possible).0, Some(r))
  {
    hide PickConnection;
    assert ProxyOk(e, e.proxies[p]);
    PickKeeps(e, p, possible);
    var f := PickConnection(e, p, possible).0;
    forall q | 0 <= q < |f.proxies|
      ensures ProxyOk(f, f.proxies[q])
    {
      assert ProxyOk(e, e.proxies[q]);
    }
    forall c | 0 <= c < |f.conns|
      ensures ConnOk(f.conns[c], f.results, c)
    {
      if c < |e.conns| {
        assert ConnOk(e.conns[c], e.results, c);
      }
    }
    forall x | 0 <= x < |f.results| && x != r
      ensures ResultOk(f.conns, f.results, x)
    {
      assert ResultOk(e.conns, e.results, x);
    }
  }

  /** A picked connection has room in its counter. */
  lemma PickedHasRoom(e: Engine, p: nat, possible: bool)
    requires p < |e.proxies| && ProxyOk(e, e.proxies[p]) && e.proxies[p].Normal? && Roomy(e)
    ensures Roomy(PickConnection(e, p, possible).0)
  {
  }

  /** A proxy stays in order as long as no connection goes away. */
  lemma ProxiesStay(e: Engine, f: Engine)
    requires forall p :: 0 <= p < |e.proxies| ==> ProxyOk(e, e.proxies[p])
    requires f.proxies == e.proxies && |f.conns| >= |e.conns|
    ensures forall p :: 0 <= p < |f.proxies| ==> ProxyOk(f, f.proxies[p])
  {
    forall p | 0 <= p < |f.proxies|
      ensures ProxyOk(f, f.proxies[p])
    {
      assert ProxyOk(e, e.proxies[p]);
    }
  }

  lemma StepEmit(e: Engine, p: nat, possible: bool)
    requires Good(e, None) && Possible(e, Emit(p, possible)) && WellFormed(e)
    ensures Good(Next(e, Emit(p, possible)), None)
  {
    hide SendQuest, Complete, PickConnection, Roomy;
    var r := |e.results|;
    var f := e.(results := e.results + [Res(p, -1, 0, false, 0, Done)]);
    Enlisted(e, f, r);
    assert ProxyOk(e, e.proxies[p]);
    RoomThere(e);
    match e.proxies[p] {
      case Fixed(c) =>
        SendSettles(f, c, r);
      case Normal(_, _, _) =>
        PickKeeps(f, p, possible);
        PickStaysGood(f, p, possible, r);
        SameRoom(e, f);
        PickedHasRoom(f, p, possible);
        var (g, con) := PickConnection(f, p, possible);
        RoomThere(g);
        if con.None? {
          CompleteSettles(g, r);
        } else {
          SendSettles(g, con.value, r);
        }
    }
  }

  lemma Enlisted(e: Engine, f: Engine, r: nat)
    requires Good(e, None) && r == |e.results|
    requires exists p: nat :: p < |e.proxies| && f == e.(results := e.results + [Res(p, -1, 0, false, 0, Done)])
    ensures Good(f, Some(r))
  {
    hide ProxyOk;
    ProxiesSame(e, f);
    forall c | 0 <= c < |f.conns|
      ensures ConnOk(f.conns[c], f.results, c)
    {
      assert ConnOk(e.conns[c], e.results, c);
    }
    forall x | 0 <= x < |f.results| && x != r
      ensures ResultOk(f.conns, f.results, x)
    {
      assert ResultOk(e.conns, e.results, x);
    }
  }

  lemma ProxiesSame(e: Engine, f: Engine)
    requires f.conns == e.conns
    ensures forall p: Proxy :: ProxyOk(e, p) <==> ProxyOk(f, p)
  {
  }

  lemma RoomThere(e: Engine)
    requires Roomy(e)
    ensures forall c :: 0 <= c < |e.conns| ==> e.conns[c].nextId < C.INT64_MAX
  {
  }

  lemma SameRoom(e: Engine, f: Engine)
    requires Roomy(e) && |f.conns| == |e.conns|
    requires forall c :: 0 <= c < |e.conns| ==> f.conns[c].nextId == e.conns[c].nextId
    ensures Roomy(f)
  {
  }

  lemma InHandIsLoose(e: Engine, c: nat, again: bool)
    requires Good(e, None) && c < |e.conns| && e.conns[c].taken != []
    ensures e.conns[c].taken[0] < |e.results| && Good(InHand(e, c, again), Some(e.conns[c].taken[0]))
  {
    var r := e.conns[c].taken[0];
    assert ConnOk(e.conns[c], e.results, c) && ResultOk(e.conns, e.results, r);
    var f := InHand(e, c, again);
    ProxiesStay(e, f);
    forall d | 0 <= d < |f.conns|
      ensures ConnOk(f.conns[d], f.results, d)
    {
      assert ConnOk(e.conns[d], e.results, d);
    }
    forall x | 0 <= x < |f.results| && x != r
      ensures ResultOk(f.conns, f.results, x)
    {
      assert ResultOk(e.conns, e.results, x);
      if e.results[x].place == Taken(c) {
        assert x in e.conns[c].taken[1..];
      }
    }
  }

  lemma StepSettle(e: Engine, c: nat, possible: bool)
    requires Good(e, None) && Possible(e, Settle(c, possible)) && WellFormed(e)
    ensures Good(Next(e, Settle(c, possible)), None)
  {
    hide SendQuest, Complete, PickConnection, Roomy;
    var r := e.conns[c].taken[0];
    var again := (e.conns[c].graceful || !e.results[r].sent) && e.results[r].retries == 0;
    var f := InHand(e, c, again);
    InHandIsLoose(e, c, again);
    var p := e.results[r].proxy;
    if again && e.proxies[p].Normal? {
      assert ProxyOk(f, f.proxies[p]);
      PickKeeps(f, p, possible);
      PickStaysGood(f, p, possible, r);
      SameRoom(e, f);
      PickedHasRoom(f, p, possible);
      var (h, con) := PickConnection(f, p, possible);
      RoomThere(h);
      if con.None? {
        CompleteSettles(h, r);
      } else {
        SendSettles(h, con.value, r);
      }
    } else {
      CompleteSettles(f, r);
    }
  }

  /** An answer takes its result off the map. */
  function Freed(e: Engine, c: nat, id: int): Engine
    requires c < |e.conns| && id in e.conns[c].pending && e.conns[c].pending[id] < |e.results|
  {
    var con, r := e.conns[c], e.conns[c].pending[id];
    e.(conns := e.conns[c := con.(pending := con.pending - {id})], results := e.results[r := e.results[r].(place := Done)])
  }

  lemma FreedIsLoose(e: Engine, c: nat, id: int)
    requires Good(e, None) && c < |e.conns| && id in e.conns[c].pending
    ensures e.conns[c].pending[id] < |e.results| && Good(Freed(e, c, id), Some(e.conns[c].pending[id]))
  {
    assert ConnOk(e.conns[c], e.results, c);
    var r := e.conns[c].pending[id];
    assert ResultOk(e.conns, e.results, r);
    var f := Freed(e, c, id);
    ProxiesStay(e, f);
    forall d | 0 <= d < |f.conns|
      ensures ConnOk(f.conns[d], f.results, d)
    {
      assert ConnOk(e.conns[d], e.results, d);
    }
    forall x | 0 <= x < |f.results| && x != r
      ensures ResultOk(f.conns, f.results, x)
    {
      assert ResultOk(e.conns, e.results, x);
    }
  }

  lemma StepAnswered(e: Engine, c: nat, id: int)
    requires Good(e, None) && c < |e.conns| && id in e.conns[c].pending
    ensures WellFormed(e) && Good(Next(e, Answered(c, id)), None)
  {
    GoodIsWellFormed(e);
    FreedIsLoose(e, c, id);
    hide Good, WellFormed;
    var r := e.conns[c].pending[id];
    CompleteSettles(Freed(e, c, id), r);
    assert Complete(Freed(e, c, id), r) == Next(e, Answered(c, id));
  }

  lemma ConnTakes(con: Conn, order: seq<nat>, results: seq<Res>, now: seq<Res>, c: nat, state: nat)
    requires ConnOk(con, results, c) && Lists(order, con.pending) && |now| == |results|
    requires forall r :: 0 <= r < |results| ==> now[r] == if r in order then results[r].(place := Taken(c)) else results[r]
    ensures ConnOk(con.(state := state, pending := map[], taken := con.taken + order), now, c)
    ensures forall r :: r in order ==> r < |results| && results[r].place == Pending(c)
  {
    var taken := con.taken + order;
    assert forall r :: r in order ==> r < |results| && results[r].place == Pending(c);
    assert forall i :: 0 <= i < |con.taken| ==> taken[i] == con.taken[i] && con.taken[i] !in order;
    assert forall i :: |con.taken| <= i < |taken| ==> taken[i] == order[i - |con.taken|] && taken[i] in order;
  }

  lemma ConnUnmoved(con: Conn, order: seq<nat>, results: seq<Res>, now: seq<Res>, c: nat, d: nat)
    requires ConnOk(con, results, d) && |now| == |results| && c != d
    requires forall r :: r in order ==> r < |results| && results[r].place == Pending(c)
    requires forall r :: 0 <= r < |results| ==> now[r] == if r in order then results[r].(place := Taken(c)) else results[r]
    ensures ConnOk(con, now, d)
  {
  }

  lemma StepDisconnect(e: Engine, c: nat, order: seq<nat>)
    requires Good(e, None) && Possible(e, Disconnect(c, order))
    ensures WellFormed(e) && Good(Next(e, Disconnect(c, order)), None)
  {
    GoodIsWellFormed(e);
    var con := e.conns[c];
    assert ConnOk(con, e.results, c);
    var f := Next(e, Disconnect(c, order));
    ProxiesStay(e, f);
    ConnTakes(con, order, e.results, f.results, c, f.conns[c].state);
    hide ConnOk, ProxyOk, Lists;
    forall d | 0 <= d < |f.conns|
      ensures ConnOk(f.conns[d], f.results, d)
    {
      if d != c {
        ConnUnmoved(e.conns[d], order, e.results, f.results, c, d);
      }
    }
    ListsAll(order, con.pending);
    forall x | 0 <= x < |f.results|
      ensures ResultOk(f.conns, f.results, x)
    {
      assert ResultOk(e.conns, e.results, x);
      assert x in f.conns[c].taken <==> x in con.taken || x in order;
    }
  }

  lemma ListsAll(order: seq<nat>, pending: map<int, nat>)
    requires Lists(order, pending)
    ensures forall t :: t in pending ==> pending[t] in order
  {
  }

  /** Steps that move no result. */
  lemma StepAside(e: Engine, ev: Event)
    requires Good(e, None) && Possible(e, ev) &&
             (ev.Sent? || ev.Shift? || ev.NewProxy? || ev.Incoming? || (ev.Answered? && ev.id !in e.conns[ev.con].pending))
    ensures WellFormed(e) && Good(Next(e, ev), None)
  {
    GoodIsWellFormed(e);
    var f := Next(e, ev);
    forall p | 0 <= p < |f.proxies|
      ensures ProxyOk(f, f.proxies[p])
    {
      assert p < |e.proxies| ==> ProxyOk(e, e.proxies[p]);
    }
    forall d | 0 <= d < |f.conns|
      ensures ConnOk(f.conns[d], f.results, d)
    {
      assert d < |e.conns| ==> ConnOk(e.conns[d], e.results, d);
    }
    forall x | 0 <= x < |f.results|
      ensures ResultOk(f.conns, f.results, x)
    {
      assert ResultOk(e.conns, e.results, x);
    }
  }

  lemma StepKeepsGood(e: Engine, ev: Event)
    requires Good(e, None) && Possible(e, ev)
    ensures WellFormed(e) && Good(Next(e, ev), None)
  {
    GoodIsWellFormed(e);
    hide Good, Next;
    match ev {
      case Emit(p, possible) => StepEmit(e, p, possible);
      case Answered(c, id) =>
        if id in e.conns[c].pending { StepAnswered(e, c, id); } else { StepAside(e, ev); }
      case Disconnect(c, order) => StepDisconnect(e, c, order);
      case Settle(c, possible) => StepSettle(e, c, possible);
      case _ => StepAside(e, ev);
    }
  }

  // ------------------------------------------------------------- results

  /** A run of events from e. */
  ghost predicate Run(e: Engine, events: seq<Event>)
    requires Good(e, None)
    decreases |events|
  {
    events == [] ||
    (Possible(e, events[0]) &&
     (StepKeepsGood(e, events[0]); Run(Next(e, events[0]), events[1..])))
  }

  ghost function After(e: Engine, events: seq<Event>): Engine
    requires Good(e, None) && Run(e, events)
    decreases |events|
  {
    if events == [] then e
    else
      StepKeepsGood(e, events[0]);
      After(Next(e, events[0]), events[1..])
  }

  lemma {:induction false} RunsAreGood(e: Engine, events: seq<Event>)
    requires Good(e, None) && Run(e, events)
    ensures Good(After(e, events), None)
    decreases |events|
  {
    hide Good, Next;
    if events != [] {
      StepKeepsGood(e, events[0]);
      RunsAreGood(Next(e, events[0]), events[1..]);
    }
  }

  const START := Engine([], [], [], map[])

  /** Result r waits on connection c under the number its quest carries. */
  ghost predicate WaitsOn(e: Engine, r: nat, c: nat)
    requires r < |e.results|
  {
    c < |e.conns| && e.results[r].txid in e.conns[c].pending && e.conns[c].pending[e.results[r].txid] == r
  }

  ghost predicate HeldBy(e: Engine, r: nat, c: nat) {
    c < |e.conns| && r in e.conns[c].taken
  }

  lemma OnePlace(e: Engine, r: nat)
    requires Good(e, None) && r < |e.results|
    ensures var res := e.results[r];
            && res.done <= 1 && res.retries <= 1
            && (res.done == 1 ==> forall c: nat :: !WaitsOn(e, r, c) && !HeldBy(e, r, c))
            && (res.done == 0 ==> exists c: nat :: WaitsOn(e, r, c) != HeldBy(e, r, c))
            && (forall c: nat, d: nat :: WaitsOn(e, r, c) ==> !HeldBy(e, r, d))
            && (forall c: nat, d: nat :: WaitsOn(e, r, c) && WaitsOn(e, r, d) ==> c == d)
            && (forall c: nat, d: nat :: HeldBy(e, r, c) && HeldBy(e, r, d) ==> c == d)
            && (forall c, t :: 0 <= c < |e.conns| && t in e.conns[c].pending && e.conns[c].pending[t] == r ==> t == res.txid)
  {
    hide ProxyOk;
    assert ResultOk(e.conns, e.results, r);
    forall c: nat | c < |e.conns|
      ensures WaitsOn(e, r, c) <==> e.results[r].place == Pending(c)
      ensures HeldBy(e, r, c) <==> e.results[r].place == Taken(c)
      ensures forall t :: t in e.conns[c].pending && e.conns[c].pending[t] == r ==> t == e.results[r].txid
    {
      assert ConnOk(e.conns[c], e.results, c);
    }
    match e.results[r].place {
      case Pending(c) => assert WaitsOn(e, r, c) != HeldBy(e, r, c);
      case Taken(c) => assert WaitsOn(e, r, c) != HeldBy(e, r, c);
      case Done =>
    }
  }

  /**
   * In every run a result waits on one connection, or one disconnect holds it,
   * or it has been completed once; and it has been retried at most once.
   */
  lemma ExactlyOnce(events: seq<Event>, r: nat)
    requires Good(START, None) && Run(START, events) && r < |After(START, events).results|
    ensures var e := After(START, events); var res := e.results[r];
            && res.done <= 1 && res.retries <= 1
            && (res.done == 1 ==> forall c: nat :: !WaitsOn(e, r, c) && !HeldBy(e, r, c))
            && (res.done == 0 ==> exists c: nat :: WaitsOn(e, r, c) != HeldBy(e, r, c))
            && (forall c: nat, d: nat :: WaitsOn(e, r, c) ==> !HeldBy(e, r, d))
            && (forall c: nat, d: nat :: WaitsOn(e, r, c) && WaitsOn(e, r, d) ==> c == d)
            && (forall c: nat, d: nat :: HeldBy(e, r, c) && HeldBy(e, r, d) ==> c == d)
            && (forall c, t :: 0 <= c < |e.conns| && t in e.conns[c].pending && e.conns[c].pending[t] == r ==> t == res.txid)
  {
    RunsAreGood(START, events);
    OnePlace(After(START, events), r);
  }

  lemma NothingIsGood()
    ensures Good(START, None)
  {
  }

  /**
   * Why only live connections may be picked: handing over the result in hand
   * keeps the ledger if and only if the connection is live or the quest
   * carries no number yet; otherwise the result is lost, and perhaps another
   * one failed in its place.
   */
  lemma OnlyLiveKeepsTheLedger(e: Engine, c: nat, r: nat)
    requires Good(e, Some(r)) && c < |e.conns| && e.conns[c].nextId < C.INT64_MAX
    ensures Good(SendQuest(e, c, r), None) <==> Live(e.conns[c]) || e.results[r].txid <= 0
  {
    hide ProxyOk, ConnOk;
    if Live(e.conns[c]) || e.results[r].txid <= 0 {
      SendSettles(e, c, r);
    } else {
      InHandIsNotPending(e, c, r);
      assert SendQuest(e, c, r).results[r] == e.results[r];
      assert !ResultOk(SendQuest(e, c, r).conns, SendQuest(e, c, r).results, r);
    }
  }

  lemma InHandIsNotPending(e: Engine, c: nat, r: nat)
    requires Good(e, Some(r)) && c < |e.conns|
    ensures forall t :: t in e.conns[c].pending ==> e.conns[c].pending[t] != r
  {
    assert ConnOk(e.conns[c], e.results, c);
  }
}
