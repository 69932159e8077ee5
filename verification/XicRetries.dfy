/**
 * When the result of a quest is retried after a disconnect, and on which
 * connection, told from the events of a run (xic/StEngineImp.cpp,
 * xic/EngineImp.cpp).
 */
module XicRetries {
  import opened Prelude
  import opened XicResults
  import C = XicConnection

  // ------------------------------------------------ what a run has seen

  /** The quest of result r was written out. */
  ghost predicate WasSent(e: Engine, events: seq<Event>, r: nat)
    requires Good(e, None) && Run(e, events)
    decreases |events|
  {
    events != [] &&
    (SendsQuest(e, events[0], r) || (StepKeepsGood(e, events[0]); WasSent(Next(e, events[0]), events[1..], r)))
  }

  ghost predicate SendsQuest(e: Engine, ev: Event, r: nat)
    requires Possible(e, ev)
  {
    ev.Sent? && e.conns[ev.con].pending[ev.id] == r
  }

  /** A disconnect that held result r disposed of it. */
  ghost predicate WasSettled(e: Engine, events: seq<Event>, r: nat)
    requires Good(e, None) && Run(e, events)
    decreases |events|
  {
    events != [] &&
    (Settles(e, events[0], r) || (StepKeepsGood(e, events[0]); WasSettled(Next(e, events[0]), events[1..], r)))
  }

  ghost predicate Settles(e: Engine, ev: Event, r: nat)
    requires Possible(e, ev)
  {
    ev.Settle? && e.conns[ev.con].taken[0] == r
  }

  /** Connection c was closed with grace. */
  predicate WasGraced(events: seq<Event>, c: nat) {
    exists k :: 0 <= k < |events| && events[k].Shift? && events[k].con == c && events[k].grace
  }

  // ------------------------------------------------- what one step does

  /** Handing over a result changes no other, nor who is graceful. */
  lemma SendKeeps(e: Engine, c: nat, r: nat)
    requires c < |e.conns| && r < |e.results| && (Live(e.conns[c]) || e.results[r].txid <= 0)
    ensures var f := SendQuest(e, c, r);
      && |f.results| == |e.results| && (forall x :: 0 <= x < |e.results| && x != r ==> f.results[x] == e.results[x])
      && f.results[r].retries == e.results[r].retries && f.results[r].sent == e.results[r].sent
      && f.results[r].proxy == e.results[r].proxy
      && f.results[r].done == e.results[r].done + (if Live(e.conns[c]) then 0 else 1)
      && (Live(e.conns[c]) ==> f.results[r].place == Pending(c))
      && |f.conns| == |e.conns| && f.proxies == e.proxies && f.conMap == e.conMap
      && (forall d :: 0 <= d < |e.conns| ==> f.conns[d].graceful == e.conns[d].graceful && f.conns[d].state == e.conns[d].state)
  {
  }

  /** The live connection the proxy is at, or, if possible, another one. */
  predicate CanBeHad(e: Engine, p: nat, possible: bool)
    requires p < |e.proxies| && ProxyOk(e, e.proxies[p])
  {
    e.proxies[p].Normal? && (possible || AtLive(e, e.proxies[p]))
  }

  predicate AtLive(e: Engine, p: Proxy)
    requires ProxyOk(e, p) && p.Normal?
  {
    p.cons[p.idx].Some? && e.conns[p.cons[p.idx].value].state < C.ST_CLOSE
  }

  /** The connection a proxy is at. */
  function Current(e: Engine, p: nat): Option<nat>
    requires p < |e.proxies| && ProxyOk(e, e.proxies[p]) && e.proxies[p].Normal?
  {
    e.proxies[p].cons[e.proxies[p].idx]
  }

  /**
   * A proxy stays at a live connection. From a dead one, or none, it goes on
   * to its next endpoint, round and round, where the connection last made to
   * that endpoint is used again if it is live; otherwise a new one is made.
   */
  lemma PickGoesRound(e: Engine, p: nat, possible: bool)
    requires p < |e.proxies| && ProxyOk(e, e.proxies[p]) && e.proxies[p].Normal?
    ensures var (f, con) := PickConnection(e, p, possible);
      var was := e.proxies[p];
      var next := (was.idx + 1) % |was.endpoints|;
      if AtLive(e, was) then f == e && con == was.cons[was.idx]
      else
        && f.results == e.results && |f.proxies| == |e.proxies|
        && (forall q :: 0 <= q < |e.proxies| && q != p ==> f.proxies[q] == e.proxies[q])
        && (!possible ==> con == None && f.proxies[p] == was.(idx := next) && f.conns == e.conns && f.conMap == e.conMap)
        && (possible ==>
              && con.Some? && f.proxies[p] == was.(idx := next, cons := was.cons[next := con])
              && var x := was.endpoints[next];
                if x in e.conMap && e.conMap[x] < |e.conns| && e.conns[e.conMap[x]].state < C.ST_CLOSE then
                  con.value == e.conMap[x] && f.conns == e.conns && f.conMap == e.conMap
                else
                  && con.value == |e.conns| && f.conMap == e.conMap[x := con.value]
                  && f.conns == e.conns + [Conn(C.ST_INIT, false, 1, map[], [])])
  {
    var was := e.proxies[p];
    InTurn(was.idx, |was.endpoints|);
    PickKeeps(e, p, possible);
  }

  lemma InTurn(k: nat, n: nat)
    requires k < n
    ensures (k + 1) % n == if k + 1 >= n then 0 else k + 1
  {
  }

  lemma PickHas(e: Engine, p: nat, possible: bool)
    requires p < |e.proxies| && ProxyOk(e, e.proxies[p]) && e.proxies[p].Normal?
    ensures var (f, con) := PickConnection(e, p, possible);
      && (con.Some? <==> CanBeHad(e, p, possible))
      && |f.conns| >= |e.conns| && f.conns[..|e.conns|] == e.conns
      && (forall d :: |e.conns| <= d < |f.conns| ==> !f.conns[d].graceful)
      && p < |f.proxies| && ProxyOk(f, f.proxies[p]) && f.proxies[p].Normal? && (con.Some? ==> Current(f, p) == con)
  {
    PickKeeps(e, p, possible);
  }

  /** Result r waits at the connection that its proxy is at, which is live. */
  ghost predicate WithItsProxy(e: Engine, r: nat)
    requires r < |e.results|
  {
    var p := e.results[r].proxy;
    && p < |e.proxies| && ProxyOk(e, e.proxies[p]) && e.proxies[p].Normal?
    && AtLive(e, e.proxies[p]) && e.results[r].place == Pending(Current(e, p).value)
  }

  lemma HandKeeps(e: Engine, c: nat, again: bool)
    requires Good(e, None) && c < |e.conns| && e.conns[c].taken != []
    ensures e.conns[c].taken[0] < |e.results|
    ensures var r, f := e.conns[c].taken[0], InHand(e, c, again);
      && |f.results| == |e.results| && (forall x :: 0 <= x < |e.results| && x != r ==> f.results[x] == e.results[x])
      && f.results[r] == e.results[r].(place := Done, retries := if again then 1 else e.results[r].retries,
                                       sent := !again && e.results[r].sent)
      && f.results[r].done == 0
      && |f.conns| == |e.conns| && f.proxies == e.proxies && f.conMap == e.conMap
      && (forall d :: 0 <= d < |e.conns| ==> f.conns[d].graceful == e.conns[d].graceful && f.conns[d].state == e.conns[d].state)
  {
    var r := e.conns[c].taken[0];
    assert ConnOk(e.conns[c], e.results, c) && ResultOk(e.conns, e.results, r);
  }

  lemma SameProxies(e: Engine, f: Engine, p: Proxy, possible: bool)
    requires ProxyOk(e, p) && |f.conns| == |e.conns|
    requires forall d :: 0 <= d < |e.conns| ==> f.conns[d].state == e.conns[d].state
    ensures ProxyOk(f, p) && (p.Normal? ==> (AtLive(f, p) <==> AtLive(e, p)))
  {
  }

  ghost function HandedOver(e: Engine, p: nat, possible: bool, r: nat): Engine
    requires r < |e.results| && p < |e.proxies| && ProxyOk(e, e.proxies[p]) && e.proxies[p].Normal?
  {
    var (h, con) := PickConnection(e, p, possible);
    PickKeeps(e, p, possible);
    if con.None? then Complete(h, r) else SendQuest(h, con.value, r)
  }

  /** A result in hand that is to be retried waits at the connection picked, or fails. */
  lemma HandOver(e: Engine, p: nat, possible: bool, r: nat)
    requires r < |e.results| && e.results[r].proxy == p && p < |e.proxies| && ProxyOk(e, e.proxies[p]) && e.proxies[p].Normal?
    ensures var f := HandedOver(e, p, possible, r);
      && |f.results| == |e.results| && |f.conns| >= |e.conns|
      && (forall x :: 0 <= x < |e.results| && x != r ==> f.results[x] == e.results[x])
      && (forall d :: 0 <= d < |f.conns| ==> f.conns[d].graceful == (d < |e.conns| && e.conns[d].graceful))
      && f.results[r].retries == e.results[r].retries && f.results[r].sent == e.results[r].sent
      && f.results[r].done == e.results[r].done + (if possible || AtLive(e, e.proxies[p]) then 0 else 1)
      && (possible || AtLive(e, e.proxies[p]) ==> WithItsProxy(f, r))
  {
    hide PickConnection, SendQuest, Complete, C.QuestSent, MakeConnection;
    PickKeeps(e, p, possible);
    PickHas(e, p, possible);
    var (h, con) := PickConnection(e, p, possible);
    assert forall d :: 0 <= d < |e.conns| ==> h.conns[d] == h.conns[..|e.conns|][d];
    if con.None? {
      CompleteKeepsAll(h, r);
    } else {
      SendKeeps(h, con.value, r);
      var f := SendQuest(h, con.value, r);
      SameProxies(h, f, h.proxies[p], possible);
      assert AtLive(f, f.proxies[p]) && Current(f, p) == con;
    }
  }

  lemma CompleteKeepsAll(e: Engine, r: nat)
    requires r < |e.results|
    ensures var f := Complete(e, r);
      && |f.results| == |e.results| && (forall x :: 0 <= x < |e.results| && x != r ==> f.results[x] == e.results[x])
      && f.results[r] == e.results[r].(done := e.results[r].done + 1, place := Done) && f.conns == e.conns
  {
  }

  /** What a disconnect may do with a result it holds, by what is noted of them. */
  ghost predicate MayRetry(e: Engine, c: nat, r: nat)
    requires c < |e.conns| && r < |e.results|
  {
    (e.conns[c].graceful || !e.results[r].sent) && e.results[r].retries == 0
  }

  lemma SettleStep(e: Engine, c: nat, possible: bool)
    requires Good(e, None) && Possible(e, Settle(c, possible)) && WellFormed(e)
    ensures var r, f := e.conns[c].taken[0], Next(e, Settle(c, possible));
      && |f.results| == |e.results| && |f.conns| >= |e.conns|
      && (forall x :: 0 <= x < |e.results| && x != r ==> f.results[x] == e.results[x])
      && (forall d :: 0 <= d < |f.conns| ==> f.conns[d].graceful == (d < |e.conns| && e.conns[d].graceful))
      && (f.results[r].done == 1 || f.results[r].retries == 1)
      && (f.results[r].done == 0 <==> MayRetry(e, c, r) && CanBeHad(e, e.results[r].proxy, possible))
      && (f.results[r].done == 0 ==> WithItsProxy(f, r))
  {
    var r := e.conns[c].taken[0];
    var again, p := MayRetry(e, c, r), e.results[r].proxy;
    HandKeeps(e, c, again);
    var f := InHand(e, c, again);
    SameProxies(e, f, e.proxies[p], possible);
    hide InHand, PickConnection, SendQuest, Complete, MakeConnection, Good, ProxyOk, WithItsProxy, AtLive;
    if again && e.proxies[p].Normal? {
      HandOver(f, p, possible, r);
    } else {
      CompleteKeepsAll(f, r);
    }
  }

  // ------------------------------------------------------ what is noted

  function Retries(e: Engine, r: nat): nat {
    if r < |e.results| then e.results[r].retries else 0
  }

  predicate IsSent(e: Engine, r: nat) {
    r < |e.results| && e.results[r].sent
  }

  predicate IsDone(e: Engine, r: nat) {
    r < |e.results| && e.results[r].done == 1
  }

  predicate IsGraceful(e: Engine, c: nat) {
    c < |e.conns| && e.conns[c].graceful
  }

  predicate Graces(ev: Event, c: nat) {
    ev.Shift? && ev.con == c && ev.grace
  }

  /** What a step that disposes of no result changes in the notes: only what it says. */
  ghost predicate NotesKept(e: Engine, f: Engine, r: nat, c: nat, sends: bool, graces: bool) {
    && |f.results| >= |e.results| && Retries(f, r) == Retries(e, r)
    && (IsSent(f, r) <==> IsSent(e, r) || sends)
    && (IsDone(e, r) ==> IsDone(f, r))
    && (IsGraceful(f, c) <==> IsGraceful(e, c) || graces)
  }

  lemma DoneIsNowhere(e: Engine, r: nat, c: nat)
    requires Good(e, None) && IsDone(e, r) && c < |e.conns|
    ensures forall t :: t in e.conns[c].pending ==> e.conns[c].pending[t] != r
    ensures r !in e.conns[c].taken
  {
    assert ConnOk(e.conns[c], e.results, c) && ResultOk(e.conns, e.results, r);
  }

  lemma EmitNotes(e: Engine, ev: Event, r: nat, c: nat)
    requires Good(e, None) && Possible(e, ev) && ev.Emit? && WellFormed(e)
    ensures NotesKept(e, Next(e, ev), r, c, false, false)
  {
    var x := |e.results|;
    var f := e.(results := e.results + [Res(ev.proxy, -1, 0, false, 0, Done)]);
    ProxiesSame(e, f);
    hide PickConnection, SendQuest, Complete, Good, ProxyOk, Roomy, WithItsProxy, AtLive;
    match e.proxies[ev.proxy]
    case Fixed(con) =>
      FixedIsThere(e, ev.proxy);
      SendKeeps2(f, con, x);
    case Normal(_, _, _) => HandOver(f, ev.proxy, ev.possible, x);
  }

  lemma FixedIsThere(e: Engine, p: nat)
    requires WellFormed(e) && p < |e.proxies| && e.proxies[p].Fixed?
    ensures e.proxies[p].con < |e.conns|
  {
    assert ProxyOk(e, e.proxies[p]);
  }

  lemma SendKeeps2(e: Engine, c: nat, r: nat)
    requires c < |e.conns| && r < |e.results| && e.results[r].txid <= 0
    ensures var f := SendQuest(e, c, r);
      && |f.results| == |e.results| && (forall x :: 0 <= x < |e.results| && x != r ==> f.results[x] == e.results[x])
      && f.results[r].retries == e.results[r].retries && f.results[r].sent == e.results[r].sent
      && |f.conns| == |e.conns| && forall d :: 0 <= d < |e.conns| ==> f.conns[d].graceful == e.conns[d].graceful
  {
    SendKeeps(e, c, r);
  }

  lemma AnsweredNotes(e: Engine, ev: Event, r: nat, c: nat)
    requires Good(e, None) && Possible(e, ev) && ev.Answered? && WellFormed(e)
    ensures NotesKept(e, Next(e, ev), r, c, false, false)
  {
    if IsDone(e, r) { DoneIsNowhere(e, r, ev.con); }
    hide Good, ProxyOk;
  }

  lemma DisconnectNotes(e: Engine, ev: Event, r: nat, c: nat)
    requires Good(e, None) && Possible(e, ev) && ev.Disconnect? && WellFormed(e)
    ensures NotesKept(e, Next(e, ev), r, c, false, false)
  {
    hide Good, ProxyOk, Lists;
  }

  lemma OtherNotes(e: Engine, ev: Event, r: nat, c: nat)
    requires Good(e, None) && Possible(e, ev) && (ev.Sent? || ev.Shift? || ev.NewProxy? || ev.Incoming?) && WellFormed(e)
    ensures NotesKept(e, Next(e, ev), r, c, SendsQuest(e, ev, r), Graces(ev, c))
  {
    hide Good, ProxyOk;
  }

  /** One step, whatever it is. */
  lemma StepNotes(e: Engine, ev: Event, r: nat, c: nat)
    requires Good(e, None) && Possible(e, ev) && WellFormed(e)
    ensures !Settles(e, ev, r) ==> NotesKept(e, Next(e, ev), r, c, SendsQuest(e, ev, r), Graces(ev, c))
    ensures Settles(e, ev, r) ==> !IsDone(e, r) && (Retries(Next(e, ev), r) == 1 || IsDone(Next(e, ev), r))
    ensures IsGraceful(Next(e, ev), c) <==> IsGraceful(e, c) || Graces(ev, c)
  {
    match ev
    case Emit(_, _) => EmitNotes(e, ev, r, c);
    case Answered(_, _) => AnsweredNotes(e, ev, r, c);
    case Disconnect(_, _) => DisconnectNotes(e, ev, r, c);
    case Settle(con, possible) =>
      if IsDone(e, r) { DoneIsNowhere(e, r, con); }
      SettleStep(e, con, possible);
      hide Next, Good, ProxyOk, MayRetry, WithItsProxy;
    case _ => OtherNotes(e, ev, r, c);
  }

  /** At the end of a run: a result disposed of was retried or is done; otherwise it is marked as sent if its quest was. */
  lemma {:induction false} RunNotes(e: Engine, events: seq<Event>, r: nat, c: nat)
    requires Good(e, None) && Run(e, events)
    ensures var f := After(e, events);
      && (WasSettled(e, events, r) || Retries(e, r) == 1 || IsDone(e, r) ==> Retries(f, r) == 1 || IsDone(f, r))
      && (!WasSettled(e, events, r) ==> Retries(f, r) == Retries(e, r) && (IsSent(f, r) <==> IsSent(e, r) || WasSent(e, events, r)))
      && (IsGraceful(f, c) <==> IsGraceful(e, c) || WasGraced(events, c))
      && (IsDone(e, r) ==> IsDone(f, r))
    decreases |events|
  {
    hide Good, Next, Possible, Retries, IsSent, IsDone, IsGraceful, Settles, SendsQuest;
    if events != [] {
      StepKeepsGood(e, events[0]);
      StepNotes(e, events[0], r, c);
      RunNotes(Next(e, events[0]), events[1..], r, c);
      GracedFirst(events, c);
    }
  }

  lemma GracedFirst(events: seq<Event>, c: nat)
    requires events != []
    ensures WasGraced(events, c) <==> Graces(events[0], c) || WasGraced(events[1..], c)
  {
    if WasGraced(events, c) && !Graces(events[0], c) {
      var k :| 0 <= k < |events| && events[k].Shift? && events[k].con == c && events[k].grace;
      assert events[1..][k - 1] == events[k];
    }
    if WasGraced(events[1..], c) {
      var k :| 0 <= k < |events[1..]| && events[1..][k].Shift? && events[1..][k].con == c && events[1..][k].grace;
      assert events[k + 1] == events[1..][k];
    }
  }

  // ------------------------------------------------------------ theorems

  /**
   * In every run, by its events: when a disconnect disposes of a result, it is
   * retried exactly if none did so before, its quest was not written out or the
   * connection was closed with grace, and a connection can be had for its
   * proxy. Then it waits at that connection; otherwise it is completed.
   */
  lemma RetriedExactlyIf(events: seq<Event>, c: nat, possible: bool)
    requires Good(START, None) && Run(START, events)
    requires Good(After(START, events), None) && Possible(After(START, events), Settle(c, possible))
    requires WellFormed(After(START, events))
    ensures var e := After(START, events);
      var r, f := e.conns[c].taken[0], Next(e, Settle(c, possible));
      && r < |f.results| && (f.results[r].done == 0 || f.results[r].done == 1)
      && (f.results[r].done == 0 <==>
            && !WasSettled(START, events, r)
            && (!WasSent(START, events, r) || WasGraced(events, c))
            && CanBeHad(e, e.results[r].proxy, possible))
      && (f.results[r].done == 0 ==> WithItsProxy(f, r))
  {
    var e := After(START, events);
    var r := e.conns[c].taken[0];
    RunNotes(START, events, r, c);
    SettleStep(e, c, possible);
    if IsDone(e, r) { DoneIsNowhere(e, r, c); }
    StepKeepsGood(e, Settle(c, possible));
    hide Next, WithItsProxy, CanBeHad;
    assert ResultOk(Next(e, Settle(c, possible)).conns, Next(e, Settle(c, possible)).results, r);
  }

  /** A quest emitted waits at the connection of its proxy exactly if one can be had that is live; otherwise its result is an error. */
  lemma EmittedWaitsIf(e: Engine, p: nat, possible: bool)
    requires Good(e, None) && Possible(e, Emit(p, possible)) && WellFormed(e) && ProxyOk(e, e.proxies[p])
    ensures var r, f := |e.results|, Next(e, Emit(p, possible));
      var bound := e.proxies[p].Fixed?;
      && |f.results| == r + 1 && f.results[..r] == e.results
      && f.results[r].done == (if CanBeHad(e, p, possible) || (bound && e.conns[e.proxies[p].con].state < C.ST_CLOSE) then 0 else 1)
      && (f.results[r].done == 0 ==> if bound then f.results[r].place == Pending(e.proxies[p].con) else WithItsProxy(f, r))
  {
    var x, f := |e.results|, e.(results := e.results + [Res(p, -1, 0, false, 0, Done)]);
    ProxiesSame(e, f);
    SameProxies(e, f, e.proxies[p], possible);
    hide PickConnection, SendQuest, Complete, Good, Roomy, WithItsProxy;
    match e.proxies[p]
    case Fixed(con) => SendKeeps(f, con, x);
    case Normal(_, _, _) => HandOver(f, p, possible, x);
  }

  /**
   * A quest that may have been carried out is not repeated: once it was written
   * out on a connection that is then closed without grace, that disconnect
   * completes its result, and in no run that goes on from there does it wait
   * on any connection again.
   */
  lemma SentIsNotRepeated(events: seq<Event>, c: nat, possible: bool, more: seq<Event>)
    requires Good(START, None) && Run(START, events)
    requires Good(After(START, events), None) && Possible(After(START, events), Settle(c, possible))
    requires WellFormed(After(START, events))
    requires WasSent(START, events, After(START, events).conns[c].taken[0]) && !WasGraced(events, c)
    requires Good(Next(After(START, events), Settle(c, possible)), None)
    requires Run(Next(After(START, events), Settle(c, possible)), more)
    ensures var r := After(START, events).conns[c].taken[0];
      var f := After(Next(After(START, events), Settle(c, possible)), more);
      IsDone(f, r) && forall d: nat :: !WaitsOn(f, r, d) && !HeldBy(f, r, d)
  {
    RetriedExactlyIf(events, c, possible);
    var f, r := Next(After(START, events), Settle(c, possible)), After(START, events).conns[c].taken[0];
    hide Next, Good, Possible, After, WellFormed, WithItsProxy;
    RunNotes(f, more, r, c);
    RunsAreGood(f, more);
    OnePlace(After(f, more), r);
  }

  // ----------------------------------------------- one live connection

  /** The connections made to endpoints exist. */
  predicate MapOk(e: Engine) {
    forall x :: x in e.conMap ==> e.conMap[x] < |e.conns|
  }

  /** The connection made to an endpoint is still the one for it, unless it is dead. */
  predicate MapKept(e: Engine, f: Engine)
    requires MapOk(e)
  {
    && |f.conns| >= |e.conns|
    && (forall d :: 0 <= d < |e.conns| && !Live(e.conns[d]) ==> !Live(f.conns[d]))
    && (forall x :: x in e.conMap ==> x in f.conMap && (f.conMap[x] == e.conMap[x] || !Live(f.conns[e.conMap[x]])))
  }

  lemma PickKeepsMap(e: Engine, p: nat, possible: bool)
    requires MapOk(e) && p < |e.proxies| && ProxyOk(e, e.proxies[p]) && e.proxies[p].Normal?
    ensures var f := PickConnection(e, p, possible).0; MapOk(f) && MapKept(e, f)
  {
  }

  lemma HandedKeepsMap(e: Engine, p: nat, possible: bool, r: nat)
    requires MapOk(e) && r < |e.results| && p < |e.proxies| && ProxyOk(e, e.proxies[p]) && e.proxies[p].Normal?
    ensures MapOk(HandedOver(e, p, possible, r)) && MapKept(e, HandedOver(e, p, possible, r))
  {
    hide PickConnection, SendQuest;
    PickKeeps(e, p, possible);
    PickKeepsMap(e, p, possible);
    var (h, con) := PickConnection(e, p, possible);
    if con.Some? { SendKeeps(h, con.value, r); }
  }

  lemma EmitKeepsMap(e: Engine, ev: Event)
    requires Good(e, None) && Possible(e, ev) && ev.Emit? && WellFormed(e) && MapOk(e)
    ensures MapOk(Next(e, ev)) && MapKept(e, Next(e, ev))
  {
    var x, f := |e.results|, e.(results := e.results + [Res(ev.proxy, -1, 0, false, 0, Done)]);
    ProxiesSame(e, f);
    hide PickConnection, SendQuest, Complete, Good, ProxyOk, Roomy;
    match e.proxies[ev.proxy]
    case Fixed(con) =>
      FixedIsThere(e, ev.proxy);
      SendKeeps(f, con, x);
    case Normal(_, _, _) => HandedKeepsMap(f, ev.proxy, ev.possible, x);
  }

  lemma SettleKeepsMap(e: Engine, ev: Event)
    requires Good(e, None) && Possible(e, ev) && ev.Settle? && WellFormed(e) && MapOk(e)
    ensures MapOk(Next(e, ev)) && MapKept(e, Next(e, ev))
  {
    var r := e.conns[ev.con].taken[0];
    var again, p := MayRetry(e, ev.con, r), e.results[r].proxy;
    HandKeeps(e, ev.con, again);
    var f := InHand(e, ev.con, again);
    SameProxies(e, f, e.proxies[p], ev.possible);
    hide InHand, PickConnection, SendQuest, Good, ProxyOk;
    if again && e.proxies[p].Normal? { HandedKeepsMap(f, p, ev.possible, r); }
  }

  lemma StepKeepsMap(e: Engine, ev: Event)
    requires Good(e, None) && Possible(e, ev) && WellFormed(e) && MapOk(e)
    ensures MapOk(Next(e, ev)) && MapKept(e, Next(e, ev))
  {
    if ev.Emit? {
      EmitKeepsMap(e, ev);
    } else if ev.Settle? {
      SettleKeepsMap(e, ev);
    } else {
      hide Good, ProxyOk, Lists;
    }
  }

  /**
   * However a run goes on, the connection for an endpoint stays the one in use
   * as long as it is live: no proxy makes a second one beside it.
   */
  lemma {:induction false} OneLiveForEachEndpoint(e: Engine, events: seq<Event>)
    requires Good(e, None) && Run(e, events) && MapOk(e)
    ensures MapOk(After(e, events)) && MapKept(e, After(e, events))
    decreases |events|
  {
    hide Good, Next, Possible;
    if events != [] {
      StepKeepsGood(e, events[0]);
      StepKeepsMap(e, events[0]);
      OneLiveForEachEndpoint(Next(e, events[0]), events[1..]);
    }
  }

  // ------------------------------------------------ disconnected for good

  predicate WasDisconnected(events: seq<Event>, c: nat) {
    exists k :: 0 <= k < |events| && events[k].Disconnect? && events[k].con == c
  }

  /** Connection c is not live, and nothing waits on it. */
  predicate Over(e: Engine, c: nat) {
    c < |e.conns| && e.conns[c].state >= C.ST_CLOSE && e.conns[c].pending == map[]
  }

  lemma SendStaysOver(e: Engine, d: nat, r: nat, c: nat)
    requires d < |e.conns| && r < |e.results| && Over(e, c)
    ensures Over(SendQuest(e, d, r), c)
  {
  }

  lemma HandedStaysOver(e: Engine, p: nat, possible: bool, r: nat, c: nat)
    requires r < |e.results| && p < |e.proxies| && ProxyOk(e, e.proxies[p]) && e.proxies[p].Normal? && Over(e, c)
    ensures Over(HandedOver(e, p, possible, r), c)
  {
    hide PickConnection, SendQuest;
    PickKeeps(e, p, possible);
    var (h, con) := PickConnection(e, p, possible);
    assert Over(h, c);
    if con.Some? { SendStaysOver(h, con.value, r, c); }
  }

  lemma EmitStaysOver(e: Engine, ev: Event, c: nat)
    requires Good(e, None) && Possible(e, ev) && ev.Emit? && WellFormed(e) && Over(e, c)
    ensures Over(Next(e, ev), c)
  {
    var x, f := |e.results|, e.(results := e.results + [Res(ev.proxy, -1, 0, false, 0, Done)]);
    ProxiesSame(e, f);
    hide PickConnection, SendQuest, Complete, Good, ProxyOk, Roomy;
    match e.proxies[ev.proxy]
    case Fixed(con) =>
      FixedIsThere(e, ev.proxy);
      SendStaysOver(f, con, x, c);
    case Normal(_, _, _) => HandedStaysOver(f, ev.proxy, ev.possible, x, c);
  }

  lemma SettleStaysOver(e: Engine, ev: Event, c: nat)
    requires Good(e, None) && Possible(e, ev) && ev.Settle? && WellFormed(e) && Over(e, c)
    ensures Over(Next(e, ev), c)
  {
    var r := e.conns[ev.con].taken[0];
    var again, p := MayRetry(e, ev.con, r), e.results[r].proxy;
    HandKeeps(e, ev.con, again);
    var f := InHand(e, ev.con, again);
    SameProxies(e, f, e.proxies[p], ev.possible);
    assert Over(f, c);
    hide InHand, PickConnection, SendQuest, Good, ProxyOk;
    if again && e.proxies[p].Normal? { HandedStaysOver(f, p, ev.possible, r, c); }
  }

  lemma StepStaysOver(e: Engine, ev: Event, c: nat)
    requires Good(e, None) && Possible(e, ev) && WellFormed(e)
    ensures Over(e, c) || (ev.Disconnect? && ev.con == c) ==> Over(Next(e, ev), c)
  {
    if ev.Emit? {
      if Over(e, c) { EmitStaysOver(e, ev, c); }
    } else if ev.Settle? {
      if Over(e, c) { SettleStaysOver(e, ev, c); }
    } else {
      hide Good, ProxyOk, Lists;
    }
  }

  /** A connection that was disconnected is never live again, and in no run that goes on does a result wait on it. */
  lemma {:induction false} DisconnectedForGood(e: Engine, events: seq<Event>, c: nat)
    requires Good(e, None) && Run(e, events) && (Over(e, c) || WasDisconnected(events, c))
    ensures Over(After(e, events), c) && forall r: nat :: r < |After(e, events).results| ==> !WaitsOn(After(e, events), r, c)
    decreases |events|
  {
    hide Good, Next, Possible;
    if events != [] {
      StepKeepsGood(e, events[0]);
      StepStaysOver(e, events[0], c);
      if !Over(Next(e, events[0]), c) {
        var k :| 0 <= k < |events| && events[k].Disconnect? && events[k].con == c;
        assert events[1..][k - 1] == events[k];
      }
      DisconnectedForGood(Next(e, events[0]), events[1..], c);
    }
  }
}
