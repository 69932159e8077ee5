/**
 * Opening a connection (xic/EngineImp.cpp, xic/StEngineImp.cpp): the check
 * messages of the authentication, the hello, and the quests and answers that
 * wait for both: between an honest client and server over two FIFO channels,
 * where no side closes and no timer fires, and at a server that reads any frames.
 */
module XicHandshake {
  import opened Prelude
  import opened Bytes
  import opened XicCipher

  /**
   * Failed: an exception was set, but the threads go on reading and sending.
   * Gone: disconnected.
   */
  datatype State = Init | WaitingHello | Active | Failed | Gone

  datatype CkState = CkInit | CkS1 | CkS2 | CkS3 | CkS4 | CkFinish

  /** known: whether the server knows the identity. proof stands for M1 and M2, which agree exactly if the sides
      share the session secret. */
  datatype Check = Authenticate | Srp1(known: bool) | Srp2 | Srp3(proof: Digest) | Srp4(proof: Digest, suite: nat) | Forbidden

  /** Data: a quest or an answer; a one-way quest has the number 0. */
  datatype Msg = CheckMsg(check: Check) | Hello | Data(quest: bool, id: nat)

  /** A message on the wire, with the nonce its body was encrypted under, if any. */
  datatype Frame = Frame(msg: Msg, nonce: Option<nat>)

  datatype Cipher = Cipher(key: Digest, sent: nat, received: nat)

  /**
   * One end of a connection. secret is the digest of the session key it can
   * compute; got is what it has taken, awaits the numbers of its quests that
   * wait for an answer (_resultMap), owes those of quests it has to answer.
   */
  datatype Side = Side(
    incoming: bool, secret: Digest, suite: nat,
    state: State, ck: CkState, kq: seq<Msg>, wq: seq<Msg>, cipher: Option<Cipher>,
    got: seq<Msg>, awaits: set<nat>, owes: multiset<nat>, nextId: nat)

  // ------------------------------------------------------------ one side

  /** send_kmsg. */
  function SendCheck(s: Side, m: Msg): Side {
    s.(kq := s.kq + [m])
  }

  function NewCipher(s: Side, suite: nat): Option<Cipher> {
    if suite > 0 then Some(Cipher(s.secret, 0, 0)) else s.cipher
  }

  /** An exception in recv_msg: the thread that reads is the last one and disconnects. */
  function Disconnected(s: Side): Side {
    s.(state := Gone, wq := [], awaits := {})
  }

  /** The branch of handle_check for the side that connected. */
  function ClientCheck(s: Side, c: Check): Side {
    match c
    case Forbidden => Disconnected(s)
    case Authenticate =>
      if s.ck != CkInit then Disconnected(s)
      else SendCheck(s, CheckMsg(Srp1(true))).(ck := CkS2)
    case Srp2 =>
      if s.ck != CkS2 then Disconnected(s)
      else SendCheck(s, CheckMsg(Srp3(s.secret))).(ck := CkS4)
    case Srp4(proof, suite) =>
      if s.ck != CkS4 || proof != s.secret then Disconnected(s)
      else s.(cipher := NewCipher(s, suite), ck := CkFinish)
    case _ => s
  }

  /** A server goes on for a second after its refusal, a client disconnects. */
  function Refuse(s: Side): Side {
    var t := SendCheck(s, CheckMsg(Forbidden));
    if s.incoming then t.(state := Failed) else Disconnected(t)
  }

  /** The rest of handle_check, which both sides run through. */
  function ServerCheck(s: Side, c: Check): Side {
    match c
    case Srp1(known) =>
      if s.ck != CkS1 || !known then Refuse(s)
      else SendCheck(s, CheckMsg(Srp2)).(ck := CkS3)
    case Srp3(proof) =>
      if s.ck != CkS3 || proof != s.secret then Refuse(s)
      else SendCheck(SendCheck(s.(cipher := NewCipher(s, s.suite)), CheckMsg(Srp4(s.secret, s.suite))), Hello)
             .(ck := CkFinish, state := Active)
    case _ => s
  }

  function HandleCheck(s: Side, c: Check): Side {
    var t := if s.incoming then s else ClientCheck(s, c);
    if t.state == Gone then t else ServerCheck(t, c)
  }

  /** decryptStart: one more message is counted. */
  function Counted(s: Side): Side
    requires s.cipher.Some?
  {
    s.(cipher := Some(s.cipher.value.(received := s.cipher.value.received + 1)))
  }

  /** Whether the body decrypts: it was encrypted under the nonce that comes next. */
  predicate Decrypts(s: Side, nonce: nat)
    requires s.cipher.Some?
  {
    nonce == NonceOf(s.cipher.value.key, !s.incoming, s.cipher.value.received + 1)
  }

  /** recv_msg, and for quests and answers what recv_fiber does next. A hello has no body. */
  function Receive(s: Side, f: Frame): Side {
    if f.nonce.Some? && s.cipher.None? then Disconnected(s)
    else if f.msg.Hello? then
      if s.state == Init || s.state == WaitingHello then s.(state := Active) else s
    else if f.nonce.None? then Dispatch(s, f.msg)
    else if !Decrypts(s, f.nonce.value) then Disconnected(Counted(s))
    else Dispatch(Counted(s), f.msg)
  }

  function Dispatch(s: Side, m: Msg): Side
    requires !m.Hello?
  {
    match m
    case CheckMsg(c) => if s.state != WaitingHello then Disconnected(s) else HandleCheck(s, c)
    case Data(quest, _) => Accept(s, m)
  }

  /**
   * A quest before the hello is an error, and one after an error is dropped.
   * An answer completes the result that waits for it; without one it is an
   * error (handle_answer).
   */
  function Accept(s: Side, m: Msg): Side
    requires m.Data?
  {
    if m.quest then
      if s.state == Active then s.(got := s.got + [m], owes := s.owes + One(m.id))
      else if s.state == Init || s.state == WaitingHello then s.(state := Failed)
      else s
    else if m.id in s.awaits then s.(got := s.got + [m], awaits := s.awaits - {m.id})
    else s.(state := Failed)
  }

  /** A number that is to be answered. */
  function One(id: nat): multiset<nat> {
    if id == 0 then multiset{} else multiset{id}
  }

  /** What the application may have sent: a quest, one-way or two-way, or the answer to a quest taken. */
  datatype Say = OneWay | TwoWay | Reply(id: nat)

  predicate HasQuest(ms: seq<Msg>) {
    exists i :: 0 <= i < |ms| && ms[i].Data? && ms[i].quest
  }

  /** The application knows a connection that it accepted only from a quest taken there. */
  predicate CanSay(s: Side, what: Say) {
    match what
    case Reply(id) => id in s.owes
    case _ => s.incoming ==> HasQuest(s.got)
  }

  predicate Dead(s: Side) {
    s.state == Failed || s.state == Gone
  }

  /** _send_qmsg */
  function Enqueued(s: Side, m: Msg): Side {
    if Dead(s) then s else s.(wq := s.wq + [m])
  }

  /** sendQuest, where a two-way quest gets the next number and its result is registered, and replyAnswer. */
  function Said(s: Side, what: Say): Side {
    match what
    case OneWay => Enqueued(s, Data(true, 0))
    case TwoWay =>
      if Dead(s) then s
      else Enqueued(s.(awaits := s.awaits + {s.nextId}, nextId := s.nextId + 1), Data(true, s.nextId))
    case Reply(id) => Enqueued(s.(owes := s.owes - multiset{id}), Data(false, id))
  }

  /** Whether send_fiber finds something to send. */
  predicate CanSend(s: Side) {
    s.state != Init && s.state != Gone &&
    (s.kq != [] || ((s.state == Active || s.state == Failed) && s.wq != []))
  }

  function NextMsg(s: Side): Msg
    requires CanSend(s)
  {
    if s.kq != [] then s.kq[0] else s.wq[0]
  }

  /** The frame that send_fiber writes next (get_msg_iovec) ... */
  function NextFrame(s: Side): Frame
    requires CanSend(s)
  {
    var m := NextMsg(s);
    Frame(m, if m.Data? && s.cipher.Some? then
               Some(NonceOf(s.cipher.value.key, s.incoming, s.cipher.value.sent + 1))
             else None)
  }

  /** ... and what remains afterwards. */
  function AfterSend(s: Side): Side
    requires CanSend(s)
  {
    var m := NextMsg(s);
    var t := if s.kq != [] then s.(kq := s.kq[1..]) else s.(wq := s.wq[1..]);
    if m.Data? && s.cipher.Some? then
      t.(cipher := Some(s.cipher.value.(sent := s.cipher.value.sent + 1)))
    else t
  }

  // --------------------------------------------------------------- world

  datatype World = World(client: Side, server: Side, toServer: seq<Frame>, toClient: seq<Frame>)

  datatype Event =
    | Connected
    | Queue(atServer: bool, what: Say)
    | Transmit(fromServer: bool)
    | Deliver(toTheServer: bool)

  predicate Possible(w: World, e: Event) {
    match e
    case Connected => w.client.state == Init
    case Queue(true, what) => CanSay(w.server, what)
    case Queue(false, what) => CanSay(w.client, what)
    case Transmit(true) => CanSend(w.server) && NoWrap(w.server)
    case Transmit(false) => CanSend(w.client) && NoWrap(w.client)
    case Deliver(true) => w.toServer != [] && w.server.state != Gone
    case Deliver(false) => w.toClient != [] && w.client.state != Init && w.client.state != Gone
  }

  /** The next message does not wrap the counter. */
  predicate NoWrap(s: Side)
    requires CanSend(s)
  {
    NextMsg(s).Data? && s.cipher.Some? ==> NonceOf(s.cipher.value.key, s.incoming, s.cipher.value.sent + 1) < Pow256(NONCE_SIZE)
  }

  function Next(w: World, e: Event): World
    requires Possible(w, e)
  {
    match e
    case Connected => w.(client := w.client.(state := WaitingHello))
    case Queue(true, what) => w.(server := Said(w.server, what))
    case Queue(false, what) => w.(client := Said(w.client, what))
    case Transmit(true) => w.(server := AfterSend(w.server), toClient := w.toClient + [NextFrame(w.server)])
    case Transmit(false) => w.(client := AfterSend(w.client), toServer := w.toServer + [NextFrame(w.client)])
    case Deliver(true) => w.(server := Receive(w.server, w.toServer[0]), toServer := w.toServer[1..])
    case Deliver(false) => w.(client := Receive(w.client, w.toClient[0]), toClient := w.toClient[1..])
  }

  /** A connection attempt; auth says whether the server asks for a secret. */
  function Start(auth: bool, clientSecret: Digest, serverSecret: Digest, suite: nat): World {
    World(
      Side(false, clientSecret, 0, Init, CkInit, [], [], None, [], {}, multiset{}, 1),
      if auth then Side(true, serverSecret, suite, WaitingHello, CkS1, [CheckMsg(Authenticate)], [], None, [], {}, multiset{}, 1)
      else Side(true, serverSecret, 0, Active, CkFinish, [], [Hello], None, [], {}, multiset{}, 1),
      [], [])
  }

  // ----------------------------------------------------------- invariant

  /** Messages as they would go out unencrypted. */
  function Plain(ms: seq<Msg>): (fs: seq<Frame>)
    ensures |fs| == |ms|
  {
    if ms == [] then [] else [Frame(ms[0], None)] + Plain(ms[1..])
  }

  ghost predicate OnlyData(ms: seq<Msg>) {
    forall m :: m in ms ==> m.Data?
  }

  ghost predicate OnlyChecks(ms: seq<Msg>) {
    forall m :: m in ms ==> !m.Data?
  }

  /** Quests and answers, encrypted under the nonces that follow the k-th of a direction. */
  ghost predicate Flow(fs: seq<Frame>, key: Digest, fromServer: bool, k: nat, enc: bool) {
    fs == [] ||
    (fs[0].msg.Data? && fs[0].nonce == (if enc then Some(NonceOf(key, fromServer, k + 1)) else None) &&
     Flow(fs[1..], key, fromServer, k + 1, enc))
  }

  lemma {:induction false} FlowGrows(fs: seq<Frame>, key: Digest, fromServer: bool, k: nat, enc: bool, f: Frame)
    requires Flow(fs, key, fromServer, k, enc)
    requires f.msg.Data? && f.nonce == if enc then Some(NonceOf(key, fromServer, k + |fs| + 1)) else None
    ensures Flow(fs + [f], key, fromServer, k, enc)
  {
    hide NonceOf;
    if fs == [] {
      assert (fs + [f])[1..] == [];
    } else {
      FlowGrows(fs[1..], key, fromServer, k + 1, enc, f);
      assert (fs + [f])[1..] == fs[1..] + [f];
    }
  }

  ghost predicate Armed(s: Side, enc: bool) {
    if enc then s.cipher.Some? && s.cipher.value.key == s.secret else s.cipher == None
  }

  ghost function Sent(s: Side): nat {
    if s.cipher.Some? then s.cipher.value.sent else 0
  }

  ghost function Received(s: Side): nat {
    if s.cipher.Some? then s.cipher.value.received else 0
  }

  /** How far the opening has come, named after what is on its way. */
  datatype Phase =
    | Asked | Named | Offered | Proving      // server still waits
    | Proved | Greeting                      // server is active
    | Silent | Welcomed                      // no authentication: hello not yet sent, hello on its way
    | Open                                   // both active

  ghost predicate Waiting(w: World) {
    w.server.state == WaitingHello && w.client.cipher == w.server.cipher == None &&
    w.client.got == w.server.got == [] && OnlyData(w.server.wq)
  }

  /** The server is active and has sent only data after the messages of the opening. */
  ghost predicate Serving(w: World, opening: seq<Frame>) {
    var pipe := w.toClient + Plain(w.server.kq);
    && w.server.state == Active && w.server.ck == CkFinish && OnlyData(w.server.wq)
    && Armed(w.server, w.server.suite > 0)
    && w.toServer == [] && w.client.kq == [] && w.client.got == w.server.got == []
    && |opening| <= |pipe| && pipe[..|opening|] == opening && (w.server.kq != [] ==> |pipe| == |opening|)
    && Flow(pipe[|opening|..], w.server.secret, true, 0, w.server.suite > 0)
    && (w.server.suite > 0 ==> Sent(w.server) == |pipe| - |opening| && Received(w.server) == 0)
  }

  ghost predicate InPhase(w: World, p: Phase) {
    var toServer, toClient := w.toServer + Plain(w.client.kq), w.toClient + Plain(w.server.kq);
    && !w.client.incoming && w.server.incoming && w.client.secret == w.server.secret && OnlyData(w.client.wq)
    && OnlyChecks(w.client.kq) && OnlyChecks(w.server.kq)
    && (w.client.state == WaitingHello || (w.client.state == Active && p == Open) ||
        (w.client.state == Init && w.client.ck == CkInit && w.client.kq == []))
    && match p
       case Asked => Waiting(w) && w.server.ck == CkS1 && w.client.ck == CkInit &&
                     toClient == [Frame(CheckMsg(Authenticate), None)] && toServer == []
       case Named => Waiting(w) && w.server.ck == CkS1 && w.client.ck == CkS2 &&
                     toClient == [] && toServer == [Frame(CheckMsg(Srp1(true)), None)]
       case Offered => Waiting(w) && w.server.ck == CkS3 && w.client.ck == CkS2 &&
                       toClient == [Frame(CheckMsg(Srp2), None)] && toServer == []
       case Proving => Waiting(w) && w.server.ck == CkS3 && w.client.ck == CkS4 &&
                       toClient == [] && toServer == [Frame(CheckMsg(Srp3(w.client.secret)), None)]
       case Proved => w.client.ck == CkS4 && w.client.cipher == None &&
                      Serving(w, [Frame(CheckMsg(Srp4(w.server.secret, w.server.suite)), None), Frame(Hello, None)])
       case Greeting => w.client.ck == CkFinish && Armed(w.client, w.server.suite > 0) && Sent(w.client) == Received(w.client) == 0 &&
                        Serving(w, [Frame(Hello, None)])
       case Silent => w.server.suite == 0 && w.server.state == Active && w.server.ck == CkFinish && w.client.ck == CkInit && w.client.cipher == w.server.cipher == None &&
                      toClient == [] && toServer == [] && w.client.got == w.server.got == [] &&
                      w.server.wq != [] && w.server.wq[0] == Hello && OnlyData(w.server.wq[1..])
       case Welcomed => w.server.suite == 0 && w.client.ck == CkInit && w.client.cipher == None && w.server.kq == [] &&
                        Serving(w, [Frame(Hello, None)])
       case Open =>
         && w.client.state == Active && w.server.state == Active && OnlyData(w.server.wq)
         && w.client.kq == [] && w.server.kq == []
         && Armed(w.client, w.server.suite > 0) && Armed(w.server, w.server.suite > 0)
         && Flow(w.toClient, w.server.secret, true, Received(w.client), w.server.suite > 0)
         && Flow(w.toServer, w.server.secret, false, Received(w.server), w.server.suite > 0)
         && (w.server.suite > 0 ==> Sent(w.server) == Received(w.client) + |w.toClient| &&
                                    Sent(w.client) == Received(w.server) + |w.toServer|)
  }

  lemma StepConnected(w: World, p: Phase)
    requires InPhase(w, p) && w.client.state == Init
    ensures InPhase(Next(w, Connected), p)
  {
  }

  lemma OneMoreData(ms: seq<Msg>, m: Msg)
    requires m.Data?
    ensures OnlyData(ms) ==> OnlyData(ms + [m])
  {
  }

  lemma FirstIsCheck(ms: seq<Msg>)
    requires OnlyChecks(ms)
    ensures ms != [] ==> !ms[0].Data? && OnlyChecks(ms[1..])
  {
  }

  /** While nothing has failed, what is said is queued. */
  lemma SaidIsQueued(s: Side, what: Say)
    requires !Dead(s)
    ensures var t := Said(s, what); var m := t.wq[|t.wq| - 1];
            m.Data? && t == s.(wq := s.wq + [m], awaits := t.awaits, owes := t.owes, nextId := t.nextId)
  {
  }

  lemma StepQueue(w: World, p: Phase, atServer: bool, what: Say)
    requires InPhase(w, p) && Possible(w, Queue(atServer, what))
    ensures InPhase(Next(w, Queue(atServer, what)), p)
  {
    hide Flow, Plain, OnlyData, OnlyChecks, NonceOf, Said;
    PhaseIsSound(w, p);
    var s := if atServer then w.server else w.client;
    SaidIsQueued(s, what);
    var m := Said(s, what).wq[|s.wq|];
    OneMoreData(s.wq, m);
    if p == Silent && atServer {
      OneMoreData(s.wq[1..], m);
      assert (s.wq + [m])[1..] == s.wq[1..] + [m];
    }
  }

  lemma PlainStep(s: seq<Frame>, ms: seq<Msg>)
    requires ms != []
    ensures s + Plain(ms) == s + [Frame(ms[0], None)] + Plain(ms[1..])
  {
    var head, tail := [Frame(ms[0], None)], Plain(ms[1..]);
    assert Plain(ms) == head + tail;
    hide Plain;
    Regroup(s, head, tail);
  }

  lemma Regroup<T>(a: seq<T>, b: seq<T>, c: seq<T>)
    ensures a + (b + c) == a + b + c
  {
  }

  /** Sending leaves all but the queues and the counter alone. */
  lemma SendingKeeps(s: Side)
    requires CanSend(s) && OnlyChecks(s.kq)
    ensures var t := AfterSend(s); t == s.(kq := t.kq, wq := t.wq, cipher := t.cipher) && OnlyChecks(t.kq)
  {
    hide NonceOf;
  }

  lemma NothingPlain()
    ensures Plain([]) == []
  {
  }

  lemma FlowEmpty(key: Digest, fromServer: bool, k: nat, enc: bool)
    ensures Flow([], key, fromServer, k, enc)
  {
  }

  /** The data frame a side sends continues its flow. */
  lemma DataFrame(s: Side, enc: bool)
    requires CanSend(s) && s.kq == [] && OnlyData(s.wq) && Armed(s, enc)
    ensures NextFrame(s).msg.Data? && NextFrame(s).msg == s.wq[0]
    ensures NextFrame(s).nonce == if enc then Some(NonceOf(s.secret, s.incoming, Sent(s) + 1)) else None
    ensures OnlyData(AfterSend(s).wq) && Armed(AfterSend(s), enc) && Received(AfterSend(s)) == Received(s)
    ensures enc ==> Sent(AfterSend(s)) == Sent(s) + 1
    ensures AfterSend(s) == s.(wq := s.wq[1..], cipher := AfterSend(s).cipher)
  {
    hide NonceOf;
  }

  /** The check frame a side sends is the head of its queue, in the clear. */
  lemma CheckFrame(s: Side)
    requires CanSend(s) && s.kq != [] && !s.kq[0].Data?
    ensures NextFrame(s) == Frame(s.kq[0], None) && AfterSend(s) == s.(kq := s.kq[1..])
  {
  }

  lemma ServingSends(w: World, opening: seq<Frame>)
    requires Serving(w, opening) && Possible(w, Transmit(true)) && w.server.incoming && OnlyChecks(w.server.kq)
    ensures Serving(Next(w, Transmit(true)), opening)
  {
    hide Flow, NonceOf, CanSend, NextFrame, AfterSend, Plain, OnlyData, OnlyChecks;
    var s := w.server;
    var f := NextFrame(s);
    FirstIsCheck(s.kq);
    var pipe := w.toClient + Plain(s.kq);
    if s.kq != [] {
      PlainStep(w.toClient, s.kq);
      CheckFrame(s);
      assert Next(w, Transmit(true)).toClient + Plain(s.kq[1..]) == pipe;
    } else {
      NothingPlain();
      DataFrame(s, s.suite > 0);
      assert pipe == w.toClient;
      FlowGrows(pipe[|opening|..], s.secret, true, 0, s.suite > 0, f);
      assert (pipe + [f])[|opening|..] == pipe[|opening|..] + [f];
      assert Next(w, Transmit(true)).toClient + Plain([]) == pipe + [f];
    }
  }

  lemma OpenServerSends(w: World)
    requires InPhase(w, Open) && Possible(w, Transmit(true))
    ensures InPhase(Next(w, Transmit(true)), Open)
  {
    hide Flow, NonceOf, CanSend, NextFrame, AfterSend, Plain, OnlyData, OnlyChecks;
    NothingPlain();
    DataFrame(w.server, w.server.suite > 0);
    FlowGrows(w.toClient, w.server.secret, true, Received(w.client), w.server.suite > 0, NextFrame(w.server));
  }

  lemma OpenClientSends(w: World)
    requires InPhase(w, Open) && Possible(w, Transmit(false))
    ensures InPhase(Next(w, Transmit(false)), Open)
  {
    hide Flow, NonceOf, CanSend, NextFrame, AfterSend, Plain, OnlyData, OnlyChecks;
    NothingPlain();
    DataFrame(w.client, w.server.suite > 0);
    FlowGrows(w.toServer, w.server.secret, false, Received(w.server), w.server.suite > 0, NextFrame(w.client));
  }

  /** A check message moves from the queue to the wire. */
  lemma WaitingSends(w: World, p: Phase, fromServer: bool)
    requires InPhase(w, p) && (p == Asked || p == Named || p == Offered || p == Proving)
    requires Possible(w, Transmit(fromServer))
    ensures InPhase(Next(w, Transmit(fromServer)), p)
  {
    hide Flow, NonceOf, Plain, OnlyData, OnlyChecks;
    var s := if fromServer then w.server else w.client;
    FirstIsCheck(s.kq);
    CheckFrame(s);
    PlainStep(if fromServer then w.toClient else w.toServer, s.kq);
  }

  lemma SilentSends(w: World)
    requires InPhase(w, Silent) && Possible(w, Transmit(true))
    ensures InPhase(Next(w, Transmit(true)), Welcomed)
  {
    NothingPlain();
    FlowEmpty(w.server.secret, true, 0, false);
  }

  /** Until the client is active, only its check messages go out. */
  lemma ClientIsQuiet(w: World, p: Phase)
    requires InPhase(w, p) && (p == Proved || p == Greeting || p == Welcomed || p == Silent)
    ensures !CanSend(w.client)
  {
    hide Flow, NonceOf;
  }

  /** How many messages the opening still needs. */
  function ToGo(p: Phase): nat {
    match p
    case Asked => 6
    case Named => 5
    case Offered => 4
    case Proving => 3
    case Proved => 2
    case Silent => 2
    case Greeting => 1
    case Welcomed => 1
    case Open => 0
  }

  lemma StepTransmit(w: World, p: Phase, fromServer: bool) returns (q: Phase)
    requires InPhase(w, p) && Possible(w, Transmit(fromServer))
    ensures InPhase(Next(w, Transmit(fromServer)), q) && q == if p == Silent then Welcomed else p
  {
    hide InPhase, Next, CanSend;
    q := if p == Silent then Welcomed else p;
    if p == Open {
      if fromServer { OpenServerSends(w); } else { OpenClientSends(w); }
    } else if p == Silent {
      ClientIsQuiet(w, p);
      SilentSends(w);
    } else if p == Proved || p == Greeting || p == Welcomed {
      ClientIsQuiet(w, p);
      LateSends(w, p);
    } else {
      WaitingSends(w, p, fromServer);
    }
  }

  lemma LateSends(w: World, p: Phase)
    requires InPhase(w, p) && (p == Proved || p == Greeting || p == Welcomed)
    requires Possible(w, Transmit(true))
    ensures InPhase(Next(w, Transmit(true)), p)
  {
    hide Flow, NonceOf, Plain, OnlyData, OnlyChecks, Serving, CanSend, NextFrame, AfterSend;
    SendingKeeps(w.server);
    if p == Proved {
      ServingSends(w, [Frame(CheckMsg(Srp4(w.server.secret, w.server.suite)), None), Frame(Hello, None)]);
    } else {
      ServingSends(w, [Frame(Hello, None)]);
      if p == Welcomed { NoMoreChecks(w); }
    }
  }

  lemma NoMoreChecks(w: World)
    requires CanSend(w.server) && w.server.kq == []
    ensures AfterSend(w.server).kq == []
  {
  }

  lemma DropFirst(s: seq<Frame>, ms: seq<Msg>)
    requires s != []
    ensures (s + Plain(ms))[0] == s[0] && (s + Plain(ms))[1..] == s[1..] + Plain(ms)
  {
    hide Plain;
  }

  lemma AskedArrives(w: World)
    requires InPhase(w, Asked) && Possible(w, Deliver(false))
    ensures InPhase(Next(w, Deliver(false)), Named)
  {
    hide Flow, NonceOf, OnlyData;
    DropFirst(w.toClient, w.server.kq);
    NothingPlain();
  }

  lemma NamedArrives(w: World)
    requires InPhase(w, Named) && Possible(w, Deliver(true))
    ensures InPhase(Next(w, Deliver(true)), Offered)
  {
    hide Flow, NonceOf, OnlyData;
    DropFirst(w.toServer, w.client.kq);
    NothingPlain();
  }

  lemma OfferedArrives(w: World)
    requires InPhase(w, Offered) && Possible(w, Deliver(false))
    ensures InPhase(Next(w, Deliver(false)), Proving)
  {
    hide Flow, NonceOf, OnlyData;
    DropFirst(w.toClient, w.server.kq);
    NothingPlain();
  }

  lemma ProofArrives(w: World)
    requires InPhase(w, Proving) && Possible(w, Deliver(true))
    ensures InPhase(Next(w, Deliver(true)), Proved)
  {
    hide NonceOf, OnlyData, Plain, Flow;
    DropFirst(w.toServer, w.client.kq);
    var s := w.server;
    QuietPipe(w.toClient, s.kq);
    QuietPipe(w.toServer[1..], w.client.kq);
    PlainTwo(CheckMsg(Srp4(s.secret, s.suite)), Hello);
    FlowEmpty(s.secret, true, 0, s.suite > 0);
    var pipe := Next(w, Deliver(true)).toClient + Plain(Next(w, Deliver(true)).server.kq);
    assert pipe[2..] == [];
  }

  lemma QuietPipe(fs: seq<Frame>, ms: seq<Msg>)
    requires |fs| + |ms| == 0
    ensures fs + Plain(ms) == [] && fs == [] && ms == []
  {
  }

  lemma PlainTwo(a: Msg, b: Msg)
    ensures [] + Plain([] + [a] + [b]) == [Frame(a, None), Frame(b, None)]
  {
    assert ([] + [a] + [b])[1..] == [b] && [b][1..] == [];
    assert Plain([b]) == [Frame(b, None)];
  }

  lemma ProvedArrives(w: World)
    requires InPhase(w, Proved) && Possible(w, Deliver(false))
    ensures InPhase(Next(w, Deliver(false)), Greeting)
  {
    hide Flow, NonceOf, OnlyData, OnlyChecks, Plain;
    DropFirst(w.toClient, w.server.kq);
    SecondOpens(w.toClient + Plain(w.server.kq), Frame(CheckMsg(Srp4(w.server.secret, w.server.suite)), None), Frame(Hello, None));
  }

  lemma SecondOpens(pipe: seq<Frame>, a: Frame, b: Frame)
    requires |pipe| >= 2 && pipe[..2] == [a, b]
    ensures pipe[0] == a && pipe[1..][..1] == [b] && pipe[1..][1..] == pipe[2..]
  {
    assert pipe[0] == pipe[..2][0] && pipe[1] == pipe[..2][1];
  }

  lemma HelloArrives(w: World, p: Phase)
    requires InPhase(w, p) && (p == Greeting || p == Welcomed) && Possible(w, Deliver(false))
    ensures InPhase(Next(w, Deliver(false)), Open)
  {
    hide NonceOf, OnlyData, OnlyChecks;
    var pipe := w.toClient + Plain(w.server.kq);
    DropFirst(w.toClient, w.server.kq);
    NothingPlain();
    assert pipe[0] == pipe[..1][0];
    assert w.server.kq == [];
    assert pipe == w.toClient;
    FlowEmpty(w.server.secret, false, 0, w.server.suite > 0);
  }

  /** A data frame of the expected flow is decrypted and accepted. */
  lemma DataArrives(s: Side, fs: seq<Frame>, enc: bool)
    requires fs != [] && Flow(fs, s.secret, !s.incoming, Received(s), enc) && Armed(s, enc) && s.state == Active
    requires Expected(s, fs[0])
    ensures var t := Receive(s, fs[0]);
            t == s.(cipher := t.cipher, got := s.got + [fs[0].msg], awaits := t.awaits, owes := t.owes) && Armed(t, enc) &&
            Flow(fs[1..], s.secret, !s.incoming, Received(t), enc) && Sent(t) == Sent(s) &&
            (enc ==> Received(t) == Received(s) + 1)
  {
    hide NonceOf;
    if !enc {
      FlowIgnoresCount(fs[1..], s.secret, !s.incoming, 1, 0);
    }
  }

  lemma {:induction false} FlowIgnoresCount(fs: seq<Frame>, key: Digest, fromServer: bool, j: nat, k: nat)
    requires Flow(fs, key, fromServer, j, false)
    ensures Flow(fs, key, fromServer, k, false)
  {
    hide NonceOf;
    if fs != [] {
      FlowIgnoresCount(fs[1..], key, fromServer, j + 1, k + 1);
    }
  }

  /** An answer is one that a result waits for. */
  predicate Expected(s: Side, f: Frame) {
    f.msg.Data? && !f.msg.quest ==> f.msg.id in s.awaits
  }

  lemma OpenArrives(w: World, toTheServer: bool)
    requires InPhase(w, Open) && Possible(w, Deliver(toTheServer))
    requires if toTheServer then Expected(w.server, w.toServer[0]) else Expected(w.client, w.toClient[0])
    ensures InPhase(Next(w, Deliver(toTheServer)), Open)
  {
    hide Flow, NonceOf, OnlyData, OnlyChecks, Plain, Receive;
    if toTheServer {
      DataArrives(w.server, w.toServer, w.server.suite > 0);
    } else {
      DataArrives(w.client, w.toClient, w.server.suite > 0);
    }
  }

  /** Nothing but a check message of the conversation is on its way to the server before the client is active. */
  lemma NothingElseArrives(w: World, p: Phase)
    requires InPhase(w, p) && p != Open
    ensures p != Named && p != Proving ==> w.toServer == []
    ensures p == Named || p == Proving || p == Silent ==> w.toClient == []
  {
    hide Flow, NonceOf, OnlyData;
  }

  lemma StepDeliver(w: World, p: Phase, toTheServer: bool) returns (q: Phase)
    requires InPhase(w, p) && Possible(w, Deliver(toTheServer)) && Books(w)
    ensures InPhase(Next(w, Deliver(toTheServer)), q)
    ensures if p == Open then q == Open else ToGo(q) == ToGo(p) - 1
  {
    hide InPhase, Books, Expected, Next;
    if p == Open {
      BooksExpect(w, toTheServer);
      OpenArrives(w, toTheServer);
      q := Open;
    } else {
      NothingElseArrives(w, p);
      match p {
        case Asked => AskedArrives(w); q := Named;
        case Named => NamedArrives(w); q := Offered;
        case Offered => OfferedArrives(w); q := Proving;
        case Proving => ProofArrives(w); q := Proved;
        case Proved => ProvedArrives(w); q := Greeting;
        case Greeting => HelloArrives(w, p); q := Open;
        case Welcomed => HelloArrives(w, p); q := Open;
        case Silent => NothingIsUnderWay(w);
      }
    }
  }

  lemma NothingIsUnderWay(w: World)
    requires InPhase(w, Silent)
    ensures w.toServer == w.toClient == []
  {
  }

  // --------------------------------------------------------------- books

  /** The numbers of the two-way quests, or of the answers, among messages. */
  function Ids(ms: seq<Msg>, quest: bool): multiset<nat> {
    if ms == [] then multiset{} else IdOf(ms[0], quest) + Ids(ms[1..], quest)
  }

  function IdOf(m: Msg, quest: bool): multiset<nat> {
    if !m.Data? || m.quest != quest then multiset{} else if quest then One(m.id) else multiset{m.id}
  }

  function Bodies(fs: seq<Frame>): (ms: seq<Msg>)
    ensures |ms| == |fs|
  {
    seq(|fs|, i requires 0 <= i < |fs| => fs[i].msg)
  }

  /**
   * What a awaits from b is in exactly one place, once: a quest queued or
   * under way, owed, or an answer queued or under way.
   */
  ghost predicate Balanced(a: Side, b: Side, out: seq<Frame>, back: seq<Frame>) {
    && multiset(a.awaits) == Ids(a.wq, true) + Ids(Bodies(out), true) + b.owes + Ids(b.wq, false) + Ids(Bodies(back), false)
    && (forall i :: i in a.awaits ==> 0 < i < a.nextId)
    && a.nextId > 0
  }

  ghost predicate Books(w: World) {
    Balanced(w.client, w.server, w.toServer, w.toClient) && Balanced(w.server, w.client, w.toClient, w.toServer)
  }

  lemma {:induction false} IdsAppend(ms: seq<Msg>, m: Msg, quest: bool)
    ensures Ids(ms + [m], quest) == Ids(ms, quest) + IdOf(m, quest)
  {
    hide IdOf;
    if ms == [] {
      assert ms + [m] == [m] && [m][1..] == [];
    } else {
      IdsAppend(ms[1..], m, quest);
      assert (ms + [m])[1..] == ms[1..] + [m];
    }
  }

  lemma BodiesAppend(fs: seq<Frame>, f: Frame)
    ensures Bodies(fs + [f]) == Bodies(fs) + [f.msg]
  {
  }

  lemma FirstOfIds(fs: seq<Frame>, quest: bool)
    requires fs != []
    ensures Ids(Bodies(fs), quest) == IdOf(fs[0].msg, quest) + Ids(Bodies(fs[1..]), quest)
  {
    hide IdOf;
    assert Bodies(fs)[1..] == Bodies(fs[1..]);
  }

  lemma AnswersAreExpected(a: Side, b: Side, out: seq<Frame>, back: seq<Frame>)
    requires Balanced(a, b, out, back) && back != []
    ensures Expected(a, back[0])
  {
    hide Ids, Bodies;
    FirstOfIds(back, false);
    if back[0].msg.Data? && !back[0].msg.quest {
      assert back[0].msg.id in multiset(a.awaits);
    }
  }

  /** The next answer is expected: its number is among the awaited ones. */
  lemma BooksExpect(w: World, toTheServer: bool)
    requires Books(w) && Possible(w, Deliver(toTheServer))
    ensures if toTheServer then Expected(w.server, w.toServer[0]) else Expected(w.client, w.toClient[0])
  {
    hide Balanced, Expected;
    if toTheServer {
      AnswersAreExpected(w.server, w.client, w.toClient, w.toServer);
    } else {
      AnswersAreExpected(w.client, w.server, w.toServer, w.toClient);
    }
  }

  /** The result of the two-way quest that is sent next is still there to be told so (questSent). */
  predicate Registered(s: Side) {
    CanSend(s) && NextMsg(s).Data? && NextMsg(s).quest && NextMsg(s).id != 0 ==> NextMsg(s).id in s.awaits
  }

  lemma BooksRegister(a: Side, b: Side, out: seq<Frame>, back: seq<Frame>)
    requires Balanced(a, b, out, back) && OnlyChecks(a.kq)
    ensures Registered(a)
  {
    hide Bodies;
    if a.kq == [] && a.wq != [] && IdOf(a.wq[0], true) != multiset{} {
      assert a.wq[0].id in Ids(a.wq, true);
      assert a.wq[0].id in multiset(a.awaits);
    }
  }

  /** What is said goes to the queue: a new number is awaited, or an answer no longer owed. */
  lemma SayingCounts(s: Side, what: Say)
    requires !Dead(s) && CanSay(s, what)
    ensures var t := Said(s, what); var added := if what.TwoWay? then One(s.nextId) else multiset{};
            && Ids(t.wq, true) == Ids(s.wq, true) + added
            && t.awaits == s.awaits + (if what.TwoWay? then {s.nextId} else {})
            && Ids(t.wq, false) + t.owes == Ids(s.wq, false) + s.owes
            && t.nextId == s.nextId + if what.TwoWay? then 1 else 0
  {
    hide Ids, HasQuest;
    var m := match what case OneWay => Data(true, 0) case TwoWay => Data(true, s.nextId) case Reply(id) => Data(false, id);
    assert Said(s, what).wq == s.wq + [m];
    IdsAppend(s.wq, m, true);
    IdsAppend(s.wq, m, false);
  }

  lemma OneMoreAwaited(s: set<nat>, n: nat)
    requires n !in s
    ensures multiset(s + {n}) == multiset(s) + multiset{n}
  {
  }

  lemma FirstGrows(p: multiset<nat>, q: multiset<nat>, r: multiset<nat>, s: multiset<nat>, t: multiset<nat>, d: multiset<nat>)
    ensures p + d + q + r + s + t == p + q + r + s + t + d
  {
  }

  lemma ThirdToFourth(p: multiset<nat>, q: multiset<nat>, r: multiset<nat>, s: multiset<nat>, t: multiset<nat>, u: multiset<nat>, v: multiset<nat>)
    requires s + r == v + u
    ensures p + q + r + s + t == p + q + u + v + t
  {
    assert p + q + r + s + t == p + q + (s + r) + t;
    assert p + q + u + v + t == p + q + (v + u) + t;
  }

  lemma FourthToFifth(p: multiset<nat>, s: multiset<nat>, t: multiset<nat>, u: multiset<nat>, v: multiset<nat>)
    requires s + t == u + v
    ensures p + s + t == p + u + v
  {
    assert p + s + t == p + (s + t);
    assert p + u + v == p + (u + v);
  }

  lemma FifthShrinks(m: multiset<nat>, p: multiset<nat>, t: multiset<nat>, d: multiset<nat>)
    requires m + d == p + (d + t)
    ensures m == p + t
  {
    assert m + d == p + t + d;
    forall i: nat ensures m[i] == (p + t)[i] { assert (m + d)[i] == (p + t + d)[i]; }
  }

  lemma SayingBalances(a: Side, b: Side, out: seq<Frame>, back: seq<Frame>, what: Say)
    requires Balanced(a, b, out, back) && !Dead(a) && CanSay(a, what)
    ensures Balanced(Said(a, what), b, out, back)
  {
    hide Ids, Bodies, Said, CanSay, Dead;
    SayingCounts(a, what);
    FirstGrows(Ids(a.wq, true), Ids(Bodies(out), true), b.owes, Ids(b.wq, false), Ids(Bodies(back), false),
               if what.TwoWay? then One(a.nextId) else multiset{});
    if what.TwoWay? { OneMoreAwaited(a.awaits, a.nextId); }
  }

  lemma ReplyingBalances(a: Side, b: Side, out: seq<Frame>, back: seq<Frame>, what: Say)
    requires Balanced(a, b, out, back) && !Dead(b) && CanSay(b, what)
    ensures Balanced(a, Said(b, what), out, back)
  {
    hide Ids, Bodies, Said, CanSay, Dead;
    SayingCounts(b, what);
    var c := Said(b, what);
    ThirdToFourth(Ids(a.wq, true), Ids(Bodies(out), true), c.owes, Ids(c.wq, false), Ids(Bodies(back), false), b.owes, Ids(b.wq, false));
  }

  /** A message leaves its queue for the wire. */
  lemma SendingMoves(s: Side, fs: seq<Frame>, quest: bool)
    requires CanSend(s) && OnlyChecks(s.kq)
    ensures var t, gs := AfterSend(s), fs + [NextFrame(s)];
            Ids(t.wq, quest) + Ids(Bodies(gs), quest) == Ids(s.wq, quest) + Ids(Bodies(fs), quest) &&
            t.awaits == s.awaits && t.owes == s.owes && t.nextId == s.nextId
  {
    hide NonceOf, IdOf, Bodies;
    var m := NextMsg(s);
    BodiesAppend(fs, NextFrame(s));
    IdsAppend(Bodies(fs), m, quest);
    if s.kq != [] {
      ChecksHaveNoIds(m, quest);
    }
  }

  lemma ChecksHaveNoIds(m: Msg, quest: bool)
    requires !m.Data?
    ensures IdOf(m, quest) == multiset{}
  {
  }

  /** a sends. */
  lemma SendingBalances(a: Side, b: Side, out: seq<Frame>, back: seq<Frame>)
    requires CanSend(a) && OnlyChecks(a.kq)
    ensures Balanced(a, b, out, back) ==> Balanced(AfterSend(a), b, out + [NextFrame(a)], back)
    ensures Balanced(b, a, back, out) ==> Balanced(b, AfterSend(a), back, out + [NextFrame(a)])
  {
    hide Ids, Bodies, AfterSend, NextFrame, CanSend, OnlyChecks;
    SendingMoves(a, out, true);
    SendingMoves(a, out, false);
    FourthToFifth(Ids(b.wq, true) + Ids(Bodies(back), true) + a.owes, Ids(AfterSend(a).wq, false),
                  Ids(Bodies(out + [NextFrame(a)]), false), Ids(a.wq, false), Ids(Bodies(out), false));
  }

  lemma ChecksCountNothing(s: Side, c: Check)
    requires !Dead(HandleCheck(s, c))
    ensures var t := HandleCheck(s, c); t.wq == s.wq && t.nextId == s.nextId && t.owes == s.owes && t.awaits == s.awaits
  {
  }

  lemma AcceptingCounts(s: Side, m: Msg)
    requires m.Data? && !Dead(s) && !Dead(Accept(s, m))
    ensures var t := Accept(s, m);
            && t.wq == s.wq && t.nextId == s.nextId && t.owes == s.owes + IdOf(m, true)
            && t.awaits <= s.awaits && multiset(s.awaits) == multiset(t.awaits) + IdOf(m, false)
  {
    if !m.quest {
      OneMoreAwaited(s.awaits - {m.id}, m.id);
      assert s.awaits - {m.id} + {m.id} == s.awaits;
    }
  }

  /** What taking a frame does to the books, if nothing fails. */
  lemma TakingCounts(s: Side, f: Frame)
    requires !Dead(s) && !Dead(Receive(s, f))
    ensures var t := Receive(s, f);
            && t.wq == s.wq && t.nextId == s.nextId && t.owes == s.owes + IdOf(f.msg, true)
            && t.awaits <= s.awaits && multiset(s.awaits) == multiset(t.awaits) + IdOf(f.msg, false)
  {
    hide NonceOf, Decrypts, HandleCheck, Accept, IdOf;
    var r := if f.nonce.Some? && s.cipher.Some? then Counted(s) else s;
    if f.msg.Data? {
      AcceptingCounts(r, f.msg);
    } else {
      ChecksHaveNoIds(f.msg, true);
      ChecksHaveNoIds(f.msg, false);
      if f.msg.CheckMsg? { ChecksCountNothing(r, f.msg.check); }
    }
  }

  /** a takes the next frame from b. */
  lemma TakingBalances(a: Side, b: Side, out: seq<Frame>, back: seq<Frame>)
    requires back != [] && !Dead(a) && !Dead(Receive(a, back[0]))
    ensures Balanced(a, b, out, back) ==> Balanced(Receive(a, back[0]), b, out, back[1..])
    ensures Balanced(b, a, back, out) ==> Balanced(b, Receive(a, back[0]), back[1..], out)
  {
    hide Ids, Bodies, IdOf, Receive, Dead;
    TakingCounts(a, back[0]);
    FirstOfIds(back, true);
    FirstOfIds(back, false);
    if Balanced(a, b, out, back) {
      FifthShrinks(multiset(Receive(a, back[0]).awaits), Ids(a.wq, true) + Ids(Bodies(out), true) + b.owes + Ids(b.wq, false),
                   Ids(Bodies(back[1..]), false), IdOf(back[0].msg, false));
    }
  }

  lemma StepKeepsBooks(w: World, p: Phase, e: Event, q: Phase)
    requires InPhase(w, p) && Books(w) && Possible(w, e) && InPhase(Next(w, e), q)
    ensures Books(Next(w, e))
  {
    PhaseIsSound(w, p);
    PhaseIsSound(Next(w, e), q);
    ChecksAreChecks(w, p);
    hide InPhase, OnlyChecks, Said, AfterSend, NextFrame, CanSend, CanSay, Receive, Balanced, NonceOf;
    match e {
      case Connected => ConnectingBalances(w);
      case Queue(true, what) =>
        SayingBalances(w.server, w.client, w.toClient, w.toServer, what);
        ReplyingBalances(w.client, w.server, w.toServer, w.toClient, what);
      case Queue(false, what) =>
        SayingBalances(w.client, w.server, w.toServer, w.toClient, what);
        ReplyingBalances(w.server, w.client, w.toClient, w.toServer, what);
      case Transmit(true) =>
        SendingBalances(w.server, w.client, w.toClient, w.toServer);
      case Transmit(false) =>
        SendingBalances(w.client, w.server, w.toServer, w.toClient);
      case Deliver(true) =>
        TakingBalances(w.server, w.client, w.toClient, w.toServer);
      case Deliver(false) =>
        TakingBalances(w.client, w.server, w.toServer, w.toClient);
    }
  }

  lemma ConnectingBalances(w: World)
    requires Books(w) && Possible(w, Connected)
    ensures Books(Next(w, Connected))
  {
    hide Ids, Bodies;
  }

  lemma ChecksAreChecks(w: World, p: Phase)
    requires InPhase(w, p)
    ensures OnlyChecks(w.client.kq) && OnlyChecks(w.server.kq)
  {
    hide NonceOf, Flow, Plain, OnlyData, OnlyChecks;
  }

  lemma StartBalances(auth: bool, secret: Digest, suite: nat)
    ensures Books(Start(auth, secret, secret, suite))
  {
    assert [Hello][1..] == [];
    assert Bodies([]) == [];
  }

  // ------------------------------------------------------------ theorems

  /** events is a run that can be taken from w. */
  predicate Run(w: World, events: seq<Event>)
    decreases |events|
  {
    events == [] || (Possible(w, events[0]) && Run(Next(w, events[0]), events[1..]))
  }

  function After(w: World, events: seq<Event>): World
    requires Run(w, events)
    decreases |events|
  {
    if events == [] then w else After(Next(w, events[0]), events[1..])
  }

  lemma StepKeepsPhase(w: World, p: Phase, e: Event) returns (q: Phase)
    requires InPhase(w, p) && Books(w) && Possible(w, e)
    ensures InPhase(Next(w, e), q) && Books(Next(w, e))
    ensures ToGo(q) == ToGo(p) - if (e.Deliver? && p != Open) || (e.Transmit? && p == Silent) then 1 else 0
  {
    hide InPhase, Books, Next;
    q := p;
    match e {
      case Connected => StepConnected(w, p);
      case Queue(atServer, what) => StepQueue(w, p, atServer, what);
      case Transmit(fromServer) => q := StepTransmit(w, p, fromServer);
      case Deliver(toTheServer) => q := StepDeliver(w, p, toTheServer);
    }
    StepKeepsBooks(w, p, e, q);
  }

  lemma {:induction false} RunsKeepPhase(w: World, p: Phase, events: seq<Event>) returns (q: Phase)
    requires InPhase(w, p) && Books(w) && Run(w, events)
    ensures InPhase(After(w, events), q) && Books(After(w, events))
    decreases |events|
  {
    hide InPhase, Books, Next;
    q := p;
    if events != [] {
      q := StepKeepsPhase(w, p, events[0]);
      q := RunsKeepPhase(Next(w, events[0]), q, events[1..]);
    }
  }

  lemma StartsInPhase(auth: bool, secret: Digest, suite: nat)
    ensures InPhase(Start(auth, secret, secret, suite), if auth then Asked else Silent)
  {
    assert Plain([CheckMsg(Authenticate)]) == [Frame(CheckMsg(Authenticate), None)];
    NothingPlain();
  }

  ghost predicate SameCipher(w: World) {
    Armed(w.client, w.server.suite > 0) && Armed(w.server, w.server.suite > 0) && w.client.secret == w.server.secret
  }

  lemma {:induction false} FlowIsData(fs: seq<Frame>, key: Digest, fromServer: bool, k: nat, enc: bool)
    requires Flow(fs, key, fromServer, k, enc)
    ensures forall f :: f in fs ==> f.msg.Data? && (f.nonce.Some? <==> enc)
  {
    hide NonceOf;
    if fs != [] {
      FlowIsData(fs[1..], key, fromServer, k + 1, enc);
      assert forall f :: f in fs ==> f == fs[0] || f in fs[1..];
    }
  }

  lemma SliceAt<T>(s: seq<T>, n: nat, i: nat)
    requires n <= |s| && i < |s|
    ensures if i < n then s[i] == s[..n][i] else s[i] == s[n..][i - n]
  {
  }

  /** Behind the messages of the opening there is only data. */
  lemma ServingFrames(w: World, opening: seq<Frame>)
    requires Serving(w, opening) && forall f :: f in opening ==> !f.msg.Data?
    ensures forall f :: f in w.toClient && f.msg.Data? ==> (f.nonce.Some? <==> w.server.suite > 0)
  {
    hide NonceOf, Flow, Plain;
    var pipe := w.toClient + Plain(w.server.kq);
    FlowIsData(pipe[|opening|..], w.server.secret, true, 0, w.server.suite > 0);
    forall f | f in w.toClient && f.msg.Data?
      ensures f.nonce.Some? <==> w.server.suite > 0
    {
      var i :| 0 <= i < |w.toClient| && w.toClient[i] == f;
      SliceAt(pipe, |opening|, i);
    }
  }

  /** While the server waits, only check messages are on their way. */
  lemma WaitingFrames(w: World, p: Phase)
    requires InPhase(w, p) && (p == Asked || p == Named || p == Offered || p == Proving)
    ensures forall f :: f in w.toClient + w.toServer ==> !f.msg.Data?
  {
    hide NonceOf, Flow, Plain;
    var down, up := w.toClient + Plain(w.server.kq), w.toServer + Plain(w.client.kq);
    assert forall f :: f in w.toClient ==> f in down;
    assert forall f :: f in w.toServer ==> f in up;
  }

  /** Data crosses only encrypted, if a cipher was agreed, and is taken only when both sides have it. */
  lemma DataWaitsForCipher(w: World, p: Phase)
    requires InPhase(w, p)
    ensures w.client.got != [] || w.server.got != [] || w.client.state == Active ==> SameCipher(w)
    ensures forall f :: f in w.toClient + w.toServer && f.msg.Data? ==> (f.nonce.Some? <==> w.server.suite > 0)
    ensures forall f :: f in w.toServer && f.msg.Data? ==> SameCipher(w)
  {
    hide NonceOf, Flow, Plain, OnlyData, OnlyChecks;
    if p == Open {
      FlowIsData(w.toClient, w.server.secret, true, Received(w.client), w.server.suite > 0);
      FlowIsData(w.toServer, w.server.secret, false, Received(w.server), w.server.suite > 0);
    } else if p == Proved {
      ServingFrames(w, [Frame(CheckMsg(Srp4(w.server.secret, w.server.suite)), None), Frame(Hello, None)]);
    } else if p == Greeting || p == Welcomed {
      ServingFrames(w, [Frame(Hello, None)]);
    } else if p != Silent {
      WaitingFrames(w, p);
    } else {
      NothingElseArrives(w, p);
    }
  }

  lemma HeadOfPipe(w: World, opening: seq<Frame>)
    requires Serving(w, opening) && opening != [] && w.toClient != []
    ensures w.toClient[0] == opening[0]
  {
    hide NonceOf, Flow, Plain;
    var pipe := w.toClient + Plain(w.server.kq);
    assert pipe[0] == pipe[..|opening|][0];
  }

  /** The next frame to arrive, if encrypted, is under the very nonce the receiver will use. */
  lemma NextNonceAgrees(w: World, p: Phase, toTheServer: bool)
    requires InPhase(w, p) && Possible(w, Deliver(toTheServer))
    ensures var f := if toTheServer then w.toServer[0] else w.toClient[0];
            var s := if toTheServer then w.server else w.client;
            f.nonce.Some? ==>
              s.cipher.Some? && f.nonce.value == NonceOf(s.cipher.value.key, !s.incoming, s.cipher.value.received + 1)
  {
    hide NonceOf, Plain, OnlyData, OnlyChecks;
    if p == Proved {
      HeadOfPipe(w, [Frame(CheckMsg(Srp4(w.server.secret, w.server.suite)), None), Frame(Hello, None)]);
    } else if p == Greeting || p == Welcomed {
      HeadOfPipe(w, [Frame(Hello, None)]);
    } else if p != Open {
      NothingElseArrives(w, p);
      FirstOfOne(w.toClient, w.server.kq);
      FirstOfOne(w.toServer, w.client.kq);
    }
  }

  lemma FirstOfOne(fs: seq<Frame>, ms: seq<Msg>)
    ensures fs != [] ==> (fs + Plain(ms))[0] == fs[0]
  {
  }

  /** The side can decrypt the frame: it will use the nonce the frame was encrypted under. */
  ghost predicate Readable(s: Side, f: Frame) {
    f.nonce.Some? ==>
      s.cipher.Some? && s.cipher.value.key == s.secret &&
      f.nonce.value == NonceOf(s.secret, !s.incoming, s.cipher.value.received + 1)
  }

  ghost predicate Honest(w: World) {
    && w.client.state != Failed && w.server.state != Failed && w.client.state != Gone && w.server.state != Gone
    && (w.client.got != [] || w.server.got != [] || w.client.state == Active ==> SameCipher(w))
    && (forall f :: f in w.toClient + w.toServer && f.msg.Data? ==> (f.nonce.Some? <==> w.server.suite > 0))
    && (Possible(w, Deliver(true)) ==> Readable(w.server, w.toServer[0]) && Expected(w.server, w.toServer[0]))
    && (Possible(w, Deliver(false)) ==> Readable(w.client, w.toClient[0]) && Expected(w.client, w.toClient[0]))
    && Registered(w.client) && Registered(w.server)
  }

  lemma PhaseRegisters(w: World, p: Phase)
    requires InPhase(w, p) && Books(w)
    ensures Registered(w.client) && Registered(w.server)
  {
    ChecksAreChecks(w, p);
    hide InPhase, Balanced, OnlyChecks, Registered;
    BooksRegister(w.client, w.server, w.toServer, w.toClient);
    BooksRegister(w.server, w.client, w.toClient, w.toServer);
  }

  lemma PhaseDelivers(w: World, p: Phase)
    requires InPhase(w, p) && Books(w)
    ensures Possible(w, Deliver(true)) ==> Readable(w.server, w.toServer[0]) && Expected(w.server, w.toServer[0])
    ensures Possible(w, Deliver(false)) ==> Readable(w.client, w.toClient[0]) && Expected(w.client, w.toClient[0])
  {
    hide InPhase, Books, Expected, Registered, NonceOf, SameCipher;
    KeysAreSecrets(w, p);
    if Possible(w, Deliver(true)) { NextNonceAgrees(w, p, true); BooksExpect(w, true); }
    if Possible(w, Deliver(false)) { NextNonceAgrees(w, p, false); BooksExpect(w, false); }
  }

  lemma PhaseIsHonest(w: World, p: Phase)
    requires InPhase(w, p) && Books(w)
    ensures Honest(w)
  {
    PhaseRegisters(w, p);
    hide InPhase, Books, Expected, Readable, Registered, NonceOf, SameCipher;
    PhaseIsSound(w, p);
    DataWaitsForCipher(w, p);
    PhaseDelivers(w, p);
  }

  /**
   * Between sides that share the secret, in every run: no check message and
   * no frame is rejected, nothing is taken before both have the same cipher,
   * every encrypted message arrives under the nonce the receiver expects, and
   * every answer while a result waits for it; a quest that is sent still has
   * its result, and what a side awaits is in exactly one place between quest
   * and answer.
   */
  lemma HonestRuns(auth: bool, secret: Digest, suite: nat, events: seq<Event>)
    requires Run(Start(auth, secret, secret, suite), events)
    ensures Honest(After(Start(auth, secret, secret, suite), events))
    ensures Books(After(Start(auth, secret, secret, suite), events))
  {
    hide Honest, Start, InPhase, Books, Run, After, Next;
    StartsInPhase(auth, secret, suite);
    StartBalances(auth, secret, suite);
    var p := RunsKeepPhase(Start(auth, secret, secret, suite), if auth then Asked else Silent, events);
    PhaseIsHonest(After(Start(auth, secret, secret, suite), events), p);
  }

  // ------------------------------------------------------------ progress

  /** What leads on: connecting, or the next message of the opening sent or delivered. */
  predicate LeadsOn(w: World, p: Phase, e: Event) {
    && Possible(w, e)
    && (e.Connected? <==> w.client.state == Init)
    && match e
       case Connected => true
       case Queue(_, _) => false
       case Transmit(fromServer) => p == Silent || (if fromServer then w.server.kq else w.client.kq) != []
       case Deliver(_) => p != Open
  }

  lemma CanGoOn(w: World, p: Phase) returns (e: Event)
    requires InPhase(w, p) && p != Open
    ensures LeadsOn(w, p, e)
  {
    hide Flow, NonceOf, Serving, Plain, OnlyData, OnlyChecks;
    PipeHead(w.toClient, w.server.kq);
    PipeHead(w.toServer, w.client.kq);
    if w.client.state == Init {
      e := Connected;
    } else if p == Asked || p == Offered {
      e := if w.toClient != [] then Deliver(false) else Transmit(true);
    } else if p == Named || p == Proving {
      e := if w.toServer != [] then Deliver(true) else Transmit(false);
    } else if p == Silent {
      e := Transmit(true);
    } else {
      OpeningIsThere(w, p);
      e := if w.toClient != [] then Deliver(false) else Transmit(true);
    }
  }

  lemma PipeHead(fs: seq<Frame>, ms: seq<Msg>)
    ensures fs + Plain(ms) != [] && fs == [] ==> ms != []
  {
  }

  lemma OpeningIsThere(w: World, p: Phase)
    requires InPhase(w, p) && (p == Proved || p == Greeting || p == Welcomed)
    ensures w.server.state == Active && (w.toClient == [] ==> w.server.kq != [] && !w.server.kq[0].Data?)
  {
    hide Flow, NonceOf, OnlyData, Plain;
    PipeHead(w.toClient, w.server.kq);
  }

  /** A step that needs no message of the opening less makes a queue shorter. */
  lemma LeadingOn(w: World, p: Phase, e: Event)
    requires LeadsOn(w, p, e)
    ensures var v := Next(w, e);
      && v.client.state != Init
      && (e.Transmit? && p != Silent ==> |v.server.kq| + |v.client.kq| < |w.server.kq| + |w.client.kq|)
  {
    hide NonceOf;
  }

  /** From any phase the two sides can come to the open one. */
  lemma {:induction false} CanOpen(w: World, p: Phase) returns (more: seq<Event>)
    requires InPhase(w, p) && Books(w)
    ensures Run(w, more) && InPhase(After(w, more), Open)
    decreases if w.client.state == Init then 1 else 0, ToGo(p), |w.server.kq| + |w.client.kq|
  {
    hide InPhase, Books, Next, Possible, CanSend;
    if p == Open {
      more := [];
    } else {
      var e := CanGoOn(w, p);
      LeadingOn(w, p, e);
      var q := StepKeepsPhase(w, p, e);
      var rest := CanOpen(Next(w, e), q);
      more := [e] + rest;
      assert more[1..] == rest;
    }
  }

  lemma {:induction false} RunsJoin(w: World, a: seq<Event>, b: seq<Event>)
    requires Run(w, a) && Run(After(w, a), b)
    ensures Run(w, a + b) && After(w, a + b) == After(After(w, a), b)
    decreases |a|
  {
    hide Next, Possible;
    if a == [] {
      assert a + b == b;
    } else {
      RunsJoin(Next(w, a[0]), a[1..], b);
      assert (a + b)[1..] == a[1..] + b;
    }
  }

  /** No run between sides that share the secret gets stuck: it can go on until both are active. */
  lemma HonestRunsCanOpen(auth: bool, secret: Digest, suite: nat, events: seq<Event>) returns (more: seq<Event>)
    requires Run(Start(auth, secret, secret, suite), events)
    ensures Run(Start(auth, secret, secret, suite), events + more)
    ensures var w := After(Start(auth, secret, secret, suite), events + more);
            w.client.state == w.server.state == Active && SameCipher(w)
  {
    hide Start, InPhase, Books, Run, After, Next, SameCipher;
    StartsInPhase(auth, secret, suite);
    StartBalances(auth, secret, suite);
    var w := Start(auth, secret, secret, suite);
    var p := RunsKeepPhase(w, if auth then Asked else Silent, events);
    more := CanOpen(After(w, events), p);
    RunsJoin(w, events, more);
    OpenIsActive(After(w, events + more));
  }

  lemma OpenIsActive(w: World)
    requires InPhase(w, Open)
    ensures w.client.state == w.server.state == Active && SameCipher(w)
  {
    hide Flow, NonceOf, OnlyData, OnlyChecks;
  }

  lemma PhaseIsSound(w: World, p: Phase)
    requires InPhase(w, p)
    ensures w.client.state != Failed && w.server.state != Failed && w.client.state != Gone && w.server.state != Gone && !w.client.incoming && w.server.incoming
  {
    hide NonceOf, Flow, Plain, OnlyData, OnlyChecks;
  }

  lemma KeysAreSecrets(w: World, p: Phase)
    requires InPhase(w, p)
    ensures w.client.cipher.Some? ==> w.client.cipher.value.key == w.client.secret
    ensures w.server.cipher.Some? ==> w.server.cipher.value.key == w.server.secret
  {
    hide NonceOf, Flow, Plain, OnlyData, OnlyChecks;
  }

  // ------------------------------------------------- without the secret

  /** What a server says to a client that has proved nothing yet. */
  ghost predicate Calm(f: Frame) {
    f == Frame(CheckMsg(Authenticate), None) || f == Frame(CheckMsg(Srp2), None)
  }

  /** Calm messages and then the refusal, whatever may follow it. */
  ghost predicate Guarded(fs: seq<Frame>) {
    fs != [] && (fs[0] == Frame(CheckMsg(Forbidden), None) || (Calm(fs[0]) && Guarded(fs[1..])))
  }

  ghost predicate Claim(f: Frame, secret: Digest) {
    f == Frame(CheckMsg(Srp1(true)), None) || f == Frame(CheckMsg(Srp3(secret)), None)
  }

  /** A client with another secret is kept out. */
  ghost predicate KeptOut(w: World) {
    var up, down := w.toServer + Plain(w.client.kq), w.toClient + Plain(w.server.kq);
    && w.client.secret != w.server.secret && !w.client.incoming && w.server.incoming
    && w.client.cipher == w.server.cipher == None && w.client.got == w.server.got == []
    && (w.server.state == WaitingHello || w.server.state == Failed || w.server.state == Gone)
    && (w.client.state == Init || w.client.state == WaitingHello || w.client.state == Gone)
    && (forall f :: f in up ==> Claim(f, w.client.secret))
    && (w.server.state == WaitingHello ==> forall f :: f in down ==> Calm(f))
    && (w.server.state != WaitingHello ==> w.client.state == Gone || Guarded(down))
  }

  lemma {:induction false} GuardedGrows(fs: seq<Frame>, f: Frame)
    requires Guarded(fs)
    ensures Guarded(fs + [f])
  {
    if fs[0] != Frame(CheckMsg(Forbidden), None) {
      GuardedGrows(fs[1..], f);
      assert (fs + [f])[1..] == fs[1..] + [f];
    }
  }

  lemma {:induction false} RefusalGuards(fs: seq<Frame>)
    requires forall f :: f in fs ==> Calm(f)
    ensures Guarded(fs + [Frame(CheckMsg(Forbidden), None)])
  {
    if fs != [] {
      RefusalGuards(fs[1..]);
      assert (fs + [Frame(CheckMsg(Forbidden), None)])[1..] == fs[1..] + [Frame(CheckMsg(Forbidden), None)];
    }
  }

  lemma {:induction false} PlainAppend(ms: seq<Msg>, m: Msg)
    ensures Plain(ms + [m]) == Plain(ms) + [Frame(m, None)]
  {
    if ms == [] {
      assert [m][1..] == [];
      assert ms + [m] == [m];
    } else {
      PlainAppend(ms[1..], m);
      assert (ms + [m])[1..] == ms[1..] + [m];
    }
  }

  lemma PlainMore(fs: seq<Frame>, ms: seq<Msg>, m: Msg)
    ensures fs + Plain(ms + [m]) == fs + Plain(ms) + [Frame(m, None)]
  {
    hide Plain;
    PlainAppend(ms, m);
    Regroup(fs, Plain(ms), [Frame(m, None)]);
  }

  lemma KeptOutSends(w: World, fromServer: bool)
    requires KeptOut(w) && Possible(w, Transmit(fromServer))
    ensures KeptOut(Next(w, Transmit(fromServer)))
  {
    hide Guarded, Plain, NonceOf, Calm, Claim;
    var s := if fromServer then w.server else w.client;
    if s.kq != [] {
      PlainStep(if fromServer then w.toClient else w.toServer, s.kq);
      Unencrypted(s);
    } else {
      NothingPlain();
      assert w.toClient + [] == w.toClient;
      assert w.toClient + [NextFrame(s)] + [] == w.toClient + [NextFrame(s)];
      if w.client.state != Gone { GuardedGrows(w.toClient, NextFrame(s)); }
    }
  }

  lemma Unencrypted(s: Side)
    requires CanSend(s) && s.cipher == None && s.kq != []
    ensures NextFrame(s) == Frame(s.kq[0], None) && AfterSend(s) == s.(kq := s.kq[1..])
  {
  }

  lemma KeptOutAtServer(w: World)
    requires KeptOut(w) && Possible(w, Deliver(true))
    ensures KeptOut(Next(w, Deliver(true)))
  {
    hide Guarded, Plain, NonceOf, Accept, ClientCheck;
    var f := w.toServer[0];
    DropFirst(w.toServer, w.client.kq);
    assert f in w.toServer + Plain(w.client.kq);
    PlainMore(w.toClient, w.server.kq, CheckMsg(Srp2));
    PlainMore(w.toClient, w.server.kq, CheckMsg(Forbidden));
    if w.server.state == WaitingHello { RefusalGuards(w.toClient + Plain(w.server.kq)); }
  }

  lemma KeptOutAtClient(w: World)
    requires KeptOut(w) && Possible(w, Deliver(false))
    ensures KeptOut(Next(w, Deliver(false)))
  {
    hide Guarded, Plain, NonceOf, Accept;
    DropFirst(w.toClient, w.server.kq);
    GuardHead(w);
    PlainMore(w.toServer, w.client.kq, CheckMsg(Srp1(true)));
    PlainMore(w.toServer, w.client.kq, CheckMsg(Srp3(w.client.secret)));
  }

  lemma GuardHead(w: World)
    requires KeptOut(w) && w.toClient != [] && w.client.state != Gone
    ensures Calm(w.toClient[0]) || w.toClient[0] == Frame(CheckMsg(Forbidden), None)
    ensures w.server.state != WaitingHello && Calm(w.toClient[0]) ==> Guarded(w.toClient[1..] + Plain(w.server.kq))
  {
    hide Plain;
    DropFirst(w.toClient, w.server.kq);
    assert w.toClient[0] in w.toClient + Plain(w.server.kq);
  }

  lemma {:induction false} RunsKeepOut(w: World, events: seq<Event>)
    requires KeptOut(w) && Run(w, events)
    ensures KeptOut(After(w, events))
    decreases |events|
  {
    if events != [] {
      hide KeptOut;
      match events[0] {
        case Connected => KeptOutWaits(w, events[0]);
        case Queue(_, _) => KeptOutWaits(w, events[0]);
        case Transmit(fromServer) => KeptOutSends(w, fromServer);
        case Deliver(true) => KeptOutAtServer(w);
        case Deliver(false) => KeptOutAtClient(w);
      }
      RunsKeepOut(Next(w, events[0]), events[1..]);
    }
  }

  lemma KeptOutWaits(w: World, e: Event)
    requires KeptOut(w) && Possible(w, e) && (e.Connected? || e.Queue?)
    ensures KeptOut(Next(w, e))
  {
    hide Guarded, Plain, NonceOf, Calm, Claim;
  }

  /** A client that runs this code with another secret never becomes active, and no side takes a quest or an answer. */
  lemma HonestStrangersStayOut(clientSecret: Digest, serverSecret: Digest, suite: nat, events: seq<Event>)
    requires clientSecret != serverSecret
    requires Run(Start(true, clientSecret, serverSecret, suite), events)
    ensures var w := After(Start(true, clientSecret, serverSecret, suite), events);
            w.client.state != Active && w.server.state != Active && w.client.got == w.server.got == [] &&
            w.client.cipher == w.server.cipher == None
  {
    assert Plain([CheckMsg(Authenticate)]) == [Frame(CheckMsg(Authenticate), None)];
    NothingPlain();
    RunsKeepOut(Start(true, clientSecret, serverSecret, suite), events);
  }

  // ---------------------------------------- a server that reads any frames

  /** What one side does by itself: reads a frame, whoever sent it, sends, queues, or disconnects (a timer, a lost socket). */
  datatype Act = Take(frame: Frame) | SendNext | Add(what: Say) | Quit

  predicate CanAct(s: Side, a: Act) {
    match a
    case Take(_) => s.state != Init && s.state != Gone
    case SendNext => CanSend(s)
    case Add(what) => CanSay(s, what)
    case Quit => true
  }

  function Acted(s: Side, a: Act): Side
    requires CanAct(s, a)
  {
    match a
    case Take(f) => Receive(s, f)
    case SendNext => AfterSend(s)
    case Add(what) => Said(s, what)
    case Quit => Disconnected(s)
  }

  predicate Life(s: Side, acts: seq<Act>)
    decreases |acts|
  {
    acts == [] || (CanAct(s, acts[0]) && Life(Acted(s, acts[0]), acts[1..]))
  }

  function Lived(s: Side, acts: seq<Act>): Side
    requires Life(s, acts)
    decreases |acts|
  {
    if acts == [] then s else Lived(Acted(s, acts[0]), acts[1..])
  }

  /** The frames read, in order. */
  function Taken(acts: seq<Act>): seq<Frame> {
    if acts == [] then []
    else (if acts[0].Take? then [acts[0].frame] else []) + Taken(acts[1..])
  }

  /** Whether the side was ever active. */
  predicate EverActive(s: Side, acts: seq<Act>)
    requires Life(s, acts)
    decreases |acts|
  {
    s.state == Active || (acts != [] && EverActive(Acted(s, acts[0]), acts[1..]))
  }

  const HELLO := Frame(Hello, None)
  const SRP1 := Frame(CheckMsg(Srp1(true)), None)

  function Proof(secret: Digest): Frame {
    Frame(CheckMsg(Srp3(secret)), None)
  }

  /** A frame that changes nothing at a server that waits: a check meant for a client, in the clear. */
  predicate Idle(f: Frame) {
    f.nonce.None? && f.msg.CheckMsg? && !f.msg.check.Srp1? && !f.msg.check.Srp3?
  }

  /** Frames that leave a server waiting: idle ones, and one Srp1 if there was none before. */
  ghost predicate Quiet(asked: bool, fs: seq<Frame>) {
    && (forall f :: f in fs ==> Idle(f) || (f == SRP1 && !asked))
    && (forall i, j :: 0 <= i < j < |fs| ==> fs[i] != SRP1 || fs[j] != SRP1)
  }

  /** The k-th frame opens: a hello, or the proof of the secret after an Srp1, with the server still waiting. */
  ghost predicate OpensAt(asked: bool, secret: Digest, fs: seq<Frame>, k: nat) {
    && k < |fs| && Quiet(asked, fs[..k])
    && (fs[k] == HELLO || (fs[k] == Proof(secret) && (asked || SRP1 in fs[..k])))
  }

  ghost predicate Admits(asked: bool, secret: Digest, fs: seq<Frame>) {
    exists k :: OpensAt(asked, secret, fs, k)
  }

  /** A server that has asked for a secret and waits; asked says whether it has answered an Srp1. */
  predicate AtTheDoor(s: Side, asked: bool) {
    s.state == WaitingHello && s.cipher == None && (s.ck == if asked then CkS3 else CkS1) && Untouched(s)
  }

  /** Nothing was taken, and the application does not know the connection yet. */
  predicate Untouched(s: Side) {
    s.incoming && s.got == [] && s.awaits == {} && s.owes == multiset{}
  }

  predicate ShutOut(s: Side) {
    Dead(s) && Untouched(s)
  }

  /** What one frame does at the door. */
  lemma AtTheDoorTakes(s: Side, asked: bool, f: Frame)
    requires AtTheDoor(s, asked)
    ensures var t := Receive(s, f);
      if f == HELLO || (asked && f == Proof(s.secret)) then t.state == Active
      else if f == SRP1 && !asked then AtTheDoor(t, true)
      else if Idle(f) then AtTheDoor(t, asked)
      else ShutOut(t)
    ensures Receive(s, f).secret == s.secret
  {
    hide NonceOf;
  }

  /** Parameters to an Srp1, the server's own proof and a hello to a proof; a refusal to a wrong check; nothing else. */
  function Reply(secret: Digest, suite: nat, asked: bool, m: Msg): seq<Msg> {
    match m
    case CheckMsg(Srp1(known)) => if known && !asked then [CheckMsg(Srp2)] else [CheckMsg(Forbidden)]
    case CheckMsg(Srp3(proof)) => if asked && proof == secret then [CheckMsg(Srp4(secret, suite)), Hello] else [CheckMsg(Forbidden)]
    case _ => []
  }

  /** What it answers, and that it stays to send it: an encrypted frame is the only one that disconnects it at once. */
  lemma AtTheDoorAnswers(s: Side, asked: bool, f: Frame)
    requires AtTheDoor(s, asked)
    ensures var t := Receive(s, f);
      && (f.nonce.Some? ==> t.state == Gone && t.kq == s.kq)
      && (f.nonce == None ==> t.state != Gone && t.kq == s.kq + Reply(s.secret, s.suite, asked, f.msg))
      && (asked && f == Proof(s.secret) ==> t.cipher == if s.suite > 0 then Some(Cipher(s.secret, 0, 0)) else None)
      && (t.kq != [] && t.state != Gone ==> CanSend(t))
  {
    hide NonceOf;
  }

  lemma {:induction false} ShutOutStays(s: Side, acts: seq<Act>)
    requires ShutOut(s) && Life(s, acts)
    ensures !EverActive(s, acts) && Lived(s, acts).got == []
    decreases |acts|
  {
    hide NonceOf;
    if acts != [] {
      ShutOutStays(Acted(s, acts[0]), acts[1..]);
    }
  }

  /** From one state of a side to a later one: nothing was queued or registered, and no quest taken. */
  ghost predicate OnlyWindsUp(s: Side, t: Side) {
    && t.nextId == s.nextId && t.awaits <= s.awaits
    && |t.wq| <= |s.wq| && t.wq == s.wq[|s.wq| - |t.wq|..]
    && |s.got| <= |t.got| && t.got[..|s.got|] == s.got
    && forall i :: |s.got| <= i < |t.got| ==> t.got[i].Data? && !t.got[i].quest
  }

  lemma WindsUpFurther(s: Side, t: Side, u: Side)
    requires OnlyWindsUp(s, t) && OnlyWindsUp(t, u)
    ensures OnlyWindsUp(s, u)
  {
    assert u.got[..|s.got|] == u.got[..|t.got|][..|s.got|];
    assert forall i :: |s.got| <= i < |t.got| ==> u.got[i] == u.got[..|t.got|][i];
  }

  /** All that a dead side still does: it loses its queue or the front of it, or an answer is taken. */
  ghost predicate SmallStep(s: Side, t: Side) {
    && t.nextId == s.nextId && t.awaits <= s.awaits
    && (t.wq == s.wq || t.wq == [] || (s.wq != [] && t.wq == s.wq[1..]))
    && (t.got == s.got || (t.got != [] && t.got[..|t.got| - 1] == s.got && t.got[|t.got| - 1].Data? && !t.got[|t.got| - 1].quest))
  }

  lemma SmallStepWindsUp(s: Side, t: Side)
    requires SmallStep(s, t)
    ensures OnlyWindsUp(s, t)
  {
  }

  lemma DeadTakes(s: Side, f: Frame)
    requires Dead(s)
    ensures Dead(Receive(s, f)) && SmallStep(s, Receive(s, f))
  {
    hide NonceOf, Decrypts, Dispatch, SmallStep;
    DeadLosesAll(s);
    if !f.msg.Hello? { DeadDispatches(s, f.msg); }
    if s.cipher.Some? { DeadCounts(s, f.msg); }
  }

  lemma DeadLosesAll(s: Side)
    ensures SmallStep(s, Disconnected(s)) && SmallStep(s, s)
  {
  }

  lemma DeadDispatches(s: Side, m: Msg)
    requires Dead(s) && !m.Hello?
    ensures Dead(Dispatch(s, m)) && SmallStep(s, Dispatch(s, m))
  {
    hide HandleCheck;
  }

  lemma DeadCounts(s: Side, m: Msg)
    requires Dead(s) && s.cipher.Some?
    ensures SmallStep(s, Disconnected(Counted(s)))
    ensures !m.Hello? ==> Dead(Dispatch(Counted(s), m)) && SmallStep(s, Dispatch(Counted(s), m))
  {
    hide Dispatch;
    if !m.Hello? { DeadDispatches(Counted(s), m); }
  }

  lemma DeadActs(s: Side, a: Act)
    requires Dead(s) && CanAct(s, a)
    ensures Dead(Acted(s, a)) && OnlyWindsUp(s, Acted(s, a))
  {
    hide OnlyWindsUp, Receive, AfterSend, Said, SmallStep;
    match a
    case Take(f) =>
      DeadTakes(s, f);
      SmallStepWindsUp(s, Acted(s, a));
    case SendNext =>
      DeadSends(s);
      SmallStepWindsUp(s, Acted(s, a));
    case Add(what) =>
      DeadSays(s, what);
      SmallStepWindsUp(s, Acted(s, a));
    case Quit =>
      DeadLosesAll(s);
      SmallStepWindsUp(s, Acted(s, a));
  }

  lemma DeadSends(s: Side)
    requires Dead(s) && CanSend(s)
    ensures Dead(AfterSend(s)) && SmallStep(s, AfterSend(s))
  {
  }

  lemma DeadSays(s: Side, what: Say)
    requires Dead(s)
    ensures Dead(Said(s, what)) && SmallStep(s, Said(s, what))
  {
  }

  /** After an error a side sends what is left and takes the answers it waits for; it queues nothing, registers no
      result and takes no quest any more, whatever the application says and whatever it reads. */
  lemma {:induction false} DeadOnlyWindsUp(s: Side, acts: seq<Act>)
    requires Dead(s) && Life(s, acts)
    ensures Dead(Lived(s, acts)) && OnlyWindsUp(s, Lived(s, acts))
    decreases |acts|
  {
    hide Acted, CanAct, Dead, OnlyWindsUp;
    if acts == [] {
      WindsUpNot(s);
    } else {
      DeadActs(s, acts[0]);
      DeadOnlyWindsUp(Acted(s, acts[0]), acts[1..]);
      WindsUpFurther(s, Acted(s, acts[0]), Lived(s, acts));
    }
  }

  lemma WindsUpNot(s: Side)
    ensures OnlyWindsUp(s, s)
  {
  }

  /** The first frame decides, or leaves it to the rest. */
  lemma AdmitsFirst(asked: bool, secret: Digest, f: Frame, fs: seq<Frame>)
    ensures Admits(asked, secret, [f] + fs) <==>
      if f == HELLO || (asked && f == Proof(secret)) then true
      else if f == SRP1 && !asked then Admits(true, secret, fs)
      else if Idle(f) then Admits(asked, secret, fs)
      else false
  {
    hide Idle, Quiet;
    var all, rest := [f] + fs, asked || f == SRP1;
    if f == HELLO || (asked && f == Proof(secret)) {
      QuietNone(asked);
      assert all[..0] == [];
      assert OpensAt(asked, secret, all, 0);
    } else {
      FirstIsNotBoth(f, secret);
      forall k: nat | k > 0
        ensures OpensAt(asked, secret, all, k) <==> (Idle(f) || (f == SRP1 && !asked)) && OpensAt(rest, secret, fs, k - 1)
      {
        if k < |all| {
          assert all[..k] == [f] + fs[..k - 1] && all[k] == fs[k - 1];
          QuietFirst(asked, f, fs[..k - 1]);
        }
      }
      if Admits(rest, secret, fs) {
        var j: nat :| OpensAt(rest, secret, fs, j);
        assert OpensAt(asked, secret, all, j + 1) <==> (Idle(f) || (f == SRP1 && !asked)) && OpensAt(rest, secret, fs, j + 1 - 1);
      }
      if Admits(asked, secret, all) {
        var k: nat :| OpensAt(asked, secret, all, k);
        assert k > 0 ==> OpensAt(rest, secret, fs, k - 1);
      }
    }
  }

  lemma FirstIsNotBoth(f: Frame, secret: Digest)
    ensures Idle(f) ==> f != SRP1 && f != HELLO && f != Proof(secret)
    ensures SRP1 != HELLO && SRP1 != Proof(secret)
  {
  }

  lemma SrpIsNotIdle()
    ensures !Idle(SRP1)
  {
  }

  lemma QuietNone(asked: bool)
    ensures Quiet(asked, [])
  {
  }

  lemma QuietFirst(asked: bool, f: Frame, fs: seq<Frame>)
    ensures Quiet(asked, [f] + fs) <==> (Idle(f) || (f == SRP1 && !asked)) && Quiet(asked || f == SRP1, fs)
  {
    hide Idle;
    var all := [f] + fs;
    assert all[0] == f && forall i :: 0 <= i < |fs| ==> all[i + 1] == fs[i];
    assert forall g :: g in all <==> g == f || g in fs;
    SrpIsNotIdle();
    if Quiet(asked, all) {
      forall g | g in fs
        ensures Idle(g) || (g == SRP1 && !(asked || f == SRP1))
      {
        var i :| 0 <= i < |fs| && fs[i] == g;
        assert all[0] != SRP1 || all[i + 1] != SRP1;
      }
      forall i, j | 0 <= i < j < |fs|
        ensures fs[i] != SRP1 || fs[j] != SRP1
      {
        assert all[i + 1] != SRP1 || all[j + 1] != SRP1;
      }
    }
  }

  /** From the door: active exactly if one of the frames read opens, and before that nothing is taken. */
  lemma {:induction false} Admission(s: Side, asked: bool, acts: seq<Act>)
    requires AtTheDoor(s, asked) && Life(s, acts)
    ensures EverActive(s, acts) <==> Admits(asked, s.secret, Taken(acts))
    ensures !EverActive(s, acts) ==> Lived(s, acts).got == []
    decreases |acts|
  {
    hide Admits, Idle, NonceOf, Receive;
    if acts == [] {
      NothingAdmits(asked, s.secret);
    } else if acts[0].Take? {
      var f := acts[0].frame;
      AtTheDoorTakes(s, asked, f);
      AdmitsFirst(asked, s.secret, f, Taken(acts[1..]));
      FirstIsNotBoth(f, s.secret);
      var t := Acted(s, acts[0]);
      if t.state == Active {
        assert EverActive(t, acts[1..]);
      } else if ShutOut(t) {
        ShutOutStays(t, acts[1..]);
      } else {
        Admission(t, asked || f == SRP1, acts[1..]);
      }
    } else {
      assert Taken(acts) == Taken(acts[1..]);
      if acts[0].Quit? {
        GoneReadsNothing(Acted(s, acts[0]), acts[1..]);
        ShutOutStays(Acted(s, acts[0]), acts[1..]);
        NothingAdmits(asked, s.secret);
      } else {
        Admission(Acted(s, acts[0]), asked, acts[1..]);
      }
    }
  }

  lemma NothingAdmits(asked: bool, secret: Digest)
    ensures !Admits(asked, secret, [])
  {
  }

  lemma {:induction false} GoneReadsNothing(s: Side, acts: seq<Act>)
    requires s.state == Gone && Life(s, acts)
    ensures Taken(acts) == []
    decreases |acts|
  {
    hide NonceOf;
    if acts != [] {
      GoneReadsNothing(Acted(s, acts[0]), acts[1..]);
    }
  }

  /**
   * Who gets in at a server that asks for a secret, whatever it is sent: it
   * becomes active, and can take a quest, if and only if it reads a hello, or
   * an Srp1 and later the proof of its secret, while it waits. It waits as
   * long as it reads nothing else but checks meant for a client; an answer,
   * which it cannot have asked for, ends the waiting like a wrong proof.
   */
  lemma WhoGetsIn(secret: Digest, suite: nat, acts: seq<Act>)
    requires Life(Start(true, secret, secret, suite).server, acts)
    ensures var s := Start(true, secret, secret, suite).server;
      && (EverActive(s, acts) <==> Admits(false, secret, Taken(acts)))
      && (!Admits(false, secret, Taken(acts)) ==> Lived(s, acts).got == [])
  {
    Admission(Start(true, secret, secret, suite).server, false, acts);
  }

  /** Without a hello among the frames, only the proof opens. */
  lemma ProofIsNeededWithoutHello(secret: Digest, suite: nat, acts: seq<Act>)
    requires Life(Start(true, secret, secret, suite).server, acts) && HELLO !in Taken(acts)
    ensures EverActive(Start(true, secret, secret, suite).server, acts) ==> SRP1 in Taken(acts) && Proof(secret) in Taken(acts)
  {
    hide Quiet;
    WhoGetsIn(secret, suite, acts);
  }

  /** But a hello lets anyone in: the server does not look at who sends it, and takes the quest that follows. */
  lemma HelloLetsIn(secret: Digest, suite: nat, id: nat)
    ensures var s, acts := Start(true, secret, secret, suite).server, [Take(HELLO), Take(Frame(Data(true, id), None))];
      && Life(s, acts) && Lived(s, acts).state == Active && Lived(s, acts).cipher == None
      && Lived(s, acts).got == [Data(true, id)]
  {
    var s, acts := Start(true, secret, secret, suite).server, [Take(HELLO), Take(Frame(Data(true, id), None))];
    var t := Receive(s, HELLO);
    assert acts[1..] == [acts[1]] && acts[1..][1..] == [];
    assert Life(t, acts[1..]);
    assert Lived(s, acts) == Lived(t, acts[1..]) == Receive(t, acts[1].frame);
  }
}
