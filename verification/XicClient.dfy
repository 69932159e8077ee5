/**
 * A client that reads any frames (handle_check of xic/EngineImp.cpp): by what
 * it has read it takes the other side for the server that shares its secret.
 */
module XicClient {
  import opened Prelude
  import opened XicCipher
  import opened XicHandshake

  /** A client whose connection is established. */
  function Client(secret: Digest): Side {
    Side(false, secret, 0, WaitingHello, CkInit, [], [], None, [], {}, multiset{}, 1)
  }

  // ------------------------------------------------- from the frames alone

  function Answer(id: nat): Frame {
    Frame(Data(false, id), None)
  }

  /** How many two-way quests the application has sent; they are numbered from 1 on. */
  function Asked(acts: seq<Act>): nat {
    if acts == [] then 0
    else Asked(acts[..|acts| - 1]) + if acts[|acts| - 1] == Add(TwoWay) then 1 else 0
  }

  /** What changes nothing in the authentication: sending, and the first answer to a quest. */
  predicate Passes(before: seq<Act>, a: Act) {
    match a
    case Take(f) => f.msg.Data? && f == Answer(f.msg.id) && 1 <= f.msg.id <= Asked(before) && a !in before
    case SendNext => true
    case Add(_) => true
    case Quit => false
  }

  /** The checks a server that shares the secret sends, in the clear: a request, its parameters, its proof. */
  predicate IsStep(secret: Digest, a: Act, n: nat) {
    && a.Take? && a.frame.nonce == None && a.frame.msg.CheckMsg?
    && match a.frame.msg.check
       case Authenticate => n == 0
       case Srp2 => n == 1
       case Srp4(proof, _) => n == 2 && proof == secret
       case _ => false
  }

  /** At the places `at` stand the first checks of the authentication, in order, and nothing else but what passes. */
  ghost predicate Follows(secret: Digest, acts: seq<Act>, at: seq<nat>) {
    && |at| <= 3
    && (forall a, b :: 0 <= a < b < |at| ==> at[a] < at[b])
    && (forall a :: 0 <= a < |at| ==> at[a] < |acts| && IsStep(secret, acts[at[a]], a))
    && (forall m :: 0 <= m < |acts| ==> m in at || Passes(acts[..m], acts[m]))
  }

  /** The first k acts complete the authentication. */
  ghost predicate ProvenAt(secret: Digest, acts: seq<Act>, k: nat, at: seq<nat>) {
    k <= |acts| && |at| == 3 && Follows(secret, acts[..k], at)
  }

  ghost predicate Proven(secret: Digest, acts: seq<Act>) {
    exists k, at :: ProvenAt(secret, acts, k, at)
  }

  /** They do, and the server named a cipher with its proof. */
  ghost predicate Ciphered(secret: Digest, acts: seq<Act>) {
    exists k, at :: ProvenAt(secret, acts, k, at) && acts[at[2]].frame.msg.check.suite > 0
  }

  // --------------------------------------------------- lives, act by act

  lemma {:induction false} LivedOn(s: Side, acts: seq<Act>, a: Act)
    requires Life(s, acts + [a])
    ensures Life(s, acts) && CanAct(Lived(s, acts), a) && Lived(s, acts + [a]) == Acted(Lived(s, acts), a)
    decreases |acts|
  {
    hide CanAct, Acted;
    var all := acts + [a];
    if acts == [] {
      assert all[1..] == [];
    } else {
      assert all[1..] == acts[1..] + [a] && all[0] == acts[0];
      LivedOn(Acted(s, acts[0]), acts[1..], a);
    }
  }

  lemma AskedOn(acts: seq<Act>, a: Act)
    ensures Asked(acts + [a]) == Asked(acts) + if a == Add(TwoWay) then 1 else 0
  {
    assert (acts + [a])[..|acts|] == acts;
  }

  /** One more act that passes. */
  lemma FollowsPassing(secret: Digest, acts: seq<Act>, at: seq<nat>, a: Act)
    requires Passes(acts, a)
    ensures Follows(secret, acts, at) ==> Follows(secret, acts + [a], at)
  {
    hide Passes, IsStep;
    var all := acts + [a];
    assert all[..|acts|] == acts;
    assert forall m :: 0 <= m < |acts| ==> all[..m] == acts[..m] && all[m] == acts[m];
  }

  /** One more step. */
  lemma FollowsStep(secret: Digest, acts: seq<Act>, at: seq<nat>, a: Act)
    requires Follows(secret, acts, at) && |at| < 3 && IsStep(secret, a, |at|)
    ensures Follows(secret, acts + [a], at + [|acts|])
  {
    hide Passes, IsStep;
    var all, to := acts + [a], at + [|acts|];
    assert all[|acts|] == a && to[|at|] == |acts|;
    assert forall m :: 0 <= m < |acts| ==> all[..m] == acts[..m] && all[m] == acts[m];
    forall m | 0 <= m < |all|
      ensures m in to || Passes(all[..m], all[m])
    {
      if m < |acts| && m in at { assert m in to; }
    }
  }

  lemma SameBefore(acts: seq<Act>, a: Act)
    ensures var all := acts + [a];
      && all[|acts|] == a && all[..|acts|] == acts
      && forall m :: 0 <= m < |acts| ==> all[..m] == acts[..m] && all[m] == acts[m]
  {
  }

  /** The last act of those that follow was a step ... */
  lemma StepWasLast(secret: Digest, acts: seq<Act>, at: seq<nat>, a: Act)
    requires Follows(secret, acts + [a], at + [|acts|])
    ensures |at| < 3 && Follows(secret, acts, at) && IsStep(secret, a, |at|)
  {
    hide Passes, IsStep;
    SameBefore(acts, a);
    var all := at + [|acts|];
    assert all[|at|] == |acts| && forall b :: 0 <= b < |at| ==> all[b] == at[b];
    assert forall m :: 0 <= m < |acts| && m in all ==> m in at;
  }

  /** ... or it passed. */
  lemma PassedLast(secret: Digest, acts: seq<Act>, at: seq<nat>, a: Act)
    requires Follows(secret, acts + [a], at) && |acts| !in at
    ensures Follows(secret, acts, at) && Passes(acts, a)
  {
    hide Passes, IsStep;
    SameBefore(acts, a);
    assert forall b :: 0 <= b < |at| ==> at[b] != |acts|;
  }

  lemma LastIsLast(secret: Digest, acts: seq<Act>, at: seq<nat>, a: Act)
    requires Follows(secret, acts + [a], at) && |acts| in at
    ensures at != [] && at[|at| - 1] == |acts|
  {
    hide Passes, IsStep;
  }

  // ------------------------------------------------------- the automaton

  /** The client after n checks of the authentication. */
  predicate AtStep(s: Side, n: nat) {
    && s.state == WaitingHello && !s.incoming && s.owes == multiset{}
    && s.ck == (match n case 0 => CkInit case 1 => CkS2 case 2 => CkS4 case _ => CkFinish)
    && (n < 3 ==> s.cipher == None)
  }

  /** It awaits the quests asked and not answered. */
  ghost predicate Awaits(s: Side, acts: seq<Act>) {
    && s.nextId == 1 + Asked(acts)
    && (forall id: nat :: Take(Answer(id)) in acts ==> id <= Asked(acts))
    && (forall id :: id in s.awaits <==> 1 <= id <= Asked(acts) && Take(Answer(id)) !in acts)
  }

  lemma PassingKeeps(s: Side, acts: seq<Act>, a: Act, n: nat)
    requires AtStep(s, n) && Awaits(s, acts) && CanAct(s, a) && Passes(acts, a)
    ensures AtStep(Acted(s, a), n) && Awaits(Acted(s, a), acts + [a])
    ensures Acted(s, a).cipher.Some? == s.cipher.Some? && Acted(s, a).secret == s.secret
    ensures s.cipher.Some? ==> Acted(s, a).cipher.value.key == s.cipher.value.key
  {
    hide NonceOf, Asked;
    AskedOn(acts, a);
    assert forall b :: b in acts + [a] <==> b in acts || b == a;
  }

  lemma StepAdvances(s: Side, acts: seq<Act>, a: Act, n: nat)
    requires AtStep(s, n) && n < 3 && Awaits(s, acts) && IsStep(s.secret, a, n)
    ensures CanAct(s, a) && AtStep(Acted(s, a), n + 1) && Awaits(Acted(s, a), acts + [a]) && Acted(s, a).secret == s.secret
    ensures n == 2 ==>
      Acted(s, a).cipher == if a.frame.msg.check.suite > 0 then Some(Cipher(s.secret, 0, 0)) else None
  {
    hide NonceOf, Asked;
    AskedOn(acts, a);
    assert forall b :: b in acts + [a] <==> b in acts || b == a;
  }

  /** Anything else ends the waiting, and the authentication. */
  lemma OtherEnds(s: Side, acts: seq<Act>, a: Act, n: nat)
    requires AtStep(s, n) && n < 3 && Awaits(s, acts) && CanAct(s, a) && !Passes(acts, a) && !IsStep(s.secret, a, n)
    ensures var t := Acted(s, a); t.state != WaitingHello && t.ck == s.ck && t.cipher == None
    ensures a.Take? && a.frame.msg.CheckMsg? ==> Acted(s, a).state == Gone
  {
    hide NonceOf, Asked, HandleCheck, ClientCheck, ServerCheck;
    if a.Take? && a.frame.nonce == None && a.frame.msg.CheckMsg? {
      OtherChecks(s, a, n);
    }
  }

  lemma OtherChecks(s: Side, a: Act, n: nat)
    requires AtStep(s, n) && n < 3 && a.Take? && a.frame.nonce == None && a.frame.msg.CheckMsg? && !IsStep(s.secret, a, n)
    ensures var t := HandleCheck(s, a.frame.msg.check); t.state == Gone && t.ck == s.ck && t.cipher == None
  {
  }

  /** A client that no longer waits gets no further. */
  predicate Past(s: Side) {
    !s.incoming && s.state != Init && s.state != WaitingHello
  }

  lemma PastStays(s: Side, a: Act)
    requires Past(s) && CanAct(s, a)
    ensures var t := Acted(s, a);
      && Past(t) && t.ck == s.ck && t.secret == s.secret
      && t.cipher.Some? == s.cipher.Some? && (s.cipher.Some? ==> t.cipher.value.key == s.cipher.value.key)
    ensures a.Take? && a.frame.msg.CheckMsg? ==> Acted(s, a).state == Gone
    ensures s.state == Gone ==> Acted(s, a).state == Gone
  {
    hide NonceOf;
  }

  /** One that has finished stays so, whatever it reads. */
  predicate Finished(s: Side) {
    !s.incoming && s.state != Init && s.ck == CkFinish
  }

  lemma FinishedStays(s: Side, a: Act)
    requires Finished(s) && CanAct(s, a)
    ensures var t := Acted(s, a);
      && Finished(t) && t.secret == s.secret
      && t.cipher.Some? == s.cipher.Some? && (s.cipher.Some? ==> t.cipher.value.key == s.cipher.value.key)
    ensures a.Take? && a.frame.msg.CheckMsg? ==> Acted(s, a).state == Gone
    ensures s.state == Gone ==> Acted(s, a).state == Gone
  {
    hide NonceOf;
    if s.state != WaitingHello {
      PastStays(s, a);
    } else if a.Take? {
      hide Accept, ClientCheck, ServerCheck;
      FinishedTakes(s, a.frame);
    }
  }

  lemma FinishedTakes(s: Side, f: Frame)
    requires Finished(s) && s.state == WaitingHello
    ensures var t := Receive(s, f);
      && Finished(t) && t.secret == s.secret
      && t.cipher.Some? == s.cipher.Some? && (s.cipher.Some? ==> t.cipher.value.key == s.cipher.value.key)
      && (f.msg.CheckMsg? ==> t.state == Gone)
  {
    hide NonceOf, HandleCheck, Accept;
    if f.msg.CheckMsg? {
      FinishedRefuses(s, f.msg.check);
      if s.cipher.Some? { FinishedRefuses(Counted(s), f.msg.check); }
    } else if f.msg.Data? {
      AcceptKeeps(s, f.msg);
      if s.cipher.Some? { AcceptKeeps(Counted(s), f.msg); }
    }
  }

  lemma FinishedRefuses(s: Side, c: Check)
    requires Finished(s)
    ensures var t := HandleCheck(s, c); t.state == Gone && t.ck == s.ck && t.secret == s.secret && t.cipher == s.cipher && !t.incoming
  {
  }

  lemma AcceptKeeps(s: Side, m: Msg)
    requires m.Data?
    ensures var t := Accept(s, m); t.ck == s.ck && t.secret == s.secret && t.cipher == s.cipher && t.incoming == s.incoming
    ensures Accept(s, m).state == Init ==> s.state == Init
  {
  }

  // -------------------------------------------------- one life, by its acts

  /** The client has the cipher that the proof named, or none. */
  predicate Keyed(secret: Digest, s: Side, proof: Act) {
    && IsStep(secret, proof, 2)
    && (s.cipher.Some? <==> proof.frame.msg.check.suite > 0) && (s.cipher.Some? ==> s.cipher.value.key == secret)
  }

  ghost predicate OnTrack(secret: Digest, acts: seq<Act>, at: seq<nat>, s: Side)
    requires Follows(secret, acts, at)
  {
    AtStep(s, |at|) && Awaits(s, acts) && (|at| == 3 ==> Keyed(secret, s, acts[at[2]]))
  }

  /** Where the client is after some acts. */
  ghost predicate Stands(secret: Digest, acts: seq<Act>, s: Side) {
    && s.secret == secret && !s.incoming && s.state != Init
    && (s.ck != CkFinish && s.state == WaitingHello ==> exists at :: Follows(secret, acts, at) && |at| < 3)
    && (forall at :: Follows(secret, acts, at) ==> OnTrack(secret, acts, at, s))
    && (s.ck == CkFinish <==> Proven(secret, acts))
    && (s.ck != CkFinish ==> s.cipher == None)
    && (forall k, at :: ProvenAt(secret, acts, k, at) ==> Keyed(secret, s, acts[at[2]]))
  }

  lemma TrackGoesOn(secret: Digest, acts: seq<Act>, s: Side, a: Act, at: seq<nat>)
    requires Stands(secret, acts, s) && CanAct(s, a) && Follows(secret, acts + [a], at)
    ensures OnTrack(secret, acts + [a], at, Acted(s, a))
  {
    hide Follows, Passes, AtStep, Awaits, Acted, CanAct, Proven, ProvenAt, IsStep;
    if |acts| in at {
      LastIsLast(secret, acts, at, a);
      var to := at[..|at| - 1];
      assert at == to + [|acts|];
      StepWasLast(secret, acts, to, a);
      assert OnTrack(secret, acts, to, s);
      StepAdvances(s, acts, a, |to|);
    } else {
      PassedLast(secret, acts, at, a);
      assert OnTrack(secret, acts, at, s);
      PassingKeeps(s, acts, a, |at|);
      if |at| == 3 { InReach(secret, acts, at); }
    }
  }

  lemma InReach(secret: Digest, acts: seq<Act>, at: seq<nat>)
    requires Follows(secret, acts, at)
    ensures forall a :: 0 <= a < |at| ==> at[a] < |acts|
    ensures at != [] ==> 0 <= at[0] < |acts|
  {
  }

  /** A client that waits and has not finished goes on with the next check, passes the act over, or waits no more. */
  lemma WaitGoesOn(secret: Digest, acts: seq<Act>, s: Side, a: Act)
    requires Stands(secret, acts, s) && CanAct(s, a) && s.ck != CkFinish
    ensures var t := Acted(s, a);
      && (t.ck != CkFinish && t.state == WaitingHello ==> exists at :: Follows(secret, acts + [a], at) && |at| < 3)
      && (t.ck == CkFinish ==> exists at :: Follows(secret, acts + [a], at) && |at| == 3)
      && (t.ck != CkFinish ==> t.cipher == None)
      && !t.incoming && t.state != Init && t.secret == secret
    ensures a.Take? && a.frame.msg.CheckMsg? ==>
      Acted(s, a).state == Gone || exists at: seq<nat> :: Follows(secret, acts + [a], at + [|acts|])
  {
    hide Follows, Passes, Acted, CanAct, Proven, IsStep, Awaits;
    if s.state == WaitingHello {
      var at: seq<nat> :| Follows(secret, acts, at) && |at| < 3;
      assert OnTrack(secret, acts, at, s);
      if Passes(acts, a) {
        FollowsPassing(secret, acts, at, a);
        PassingKeeps(s, acts, a, |at|);
        assert !(a.Take? && a.frame.msg.CheckMsg?) by { PassesNoCheck(acts, a); }
      } else if IsStep(secret, a, |at|) {
        FollowsStep(secret, acts, at, a);
        StepAdvances(s, acts, a, |at|);
        assert |at + [|acts|]| == |at| + 1;
      } else {
        OtherEnds(s, acts, a, |at|);
        EndsLikeSide(s, a);
      }
    } else {
      PastStays(s, a);
    }
  }

  lemma PassesNoCheck(acts: seq<Act>, a: Act)
    requires Passes(acts, a)
    ensures !(a.Take? && a.frame.msg.CheckMsg?)
  {
  }

  lemma ChecksKeepSide(s: Side, c: Check)
    ensures HandleCheck(s, c).incoming == s.incoming && HandleCheck(s, c).secret == s.secret
    ensures s.state != Init ==> HandleCheck(s, c).state != Init
  {
  }

  lemma EndsLikeSide(s: Side, a: Act)
    requires CanAct(s, a) && s.state != Init
    ensures Acted(s, a).incoming == s.incoming && Acted(s, a).secret == s.secret && Acted(s, a).state != Init
  {
    hide NonceOf, HandleCheck, Accept;
    if a.Take? && a.frame.msg.CheckMsg? {
      ChecksKeepSide(s, a.frame.msg.check);
      if s.cipher.Some? { ChecksKeepSide(Counted(s), a.frame.msg.check); }
    } else if a.Take? && a.frame.msg.Data? {
      AcceptKeeps(s, a.frame.msg);
      if s.cipher.Some? { AcceptKeeps(Counted(s), a.frame.msg); }
    }
  }

  lemma EarlierProof(secret: Digest, acts: seq<Act>, a: Act, k: nat, at: seq<nat>)
    ensures k <= |acts| ==> (ProvenAt(secret, acts + [a], k, at) <==> ProvenAt(secret, acts, k, at))
    ensures ProvenAt(secret, acts + [a], |acts| + 1, at) <==> |at| == 3 && Follows(secret, acts + [a], at)
    ensures ProvenAt(secret, acts, k, at) ==> at[2] < |acts| && (acts + [a])[at[2]] == acts[at[2]]
  {
    if k <= |acts| { assert (acts + [a])[..k] == acts[..k]; }
    assert (acts + [a])[..|acts| + 1] == acts + [a];
  }

  lemma ProofGoesOn(secret: Digest, acts: seq<Act>, s: Side, a: Act)
    requires Stands(secret, acts, s) && CanAct(s, a)
    ensures Acted(s, a).ck == CkFinish <==> Proven(secret, acts + [a])
    ensures forall k, at :: ProvenAt(secret, acts + [a], k, at) ==> Keyed(secret, Acted(s, a), (acts + [a])[at[2]])
  {
    hide Follows, Acted, CanAct, AtStep, Awaits;
    var all, t := acts + [a], Acted(s, a);
    forall k: nat, at: seq<nat> | ProvenAt(secret, all, k, at)
      ensures t.ck == CkFinish && at[2] < |all| && Keyed(secret, t, all[at[2]])
    {
      ProofInReach(secret, all, k, at);
      EarlierProof(secret, acts, a, k, at);
      if k <= |acts| {
        assert Proven(secret, acts);
        FinishedStays(s, a);
      } else {
        TrackGoesOn(secret, acts, s, a, at);
        ThirdIsFinish(t);
      }
    }
    if t.ck == CkFinish {
      if s.ck == CkFinish {
        var k: nat, at: seq<nat> :| ProvenAt(secret, acts, k, at);
        EarlierProof(secret, acts, a, k, at);
      } else {
        WaitGoesOn(secret, acts, s, a);
        var at: seq<nat> :| Follows(secret, all, at) && |at| == 3;
        EarlierProof(secret, acts, a, |all|, at);
      }
    }
  }

  lemma ProofInReach(secret: Digest, acts: seq<Act>, k: nat, at: seq<nat>)
    requires ProvenAt(secret, acts, k, at)
    ensures at[2] < k <= |acts|
  {
  }

  lemma ThirdIsFinish(s: Side)
    ensures AtStep(s, 3) ==> s.ck == CkFinish
  {
  }

  lemma StandsOn(secret: Digest, acts: seq<Act>, s: Side, a: Act)
    requires Stands(secret, acts, s) && CanAct(s, a)
    ensures Stands(secret, acts + [a], Acted(s, a))
  {
    ProofGoesOn(secret, acts, s, a);
    if s.ck == CkFinish { FinishedStays(s, a); } else { WaitGoesOn(secret, acts, s, a); }
    forall at | Follows(secret, acts + [a], at)
      ensures OnTrack(secret, acts + [a], at, Acted(s, a))
    {
      TrackGoesOn(secret, acts, s, a, at);
    }
    hide Follows, Acted, CanAct, OnTrack, Keyed, ProvenAt;
  }

  lemma StandsFirst(secret: Digest)
    ensures Stands(secret, [], Client(secret))
  {
    var at: seq<nat> := [];
    assert Follows(secret, [], at);
    forall to: seq<nat> | Follows(secret, [], to)
      ensures to == []
    {
      InReach(secret, [], to);
    }
    forall k: nat, to: seq<nat>
      ensures !ProvenAt(secret, [], k, to)
    {
    }
  }

  lemma {:induction false} LivesStand(secret: Digest, acts: seq<Act>)
    requires Life(Client(secret), acts)
    ensures Stands(secret, acts, Lived(Client(secret), acts))
    decreases |acts|
  {
    hide Stands, Acted, CanAct;
    if acts == [] {
      StandsFirst(secret);
    } else {
      var front, a := acts[..|acts| - 1], acts[|acts| - 1];
      assert acts == front + [a];
      LivedOn(Client(secret), front, a);
      LivesStand(secret, front);
      StandsOn(secret, front, Lived(Client(secret), front), a);
    }
  }

  // ------------------------------------------------------------ theorems

  /**
   * Whatever a client is sent: it finishes the authentication if and only if it
   * reads, in the clear and in this order, a request, the parameters and the
   * proof of the secret it shares with the server, with nothing else before the
   * last of them but the first answers to its own quests. It has a cipher if
   * and only if the proof that finished named one, and then with the key of
   * that secret.
   */
  lemma WhoIsTrusted(secret: Digest, acts: seq<Act>)
    requires Life(Client(secret), acts)
    ensures var s := Lived(Client(secret), acts);
      && (s.ck == CkFinish <==> Proven(secret, acts))
      && (s.cipher.Some? <==> Ciphered(secret, acts))
      && (s.cipher.Some? ==> s.cipher.value.key == secret)
  {
    LivesStand(secret, acts);
    hide Follows, ProvenAt;
    var s := Lived(Client(secret), acts);
    if Proven(secret, acts) {
      var k: nat, at: seq<nat> :| ProvenAt(secret, acts, k, at);
      assert Keyed(secret, s, acts[at[2]]);
    }
  }

  /** A check message that is not the next step of the authentication, a wrong proof among them, disconnects the client for good. */
  lemma {:induction false} OtherChecksDisconnect(secret: Digest, acts: seq<Act>, m: nat)
    requires Life(Client(secret), acts) && m < |acts| && acts[m].Take? && acts[m].frame.msg.CheckMsg?
    ensures Lived(Client(secret), acts).state == Gone || exists at: seq<nat> :: Follows(secret, acts[..m + 1], at + [m])
    decreases |acts|
  {
    hide Stands, Acted, CanAct, Follows;
    var front, a := acts[..|acts| - 1], acts[|acts| - 1];
    assert acts == front + [a];
    LivedOn(Client(secret), front, a);
    LivesStand(secret, front);
    var s := Lived(Client(secret), front);
    if m < |front| {
      OtherChecksDisconnect(secret, front, m);
      assert front[..m + 1] == acts[..m + 1];
      if s.state == Gone { GoneStays(s, a); }
    } else {
      assert acts[..m + 1] == acts;
      CheckComes(secret, front, s, a);
    }
  }

  lemma GoneStays(s: Side, a: Act)
    requires s.state == Gone && CanAct(s, a)
    ensures Acted(s, a).state == Gone
  {
  }

  lemma CheckComes(secret: Digest, acts: seq<Act>, s: Side, a: Act)
    requires Stands(secret, acts, s) && CanAct(s, a) && a.Take? && a.frame.msg.CheckMsg?
    ensures Acted(s, a).state == Gone || exists at: seq<nat> :: Follows(secret, acts + [a], at + [|acts|])
  {
    if s.ck == CkFinish { FinishedStays(s, a); } else { WaitGoesOn(secret, acts, s, a); }
  }

  /** The client starts here once it is connected, whether or not the server asks for a secret. */
  lemma ClientIsConnected(auth: bool, secret: Digest, serverSecret: Digest, suite: nat)
    ensures Possible(Start(auth, secret, serverSecret, suite), Connected)
    ensures XicHandshake.Next(Start(auth, secret, serverSecret, suite), Connected).client == Client(secret)
  {
  }

  /** A hello makes the client active without any authentication: it cannot tell that the server did not ask. */
  lemma HelloIsTaken(secret: Digest)
    ensures var acts := [Take(HELLO)];
      Life(Client(secret), acts) && Lived(Client(secret), acts).state == Active && !Proven(secret, acts)
  {
    var acts := [Take(HELLO)];
    var s := Receive(Client(secret), HELLO);
    assert acts[1..] == [] && Life(s, []);
    assert Lived(Client(secret), acts) == s;
    WhoIsTrusted(secret, acts);
  }
}
