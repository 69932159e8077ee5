/**
 * One end of an opening connection as the code keeps it: fields changed in
 * place, each method refining its function in XicHandshake.
 */
module XicOpening {
  import opened Prelude
  import opened Bytes
  import opened XicCipher
  import H = XicHandshake

  class StConnection {
    const incoming: bool
    const secret: Digest
    const suite: nat
    var state: H.State
    var ck: H.CkState
    var kq: seq<H.Msg>
    var wq: seq<H.Msg>
    var cipher: MyCipher?
    var got: seq<H.Msg>
    var awaits: set<nat>       // the numbers in _resultMap
    var owes: multiset<nat>    // those of the quests in process
    var nextId: nat

    ghost predicate Valid()
      reads this, if cipher == null then {} else {cipher, cipher.oNonce, cipher.iNonce}
    {
      cipher != null ==> cipher.Valid() && cipher.isServer == incoming
    }

    ghost function Model(): H.Side
      reads this, if cipher == null then {} else {cipher}
    {
      H.Side(incoming, secret, suite, state, ck, kq, wq,
             if cipher == null then None else Some(H.Cipher(cipher.digest, cipher.sent, cipher.received)), got, awaits, owes, nextId)
    }

    /** The connecting side. */
    constructor Connect(secret: Digest)
      ensures Valid() && Model() == H.Start(true, secret, secret, 0).client
    {
      incoming, this.secret, suite := false, secret, 0;
      state, ck, kq, wq, cipher, got := H.Init, H.CkInit, [], [], null, [];
      awaits, owes, nextId := {}, multiset{}, 1;
    }

    /** The accepting side, which asks for a secret if it has any. */
    constructor Accept(auth: bool, secret: Digest, suite: nat)
      ensures Valid() && Model() == H.Start(auth, secret, secret, suite).server
    {
      incoming, this.secret := true, secret;
      cipher, got := null, [];
      awaits, owes, nextId := {}, multiset{}, 1;
      if auth {
        this.suite := suite;
        state, ck, kq, wq := H.WaitingHello, H.CkS1, [H.CheckMsg(H.Authenticate)], [];
      } else {
        this.suite := 0;
        state, ck, kq, wq := H.Active, H.CkFinish, [], [H.Hello];
      }
    }

    method SendKmsg(m: H.Msg)
      requires state == H.Init || state == H.WaitingHello
      modifies this`kq
      ensures kq == old(kq) + [m]
    {
      kq := kq + [m];
    }

    method InstallCipher(s: nat)
      requires s > 0
      modifies this`cipher
      ensures cipher != null && fresh(cipher) && fresh(cipher.oNonce) && fresh(cipher.iNonce)
      ensures cipher.Valid() && cipher.isServer == incoming && cipher.digest == secret && cipher.sent == cipher.received == 0
    {
      cipher := new MyCipher(secret, incoming);
    }

    /** What the model keeps of disconnect. */
    method Disconnect()
      modifies this`state, this`wq, this`awaits
      ensures state == H.Gone && wq == [] && awaits == {}
    {
      state, wq, awaits := H.Gone, [], {};
    }

    /** The branch of the side that connected. */
    method ClientCheck(c: H.Check)
      requires Valid() && state == H.WaitingHello && !incoming
      modifies this
      ensures Valid() && Model() == H.ClientCheck(old(Model()), c)
    {
      hide NonceOf, Value, Pow256;
      match c {
        case Forbidden =>
          Disconnect();
        case Authenticate =>
          if ck != H.CkInit {
            Disconnect();
          } else {
            SendKmsg(H.CheckMsg(H.Srp1(true)));
            ck := H.CkS2;
          }
        case Srp2 =>
          if ck != H.CkS2 {
            Disconnect();
          } else {
            SendKmsg(H.CheckMsg(H.Srp3(secret)));
            ck := H.CkS4;
          }
        case Srp4(proof, chosen) =>
          if ck != H.CkS4 || proof != secret {
            Disconnect();
          } else {
            if chosen > 0 {
              InstallCipher(chosen);
            }
            ck := H.CkFinish;
          }
        case _ =>
      }
    }

    /** The proof was right. */
    method Admit()
      requires Valid() && state == H.WaitingHello && ck == H.CkS3
      modifies this
      ensures Valid() && Model() == H.ServerCheck(old(Model()), H.Srp3(secret))
    {
      hide NonceOf, Value, Pow256;
      if suite > 0 {
        InstallCipher(suite);
      }
      SendKmsg(H.CheckMsg(H.Srp4(secret, suite)));
      SendKmsg(H.Hello);
      ck := H.CkFinish;
      state := H.Active;
    }

    /** The part that both sides run through. */
    method ServerCheck(c: H.Check)
      requires Valid() && state == H.WaitingHello
      modifies this
      ensures Valid() && Model() == H.ServerCheck(old(Model()), c)
    {
      hide NonceOf, Value, Pow256;
      match c {
        case Srp1(known) =>
          if ck != H.CkS1 || !known {
            Refuse();
          } else {
            SendKmsg(H.CheckMsg(H.Srp2));
            ck := H.CkS3;
          }
        case Srp3(proof) =>
          if ck != H.CkS3 || proof != secret {
            Refuse();
          } else {
            Admit();
          }
        case _ =>
      }
    }

    /** One check message. */
    method HandleCheck(c: H.Check)
      requires Valid() && state == H.WaitingHello
      modifies this
      ensures Valid() && Model() == H.HandleCheck(old(Model()), c)
    {
      hide H.ClientCheck, H.ServerCheck;
      if !incoming {
        ClientCheck(c);
        ClientStays(old(Model()), c);
        if state == H.Gone {
          return;
        }
      }
      ServerCheck(c);
    }

    lemma ClientStays(s: H.Side, c: H.Check)
      requires s.state == H.WaitingHello
      ensures H.ClientCheck(s, c).state == H.WaitingHello || H.ClientCheck(s, c).state == H.Gone
    {
    }

    /** A server that refuses goes on reading and sending, a client disconnects. */
    method Refuse()
      requires state == H.WaitingHello
      modifies this`kq, this`wq, this`state, this`awaits
      ensures kq == old(kq) + [H.CheckMsg(H.Forbidden)]
      ensures if incoming then state == H.Failed && wq == old(wq) && awaits == old(awaits)
              else state == H.Gone && wq == [] && awaits == {}
    {
      SendKmsg(H.CheckMsg(H.Forbidden));
      if incoming {
        state := H.Failed;
      } else {
        Disconnect();
      }
    }

    /** Takes one frame off the wire (recv_msg). The counter must not be at its end. */
    method RecvMsg(f: H.Frame)
      requires Valid()
      requires cipher != null && f.nonce.Some? && !f.msg.Hello? ==>
                 NonceOf(cipher.digest, !incoming, cipher.received + 1) < Pow256(NONCE_SIZE)
      modifies this, if cipher == null then {} else {cipher, cipher.iNonce}
      ensures Valid() && Model() == H.Receive(old(Model()), f)
    {
      hide NonceOf, Value, Pow256, H.HandleCheck, H.Accept;
      if f.nonce.Some? && cipher == null {
        Disconnect();
        return;
      }
      if f.msg.Hello? {
        if state == H.Init || state == H.WaitingHello {
          state := H.Active;
        }
        return;
      }
      if f.nonce.Some? {
        var nonce := cipher.DecryptStart();
        if Value(nonce) != f.nonce.value {
          Disconnect();
          return;
        }
      }
      match f.msg {
        case CheckMsg(c) =>
          if state != H.WaitingHello {
            Disconnect();
          } else {
            HandleCheck(c);
          }
        case Data(_, _) =>
          TakeData(f.msg);
      }
    }

    /** What recv_fiber does with a quest or an answer. */
    method TakeData(m: H.Msg)
      requires Valid() && m.Data?
      modifies this`state, this`got, this`owes, this`awaits
      ensures Valid() && Model() == H.Accept(old(Model()), m)
    {
      hide NonceOf, Value, Pow256;
      if m.quest {
        if state == H.Init || state == H.WaitingHello {
          state := H.Failed;
        } else if state == H.Active {
          got := got + [m];
          if m.id != 0 {
            owes := owes + multiset{m.id};
          }
        }
      } else if m.id in awaits {
        awaits := awaits - {m.id};
        got := got + [m];
      } else {
        state := H.Failed;
      }
    }

    /** _send_qmsg */
    method SendQmsg(m: H.Msg)
      modifies this`wq
      ensures wq == if state == H.Failed || state == H.Gone then old(wq) else old(wq) + [m]
    {
      if state != H.Failed && state != H.Gone {
        wq := wq + [m];
      }
    }

    /** What the application has sent: a quest (sendQuest) or an answer (replyAnswer). */
    method Send(what: H.Say)
      requires Valid() && H.CanSay(Model(), what)
      modifies this`wq, this`awaits, this`owes, this`nextId
      ensures Valid() && Model() == H.Said(old(Model()), what)
    {
      hide NonceOf, Value, Pow256, H.HasQuest;
      match what {
        case OneWay =>
          SendQmsg(H.Data(true, 0));
        case TwoWay =>
          if state == H.Failed || state == H.Gone {
            return;
          }
          var txid := nextId;
          nextId := nextId + 1;
          awaits := awaits + {txid};
          SendQmsg(H.Data(true, txid));
        case Reply(id) =>
          SendQmsg(H.Data(false, id));
          owes := owes - multiset{id};
      }
    }

    /** Puts the next frame on the wire (send_fiber with get_msg_iovec). */
    method SendOne() returns (f: H.Frame)
      requires Valid() && H.CanSend(Model()) && H.NoWrap(Model())
      modifies this, if cipher == null then {} else {cipher, cipher.oNonce}
      ensures Valid() && f == H.NextFrame(old(Model())) && Model() == H.AfterSend(old(Model()))
    {
      hide NonceOf, Value, Pow256;
      var m;
      if kq != [] {
        m, kq := kq[0], kq[1..];
      } else {
        m, wq := wq[0], wq[1..];
      }
      f := H.Frame(m, None);
      if m.Data? && cipher != null {
        var nonce := cipher.EncryptStart();
        f := H.Frame(m, Some(Value(nonce)));
      }
    }
  }
}
