/**
 * A running XIC connection (xic/StEngineImp.cpp, xic/EngineImp.cpp): what it
 * queues for sending, the quests it still owes an answer, the results it
 * still expects, and how it closes gracefully.
 */
module XicConnection {
  import opened Prelude

  /** The states in the order in which the code compares them; waiting for the hello, between the first two, is not
      told from the first. */
  const ST_INIT: nat := 0
  const ST_ACTIVE: nat := 2
  const ST_CLOSE: nat := 3
  const ST_CLOSING: nat := 4
  const ST_CLOSED: nat := 5
  const ST_ERROR: nat := 6

  const INT64_MAX: int := 0x7FFF_FFFF_FFFF_FFFF

  /** serial: which of the accepted two-way quests an answer is for. */
  datatype Msg = Hello | Quest(txid: int) | Answer(serial: nat, txid: int) | Bye

  predicate MayFollowBye(m: Msg) {
    m == Quest(0)
  }

  /** At most one bye, and after it nothing but one-way quests. */
  ghost predicate ByeIsLast(log: seq<Msg>) {
    forall i, j :: 0 <= i < j < |log| && log[i] == Bye ==> MayFollowBye(log[j])
  }

  lemma ByeStaysLast(log: seq<Msg>, m: Msg)
    requires ByeIsLast(log)
    requires Bye in log ==> MayFollowBye(m)
    ensures ByeIsLast(log + [m])
  {
  }

  lemma OneByeOnly(log: seq<Msg>)
    requires ByeIsLast(log)
    ensures forall i, j :: 0 <= i < |log| && 0 <= j < |log| && log[i] == Bye && log[j] == Bye ==> i == j
    ensures forall i, j, t :: 0 <= i < j < |log| && log[i] == Bye && log[j] == Quest(t) ==> t == 0
    ensures forall i, j :: 0 <= i < j < |log| && log[i] == Bye ==> !log[j].Answer?
  {
  }

  ghost predicate HasAnswer(log: seq<Msg>, serial: nat) {
    exists i :: 0 <= i < |log| && log[i].Answer? && log[i].serial == serial
  }

  lemma AnswersStay(log: seq<Msg>, m: Msg)
    ensures forall s :: HasAnswer(log, s) ==> HasAnswer(log + [m], s)
    ensures m.Answer? ==> HasAnswer(log + [m], m.serial)
  {
    forall s | HasAnswer(log, s)
      ensures HasAnswer(log + [m], s)
    {
      var i :| 0 <= i < |log| && log[i].Answer? && log[i].serial == s;
      assert (log + [m])[i] == log[i];
    }
    assert (log + [m])[|log|] == m;
  }

  /** What sending a two-way quest does to the results of a connection; failed is the result to be completed with an error. */
  datatype Sending = Sending(txid: int, failed: Option<nat>, nextId: int, resultMap: map<int, nat>)

  /**
   * sendQuest of a quest that carries a number from an earlier try, or none:
   * a live connection gives it a new one, under which its result r is
   * registered unless the number is in use. At a dead connection the result
   * that waits under the carried number fails, or r if there is no number.
   */
  function QuestSent(state: nat, nextId: int, resultMap: map<int, nat>, carried: int, r: nat): Sending {
    if state >= ST_CLOSE then
      if carried <= 0 then Sending(carried, Some(r), nextId, resultMap)
      else Sending(carried, if carried in resultMap then Some(resultMap[carried]) else None, nextId, resultMap - {carried})
    else
      var txid := if nextId <= 0 then 1 else nextId;
      Sending(txid, None, if txid == INT64_MAX then -INT64_MAX - 1 else txid + 1,
              if txid in resultMap then resultMap else resultMap[txid := r])
  }

  class StConnection {
    var state: nat
    var graceful: bool
    var processing: int
    var wq: seq<Msg>
    var nextId: int
    var resultMap: map<int, nat>

    /** All messages ever put into wq, in order. */
    ghost var log: seq<Msg>
    /** How many two-way quests have been accepted; it numbers them for the model. */
    var accepted: nat
    /** Those still unanswered; the code keeps only their number. */
    var owed: set<nat>
    /** The quests for which replyAnswer was called, in order. */
    ghost var replied: seq<nat>

    ghost predicate RepliesOk()
      reads this`owed, this`replied, this`accepted
    {
      (forall s :: s in owed ==> s < accepted && s !in replied) &&
      (forall s :: 0 <= s < accepted ==> s in owed || s in replied) &&
      (forall i :: 0 <= i < |replied| ==> replied[i] < accepted) &&
      (forall i, j :: 0 <= i < j < |replied| ==> replied[i] != replied[j])
    }

    ghost predicate ClosingOk()
      reads this
    {
      (state == ST_CLOSE ==> processing > 0 || resultMap != map[]) &&
      (state == ST_CLOSING ==> Bye in log) &&
      (Bye in log ==> state >= ST_CLOSING && owed == {} && resultMap == map[])
    }

    /** Until the connection is closed, or once it has said bye, every reply has been queued. */
    ghost predicate AnswersOk()
      reads this
    {
      state < ST_CLOSED || Bye in log ==>
        forall s :: s in replied ==> HasAnswer(log, s)
    }

    ghost predicate Valid()
      reads this
    {
      processing == |owed| && state <= ST_ERROR && RepliesOk() && ClosingOk() && AnswersOk() && ByeIsLast(log)
    }

    constructor ()
      ensures Valid() && state == ST_INIT && log == [] && accepted == 0 && resultMap == map[] && !graceful
    {
      state, graceful, processing, wq, nextId, resultMap := ST_INIT, false, 0, [], 1, map[];
      log, accepted, owed, replied := [], 0, {}, [];
    }

    /** Queues a message unless the connection is closed (_send_qmsg). */
    method SendQmsg(m: Msg)
      modifies this`wq, this`log
      ensures state < ST_CLOSED ==> wq == old(wq) + [m] && log == old(log) + [m]
      ensures state >= ST_CLOSED ==> wq == old(wq) && log == old(log)
    {
      if state < ST_CLOSED {
        wq := wq + [m];
        log := log + [m];
      }
    }

    /** Says bye: nothing is owed and nothing expected. */
    method SayBye()
      requires processing == |owed| == 0 && state == ST_CLOSE && RepliesOk() && AnswersOk() && ByeIsLast(log)
      requires resultMap == map[] && Bye !in log
      modifies this`state, this`graceful, this`wq, this`log
      ensures Valid() && state == ST_CLOSING && graceful && log == old(log) + [Bye]
    {
      hide RepliesOk, HasAnswer;
      ByeStaysLast(log, Bye);
      AnswersStay(log, Bye);
      state := ST_CLOSING;
      graceful := true;
      SendQmsg(Bye);
      assert Bye in log;
    }

    /** Starts to close gracefully. */
    method Grace()
      requires Valid()
      modifies this`state, this`graceful, this`wq, this`log
      ensures Valid()
      ensures old(state) >= ST_CLOSE ==> state == old(state) && log == old(log)
      ensures old(state) < ST_CLOSE && (processing > 0 || resultMap != map[]) ==> state == ST_CLOSE && log == old(log)
      ensures old(state) < ST_CLOSE && processing == 0 && resultMap == map[] ==> state == ST_CLOSING && log == old(log) + [Bye]
    {
      if state < ST_CLOSE {
        state := ST_CLOSE;
        if processing == 0 && |resultMap| == 0 {
          SayBye();
        }
      }
    }

    /** Sends the one answer to an accepted quest. */
    method ReplyAnswer(serial: nat, txid: int)
      requires Valid() && serial in owed
      modifies this`state, this`graceful, this`wq, this`log, this`processing, this`owed, this`replied
      ensures Valid() && owed == old(owed) - {serial} && replied == old(replied) + [serial]
      ensures old(state) >= ST_CLOSED ==> log == old(log)
      ensures old(state) < ST_CLOSED ==>
                log == old(log) + [Answer(serial, txid)] +
                       if old(state) == ST_CLOSE && owed == {} && resultMap == map[] then [Bye] else []
      ensures state == if old(state) == ST_CLOSE && owed == {} && resultMap == map[] then ST_CLOSING else old(state)
    {
      hide ByeIsLast, HasAnswer;
      ByeStaysLast(log, Answer(serial, txid));
      AnswersStay(log, Answer(serial, txid));
      SendQmsg(Answer(serial, txid));
      processing := processing - 1;
      owed := owed - {serial};
      replied := replied + [serial];
      if state == ST_CLOSE && processing == 0 && |resultMap| == 0 {
        SayBye();
      }
    }

    /** Takes a quest off the wire: None if it is dropped or refused. */
    method RecvQuest(txid: int) returns (serial: Option<nat>)
      requires Valid()
      modifies this`state, this`processing, this`accepted, this`owed
      ensures Valid() && accepted >= old(accepted)
      ensures ST_ACTIVE <= old(state) < ST_CLOSE ==> serial == Some(old(accepted)) && state == old(state)
      ensures ST_ACTIVE <= old(state) < ST_CLOSE && txid != 0 ==> owed == old(owed) + {old(accepted)} && old(accepted) !in old(owed)
      ensures !(ST_ACTIVE <= old(state) < ST_CLOSE) || txid == 0 ==> owed == old(owed) && accepted == old(accepted)
      ensures old(state) < ST_ACTIVE ==> serial == None && state == ST_ERROR
      ensures old(state) >= ST_CLOSE ==> serial == None && state == old(state)
    {
      hide ByeIsLast, HasAnswer;
      serial := None;
      if state < ST_CLOSE {
        if state < ST_ACTIVE {
          SetException();
        } else {
          serial := Some(accepted);
          if txid != 0 {
            processing := processing + 1;
            owed := owed + {accepted};
            accepted := accepted + 1;
          }
        }
      }
    }

    method SetException()
      requires Valid()
      modifies this`state
      ensures Valid() && state == ST_ERROR
    {
      hide ByeIsLast, HasAnswer, RepliesOk;
      state := ST_ERROR;
    }

    method RecvHello()
      requires Valid()
      modifies this`state
      ensures Valid() && state == if old(state) < ST_ACTIVE then ST_ACTIVE else old(state)
    {
      if state < ST_ACTIVE {
        state := ST_ACTIVE;
      }
    }

    method RecvBye()
      requires Valid()
      modifies this`state, this`graceful
      ensures Valid() && state == ST_CLOSED && graceful
    {
      state := ST_CLOSED;
      graceful := true;
    }

    /** Takes an answer off the wire: the result it completes; without one the connection is in error. */
    method RecvAnswer(txid: int) returns (res: Option<nat>)
      requires Valid()
      modifies this`state, this`graceful, this`wq, this`log, this`resultMap
      ensures Valid() && resultMap == old(resultMap) - {txid}
      ensures res == if txid in old(resultMap) then Some(old(resultMap)[txid]) else None
      ensures log == old(log) + if old(state) == ST_CLOSE && owed == {} && resultMap == map[] then [Bye] else []
      ensures owed == old(owed) && replied == old(replied)
      ensures state == if res == None then ST_ERROR
                       else if old(state) == ST_CLOSE && owed == {} && resultMap == map[] then ST_CLOSING else old(state)
    {
      hide ByeIsLast, HasAnswer, RepliesOk;
      res := None;
      if txid in resultMap {
        res := Some(resultMap[txid]);
        resultMap := resultMap - {txid};
      } else {
        assert resultMap - {txid} == resultMap;
      }
      if |resultMap| == 0 && state == ST_CLOSE && processing == 0 {
        SayBye();
      }
      if res == None {
        SetException();
      }
    }

    /** A transaction number (generateId): a 64-bit counter that starts anew from one after a wrap. */
    method GenerateId() returns (txid: int)
      modifies this`nextId
      ensures txid == if old(nextId) <= 0 then 1 else old(nextId)
      ensures nextId == if txid == INT64_MAX then -INT64_MAX - 1 else txid + 1
    {
      txid := if nextId <= 0 then 1 else nextId;
      nextId := if txid == INT64_MAX then -INT64_MAX - 1 else txid + 1;
    }

    /**
     * Registers a result under a new number (addResult). The insertion never
     * reports failure: under a number in use the result is not registered.
     */
    method AddResult(r: nat) returns (txid: int)
      modifies this`nextId, this`resultMap
      ensures txid == if old(nextId) <= 0 then 1 else old(nextId)
      ensures resultMap == if txid in old(resultMap) then old(resultMap) else old(resultMap)[txid := r]
      ensures nextId == if txid == INT64_MAX then -INT64_MAX - 1 else txid + 1
    {
      txid := GenerateId();
      if txid !in resultMap {
        resultMap := resultMap[txid := r];
      }
    }

    /**
     * Sends a quest; r is the result of a two-way quest, carried the number
     * the quest already has. Returns the result to be failed, if any.
     */
    method SendQuest(r: Option<nat>, carried: int) returns (failed: Option<nat>)
      requires Valid()
      modifies this`wq, this`log, this`nextId, this`resultMap
      ensures old(state) < ST_CLOSE || carried <= 0 || r == None ==> Valid()
      ensures r.Some? ==>
                var s := QuestSent(state, old(nextId), old(resultMap), carried, r.value);
                failed == s.failed && nextId == s.nextId && resultMap == s.resultMap &&
                log == old(log) + if state < ST_CLOSE then [Quest(s.txid)] else []
      ensures r == None ==> failed == None && resultMap == old(resultMap) &&
                            log == old(log) + if state < ST_CLOSED then [Quest(0)] else []
    {
      hide ByeIsLast, HasAnswer, RepliesOk;
      failed := None;
      var txid := 0;
      if r.Some? {
        if state >= ST_CLOSE {
          if carried > 0 {
            if carried in resultMap {
              failed := Some(resultMap[carried]);
            }
            resultMap := resultMap - {carried};
          } else {
            failed := r;
          }
          return;
        }
        txid := AddResult(r.value);
      }
      ByeStaysLast(log, Quest(txid));
      AnswersStay(log, Quest(txid));
      SendQmsg(Quest(txid));
    }

    /** Gives up the connection and hands over the results that still wait. */
    method Disconnect() returns (taken: map<int, nat>)
      requires Valid()
      modifies this`state, this`wq, this`resultMap
      ensures Valid() && taken == old(resultMap) && resultMap == map[] && wq == []
      ensures state == if old(state) < ST_CLOSED then ST_CLOSED else old(state)
    {
      hide ByeIsLast, HasAnswer, RepliesOk;
      if state < ST_CLOSED {
        state := ST_CLOSED;
      }
      wq := [];
      taken, resultMap := resultMap, map[];
    }

    /** What the sender fiber takes off the queue. */
    method TakeNext() returns (m: Msg)
      requires Valid() && wq != []
      modifies this`wq
      ensures Valid() && [m] + wq == old(wq)
    {
      m, wq := wq[0], wq[1..];
    }

    /** The bye comes after the answers to all quests ever accepted, and nothing is left open. */
    lemma ByeClosesTheBooks()
      requires Valid() && Bye in log
      ensures processing == 0 && resultMap == map[] && state >= ST_CLOSING
      ensures forall s :: 0 <= s < accepted ==> HasAnswer(log, s)
      ensures forall i, j :: 0 <= i < |log| && 0 <= j < |log| && log[i] == Bye && log[j].Answer? ==> j < i
    {
      OneByeOnly(log);
    }
  }
}
