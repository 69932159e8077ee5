/**
 * One quest and its servant (xic/EngineImp.cpp): whatever the servant does, a
 * two-way quest is answered once and a one-way quest never.
 */
module XicServant {
  import opened Prelude
  import opened XicConnection

  /** What a servant may do while it processes a quest; when it yields, other threads take their steps. */
  datatype Act = TakeWaiter | Respond | Yields(steps: seq<Other>)

  /** How it leaves its method. */
  datatype Returned = AnAnswer | Null | Async | Thrown

  /** The right to answer one quest later (WaiterImp). */
  class Waiter {
    const con: StConnection
    const serial: nat
    const txid: int
    var waiting: int

    /** The quest is unanswered exactly while one response is still awaited. */
    ghost predicate Valid()
      reads this, con
    {
      con.Valid() && serial < con.accepted && waiting <= 1 && (waiting == 1 <==> serial in con.owed)
    }

    constructor (con: StConnection, serial: nat, txid: int)
      requires con.Valid() && serial in con.owed
      ensures Valid() && waiting == 1 && this.con == con && this.serial == serial && this.txid == txid
    {
      this.con, this.serial, this.txid, waiting := con, serial, txid, 1;
    }

    /** The first response is sent, the others are ignored. */
    method Response()
      requires Valid()
      modifies this, con
      ensures Valid() && waiting == old(waiting) - 1
      ensures con.replied == old(con.replied) + if old(waiting) == 1 then [serial] else []
      ensures con.owed == old(con.owed) - {serial} && con.accepted == old(con.accepted)
    {
      waiting := waiting - 1;
      if waiting == 0 {
        con.ReplyAnswer(serial, txid);
      }
    }

    /** The last reference is dropped: a quest still unanswered gets an exception. */
    method Destroy()
      requires Valid()
      modifies this, con
      ensures Valid() && waiting <= 0
      ensures con.replied == old(con.replied) + if old(waiting) == 1 then [serial] else []
      ensures con.owed == old(con.owed) - {serial} && con.accepted == old(con.accepted)
    {
      if waiting > 0 {
        Response();
      }
    }
  }

  // ---------------------------------------- what else happens meanwhile

  /** A step of the connection that another thread takes while the servant of a quest yields. */
  datatype Other =
    | QuestComes(txid: int)
    | AnswerComes(txid: int)
    | HelloComes
    | ByeComes
    | Closes
    | Replies(serial: nat, txid: int)
    | Sends(result: Option<nat>, carried: int)
    | Writes
    | Fails
    | Disconnects

  /** The quests that the steps mean to answer. */
  function Named(steps: seq<Other>): set<nat> {
    set i | 0 <= i < |steps| && steps[i].Replies? :: steps[i].serial
  }

  /** What was replied to since: by others, and by the code in question. */
  ghost predicate Since(before: seq<nat>, now: seq<nat>, others: set<nat>, own: set<nat>) {
    forall s :: s in now <==> s in before || s in others || s in own
  }

  /** Only the holder of a quest answers it, and a resent quest goes to live connections only. */
  method OtherStep(con: StConnection, step: Other, mine: Option<nat>) returns (ghost others: set<nat>)
    requires con.Valid() && (mine.Some? ==> mine.value < con.accepted)
    modifies con
    ensures con.Valid() && con.accepted >= old(con.accepted)
    ensures others <= (if step.Replies? then {step.serial} else {}) && (mine.Some? ==> mine.value !in others)
    ensures Since(old(con.replied), con.replied, others, {})
    ensures mine.Some? ==> (mine.value in con.owed <==> mine.value in old(con.owed))
  {
    others := {};
    match step {
      case QuestComes(txid) => var _ := con.RecvQuest(txid);
      case AnswerComes(txid) => var _ := con.RecvAnswer(txid);
      case HelloComes => con.RecvHello();
      case ByeComes => con.RecvBye();
      case Closes => con.Grace();
      case Replies(serial, txid) =>
        if serial in con.owed && mine != Some(serial) {
          con.ReplyAnswer(serial, txid);
          others := {serial};
        }
      case Sends(result, carried) =>
        if con.state < ST_CLOSE || carried <= 0 {
          var _ := con.SendQuest(result, carried);
        }
      case Writes =>
        if con.wq != [] {
          var _ := con.TakeNext();
        }
      case Fails => con.SetException();
      case Disconnects => var _ := con.Disconnect();
    }
  }

  /** Other threads run until the servant goes on. */
  method Yield(con: StConnection, steps: seq<Other>, mine: Option<nat>) returns (ghost others: set<nat>)
    requires con.Valid() && (mine.Some? ==> mine.value < con.accepted)
    modifies con
    ensures con.Valid() && con.accepted >= old(con.accepted)
    ensures others <= Named(steps) && (mine.Some? ==> mine.value !in others)
    ensures Since(old(con.replied), con.replied, others, {})
    ensures mine.Some? ==> (mine.value in con.owed <==> mine.value in old(con.owed))
  {
    others := {};
    var i := 0;
    while i < |steps|
      invariant i <= |steps| && con.Valid() && con.accepted >= old(con.accepted)
      invariant others <= Named(steps) && (mine.Some? ==> mine.value !in others)
      invariant Since(old(con.replied), con.replied, others, {})
      invariant mine.Some? ==> (mine.value in con.owed <==> mine.value in old(con.owed))
    {
      ghost var more := OtherStep(con, steps[i], mine);
      others := others + more;
      i := i + 1;
    }
  }

  // ------------------------------------------------------------ one quest

  /** The quests that others mean to answer while the servant runs. */
  function NamedIn(acts: seq<Act>): set<nat> {
    set i, s | 0 <= i < |acts| && acts[i].Yields? && s in Named(acts[i].steps) :: s
  }

  function Mine(serial: nat, txid: int): Option<nat> {
    if txid == 0 then None else Some(serial)
  }

  /** The quest in hand is answered exactly if a waiter for it has been used. */
  ghost predicate InHand(con: StConnection, w: Waiter?, serial: nat, txid: int)
    reads con, w
  {
    && con.Valid()
    && (txid == 0 ==> w == null)
    && (txid != 0 ==> serial < con.accepted && (w == null ==> serial in con.owed))
    && (w != null ==> w.con == con && w.Valid() && w.serial == serial)
  }

  ghost function Own(w: Waiter?): set<nat>
    reads w
  {
    if w != null && w.waiting != 1 then {w.serial} else {}
  }

  /** Whether there is an answer to give after the servant has returned or thrown; without a waiter a two-way quest
      always gets one. */
  method Decide(found: bool, txid: int, waits: bool, returned: Returned) returns (answer: bool)
    ensures answer <==>
      if txid == 0 then found && returned == AnAnswer
      else !found || !waits || returned == AnAnswer || returned == Thrown
  {
    answer := found && returned == AnAnswer;
    var threw := !found || returned == Thrown;
    if !threw && txid != 0 {
      if returned == Null && !waits {
        threw := true;
      } else if returned == Async {
        answer := false;
        if !waits {
          threw := true;
        }
      }
    }
    if threw && txid != 0 && !answer {
      answer := true;
    }
  }

  /** The servant responds through the waiter it has taken before. */
  predicate Responds(acts: seq<Act>) {
    acts != [] && (Responds(acts[..|acts| - 1]) || (acts[|acts| - 1] == Respond && TakeWaiter in acts[..|acts| - 1]))
  }

  /** After some acts: whether there is a waiter, and whether it was used. */
  predicate Stage(txid: int, acts: seq<Act>, has: bool, used: bool) {
    (has <==> txid != 0 && TakeWaiter in acts) && (used <==> txid != 0 && Responds(acts))
  }

  lemma StageOn(txid: int, acts: seq<Act>, i: nat, has: bool, used: bool)
    requires i < |acts| && Stage(txid, acts[..i], has, used)
    ensures Stage(txid, acts[..i + 1], has || (acts[i] == TakeWaiter && txid != 0), used || (acts[i] == Respond && has))
  {
    assert acts[..i + 1] == acts[..i] + [acts[i]] && acts[..i + 1][..i] == acts[..i];
  }

  lemma StageFirst(txid: int, acts: seq<Act>)
    ensures Stage(txid, acts[..0], false, false)
  {
  }

  /**
   * handle_quest: found says whether there is a servant for the quest, acts
   * and returned what it does, with what others do whenever it yields. Its
   * waiter, if it took one, survives; otherwise the quest is answered.
   */
  method HandleQuest(con: StConnection, serial: nat, txid: int, found: bool, acts: seq<Act>, returned: Returned)
    returns (w: Waiter?, ghost others: set<nat>)
    requires con.Valid() && (txid != 0 ==> serial in con.owed)
    modifies con
    ensures con.Valid() && con.accepted >= old(con.accepted) && (w != null ==> fresh(w))
    ensures others <= NamedIn(acts) && (txid != 0 ==> serial !in others)
    ensures w != null ==> txid != 0 && w.Valid() && w.con == con && w.serial == serial
    ensures Since(old(con.replied), con.replied, others, if txid != 0 && w == null then {serial} else Own(w))
    ensures w != null <==> txid != 0 && found && TakeWaiter in acts
    ensures w != null ==> (w.waiting != 1 <==> Responds(acts) || returned == AnAnswer || returned == Thrown)
  {
    hide ByeIsLast, HasAnswer;
    w, others := null, {};
    if found {
      w, others := Process(con, serial, txid, acts);
    }
    var answer := Decide(found, txid, w != null, returned);
    if w != null {
      if answer {
        w.Response();
      }
      return;
    }
    if answer && txid != 0 {
      con.ReplyAnswer(serial, txid);
    }
  }

  /** The servant's own doings; asking for the waiter of a one-way quest only throws. */
  method Process(con: StConnection, serial: nat, txid: int, acts: seq<Act>) returns (w: Waiter?, ghost others: set<nat>)
    requires InHand(con, null, serial, txid)
    modifies con
    ensures con.accepted >= old(con.accepted) && (w != null ==> fresh(w))
    ensures InHand(con, w, serial, txid)
    ensures others <= NamedIn(acts) && (txid != 0 ==> serial !in others)
    ensures Since(old(con.replied), con.replied, others, Own(w))
    ensures Stage(txid, acts, w != null, w != null && w.waiting != 1)
  {
    hide ByeIsLast, HasAnswer, Stage;
    StageFirst(txid, acts);
    w, others := null, {};
    var i := 0;
    while i < |acts|
      invariant i <= |acts| && con.accepted >= old(con.accepted) && (w != null ==> fresh(w))
      invariant InHand(con, w, serial, txid)
      invariant others <= NamedIn(acts) && (txid != 0 ==> serial !in others)
      invariant Since(old(con.replied), con.replied, others, Own(w))
      invariant Stage(txid, acts[..i], w != null, w != null && w.waiting != 1)
    {
      StageOn(txid, acts, i, w != null, w != null && w.waiting != 1);
      match acts[i] {
        case TakeWaiter =>
          if w == null && txid != 0 {
            w := new Waiter(con, serial, txid);
          }
        case Respond =>
          if w != null {
            w.Response();
          }
        case Yields(steps) =>
          ghost var more := Yield(con, steps, Mine(serial, txid));
          others := others + more;
      }
      i := i + 1;
    }
    assert acts[..i] == acts;
  }

  /** The waiter lives on: it is used any number of times, others act in between, and it is dropped at last. */
  method AnswerLater(w: Waiter, later: seq<seq<Other>>) returns (ghost others: set<nat>)
    requires w.Valid()
    modifies w, w.con
    ensures w.con.Valid() && w.serial !in w.con.owed
    ensures others <= NamedLater(later) && w.serial !in others
    ensures Since(old(w.con.replied), w.con.replied, others, if old(w.waiting) == 1 then {w.serial} else {})
  {
    hide ByeIsLast, HasAnswer;
    others := {};
    var i := 0;
    while i < |later|
      invariant i <= |later| && w.Valid() && w.waiting <= old(w.waiting)
      invariant others <= NamedLater(later) && w.serial !in others
      invariant Since(old(w.con.replied), w.con.replied, others, if old(w.waiting) == 1 then Own(w) else {})
    {
      ghost var more := YieldAndRespond(w, later[i]);
      others := others + more;
      i := i + 1;
    }
    w.Destroy();
  }

  method YieldAndRespond(w: Waiter, steps: seq<Other>) returns (ghost others: set<nat>)
    requires w.Valid()
    modifies w, w.con
    ensures w.Valid() && w.waiting == old(w.waiting) - 1
    ensures others <= Named(steps) && w.serial !in others
    ensures Since(old(w.con.replied), w.con.replied, others, if old(w.waiting) == 1 then {w.serial} else {})
  {
    hide ByeIsLast, HasAnswer;
    others := Yield(w.con, steps, Some(w.serial));
    w.Response();
  }

  function NamedLater(later: seq<seq<Other>>): set<nat> {
    set i, s | 0 <= i < |later| && s in Named(later[i]) :: s
  }

  /**
   * The whole life of one quest, with what others do in between: received,
   * processed, answered later any number of times, and its waiter dropped at
   * last. Others apart, it has been replied to once, or never if it is one-way.
   */
  method Serve(con: StConnection, txid: int, found: bool, acts: seq<Act>, returned: Returned, later: seq<seq<Other>>)
    returns (ghost others: set<nat>)
    requires con.Valid() && ST_ACTIVE <= con.state < ST_CLOSE
    modifies con
    ensures con.Valid()
    ensures others <= NamedIn(acts) + NamedLater(later)
    ensures Since(old(con.replied), con.replied, others, if txid == 0 then {} else {old(con.accepted)})
    ensures txid != 0 ==> old(con.accepted) !in others && old(con.accepted) !in old(con.replied) && old(con.accepted) !in con.owed
  {
    hide ByeIsLast, HasAnswer;
    var serial := con.RecvQuest(txid);
    var w;
    w, others := HandleQuest(con, serial.value, txid, found, acts, returned);
    if w != null {
      ghost var more := AnswerLater(w, later);
      others := others + more;
    }
  }
}
