/** The log thread and the sender thread of dlogd, and the center's acknowledgement counter, as they change their state. */
module DlogDaemon {
  import opened Prelude
  import opened Bytes
  import opened DlogRecord
  import opened DlogPack
  import opened DlogDelivery

  class Dlogd {
    const e: Endian
    const pool: nat
    var bodies: seq<seq<byte>>       // the packets' contents, by the order their blocks were opened
    var open: Option<nat>            // _b
    var queue: seq<nat>              // _q
    var todo: seq<nat>               // the sender's batch
    var numAcquire: nat              // _bpl.num_acquire
    ghost var given: seq<seq<Record>>
    ghost var released: set<nat>
    ghost var dropped: set<nat>

    ghost function Model(): Daemon
      reads this
    {
      Daemon(e, pool, bodies, given, open, queue, todo, numAcquire, released, dropped)
    }

    constructor (e: Endian, pool: nat)
      ensures Model() == Fresh(e, pool)
    {
      this.e, this.pool := e, pool;
      bodies, open, queue, todo, numAcquire := [], None, [], [], 0;
      given, released, dropped := [], {}, {};
    }

    /** A block for the next record: queue the open one, then acquire a block or give up the oldest. */
    method NextBlock()
      requires numAcquire < pool || queue + OpenList(Model()) != []
      modifies this
      ensures Model() == Rotate(old(Model()))
    {
      if open.Some? {
        queue := queue + [open.value];
      }
      if numAcquire < pool {
        numAcquire := numAcquire + 1;
      } else {
        dropped := dropped + {queue[0]};
        queue := queue[1..];
      }
      open := Some(|bodies|);
      bodies := bodies + [[]];
      given := given + [[]];
    }

    /** The head of a record, and its text with newlines rewritten. */
    method CopyOf(r: Record) returns (bytes: seq<byte>)
      requires r.WellFormed()
      ensures bytes == RecordBytes(e, Kept(r))
    {
      var text := new byte[|r.str|];
      CopyAndReplace(text, r.str);
      HeadIgnoresText(e, r);
      bytes := HeadBytes(e, r) + text[..];
    }

    /** do_log, with no plugin loaded. */
    method DoLog(r: Record)
      requires r.WellFormed() && !NoVictim(Model(), r) && |given| == |bodies|
      modifies this
      ensures Model() == DlogDelivery.DoLog(old(Model()), r)
      ensures var fits := old(open.Some? && open.value < |bodies| && 32 + |bodies[open.value]| + r.Size() <= 65280);
        && |bodies| == old(|bodies|) + (if fits then 0 else 1)
        && (fits ==> open == old(open) && queue == old(queue) && numAcquire == old(numAcquire))
    {
      if open.None? || open.value >= |bodies| || PACKET_HEAD + |bodies[open.value]| + r.Size() > PACKET_MAX {
        NextBlock();
      }
      var b := open.value;
      var bytes := CopyOf(r);
      bodies := bodies[b := bodies[b] + bytes];
      given := given[b := given[b] + [r]];
    }

    /** The flush step of log_thread. */
    method FlushStep() returns (flushed: bool)
      requires open.Some? ==> open.value < |bodies|
      modifies this
      ensures flushed == CanFlush(old(Model()))
      ensures Model() == if flushed then Flush(old(Model())) else old(Model())
    {
      flushed := open.Some? && bodies[open.value] != [] && queue == [];
      if flushed {
        queue := queue + [open.value];
        open := None;
      }
    }

    /** The sender fills its batch from the front of the queue. */
    method TakeBatch()
      requires todo == []
      modifies this
      ensures Model() == Take(old(Model()))
    {
      var numTodo := 0;
      ghost var q := queue;
      while queue != []
        invariant numTodo <= BATCH_SIZE && numTodo <= |q|
        invariant todo == q[..numTodo] && queue == q[numTodo..]
        invariant Model() == old(Model()).(todo := todo, q := queue)
        decreases |queue|
      {
        todo, queue := todo + [queue[0]], queue[1..];
        numTodo := numTodo + 1;
        assert todo == q[..numTodo];
        if numTodo > BATCH_SIZE {
          return;
        }
      }
    }

    /** Acknowledged blocks go back to the pool, from the front of the batch. */
    method ReleaseAcked(acked: nat)
      requires acked <= |todo| && acked <= numAcquire
      modifies this
      ensures Model() == old(Model()).(todo := old(todo)[acked..], acquired := old(numAcquire) - acked,
        released := old(released) + set i | 0 <= i < acked :: old(todo)[i])
    {
      ghost var batch := todo;
      ghost var done := 0;
      var numAck := acked;
      while todo != [] && numAck > 0
        invariant 0 <= numAck <= acked && done == acked - numAck && numAck <= |todo|
        invariant todo == batch[done..] && numAcquire == old(numAcquire) - done
        invariant released == old(released) + set i | 0 <= i < done :: batch[i]
        invariant Model() == old(Model()).(todo := todo, acquired := numAcquire, released := released)
        decreases numAck
      {
        released := released + {todo[0]};
        todo := todo[1..];
        numAcquire := numAcquire - 1;
        numAck := numAck - 1;
        done := done + 1;
      }
    }

    /** The other blocks go back to the front of the queue, from the end of the batch. */
    method Requeue()
      modifies this
      ensures Model() == old(Model()).(todo := [], q := old(todo) + old(queue))
    {
      ghost var batch, q := todo, queue;
      while todo != []
        invariant todo <= batch && queue == batch[|todo|..] + q
        invariant Model() == old(Model()).(todo := todo, q := queue)
        decreases |todo|
      {
        var last := todo[|todo| - 1];
        todo := todo[..|todo| - 1];
        queue := [last] + queue;
        assert batch[|todo|..] == [last] + batch[|todo| + 1..];
      }
    }

    /** The sender settles its batch. */
    method SettleBatch(acked: nat)
      requires acked <= |todo| && acked <= numAcquire
      modifies this
      ensures Model() == Settle(old(Model()), acked)
    {
      ReleaseAcked(acked);
      Requeue();
    }
  }

  /** The head of a record does not depend on its text beyond its length. */
  lemma HeadIgnoresText(e: Endian, r: Record)
    requires r.InRange()
    ensures HeadBytes(e, Kept(r)) == HeadBytes(e, r)
  {
  }

  /** The center's end of a connection. `room` says how many bytes each write takes; a negative
      number is an error, zero a full socket. */
  class Worker {
    var ackNum: nat      // _ack_num
    ghost var written: nat

    constructor ()
      ensures ackNum == 0 && written == 0
    {
      ackNum, written := 0, 0;
    }

    /** Worker::do_write; rc < 0 exactly when a write fails with acknowledgements still due. */
    method DoWrite(room: seq<int>) returns (rc: int)
      modifies this
      ensures written + ackNum == old(written + ackNum) && written >= old(written)
      ensures DoWriteMay(old(ackNum), written - old(written), rc < 0)
      ensures rc >= 0 && ackNum > 0 ==> 0 in room || written - old(written) >= |room|
    {
      var k := 0;
      while ackNum > 0
        invariant written + ackNum == old(written + ackNum) && written >= old(written) + k
        decreases ackNum
      {
        var n := if ackNum < 1024 then ackNum else 1024;
        rc := if k < |room| then room[k] else 0;
        rc := if rc > n then n else rc;
        k := k + 1;
        if rc <= 0 {
          return;
        }
        ackNum := ackNum - rc;
        written := written + rc;
      }
      rc := 0;
    }

    /** Worker::send_ack, after a whole block was read. */
    method SendAck(room: seq<int>) returns (rc: int)
      modifies this
      ensures written + ackNum == old(written + ackNum) + 1 && written >= old(written)
      ensures DoWriteMay(old(ackNum) + 1, written - old(written), rc < 0)
    {
      ackNum := ackNum + 1;
      rc := DoWrite(room);
    }
  }
}