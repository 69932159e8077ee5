/** What dlogd's runs can reach: everything can always be delivered, and a small pool can run dry. */
module DlogProgress {
  import opened Prelude
  import opened Bytes
  import opened DlogRecord
  import opened DlogPack
  import opened DlogDelivery

  lemma Grow(e: Endian, pool: nat, run: seq<Event>, ev: Event)
    requires Outcome(e, pool, run).Some? && Possible(Outcome(e, pool, run).value, ev)
    ensures Outcome(e, pool, run + [ev]) == Some(Next(Outcome(e, pool, run).value, ev))
  {
    hide Possible, Next;
    assert (run + [ev])[..|run|] == run;
  }

  // ---- Delivering everything ----

  /** A link that has never failed: `done` blocks of the batch written, `took` of them logged and
      acknowledged, `got` acknowledgements read. */
  function Healthy(todo: seq<nat>, done: nat, took: nat, got: nat): Link
    requires got <= took <= done <= |todo|
  {
    Link(todo[took..done], took - got, 0, true, false, done, took, got)
  }

  lemma WriteAll(e: Endian, pool: nat, run: seq<Event>, links: seq<Link>, done: nat) returns (run': seq<Event>)
    requires Outcome(e, pool, run).Some?
    requires var w := Outcome(e, pool, run).value;
      && done <= |w.d.todo| && w.phase == Writing(done) && w.connected
      && w.links == links + [Healthy(w.d.todo, done, 0, 0)]
    ensures var w := Outcome(e, pool, run).value;
      Outcome(e, pool, run') == Some(w.(phase := Writing(|w.d.todo|), links := links + [Healthy(w.d.todo, |w.d.todo|, 0, 0)]))
    decreases |Outcome(e, pool, run).value.d.todo| - done
  {
    hide Outcome, DoLog, Take, Flush, Settle;
    var w := Outcome(e, pool, run).value;
    run' := run;
    if done < |w.d.todo| {
      Grow(e, pool, run, Write);
      assert w.d.todo[..done] + [w.d.todo[done]] == w.d.todo[..done + 1];
      var w' := Next(w, Write);
      assert w'.links == links + [Healthy(w.d.todo, done + 1, 0, 0)];
      run' := WriteAll(e, pool, run + [Write], links, done + 1);
    }
  }

  lemma ReceiveAll(e: Endian, pool: nat, run: seq<Event>, links: seq<Link>, took: nat) returns (run': seq<Event>)
    requires Outcome(e, pool, run).Some?
    requires var w := Outcome(e, pool, run).value;
      && took <= |w.d.todo| && w.links == links + [Healthy(w.d.todo, |w.d.todo|, took, 0)]
    ensures var w := Outcome(e, pool, run).value; var n := |w.d.todo|;
      Outcome(e, pool, run') == Some(w.(links := links + [Healthy(w.d.todo, n, n, 0)], logged := w.logged + w.d.todo[took..]))
    decreases |Outcome(e, pool, run).value.d.todo| - took
  {
    hide Outcome, DoLog, Take, Flush, Settle;
    var w := Outcome(e, pool, run).value;
    run' := run;
    var n := |w.d.todo|;
    if took < n {
      var ev := Receive(|links|, 1, false);
      var l := w.links[|links|];
      assert l.wire == w.d.todo[took..];
      Grow(e, pool, run, ev);
      var w' := Next(w, ev);
      assert Arrived(l, 1, false) == Healthy(w.d.todo, n, took + 1, 0);
      assert w'.links == links + [Healthy(w.d.todo, n, took + 1, 0)];
      assert (w.logged + [w.d.todo[took]]) + w.d.todo[took + 1..] == w.logged + w.d.todo[took..];
      run' := ReceiveAll(e, pool, run + [ev], links, took + 1);
    } else {
      assert w.logged + w.d.todo[took..] == w.logged;
    }
  }

  lemma ReadAll(e: Endian, pool: nat, run: seq<Event>, links: seq<Link>, got: nat) returns (run': seq<Event>)
    requires Outcome(e, pool, run).Some?
    requires var w := Outcome(e, pool, run).value; var n := |w.d.todo|;
      && got <= n && w.phase == Reading(got) && w.connected && w.links == links + [Healthy(w.d.todo, n, n, got)]
    ensures var w := Outcome(e, pool, run).value; var n := |w.d.todo|;
      Outcome(e, pool, run') == Some(w.(phase := Reading(n), links := links + [Healthy(w.d.todo, n, n, n)]))
    decreases |Outcome(e, pool, run).value.d.todo| - got
  {
    hide Outcome, DoLog, Take, Flush, Settle;
    var w := Outcome(e, pool, run).value;
    run' := run;
    if got < |w.d.todo| {
      Grow(e, pool, run, ReadAck);
      var n := |w.d.todo|;
      assert Next(w, ReadAck).links == links + [Healthy(w.d.todo, n, n, got + 1)];
      run' := ReadAll(e, pool, run + [ReadAck], links, got + 1);
    }
  }

  /** At rest with no socket. */
  predicate Idle(w: World) { w.phase.Resting? && !w.connected && w.d.todo == [] }

  /** How far the sender can be inside a batch. */
  lemma PhaseBounds(w: World)
    requires Good(w)
    ensures match w.phase
      case Resting => w.d.todo == []
      case Ready => w.d.todo == []
      case Writing(done) => done <= |w.d.todo|
      case Reading(got) => got <= |w.d.todo|
      case Settling(acked) => acked <= |w.d.todo| && acked <= w.d.acquired
  {
    hide Accounted, Filled, LinksOK, LoggedInOrder, ReleasedAreLogged, Ordered;
  }

  /** The step that takes the sender closer to rest whatever the network does. */
  function Retreat(w: World): Event {
    match w.phase
    case Resting => HangUp
    case Ready => if w.connected then TakeBatch else ConnectFails
    case Writing(done) => if done < |w.d.todo| then WriteFails else AllWritten
    case Reading(got) => if got < |w.d.todo| then ReadFails else AllAcked
    case Settling(_) => SettleBatch
  }

  function Distance(w: World): nat {
    match w.phase
    case Resting => if w.connected then 1 else 0
    case Settling(_) => 2
    case Reading(_) => 3
    case Writing(_) => 4
    case Ready => 5
  }

  function AcksSoFar(w: World): nat {
    match w.phase
    case Reading(got) => got
    case Settling(acked) => acked
    case _ => 0
  }

  /** Whatever the sender is doing, giving up the socket brings it to rest and loses no block. */
  lemma ComeToRest(e: Endian, pool: nat, run: seq<Event>) returns (run': seq<Event>)
    requires Outcome(e, pool, run).Some?
    ensures Outcome(e, pool, run').Some?
    ensures var w, w' := Outcome(e, pool, run).value, Outcome(e, pool, run').value;
      && Idle(w') && w'.logged == w.logged
      && w'.d.open == w.d.open && w'.d.bodies == w.d.bodies && w'.d.dropped == w.d.dropped
      && w'.d.acquired == w.d.acquired - AcksSoFar(w)
    decreases Distance(Outcome(e, pool, run).value)
  {
    hide Good, Outcome;
    RunsAreGood(e, pool, run);
    var w := Outcome(e, pool, run).value;
    PhaseBounds(w);
    run' := run;
    if Distance(w) > 0 {
      Grow(e, pool, run, Retreat(w));
      run' := ComeToRest(e, pool, run + [Retreat(w)]);
    }
  }

  lemma OpenBatch(e: Endian, pool: nat, run: seq<Event>) returns (run': seq<Event>)
    requires Outcome(e, pool, run).Some? && Idle(Outcome(e, pool, run).value) && Outcome(e, pool, run).value.d.q != []
    ensures var w := Outcome(e, pool, run).value;
      Outcome(e, pool, run') == Some(World(Take(w.d), Writing(0), w.links + [Healthy(Take(w.d).todo, 0, 0, 0)], true, w.logged))
  {
    var w := Outcome(e, pool, run).value;
    Grow(e, pool, run, Look);
    Grow(e, pool, run + [Look], Connect);
    Grow(e, pool, run + [Look] + [Connect], TakeBatch);
    run' := run + [Look] + [Connect] + [TakeBatch];
    assert Take(w.d).todo[0..0] == [];
  }

  lemma CloseBatch(e: Endian, pool: nat, run: seq<Event>) returns (run': seq<Event>)
    requires Outcome(e, pool, run).Some?
    requires var w := Outcome(e, pool, run).value; w.phase == Settling(|w.d.todo|) && w.connected
    ensures Outcome(e, pool, run').Some?
    ensures var w, w' := Outcome(e, pool, run).value, Outcome(e, pool, run').value;
      && Idle(w') && w'.logged == w.logged && w'.d.q == w.d.q
      && w'.d.open == w.d.open && w'.d.bodies == w.d.bodies && w'.d.dropped == w.d.dropped
  {
    hide Good, Outcome;
    RunsAreGood(e, pool, run);
    var w := Outcome(e, pool, run).value;
    PhaseBounds(w);
    Grow(e, pool, run, SettleBatch);
    Grow(e, pool, run + [SettleBatch], HangUp);
    run' := run + [SettleBatch] + [HangUp];
    assert w.d.todo[|w.d.todo|..] + w.d.q == w.d.q;
  }

  /** From rest: a batch over a new link that holds. */
  lemma ShipBatch(e: Endian, pool: nat, run: seq<Event>) returns (run': seq<Event>)
    requires Outcome(e, pool, run).Some? && Idle(Outcome(e, pool, run).value) && Outcome(e, pool, run).value.d.q != []
    ensures Outcome(e, pool, run').Some?
    ensures var w, w' := Outcome(e, pool, run).value, Outcome(e, pool, run').value;
      && Idle(w') && w'.logged == w.logged + w.d.q[..BatchLength(w.d.q)]
      && w'.d.open == w.d.open && w'.d.bodies == w.d.bodies && w'.d.dropped == w.d.dropped
      && w'.d.q == w.d.q[BatchLength(w.d.q)..]
  {
    hide Good, Outcome, Healthy;
    var w := Outcome(e, pool, run).value;
    run' := OpenBatch(e, pool, run);
    run' := WriteAll(e, pool, run', w.links, 0);
    Grow(e, pool, run', AllWritten);
    run' := ReceiveAll(e, pool, run' + [AllWritten], w.links, 0);
    run' := ReadAll(e, pool, run', w.links, 0);
    Grow(e, pool, run', AllAcked);
    var todo := Take(w.d).todo;
    assert w.logged + todo[0..] == w.logged + todo;
    run' := CloseBatch(e, pool, run' + [AllAcked]);
  }

  lemma ShipQueue(e: Endian, pool: nat, run: seq<Event>) returns (run': seq<Event>)
    requires Outcome(e, pool, run).Some? && Idle(Outcome(e, pool, run).value)
    ensures Outcome(e, pool, run').Some?
    ensures var w, w' := Outcome(e, pool, run).value, Outcome(e, pool, run').value;
      && Idle(w') && w'.logged == w.logged + w.d.q && w'.d.q == []
      && w'.d.open == w.d.open && w'.d.bodies == w.d.bodies && w'.d.dropped == w.d.dropped
    decreases |Outcome(e, pool, run).value.d.q|
  {
    hide Good, Outcome, Idle;
    var w := Outcome(e, pool, run).value;
    run' := run;
    if w.d.q != [] {
      run' := ShipBatch(e, pool, run);
      var n := BatchLength(w.d.q);
      assert (w.logged + w.d.q[..n]) + w.d.q[n..] == w.logged + w.d.q;
      run' := ShipQueue(e, pool, run');
    } else {
      assert w.logged + w.d.q == w.logged;
    }
  }

  /** A block is opened only to put a record into it. */
  lemma {:induction false} OpenBlockHasBytes(e: Endian, pool: nat, run: seq<Event>)
    requires Outcome(e, pool, run).Some?
    ensures var d := Outcome(e, pool, run).value.d;
      d.open.Some? ==> d.open.value < |d.bodies| && d.bodies[d.open.value] != []
  {
    hide Possible, Next;
    if run != [] {
      OpenBlockHasBytes(e, pool, run[..|run| - 1]);
      StepKeepsOpenBytes(Outcome(e, pool, run[..|run| - 1]).value, run[|run| - 1]);
    }
  }

  lemma StepKeepsOpenBytes(w: World, ev: Event)
    requires Possible(w, ev)
    requires w.d.open.Some? ==> w.d.open.value < |w.d.bodies| && w.d.bodies[w.d.open.value] != []
    ensures var d := Next(w, ev).d; d.open.Some? ==> d.open.value < |d.bodies| && d.bodies[d.open.value] != []
  {
    hide RecordBytes, Kept, BatchLength;
  }

  /** No run gets stuck: any run can go on to one where nothing is left at dlogd and nothing more
      has been given up, so that the center has every block that was not given up before. */
  lemma EverythingCanBeDelivered(e: Endian, pool: nat, run: seq<Event>) returns (run': seq<Event>)
    requires Outcome(e, pool, run).Some?
    ensures Outcome(e, pool, run').Some?
    ensures var w, w' := Outcome(e, pool, run).value, Outcome(e, pool, run').value;
      && Live(w'.d) == [] && w'.d.bodies == w.d.bodies && w'.d.dropped == w.d.dropped
      && forall x: nat :: x < |w'.d.bodies| ==> x in w'.logged || x in w.d.dropped
  {
    hide Good, Outcome;
    run' := ComeToRest(e, pool, run);
    run' := ShipQueue(e, pool, run');
    var w := Outcome(e, pool, run').value;
    if w.d.open.Some? {
      OpenBlockHasBytes(e, pool, run');
      Grow(e, pool, run', FlushOpen);
      run' := ShipQueue(e, pool, run' + [FlushOpen]);
    }
    NoBlockIsLost(e, pool, run');
  }

  // ---- A pool no larger than a batch ----

  /** A record of the largest size. */
  function Bulky(): (r: Record)
    ensures r.WellFormed() && r.Size() == RECORD_MAX
  {
    Record(VERSION, false, RAW, false, 5, 0, 0, 0, seq(RECORD_MAX - HEAD, _ => NUL))
  }

  function OpenBytes(d: Daemon): nat {
    if d.open.Some? && d.open.value < |d.bodies| then |d.bodies[d.open.value]| else BODY_MAX
  }

  /** Logging alone can make dlogd acquire any number of blocks the pool has. */
  lemma FillBlocks(e: Endian, pool: nat, run: seq<Event>, n: nat) returns (run': seq<Event>)
    requires Outcome(e, pool, run).Some?
    requires var w := Outcome(e, pool, run).value; Idle(w) && w.d.acquired <= n <= pool && (n > 0 ==> w.d.acquired < n || w.d.open.Some?)
    ensures Outcome(e, pool, run').Some?
    ensures var w' := Outcome(e, pool, run').value; Idle(w') && w'.d.acquired == n && (n > 0 ==> w'.d.open.Some?)
    decreases n - Outcome(e, pool, run).value.d.acquired, BODY_MAX + 1 - OpenBytes(Outcome(e, pool, run).value.d)
  {
    hide Outcome, RecordBytes, Good, Bulky;
    RunsAreGood(e, pool, run);
    PoolIsConstant(e, pool, run);
    var w := Outcome(e, pool, run).value;
    run' := run;
    if w.d.acquired < n {
      GoodSizes(w);
      Grow(e, pool, run, LogRecord(Bulky()));
      run' := FillBlocks(e, pool, run + [LogRecord(Bulky())], n);
    }
  }

  lemma GoodSizes(w: World)
    requires Good(w)
    ensures |w.d.given| == |w.d.bodies| && w.d.acquired == |w.d.todo| + |w.d.q| + |OpenList(w.d)|
    ensures w.d.open.Some? ==> w.d.open.value == |w.d.bodies| - 1 && OpenBytes(w.d) <= BODY_MAX
  {
  }

  /** A batch of any size up to the limit can come about: logging fills the blocks, and a break lets the open one,
      flushed meanwhile, queue up behind the others. */
  lemma BatchOf(e: Endian, pool: nat, n: nat) returns (run: seq<Event>)
    requires 1 <= n <= BATCH_SIZE + 1 && n <= pool
    ensures Outcome(e, pool, run).Some?
    ensures var w := Outcome(e, pool, run).value;
      && |w.d.todo| == w.d.acquired == n && w.d.q == [] && w.d.open == None && w.d.pool == pool
      && w.phase == Writing(0) && w.connected && w.links != []
      && w.links == w.links[..|w.links| - 1] + [Healthy(w.d.todo, 0, 0, 0)]
  {
    hide Good, Outcome, RecordBytes;
    assert Outcome(e, pool, []) == Some(Start(e, pool)) by { EmptyRun(e, pool); }
    run := FillBlocks(e, pool, [], n);
    PoolIsConstant(e, pool, run);
    RunsAreGood(e, pool, run);
    GoodSizes(Outcome(e, pool, run).value);
    if n > 1 { run := OpenBatch(e, pool, run); }
    OpenBlockHasBytes(e, pool, run);
    Grow(e, pool, run, FlushOpen);
    run := ComeToRest(e, pool, run + [FlushOpen]);
    PoolIsConstant(e, pool, run);
    RunsAreGood(e, pool, run);
    GoodSizes(Outcome(e, pool, run).value);
    run := OpenBatch(e, pool, run);
    PoolIsConstant(e, pool, run);
  }

  /** With a pool of 1 to 129 blocks some run leaves no block to give up for the next record: all of
      them are in a batch, which with two blocks or more was taken again after a break. */
  lemma SmallPoolCanRunDry(e: Endian, pool: nat) returns (run: seq<Event>)
    requires 1 <= pool <= BATCH_SIZE + 1
    ensures Outcome(e, pool, run).Some?
    ensures forall r: Record :: NoVictim(Outcome(e, pool, run).value.d, r)
  {
    hide Outcome;
    run := BatchOf(e, pool, pool);
  }

  // ---- Where the acknowledgements are read to ----

  /** The sender reads one byte for every block of its batch into an array of BATCH_SIZE bytes. */
  predicate AcksFit(w: World) {
    w.phase.Reading? ==> |w.d.todo| <= BATCH_SIZE
  }

  /** With a larger pool some run gets to read the acknowledgements of a batch that is one block too long. */
  lemma LongBatchIsRead(e: Endian, pool: nat) returns (run: seq<Event>)
    requires pool > BATCH_SIZE
    ensures Outcome(e, pool, run).Some?
    ensures var w := Outcome(e, pool, run).value; w.connected && w.phase == Reading(0) && |w.d.todo| == BATCH_SIZE + 1
  {
    hide Outcome, Healthy;
    run := BatchOf(e, pool, BATCH_SIZE + 1);
    var w := Outcome(e, pool, run).value;
    run := WriteAll(e, pool, run, w.links[..|w.links| - 1], 0);
    Grow(e, pool, run, AllWritten);
    run := run + [AllWritten];
  }

  lemma BatchIsInPool(w: World)
    requires Good(w)
    ensures |w.d.todo| <= w.d.pool
  {
  }

  /** Exactly when the acknowledgements always fit: the pool is no larger than a batch is meant to be. */
  lemma AcksFitExactly(e: Endian, pool: nat)
    ensures pool <= BATCH_SIZE <==>
      forall run: seq<Event> :: Outcome(e, pool, run).Some? ==> AcksFit(Outcome(e, pool, run).value)
  {
    hide Good, Outcome;
    if pool <= BATCH_SIZE {
      forall run: seq<Event> | Outcome(e, pool, run).Some?
        ensures AcksFit(Outcome(e, pool, run).value)
      {
        RunsAreGood(e, pool, run);
        PoolIsConstant(e, pool, run);
        BatchIsInPool(Outcome(e, pool, run).value);
      }
    } else {
      var run := LongBatchIsRead(e, pool);
      assert !AcksFit(Outcome(e, pool, run).value);
    }
  }

  lemma EmptyRun(e: Endian, pool: nat)
    ensures Outcome(e, pool, []) == Some(Start(e, pool))
  {
  }

  /** Exactly when the log thread can always place a record: the pool is larger than a batch. */
  lemma RoomForEveryRecord(e: Endian, pool: nat)
    requires pool >= 1
    ensures pool > BATCH_SIZE + 1 <==>
      forall run: seq<Event>, r: Record :: Outcome(e, pool, run).Some? && r.WellFormed() ==> !NoVictim(Outcome(e, pool, run).value.d, r)
  {
    hide Good, Outcome, NoVictim;
    if pool > BATCH_SIZE + 1 {
      forall run: seq<Event>, r: Record | Outcome(e, pool, run).Some? && r.WellFormed()
        ensures !NoVictim(Outcome(e, pool, run).value.d, r)
      {
        LargePoolAlwaysHasRoom(e, pool, run, r);
      }
    } else {
      var run := SmallPoolCanRunDry(e, pool);
      assert NoVictim(Outcome(e, pool, run).value.d, Bulky());
    }
  }
}