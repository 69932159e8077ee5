/** Which block a record goes into: when the log thread goes on with the open block, and when it takes another. */
module DlogBlocks {
  import opened Prelude
  import opened Bytes
  import opened DlogRecord
  import opened DlogPack
  import opened DlogDelivery

  // ---- One record ----

  /** Whether a block is open that has room for the record: packets are of at most 65280 bytes, 32 of them head. */
  ghost predicate HasRoom(d: Daemon, r: Record)
    requires InOrder(d)
  {
    d.open.Some? && 32 + |d.bodies[d.open.value]| + r.Size() <= 65280
  }

  /** A record that fits goes behind those in the open block, and nothing else changes. */
  lemma RecordThatFits(d: Daemon, r: Record)
    requires InOrder(d) && r.WellFormed() && HasRoom(d, r)
    ensures !NoVictim(d, r)
    ensures var b := d.open.value;
      DoLog(d, r) == d.(bodies := d.bodies[b := d.bodies[b] + RecordBytes(d.e, Kept(r))],
                        given := d.given[b := d.given[b] + [r]])
  {
  }

  /** Any other record gets a block of its own, the open one being queued. A block is given up for it
      exactly if the pool is exhausted, and then it is the oldest in the queue. */
  lemma RecordThatDoesNotFit(d: Daemon, r: Record)
    requires InOrder(d) && r.WellFormed() && !HasRoom(d, r)
    ensures !NoVictim(d, r) <==> d.acquired < d.pool || d.open.Some? || d.q != []
    ensures !NoVictim(d, r) ==>
      var n, queue := DoLog(d, r), if d.open.Some? then d.q + [d.open.value] else d.q;
      && n.bodies == d.bodies + [RecordBytes(d.e, Kept(r))] && n.given == d.given + [[r]]
      && n.open == Some(|d.bodies|) && n.todo == d.todo && n.released == d.released
      && (d.acquired < d.pool ==> n.q == queue && n.acquired == d.acquired + 1 && n.dropped == d.dropped)
      && (d.acquired == d.pool ==> queue != [] && n.q == queue[1..] && n.acquired == d.pool && n.dropped == d.dropped + {queue[0]})
  {
    hide RecordBytes, Ordered;
    assert [] + RecordBytes(d.e, Kept(r)) == RecordBytes(d.e, Kept(r));
    assert [] + [r] == [r];
  }

  // ---- Every run ----

  /** How many records had been logged at each flush of the run. */
  function FlushPoints(run: seq<Event>): set<nat> {
    if run == [] then {}
    else FlushPoints(run[..|run| - 1]) + if run[|run| - 1].FlushOpen? then {|RecordsOf(run)|} else {}
  }

  /** The number of the first record of block b, counting all records logged. */
  function FirstOf(given: seq<seq<Record>>, b: nat): nat
    requires b <= |given|
  {
    |Flatten(given[..b])|
  }

  function SizeOf(rs: seq<Record>): nat {
    if rs == [] then 0 else SizeOf(rs[..|rs| - 1]) + rs[|rs| - 1].Size()
  }

  /** A block holds a record, and was begun because of a flush or because that record did not fit into the block before it. */
  ghost predicate Begun(given: seq<seq<Record>>, flushes: set<nat>, b: nat)
    requires b < |given|
  {
    && given[b] != []
    && (b > 0 ==> FirstOf(given, b) in flushes || 32 + SizeOf(given[b - 1]) + given[b][0].Size() > 65280)
  }

  /** No flush fell between the records of a block, numbered from `first`, and each fitted behind those before it. */
  ghost predicate GoneOn(rs: seq<Record>, flushes: set<nat>, first: nat) {
    forall k :: 0 < k < |rs| ==> Fitted(rs, flushes, first, k)
  }

  predicate Fitted(rs: seq<Record>, flushes: set<nat>, first: nat, k: nat)
    requires k < |rs|
  {
    first + k !in flushes && 32 + SizeOf(rs[..k]) + rs[k].Size() <= 65280
  }

  ghost predicate Greedy(given: seq<seq<Record>>, flushes: set<nat>) {
    forall b :: 0 <= b < |given| ==> Begun(given, flushes, b) && GoneOn(given[b], flushes, FirstOf(given, b))
  }

  /** A block is open unless nothing was logged since the last flush. */
  ghost predicate OpenSince(d: Daemon, flushes: set<nat>) {
    && (d.open.None? <==> d.given == [] || |Flatten(d.given)| in flushes)
    && (forall n :: n in flushes ==> n <= |Flatten(d.given)|)
  }

  lemma FlattenLast(given: seq<seq<Record>>, last: seq<Record>)
    ensures Flatten(given + [last]) == Flatten(given) + last
  {
    assert (given + [last])[..|given|] == given;
  }

  lemma {:induction false} PackedSize(e: Endian, rs: seq<Record>)
    requires forall i :: 0 <= i < |rs| ==> rs[i].WellFormed()
    ensures |Packed(e, rs)| == SizeOf(rs)
  {
    if rs != [] {
      var last := |rs| - 1;
      PackedSize(e, rs[..last]);
      PackedAppends(e, rs[..last], rs[last]);
      assert rs == rs[..last] + [rs[last]];
    }
  }

  lemma SameFront(given: seq<seq<Record>>, given': seq<seq<Record>>, flushes: set<nat>, b: nat)
    requires b < |given| && b < |given'| && given'[..b + 1] == given[..b + 1] && Begun(given, flushes, b)
    ensures Begun(given', flushes, b) && FirstOf(given', b) == FirstOf(given, b) && given'[b] == given[b]
  {
    assert given'[..b] == given'[..b + 1][..b] == given[..b + 1][..b] == given[..b];
    assert given'[b] == given'[..b + 1][b] == given[..b + 1][b] == given[b];
    if b > 0 { assert given'[b - 1] == given'[..b + 1][b - 1] == given[..b + 1][b - 1] == given[b - 1]; }
  }

  lemma GoOn(rs: seq<Record>, r: Record, flushes: set<nat>, first: nat)
    requires GoneOn(rs, flushes, first) && rs != []
    requires first + |rs| !in flushes && 32 + SizeOf(rs) + r.Size() <= 65280
    ensures GoneOn(rs + [r], flushes, first)
  {
    hide SizeOf;
    forall k | 0 < k < |rs + [r]|
      ensures Fitted(rs + [r], flushes, first, k)
    {
      if k < |rs| {
        assert (rs + [r])[..k] == rs[..k] && (rs + [r])[k] == rs[k];
        assert Fitted(rs, flushes, first, k);
      } else {
        assert (rs + [r])[..k] == rs && (rs + [r])[k] == r;
      }
    }
  }

  /** The last block is gone on with. */
  lemma AddToLast(front: seq<seq<Record>>, last: seq<Record>, r: Record, flushes: set<nat>)
    requires last != [] && Greedy(front + [last], flushes)
    requires |Flatten(front + [last])| !in flushes && 32 + SizeOf(last) + r.Size() <= 65280
    ensures Greedy(front + [last + [r]], flushes)
  {
    var given, given', n := front + [last], front + [last + [r]], |front|;
    FlattenLast(front, last);
    hide SizeOf, GoneOn, Flatten;
    assert given[..n] == front == given'[..n];
    forall b | 0 <= b < n ensures Begun(given', flushes, b) && GoneOn(given'[b], flushes, FirstOf(given', b)) {
      assert given'[..b + 1] == front[..b + 1] == given[..b + 1];
      SameFront(given, given', flushes, b);
    }
    assert Begun(given', flushes, n) by {
      assert Begun(given, flushes, n);
      if n > 0 { assert given[n - 1] == given'[n - 1]; }
    }
    assert given[n] == last && given'[n] == last + [r];
    GoOn(last, r, flushes, FirstOf(given, n));
  }

  /** A block is begun. */
  lemma AddBlock(given: seq<seq<Record>>, r: Record, flushes: set<nat>)
    requires Greedy(given, flushes)
    requires given != [] ==> |Flatten(given)| in flushes || 32 + SizeOf(given[|given| - 1]) + r.Size() > 65280
    ensures Greedy(given + [[r]], flushes)
  {
    var given' := given + [[r]];
    forall b | 0 <= b < |given| ensures Begun(given', flushes, b) && GoneOn(given'[b], flushes, FirstOf(given', b)) {
      assert given'[..b + 1] == given[..b + 1];
      SameFront(given, given', flushes, b);
    }
    assert given'[..|given|] == given;
  }

  lemma OpenIsLast(d: Daemon)
    requires InOrder(d) && Filled(d) && d.open.Some?
    ensures d.given != [] && d.open.value == |d.given| - 1 && |d.bodies[d.open.value]| == SizeOf(d.given[d.open.value])
  {
    hide Packed, SizeOf, Ordered;
    PackedSize(d.e, d.given[d.open.value]);
  }

  /** What logging a record does to the lists of records, by whether it fits. */
  lemma LogShape(d: Daemon, r: Record)
    requires InOrder(d) && Filled(d) && r.WellFormed() && !NoVictim(d, r)
    ensures d.open.Some? ==> d.given != []
    ensures
      var n, fits := DoLog(d, r), d.open.Some? && 32 + SizeOf(d.given[|d.given| - 1]) + r.Size() <= 65280;
      && n.open.Some?
      && n.given == if fits then d.given[..|d.given| - 1] + [d.given[|d.given| - 1] + [r]] else d.given + [[r]]
  {
    if d.open.Some? { OpenIsLast(d); }
    hide Packed, SizeOf, DoLog, NoVictim, RecordBytes, Kept, InOrder, Filled, Live;
    if HasRoom(d, r) { RecordThatFits(d, r); } else { RecordThatDoesNotFit(d, r); }
  }

  lemma FitsIsGreedy(given: seq<seq<Record>>, r: Record, flushes: set<nat>)
    requires given != [] && 32 + SizeOf(given[|given| - 1]) + r.Size() <= 65280
    requires Greedy(given, flushes) && |Flatten(given)| !in flushes
    ensures var after := given[..|given| - 1] + [given[|given| - 1] + [r]];
      Greedy(after, flushes) && |Flatten(after)| == |Flatten(given)| + 1
  {
    hide SizeOf, Flatten;
    var last := |given| - 1;
    var front := given[..last];
    assert Begun(given, flushes, last);
    hide Greedy;
    assert given == front + [given[last]];
    FlattenLast(front, given[last]);
    FlattenLast(front, given[last] + [r]);
    AddToLast(front, given[last], r, flushes);
  }

  lemma NotFlushedLater(rs: seq<Record>, flushes: set<nat>, first: nat, now: nat)
    requires GoneOn(rs, flushes, first) && first + |rs| <= now
    ensures GoneOn(rs, flushes + {now}, first)
  {
    hide SizeOf;
    forall k | 0 < k < |rs|
      ensures Fitted(rs, flushes + {now}, first, k)
    {
      assert Fitted(rs, flushes, first, k);
    }
  }

  lemma FlushIsGreedy(d: Daemon, flushes: set<nat>)
    requires CanFlush(d) && Greedy(d.given, flushes) && OpenSince(d, flushes)
    ensures var after := flushes + {|Flatten(d.given)|}; Greedy(Flush(d).given, after) && OpenSince(Flush(d), after)
  {
    var after := flushes + {|Flatten(d.given)|};
    hide GoneOn, SizeOf, Flatten;
    forall b | 0 <= b < |d.given| ensures Begun(d.given, after, b) && GoneOn(d.given[b], after, FirstOf(d.given, b)) {
      assert Begun(d.given, flushes, b) && GoneOn(d.given[b], flushes, FirstOf(d.given, b));
      BlockEnds(d.given, b);
      NotFlushedLater(d.given[b], flushes, FirstOf(d.given, b), |Flatten(d.given)|);
    }
  }

  lemma {:induction false} BlockEnds(given: seq<seq<Record>>, b: nat)
    requires b < |given|
    ensures FirstOf(given, b) + |given[b]| <= |Flatten(given)|
  {
    var last := |given| - 1;
    if b < last {
      BlockEnds(given[..last], b);
      assert given[..last][..b] == given[..b];
    }
  }

  lemma OtherStepsKeepBlocks(w: World, ev: Event)
    requires Possible(w, ev) && !ev.LogRecord? && !ev.FlushOpen?
    ensures var n := Next(w, ev).d; n.given == w.d.given && n.open == w.d.open
  {
  }

  lemma LogIsGreedy(d: Daemon, n: Daemon, r: Record, flushes: set<nat>)
    requires Greedy(d.given, flushes) && OpenSince(d, flushes) && n.open.Some? && (d.open.Some? ==> d.given != [])
    requires var fits := d.open.Some? && 32 + SizeOf(d.given[|d.given| - 1]) + r.Size() <= 65280;
      n.given == if fits then d.given[..|d.given| - 1] + [d.given[|d.given| - 1] + [r]] else d.given + [[r]]
    ensures Greedy(n.given, flushes) && OpenSince(n, flushes)
  {
    hide Greedy, SizeOf, Flatten;
    if d.open.Some? && 32 + SizeOf(d.given[|d.given| - 1]) + r.Size() <= 65280 {
      FitsIsGreedy(d.given, r, flushes);
    } else {
      FlattenLast(d.given, [r]);
      AddBlock(d.given, r, flushes);
    }
  }

  lemma StepIsGreedy(w: World, ev: Event, flushes: set<nat>)
    requires Good(w) && Possible(w, ev) && Greedy(w.d.given, flushes) && OpenSince(w.d, flushes)
    ensures var after := if ev.FlushOpen? then flushes + {|Flatten(w.d.given)|} else flushes;
      Greedy(Next(w, ev).d.given, after) && OpenSince(Next(w, ev).d, after)
  {
    hide Accounted, LinksOK, LoggedInOrder, ReleasedAreLogged, BatchOK, DoLog, Flush, Flatten, Filled, Greedy, InOrder, NoVictim;
    if ev.LogRecord? {
      LogShape(w.d, ev.r);
      LogIsGreedy(w.d, Next(w, ev).d, ev.r, flushes);
    } else if ev.FlushOpen? {
      FlushIsGreedy(w.d, flushes);
    } else {
      OtherStepsKeepBlocks(w, ev);
    }
  }

  /** In every run, from the records and flushes alone: a record begins a new block exactly if it is
      the first of all, or the log thread flushed since the last one, or it does not fit behind it. */
  lemma {:induction false} BlocksAreGreedy(e: Endian, pool: nat, run: seq<Event>)
    requires Outcome(e, pool, run).Some?
    ensures Greedy(Outcome(e, pool, run).value.d.given, FlushPoints(run))
    ensures OpenSince(Outcome(e, pool, run).value.d, FlushPoints(run))
  {
    if run != [] {
      hide Good, Possible, Next, Greedy, OpenSince;
      var shorter, ev := run[..|run| - 1], run[|run| - 1];
      BlocksAreGreedy(e, pool, shorter);
      RunsAreGood(e, pool, shorter);
      RecordsAreKeptInOrder(e, pool, shorter);
      StepIsGreedy(Outcome(e, pool, shorter).value, ev, FlushPoints(shorter));
      if ev.FlushOpen? {
        assert RecordsOf(run) == RecordsOf(shorter);
      } else {
        assert FlushPoints(run) == FlushPoints(shorter);
      }
    }
  }
}
