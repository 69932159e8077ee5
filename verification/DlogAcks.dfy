/** What becomes of acknowledgements: each that is read releases one block, even if the link breaks right after it. */
module DlogAcks {
  import opened Prelude
  import opened Bytes
  import opened DlogRecord
  import opened DlogPack
  import opened DlogDelivery

  /** The acknowledgements read on all links. */
  function ReadOn(links: seq<Link>): nat {
    if links == [] then 0 else ReadOn(links[..|links| - 1]) + links[|links| - 1].read
  }

  /** The blocks of the batch that are acknowledged and not yet released. */
  function Unsettled(phase: Phase): nat {
    match phase
    case Reading(got) => got
    case Settling(acked) => acked
    case _ => 0
  }

  lemma ReadOnMore(links: seq<Link>, l: Link)
    ensures ReadOn(links + [l]) == ReadOn(links) + l.read
  {
    assert (links + [l])[..|links|] == links;
  }

  lemma {:induction false} ReadOnOther(links: seq<Link>, i: nat, l: Link)
    requires i < |links|
    ensures ReadOn(links[i := l]) == ReadOn(links) - links[i].read + l.read
  {
    var last := |links| - 1;
    if i < last {
      ReadOnOther(links[..last], i, l);
      assert links[i := l][..last] == links[..last][i := l];
    } else {
      assert links[i := l][..last] == links[..last];
    }
  }

  function Firsts(todo: seq<nat>, k: nat): set<nat>
    requires k <= |todo|
  {
    set i | 0 <= i < k :: todo[i]
  }

  lemma FirstsOneMore(todo: seq<nat>, k: nat)
    requires k < |todo|
    ensures Firsts(todo, k + 1) == Firsts(todo, k) + {todo[k]}
  {
  }

  lemma NoneFirst(todo: seq<nat>, k: nat)
    requires k == 0
    ensures Firsts(todo, k) == {}
  {
  }

  lemma NotAmongFirst(todo: seq<nat>, k: nat)
    requires k < |todo| && forall i, j :: 0 <= i < j < |todo| ==> todo[i] != todo[j]
    ensures todo[k] !in Firsts(todo, k)
  {
  }

  lemma OneMoreElement(s: set<nat>, x: nat)
    requires x !in s
    ensures |s + {x}| == |s| + 1
  {
  }

  lemma {:induction false} ReleasedGrow(released: set<nat>, todo: seq<nat>, k: nat)
    requires k <= |todo| && forall i, j :: 0 <= i < j < |todo| ==> todo[i] != todo[j]
    requires forall i :: 0 <= i < |todo| ==> todo[i] !in released
    ensures |released + Firsts(todo, k)| == |released| + k
  {
    hide Firsts;
    if k > 0 {
      var before, x := released + Firsts(todo, k - 1), todo[k - 1];
      ReleasedGrow(released, todo, k - 1);
      FirstsOneMore(todo, k - 1);
      NotAmongFirst(todo, k - 1);
      assert released + Firsts(todo, k) == before + {x};
      OneMoreElement(before, x);
    } else {
      NoneFirst(todo, k);
      assert released + Firsts(todo, k) == released;
    }
  }

  lemma BatchIsLive(d: Daemon)
    requires InOrder(d) && Accounted(d)
    ensures forall i, j :: 0 <= i < j < |d.todo| ==> d.todo[i] != d.todo[j]
    ensures forall i :: 0 <= i < |d.todo| ==> d.todo[i] !in d.released
  {
    forall i | 0 <= i < |d.todo|
      ensures Live(d)[i] == d.todo[i]
    {
    }
    forall i | 0 <= i < |d.todo|
      ensures d.todo[i] !in d.released
    {
      assert Live(d)[i] in Live(d);
    }
  }

  lemma SettleUses(w: World)
    requires InOrder(w.d) && Accounted(w.d) && Possible(w, SettleBatch)
    ensures var w' := Next(w, SettleBatch);
      |w'.d.released| == |w.d.released| + w.phase.acked && w'.links == w.links && w'.phase == Resting
  {
    BatchIsLive(w.d);
    assert Next(w, SettleBatch).d.released == w.d.released + Firsts(w.d.todo, w.phase.acked);
    ReleasedGrow(w.d.released, w.d.todo, w.phase.acked);
  }

  lemma StepUses(w: World, ev: Event)
    requires Good(w) && Possible(w, ev) && |w.d.released| + Unsettled(w.phase) == ReadOn(w.links)
    ensures |Next(w, ev).d.released| + Unsettled(Next(w, ev).phase) == ReadOn(Next(w, ev).links)
  {
    hide LinksOK, LoggedInOrder, ReleasedAreLogged, BatchOK, Filled, InOrder, Accounted, DoLog, NoVictim, CanFlush, ReadOn;
    match ev
    case LogRecord(r) => LogReleasesNone(w.d, r);
    case Connect => ReadOnMore(w.links, NEW_LINK);
    case Write => ReadOnOther(w.links, |w.links| - 1, Next(w, ev).links[|w.links| - 1]);
    case ReadAck => ReadOnOther(w.links, |w.links| - 1, Next(w, ev).links[|w.links| - 1]);
    case SettleBatch => SettleUses(w);
    case Receive(i, _, _) => ReadOnOther(w.links, i, Next(w, ev).links[i]);
    case PumpAcks(i, _, _) => ReadOnOther(w.links, i, Next(w, ev).links[i]);
    case CenterCloses(i) => ReadOnOther(w.links, i, Next(w, ev).links[i]);
    case Cut(i, _, _) => ReadOnOther(w.links, i, Next(w, ev).links[i]);
    case _ =>
  }

  lemma LogReleasesNone(d: Daemon, r: Record)
    requires r.WellFormed() && !NoVictim(d, r) && |d.given| == |d.bodies|
    ensures DoLog(d, r).released == d.released
  {
    hide RecordBytes, Kept;
  }

  /** In every run the blocks released, and those about to be, are as many as the acknowledgements ever read: none is
      lost when a link breaks, and no block whose acknowledgement was read is sent again. */
  lemma {:induction false} AcksAreUsed(e: Endian, pool: nat, run: seq<Event>)
    requires Outcome(e, pool, run).Some?
    ensures var w := Outcome(e, pool, run).value; |w.d.released| + Unsettled(w.phase) == ReadOn(w.links)
  {
    if run != [] {
      hide Good, Possible, Next, Unsettled, ReadOn;
      var shorter := run[..|run| - 1];
      AcksAreUsed(e, pool, shorter);
      RunsAreGood(e, pool, shorter);
      StepUses(Outcome(e, pool, shorter).value, run[|run| - 1]);
    }
  }
}
