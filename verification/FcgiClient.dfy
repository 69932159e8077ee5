/**
 * The FastCGI connection pool (x4fcgi/FcgiClient.cpp): quests wait in a
 * queue, are handed to connections, and every one is finished exactly once.
 */
module FcgiClient {
  import opened Prelude

  datatype Outcome = Answer | Error

  /** A request; finishing it twice is a programming error. */
  class Quest {
    var retry: bool
    var outcome: Option<Outcome>

    constructor ()
      ensures !retry && outcome == None
    {
      retry, outcome := false, None;
    }

    method Finish(o: Outcome)
      requires outcome == None
      modifies this`outcome
      ensures outcome == Some(o)
    {
      outcome := Some(o);
    }
  }

  datatype State = Connect | Idle | Write | Read | Closed

  /** Where do_write goes on: at its test for a quest to write, in the middle of the request of a quest, or nowhere. */
  datatype Out = AtTest | InWrite(of: Quest) | Ended

  /** What one nonblocking write does. */
  datatype WriteResult = WriteFailed | WrotePart | WroteAll

  /** What one round of reading does: n bytes, and why it stopped. */
  datatype ReadResult = Paused(n: nat) | Broken(n: nat) | Complete(n: nat, pending: bool)

  /** Where an accepted quest is. Loose: held by running code only. */
  datatype Place = Queued | Held(con: FcgiConnection) | Handed(con: FcgiConnection) | Loose | Done(outcome: Outcome)

  /** A quest has been finished exactly if its place says so. */
  ghost predicate Conserved(place: map<Quest, Place>)
    reads place.Keys`outcome
  {
    forall q :: q in place ==> q.outcome == if place[q].Done? then Some(place[q].outcome) else None
  }

  ghost predicate QueueOk(queue: seq<Quest>, place: map<Quest, Place>) {
    (forall i, j :: 0 <= i < j < |queue| ==> queue[i] != queue[j]) &&
    (forall q :: q in queue ==> q in place && place[q] == Queued) &&
    (forall q :: q in place && place[q] == Queued ==> q in queue)
  }

  /** The quests said to be held are those in the fields of the connections. */
  ghost predicate ConsOk(client: FcgiClient, all: set<FcgiConnection>, place: map<Quest, Place>)
    reads all`open, all`quest, all`state
  {
    && (forall c :: c in all ==> c.client == client && (!c.open ==> c.quest == null) && (c.state == Idle ==> c.open))
    && (forall c :: c in all && c.quest != null ==>
          c.quest in place && place[c.quest] == Held(c) && (c.state == Write || c.state == Read))
    && (forall q :: q in place && place[q].Held? ==> place[q].con in all && place[q].con.quest == q)
  }

  /**
   * Writing is in step with the quests as long as no answer overtook its own
   * request: what is being written is the quest in hand, and an answer is
   * awaited only for a request that was written as a whole.
   */
  ghost predicate InStep(c: FcgiConnection)
    reads c`quest, c`state, c`out, c`whole, c`overtaken
  {
    && (c.state == Connect ==> c.out == AtTest && !c.overtaken)
    && (!c.overtaken && c.quest != null ==>
          && (c.out.InWrite? ==> c.out.of == c.quest && c.state == Write)
          && (c.state == Read ==> c.whole == c.quest))
  }

  /** Nothing in hand; and unless an answer overtook its request, idle or closed with no write to go on with. */
  ghost predicate Resting(c: FcgiConnection)
    reads c`quest, c`state, c`out, c`overtaken
  {
    && c.quest == null && c.state != Connect && c.state != Write
    && (!c.overtaken ==> c.state != Read && !c.out.InWrite?)
  }

  ghost predicate HandOk(hand: map<FcgiConnection, Quest>, place: map<Quest, Place>) {
    && (forall c :: c in hand ==> hand[c] in place && place[hand[c]] == Handed(c))
    && (forall q :: q in place && place[q].Handed? ==> place[q].con in hand && hand[place[q].con] == q)
  }

  /** Idle connections, and those just given a quest, hold none; each stands once. */
  ghost predicate IdleOk(all: set<FcgiConnection>, idlestack: seq<FcgiConnection>, given: set<FcgiConnection>)
    reads all`quest, all`state, all`out, all`overtaken
  {
    && (forall i, j :: 0 <= i < j < |idlestack| ==> idlestack[i] != idlestack[j])
    && (forall c :: c in idlestack ==> c in all && c !in given && Resting(c))
    && (forall c :: c in given ==> c in all && Resting(c))
  }

  /** The quests at connections are the same in both. */
  ghost predicate SameAway(p: map<Quest, Place>, r: map<Quest, Place>) {
    (forall q :: q in p && (p[q].Held? || p[q].Handed?) ==> q in r && r[q] == p[q]) &&
    (forall q :: q in r && (r[q].Held? || r[q].Handed?) ==> q in p && r[q] == p[q])
  }

  lemma AwayDecides(client: FcgiClient, all: set<FcgiConnection>, hand: map<FcgiConnection, Quest>,
                    p: map<Quest, Place>, r: map<Quest, Place>)
    requires SameAway(p, r)
    requires ConsOk(client, all, p) && HandOk(hand, p)
    ensures ConsOk(client, all, r) && HandOk(hand, r)
  {
  }

  /** Only what is said to be held matters to the connections. */
  lemma HeldDecides(client: FcgiClient, all: set<FcgiConnection>, p: map<Quest, Place>, q: Quest, to: Place)
    requires ConsOk(client, all, p) && !to.Held?
    requires q in p ==> !p[q].Held?
    ensures ConsOk(client, all, p[q := to])
  {
  }

  /** One connection more that holds nothing. */
  lemma ConsGrow(client: FcgiClient, all: set<FcgiConnection>, p: map<Quest, Place>, c: FcgiConnection)
    requires ConsOk(client, all, p) && c.client == client && c.quest == null && c.state == Connect
    ensures ConsOk(client, all + {c}, p)
  {
  }

  lemma IdleGrow(all: set<FcgiConnection>, idlestack: seq<FcgiConnection>, given: set<FcgiConnection>, c: FcgiConnection)
    requires IdleOk(all, idlestack, given)
    ensures IdleOk(all + {c}, idlestack, given)
  {
    hide Resting;
  }

  lemma QueueUnmoved(queue: seq<Quest>, p: map<Quest, Place>, q: Quest, to: Place)
    requires QueueOk(queue, p) && to != Queued && (q in p ==> p[q] != Queued)
    ensures QueueOk(queue, p[q := to])
  {
  }

  lemma HandGrows(hand: map<FcgiConnection, Quest>, p: map<Quest, Place>, c: FcgiConnection, q: Quest)
    requires HandOk(hand, p) && q in p && p[q] == Loose && c !in hand
    ensures HandOk(hand[c := q], p[q := Handed(c)])
  {
  }

  lemma HandShrinks(hand: map<FcgiConnection, Quest>, p: map<Quest, Place>, c: FcgiConnection)
    requires HandOk(hand, p) && c in hand
    ensures HandOk(hand - {c}, p[hand[c] := Loose])
  {
  }

  lemma HandUnmoved(hand: map<FcgiConnection, Quest>, p: map<Quest, Place>, q: Quest, to: Place)
    requires HandOk(hand, p) && !to.Handed? && (q in p ==> !p[q].Handed?)
    ensures HandOk(hand, p[q := to])
  {
  }

  /** Finished quests stay as they are, and none is forgotten. */
  ghost predicate Grows(before: map<Quest, Place>, now: map<Quest, Place>) {
    forall q :: q in before ==> q in now && (before[q].Done? ==> now[q] == before[q])
  }

  /** No quest is with running code only. */
  ghost predicate NoneLoose(p: map<Quest, Place>) {
    forall q :: q in p ==> p[q] != Loose
  }

  ghost predicate OnlyLoose(p: map<Quest, Place>, q: Quest) {
    forall x :: x in p && p[x] == Loose ==> x == q
  }

  lemma GrowsOn(p: map<Quest, Place>, r: map<Quest, Place>, t: map<Quest, Place>)
    requires Grows(p, r) && Grows(r, t)
    ensures Grows(p, t)
  {
  }

  lemma GrowsSelf(p: map<Quest, Place>)
    ensures Grows(p, p)
  {
  }

  lemma GrowsByOne(p: map<Quest, Place>, q: Quest, to: Place)
    requires q in p && !p[q].Done?
    ensures Grows(p, p[q := to])
  {
  }

  lemma NoOtherLoose(p: map<Quest, Place>, q: Quest)
    requires NoneLoose(p)
    ensures OnlyLoose(p[q := Loose], q)
  {
  }

  lemma DoneStays(p: map<Quest, Place>, q: Quest, r: map<Quest, Place>)
    requires Grows(p, r) && q in p && p[q].Done?
    ensures q in r && r[q] == p[q]
  {
  }

  lemma OnlyOneLoose(p: map<Quest, Place>, q: Quest, to: Place)
    requires OnlyLoose(p, q) && to != Loose
    ensures NoneLoose(p[q := to])
  {
  }

  /** After a release everything is settled again. */
  lemma FateGrows(p: map<Quest, Place>, r: map<Quest, Place>, q: Quest?)
    requires Fate(p, r, q) && (q != null ==> q in p && !p[q].Done? && (r[q] == Queued || r[q] == Done(Error)))
    requires q == null ==> NoneLoose(p)
    requires q != null ==> OnlyLoose(p, q)
    ensures Grows(p, r) && NoneLoose(r)
  {
  }

  /** What closing makes of a quest finished before, or in hand until then. */
  lemma FateInHand(p: map<Quest, Place>, r: map<Quest, Place>, q: Quest?)
    ensures q != null && QueueFailed(p, r, q) && q in p ==> q in r && r[q] == Done(Error)
    ensures q != null && Grows(p, r) && q in p && p[q].Done? ==> q in r && r[q] == p[q]
  {
  }

  /** What becomes of the quests when the queue is given up to running code. */
  ghost function Abandoned(place: map<Quest, Place>): (r: map<Quest, Place>)
    ensures r.Keys == place.Keys
  {
    map q | q in place :: if place[q] == Queued then Loose else place[q]
  }

  ghost function Failed(place: map<Quest, Place>, s: set<Quest>): (r: map<Quest, Place>)
    ensures r.Keys == place.Keys
  {
    map q | q in place :: if q in s then Done(Error) else place[q]
  }

  /** Between two moments only queued quests, and extra, have moved: they wait or have failed. */
  ghost predicate Fate(before: map<Quest, Place>, now: map<Quest, Place>, extra: Quest?) {
    now.Keys == before.Keys &&
    forall q :: q in before ==>
      now[q] == before[q] || ((before[q] == Queued || q == extra) && (now[q] == Queued || now[q] == Done(Error)))
  }

  lemma FateComposes(before: map<Quest, Place>, mid: map<Quest, Place>, now: map<Quest, Place>, extra: Quest?)
    requires Fate(before, mid, extra) && Fate(mid, now, null)
    ensures Fate(before, now, extra)
  {
  }

  /** Moving an unfinished quest leaves the finished ones alone. */
  lemma MoveKeeps(p: map<Quest, Place>, q: Quest, to: Place)
    requires Conserved(p) && q.outcome == None && !to.Done?
    ensures Conserved(p[q := to])
  {
  }

  lemma FateSettles(p: map<Quest, Place>, q: Quest, r: map<Quest, Place>)
    requires NoneLoose(p) && Fate(p[q := Queued], r, null)
    ensures NoneLoose(r)
  {
  }

  lemma SettleOne(p: map<Quest, Place>, q: Quest, to: Place)
    requires NoneLoose(p) && to != Loose
    ensures NoneLoose(p[q := to])
  {
  }

  lemma StaysPut(p: map<Quest, Place>)
    ensures Fate(p, p, null)
  {
  }

  /** Whether the limit of failures holds out: one for every connection there was when a quest was last taken up. */
  predicate Within(errs: nat, cons: nat, fails: int) {
    errs + fails <= cons
  }

  /**
   * The numbers of a pool: connections, quests that wait, how attempts to
   * connect will go, how many failed at once, how many of those early (when
   * more were to be opened in the same loop), failures and their limit.
   */
  datatype Tally = Tally(count: nat, waiting: nat, fates: seq<bool>, listening: bool, refused: nat, early: nat, errs: nat, limit: nat)

  /** How many connections OpenMore sets out to open. */
  function Room(conmax: nat, a: Tally): (n: nat)
  {
    if a.count >= conmax then 0 else if conmax - a.count > a.waiting then a.waiting else conmax - a.count
  }

  /** The next n attempts to connect all go well ... */
  predicate Smooth(fates: seq<bool>, n: nat) {
    n <= |fates| && forall i :: 0 <= i < n ==> fates[i]
  }

  /** ... or the first fails, and of those that are then opened, for it and after it, none does. */
  predicate FirstFails(fates: seq<bool>, n: nat) {
    n > 0 && fates != [] && !fates[0] && Smooth(fates[1..], 2 * n - 1)
  }

  /** Whether the limit holds out from a to b, with other failures than of connects. */
  predicate Lasts(a: Tally, b: Tally, others: nat) {
    Within(a.errs, a.limit, others + b.refused - a.refused)
  }

  predicate Onward(a: Tally, b: Tally) {
    && b.refused >= a.refused && b.early >= a.early && b.listening == a.listening && (a.fates == [] ==> b.fates == [])
    && (a.listening && a.fates == [] ==> b.refused == a.refused)
  }

  /** Failures, those that are no connects given apart, are counted until they pass the limit; then nothing waits. */
  predicate ErrorsCounted(a: Tally, b: Tally, others: nat) {
    if Lasts(a, b, others) then b.errs == a.errs + others + b.refused - a.refused && b.limit == a.limit && b.waiting == a.waiting
    else b.waiting == 0
  }

  /** The limit of the pool is kept, if nothing failed early. */
  predicate Capped(conmax: nat, a: Tally, b: Tally) {
    b.early >= a.early && (b.early == a.early && a.count <= conmax ==> b.count <= conmax)
  }

  lemma CappedOn(conmax: nat, a: Tally, b: Tally, c: Tally)
    requires Capped(conmax, a, b) && Capped(conmax, b, c)
    ensures Capped(conmax, a, c)
  {
  }

  lemma Fewer<T>(s: set<T>, x: T)
    ensures |s - {x}| <= |s|
  {
    if x !in s { assert s - {x} == s; }
  }

  lemma CappedRelease(conmax: nat, a: Tally, m: Tally, b: Tally)
    requires m == a.(count := m.count, waiting := m.waiting) && m.count <= a.count
    requires Onward(m, b) && Opened(conmax, m, b, 1)
    ensures Onward(a, b) && Capped(conmax, a, b)
  {
  }

  lemma CappedSame(conmax: nat, a: Tally, b: Tally)
    requires b.count == a.count && b.early == a.early
    ensures Capped(conmax, a, b)
  {
  }

  lemma CappedOne(conmax: nat, a: Tally, b: Tally, more: bool, connected: bool)
    requires OneOpened(conmax, a, b, more, connected) && a.count < conmax
    ensures Capped(conmax, a, b)
  {
  }

  lemma NothingHappened(conmax: nat, a: Tally)
    ensures Onward(a, a) && Capped(conmax, a, a)
  {
  }

  /** The limit of the pool is kept, if nothing failed early; and what opening n connections comes to. */
  predicate Opened(conmax: nat, a: Tally, b: Tally, slack: nat) {
    var n := Room(conmax, a);
    && (b.early == a.early && a.count <= conmax ==> b.count <= conmax)
    && (Smooth(a.fates, n) && Within(a.errs, a.limit, slack) ==>
          b.count == a.count + n && b.fates == a.fates[n..] && b.refused == a.refused)
    && (FirstFails(a.fates, n) && Within(a.errs, a.limit, slack + 1) ==> b.count == a.count + 2 * n - 1)
  }

  /** One attempt to connect; more says whether others follow in the same loop. */
  predicate OneOpened(conmax: nat, a: Tally, b: Tally, more: bool, connected: bool) {
    var n := Room(conmax, a);
    && Onward(a, b) && ErrorsCounted(a, b, 0)
    && (a.fates != [] ==> connected == a.fates[0])
    && (connected ==> b == a.(count := a.count + 1, fates := if a.fates == [] then [] else a.fates[1..]))
    && (!connected && more ==> b.early > a.early)
    && (b.early == a.early && a.count < conmax ==> b.count <= conmax)
    && (!connected && a.fates != [] && Within(a.errs, a.limit, 1) && Smooth(a.fates[1..], n) ==>
          b.count == a.count + n && b.fates == a.fates[1..][n..] && b.refused == a.refused + 1)
  }

  /** After i of num attempts of OpenMore. */
  predicate Halfway(conmax: nat, a: Tally, b: Tally, num: nat, i: nat) {
    && Onward(a, b) && ErrorsCounted(a, b, 0) && i <= num
    && (b.early == a.early && a.count <= conmax ==> b.count + (num - i) <= conmax)
    && (Smooth(a.fates, num) ==> b.count == a.count + i && b.fates == a.fates[i..] && b.refused == a.refused)
    && (FirstFails(a.fates, num) && Within(a.errs, a.limit, 1) ==>
          if i == 0 then b == a
          else b.count == a.count + num + i - 1 && b.fates == a.fates[1..][num + i - 1..] && b.refused == a.refused + 1)
  }

  lemma HalfwayStarts(conmax: nat, a: Tally)
    requires a.errs <= a.limit
    ensures Halfway(conmax, a, a, Room(conmax, a), 0)
  {
    hide Smooth, FirstFails;
  }

  lemma HalfwayEnds(conmax: nat, a: Tally, b: Tally)
    requires Halfway(conmax, a, b, Room(conmax, a), Room(conmax, a)) && a.errs <= a.limit
    ensures Onward(a, b) && ErrorsCounted(a, b, 0) && Opened(conmax, a, b, 0)
  {
    hide Smooth, Onward, ErrorsCounted;
  }

  lemma SmoothAt(fates: seq<bool>, n: nat, i: nat)
    requires Smooth(fates, n) && i < n
    ensures i < |fates| && fates[i] && fates[i..] != [] && fates[i..][0] && fates[i..][1..] == fates[i + 1..]
    ensures forall m: nat :: m <= n ==> Smooth(fates, m)
  {
  }

  lemma Tallied(a: Tally, b: Tally, c: Tally)
    requires Onward(a, b) && Onward(b, c) && ErrorsCounted(a, b, 0) && ErrorsCounted(b, c, 0)
    ensures Onward(a, c) && ErrorsCounted(a, c, 0)
  {
  }

  lemma SmoothOn(conmax: nat, a: Tally, b: Tally, c: Tally, num: nat, i: nat, connected: bool)
    requires Halfway(conmax, a, b, num, i) && OneOpened(conmax, b, c, i + 1 < num, connected) && i < num
    requires Smooth(a.fates, num)
    ensures c.count == a.count + i + 1 && c.fates == a.fates[i + 1..] && c.refused == a.refused && connected
  {
    SmoothAt(a.fates, num, i);
    hide Smooth, ErrorsCounted, FirstFails, Onward, Room;
  }

  lemma FirstFailsOn(conmax: nat, a: Tally, b: Tally, c: Tally, num: nat, i: nat, connected: bool)
    requires Halfway(conmax, a, b, num, i) && OneOpened(conmax, b, c, i + 1 < num, connected) && i < num == Room(conmax, a)
    requires FirstFails(a.fates, num) && Within(a.errs, a.limit, 1)
    ensures c.count == a.count + num + i && c.fates == a.fates[1..][num + i..] && c.refused == a.refused + 1
  {
    if i > 0 {
      SmoothAt(a.fates[1..], 2 * num - 1, num + i - 1);
    } else {
      SmoothAt(a.fates[1..], 2 * num - 1, 0);
    }
    hide Smooth, ErrorsCounted, Onward;
  }

  /** One attempt more; a failure is early if it is not the last. */
  lemma HalfwayOn(conmax: nat, a: Tally, b: Tally, c: Tally, num: nat, i: nat, connected: bool)
    requires Halfway(conmax, a, b, num, i) && OneOpened(conmax, b, c, i + 1 < num, connected) && i < num == Room(conmax, a) && a.errs <= a.limit
    ensures Halfway(conmax, a, c, num, i + 1)
    ensures c.waiting == 0 || (c.waiting == a.waiting && c.limit - c.errs <= a.limit - a.errs)
  {
    Tallied(a, b, c);
    if Smooth(a.fates, num) { SmoothOn(conmax, a, b, c, num, i, connected); }
    if FirstFails(a.fates, num) && Within(a.errs, a.limit, 1) { FirstFailsOn(conmax, a, b, c, num, i, connected); }
    hide Smooth, FirstFails, Within, Room;
  }

  /** The numbers after an attempt, with its connection still in the pool. */
  predicate Attempted(a: Tally, b: Tally, more: bool, connected: bool) {
    && (a.fates != [] ==> connected == a.fates[0]) && (a.fates == [] && a.listening ==> connected)
    && b == a.(count := a.count + 1, fates := if a.fates == [] then [] else a.fates[1..],
               refused := a.refused + if connected then 0 else 1, early := a.early + if connected || !more then 0 else 1)
  }

  lemma OneMade(conmax: nat, a: Tally, b: Tally, more: bool)
    requires Attempted(a, b, more, true) && a.errs <= a.limit
    ensures OneOpened(conmax, a, b, more, true) && Lasts(a, b, 0)
  {
  }

  /** An attempt that failed at once is m, without its connection; b is after its release. */
  lemma OneRefused(conmax: nat, a: Tally, m: Tally, b: Tally, more: bool)
    requires Attempted(a, m, more, false)
    requires var r := m.(count := a.count); Onward(r, b) && ErrorsCounted(r, b, 1) && Opened(conmax, r, b, 1)
    ensures OneOpened(conmax, a, b, more, false) && Lasts(a, b, 0) == Lasts(m.(count := a.count), b, 1)
  {
    hide Smooth, FirstFails;
  }

  lemma NothingOpened(conmax: nat, a: Tally)
    requires a.waiting == 0 && a.errs <= a.limit
    ensures Onward(a, a) && ErrorsCounted(a, a, 0) && Opened(conmax, a, a, 0)
  {
    hide Smooth;
  }

  /** One failure more; past the limit nothing waits any longer and the count starts anew. */
  function Charged(a: Tally): Tally {
    if a.errs < a.limit then a.(errs := a.errs + 1) else a.(errs := 0, limit := 0, waiting := 0)
  }

  /** A release counts one failure before it opens more. */
  lemma ReleaseCounts(conmax: nat, a: Tally, b: Tally)
    requires a.errs <= a.limit
    requires Onward(Charged(a), b) && ErrorsCounted(Charged(a), b, 0) && Opened(conmax, Charged(a), b, 0)
    ensures Onward(a, b) && ErrorsCounted(a, b, 1) && Opened(conmax, a, b, 1)
    ensures Lasts(a, b, 1) <==> a.errs < a.limit && Lasts(Charged(a), b, 0)
  {
    hide Smooth, FirstFails;
    SmoothNone(a.fates);
  }

  lemma LastsAtFirst(a: Tally, b: Tally)
    requires a.errs <= a.limit && b.refused == a.refused
    ensures Lasts(a, b, 0)
  {
  }

  /** Whether the limit holds out is decided step by step. */
  lemma LastsOn(conmax: nat, a: Tally, b: Tally, c: Tally, num: nat, i: nat, connected: bool)
    requires Halfway(conmax, a, b, num, i) && OneOpened(conmax, b, c, i + 1 < num, connected)
    ensures Lasts(a, c, 0) <==> Lasts(a, b, 0) && Lasts(b, c, 0)
  {
  }

  lemma SmoothNone(fates: seq<bool>)
    ensures Smooth(fates, 0) && fates[0..] == fates && !FirstFails(fates, 0)
  {
  }

  /** What waits has failed. */
  ghost predicate QueueFailed(before: map<Quest, Place>, now: map<Quest, Place>, extra: Quest?) {
    forall q :: q in before && (before[q] == Queued || q == extra) ==> q in now && now[q] == Done(Error)
  }

  /** All that waited waits on, or has failed. */
  ghost predicate KeptOrLost(kept: bool, before: map<Quest, Place>, now: map<Quest, Place>, queueBefore: seq<Quest>, queueNow: seq<Quest>) {
    if kept then now == before && queueNow == queueBefore
    else queueNow == [] && QueueFailed(before, now, null)
  }

  lemma KeptSoFar(p: map<Quest, Place>, queue: seq<Quest>)
    ensures KeptOrLost(true, p, p, queue, queue)
  {
  }

  lemma KeptOn(first: bool, second: bool, p: map<Quest, Place>, q: map<Quest, Place>, r: map<Quest, Place>,
               u: seq<Quest>, v: seq<Quest>, w: seq<Quest>)
    requires KeptOrLost(first, p, q, u, v) && KeptOrLost(second, q, r, v, w) && Fate(q, r, null)
    ensures KeptOrLost(first && second, p, r, u, w)
  {
  }

  /** What it means for a quest just pushed back. */
  lemma PushedKeptOrLost(kept: bool, before: map<Quest, Place>, quest: Quest?, now: map<Quest, Place>, u: seq<Quest>, v: seq<Quest>)
    requires KeptOrLost(kept, Pushed(before, quest), now, Waiting(quest, u), v) && (quest != null ==> quest in before)
    ensures if kept then now == Pushed(before, quest) && v == Waiting(quest, u) else v == [] && QueueFailed(before, now, quest)
    ensures quest != null ==> quest in now && (now[quest] == Queued || now[quest] == Done(Error))
  {
  }

  lemma FailedNone(p: map<Quest, Place>)
    ensures Failed(p, set q: Quest | q in []) == p
  {
  }

  function Waiting(quest: Quest?, queue: seq<Quest>): seq<Quest> {
    if quest == null then queue else [quest] + queue
  }

  ghost function Pushed(before: map<Quest, Place>, quest: Quest?): map<Quest, Place> {
    if quest == null then before else before[quest := Queued]
  }

  lemma NobodyPushed(before: map<Quest, Place>, queue: seq<Quest>)
    ensures Pushed(before, null) == before && Waiting(null, queue) == queue
  {
  }

  /** The queue is given up to running code if the limit of failures is passed, and untouched otherwise. */
  ghost predicate Drops(overflow: bool, pushed: map<Quest, Place>, mid: map<Quest, Place>, dropped: seq<Quest>) {
    && (forall i, j :: 0 <= i < j < |dropped| ==> dropped[i] != dropped[j])
    && (forall q :: q in dropped ==> q in mid && mid[q] == Loose && q in pushed && pushed[q] == Queued)
    && (!overflow ==> dropped == [] && mid == pushed)
    && (overflow ==> mid == Abandoned(pushed) && forall q :: q in pushed && pushed[q] == Queued ==> q in dropped)
  }

  lemma KeysStay(p: map<Quest, Place>, r: map<Quest, Place>)
    requires Fate(p, r, null)
    ensures r.Keys == p.Keys
  {
  }

  lemma DroppedStayLoose(overflow: bool, pushed: map<Quest, Place>, mid: map<Quest, Place>, grown: map<Quest, Place>, dropped: seq<Quest>)
    requires Drops(overflow, pushed, mid, dropped) && Fate(mid, grown, null)
    ensures forall i, j :: 0 <= i < j < |dropped| ==> dropped[i] != dropped[j]
    ensures forall q :: q in dropped ==> q in grown && grown[q] == Loose
  {
  }

  lemma ClosedOutcome(kept: bool, before: map<Quest, Place>, loose: map<Quest, Place>, now: map<Quest, Place>, q: Quest?)
    requires NoneLoose(before) && Fate(loose, now, q) && now.Keys == loose.Keys
    requires if q == null then loose == before else q in before && before[q].Held? && loose == before[q := Loose]
    requires if kept then now == Pushed(loose, q) else QueueFailed(loose, now, q)
    ensures Grows(before, now) && NoneLoose(now) && now.Keys == before.Keys
    ensures if kept then now == Pushed(before, q) else QueueFailed(before, now, q)
  {
    if kept && q != null {
      assert before[q := Loose][q := Queued] == before[q := Queued];
    }
  }

  lemma FateOfRelease(overflow: bool, kept: bool, before: map<Quest, Place>, quest: Quest?, mid: map<Quest, Place>,
                      grown: map<Quest, Place>, dropped: seq<Quest>, now: map<Quest, Place>,
                      waiting: seq<Quest>, queueMid: seq<Quest>, queueNow: seq<Quest>)
    requires quest != null ==> quest in before && before[quest] == Loose
    requires Drops(overflow, Pushed(before, quest), mid, dropped) && queueMid == if overflow then [] else waiting
    requires Fate(mid, grown, null) && KeptOrLost(kept, mid, grown, queueMid, queueNow) && now == Failed(grown, set q | q in dropped)
    ensures now.Keys == before.Keys && Fate(before, now, quest)
    ensures KeptOrLost(!overflow && kept, Pushed(before, quest), now, waiting, queueNow)
  {
    if !overflow { FailedNone(grown); }
  }

  class FcgiClient {
    const conmax: nat
    const reqmax: nat
    const autoretry: bool
    var idle: nat
    var isShutdown: bool
    var queue: seq<Quest>
    var idlestack: seq<FcgiConnection>
    var cons: set<FcgiConnection>
    var errCount: nat
    var conCount: nat
    /** The server: how the next attempts to connect go, for as many as fates says; a later one may fail at once
        unless the server listens. */
    var fates: seq<bool>
    var listening: bool

    /** How many attempts failed at once, and how many of them when more were to be opened in the same loop. */
    ghost var refused: nat
    ghost var early: nat
    ghost var all: set<FcgiConnection>
    /** The ledger of all quests ever accepted. */
    ghost var place: map<Quest, Place>
    /** Connections to which process has given a quest that they do not hold yet. */
    ghost var hand: map<FcgiConnection, Quest>

    ghost predicate Valid()
      reads this, all`open, all`quest, all`state, all`out, all`whole, all`overtaken, place.Keys`outcome
    {
      && conmax > 0 && errCount <= conCount && cons <= all
      && Conserved(place)
      && QueueOk(queue, place)
      && ConsOk(this, all, place)
      && HandOk(hand, place)
      && IdleOk(all, idlestack, hand.Keys)
      && (forall c :: c in all ==> InStep(c))
    }

    /** How many more connections may fail before the queue is given up. */
    ghost function Patience(): nat
      requires errCount <= conCount
      reads this
    {
      if queue == [] then 1 else 2 + conCount - errCount
    }

    /** The numbers that opening connections changes. */
    ghost function Numbers(): Tally
      reads this`cons, this`queue, this`fates, this`listening, this`refused, this`early, this`errCount, this`conCount
    {
      Tally(|cons|, |queue|, fates, listening, refused, early, errCount, conCount)
    }

    constructor (conmax: int, reqmax: int, autoretry: bool)
      ensures Valid() && NoneLoose(place) && place == map[] && queue == [] && idlestack == [] && cons == {} && !isShutdown
      ensures 1 <= this.conmax <= 1024 && (1 <= conmax <= 1024 ==> this.conmax == conmax)
      ensures (conmax < 1 ==> this.conmax == 1) && (conmax > 1024 ==> this.conmax == 1024)
      ensures this.reqmax == (if reqmax > 0 then reqmax else 0x7FFF_FFFF) && this.autoretry == autoretry
      ensures idle == errCount == conCount == 0
    {
      this.conmax := if conmax < 1 then 1 else if conmax > 1024 then 1024 else conmax;
      this.reqmax := if reqmax > 0 then reqmax else 0x7FFF_FFFF;
      this.autoretry := autoretry;
      idle, isShutdown, queue, idlestack, cons := 0, false, [], [], {};
      errCount, conCount, fates, listening := 0, 0, [], false;
      all, place, hand, refused, early := {}, map[], map[], 0, 0;
    }

    /** Finishes a quest that only running code holds. */
    method FinishLoose(q: Quest, o: Outcome)
      requires Valid() && q in place && place[q] == Loose
      modifies this`place, q`outcome
      ensures Valid() && place == old(place)[q := Done(o)]
    {
      hide ConsOk, HandOk, IdleOk, InStep;
      q.Finish(o);
      place := place[q := Done(o)];
      AwayDecides(this, all, hand, old(place), place);
    }

    /** Fails the quests taken out of an abandoned queue, one after the other. */
    method FailAll(dropped: seq<Quest>)
      requires Valid()
      requires forall i, j :: 0 <= i < j < |dropped| ==> dropped[i] != dropped[j]
      requires forall q :: q in dropped ==> q in place && place[q] == Loose
      modifies this`place, place.Keys`outcome
      ensures Valid() && place == Failed(old(place), set q | q in dropped)
    {
      hide QueueOk, ConsOk, HandOk, IdleOk, Conserved, InStep;
      var i := 0;
      assert place == Failed(place, set q | q in dropped[..0]);
      while i < |dropped|
        invariant i <= |dropped|
        invariant Valid() && place == Failed(old(place), set q | q in dropped[..i])
      {
        assert dropped[i] !in dropped[..i];
        assert dropped[..i + 1] == dropped[..i] + [dropped[i]];
        FinishLoose(dropped[i], Error);
        i := i + 1;
      }
      assert dropped[..|dropped|] == dropped;
    }

    method AddConnection(connected: bool) returns (c: FcgiConnection)
      requires Valid()
      modifies this`cons, this`all
      ensures Valid() && fresh(c) && all == old(all) + {c} && cons == old(cons) + {c}
      ensures cons - {c} == old(cons) && Numbers() == old(Numbers()).(count := old(Numbers()).count + 1)
      ensures c.open == connected && c.state == Connect && c.quest == null
    {
      hide Conserved, QueueOk, HandOk, InStep, ConsOk, IdleOk;
      c := new FcgiConnection(this, reqmax, autoretry, connected);
      ConsGrow(this, all, place, c);
      IdleGrow(all, idlestack, hand.Keys, c);
      cons := cons + {c};
      all := all + {c};
    }

    /** Opens one connection more; a connect that fails at once is released (_new_connection). */
    method NewConnection(ghost more: bool) returns (connected: bool)
      requires Valid()
      modifies this`cons, this`all, this`fates, this`refused, this`early, this`queue, this`place, this`errCount, this`conCount,
               place.Keys`outcome
      ensures Valid() && old(all) <= all && fresh(all - old(all))
      ensures old(cons) <= cons
      ensures place.Keys == old(place).Keys && Fate(old(place), place, null)
      ensures KeptOrLost(Lasts(old(Numbers()), Numbers(), 0), old(place), place, old(queue), queue)
      ensures OneOpened(conmax, old(Numbers()), Numbers(), more, connected)
      decreases Patience(), 1
    {
      hide Conserved, QueueOk, HandOk, ConsOk, IdleOk, Fate, QueueFailed, InStep;
      hide Opened, Onward, ErrorsCounted, OneOpened, Lasts, KeptOrLost, Numbers, Attempted, Within, Pushed, Waiting;
      ghost var a := Numbers();
      FewErrors();
      NobodyPushed(place, queue);
      var c;
      c, connected := Attempt(more);
      ghost var m := Numbers();
      if connected {
        OneMade(conmax, a, m, more);
        StaysPut(place);
        KeptSoFar(place, queue);
      } else {
        ReleaseClosed(c, null);
        OneRefused(conmax, a, m, Numbers(), more);
      }
    }

    lemma FewErrors()
      requires Valid()
      ensures Numbers().errs <= Numbers().limit
    {
    }

    /** One attempt to connect. */
    method Attempt(ghost more: bool) returns (c: FcgiConnection, connected: bool)
      requires Valid()
      modifies this`cons, this`all, this`fates, this`refused, this`early
      ensures Valid() && fresh(c) && all == old(all) + {c} && cons == old(cons) + {c} && cons - {c} == old(cons)
      ensures Attempted(old(Numbers()), Numbers(), more, connected)
      ensures Numbers().(count := |old(cons)|, waiting := |queue|) == Numbers().(count := old(Numbers()).count)
    {
      hide Conserved, QueueOk, HandOk, ConsOk, IdleOk, InStep, Attempted, Numbers;
      NumbersAre();
      connected := Draw(more);
      NumbersAre();
      c := AddConnection(connected);
      NumbersAre();
    }

    lemma NumbersAre()
      ensures Numbers().count == |cons| && Numbers().waiting == |queue|
    {
    }

    /** How the next attempt goes. */
    method Draw(ghost more: bool) returns (connected: bool)
      modifies this`fates, this`refused, this`early
      ensures Attempted(old(Numbers()), Numbers().(count := Numbers().count + 1), more, connected)
    {
      connected := *;
      connected := connected || listening;
      if fates != [] {
        connected, fates := fates[0], fates[1..];
      }
      if !connected {
        refused := refused + 1;
        early := early + if more then 1 else 0;
      }
    }

    /** Opens connections for the quests that wait, as many as there is room for. */
    method OpenMore()
      requires Valid()
      modifies this`cons, this`all, this`fates, this`refused, this`early, this`queue, this`place, this`errCount, this`conCount,
               place.Keys`outcome
      ensures Valid() && old(all) <= all && fresh(all - old(all))
      ensures old(cons) <= cons
      ensures place.Keys == old(place).Keys && Fate(old(place), place, null)
      ensures KeptOrLost(Lasts(old(Numbers()), Numbers(), 0), old(place), place, old(queue), queue)
      ensures Onward(old(Numbers()), Numbers()) && ErrorsCounted(old(Numbers()), Numbers(), 0)
      ensures Opened(conmax, old(Numbers()), Numbers(), 0)
      decreases Patience(), 2
    {
      hide Conserved, QueueOk, HandOk, ConsOk, IdleOk, Fate, QueueFailed, InStep;
      hide Onward, ErrorsCounted, Opened, OneOpened, Halfway, Lasts, KeptOrLost;
      ghost var a := Numbers();
      StaysPut(place);
      KeptSoFar(place, queue);
      HalfwayStarts(conmax, a);
      LastsAtFirst(a, a);
      var num := 0;
      if |cons| < conmax && queue != [] {
        num := conmax - |cons|;
        if num > |queue| {
          num := |queue|;
        }
      }
      var i := 0;
      while i < num
        invariant Valid() && old(all) <= all && fresh(all - old(all))
        invariant old(cons) <= cons
        invariant place.Keys == old(place).Keys && Fate(old(place), place, null)
        invariant i <= num == Room(conmax, a)
        invariant KeptOrLost(Lasts(a, Numbers(), 0), old(place), place, old(queue), queue)
        invariant Halfway(conmax, a, Numbers(), num, i)
        invariant Patience() <= old(Patience())
        decreases num - i
      {
        ghost var before, mid, waiting := place, Numbers(), queue;
        var connected := NewConnection(i + 1 < num);
        LastsOn(conmax, a, mid, Numbers(), num, i, connected);
        HalfwayOn(conmax, a, mid, Numbers(), num, i, connected);
        FateComposes(old(place), before, place, null);
        KeptOn(Lasts(a, mid, 0), Lasts(mid, Numbers(), 0), old(place), before, place, old(queue), waiting, queue);
        i := i + 1;
      }
      HalfwayEnds(conmax, a, Numbers());
    }

    /** Puts a quest back to the front of the queue. */
    method PushFront(quest: Quest)
      requires Valid() && quest in place && place[quest] == Loose
      modifies this`queue, this`place
      ensures Valid() && queue == [quest] + old(queue) && place == old(place)[quest := Queued]
    {
      hide ConsOk, HandOk, IdleOk, InStep;
      queue := [quest] + queue;
      place := place[quest := Queued];
      AwayDecides(this, all, hand, old(place), place);
    }

    /** Gives the queue up to running code. */
    method Abandon() returns (dropped: seq<Quest>)
      requires Valid()
      modifies this`queue, this`place
      ensures Valid() && dropped == old(queue) && queue == [] && place == Abandoned(old(place))
      ensures forall i, j :: 0 <= i < j < |dropped| ==> dropped[i] != dropped[j]
      ensures forall q :: q in dropped ==> q in place && place[q] == Loose
      ensures forall q :: q in old(place) && old(place)[q] == Queued <==> q in dropped
    {
      hide ConsOk, HandOk, IdleOk, InStep;
      dropped, queue := queue, [];
      place := Abandoned(place);
      AwayDecides(this, all, hand, old(place), place);
    }

    /** Counts one more failure; too many empty the queue and start the count anew. */
    method CountError() returns (dropped: seq<Quest>)
      requires Valid()
      modifies this`queue, this`place, this`errCount, this`conCount
      ensures Valid() && place.Keys == old(place).Keys
      ensures Drops(old(errCount) >= old(conCount), old(place), place, dropped)
      ensures queue == (if old(errCount) >= old(conCount) then [] else old(queue)) && Numbers() == Charged(old(Numbers()))
      ensures errCount == (if old(errCount) >= old(conCount) then 0 else old(errCount) + 1)
      ensures conCount == (if old(errCount) >= old(conCount) then 0 else old(conCount))
    {
      hide ConsOk, HandOk, IdleOk, QueueOk, Conserved, Abandoned, InStep;
      dropped := [];
      if errCount + 1 > conCount {
        errCount := 0;
        conCount := 0;
        dropped := Abandon();
      } else {
        errCount := errCount + 1;
      }
    }

    method Forget(con: FcgiConnection)
      requires Valid()
      modifies this`cons
      ensures Valid() && cons == old(cons) - {con} && Numbers() == old(Numbers()).(count := |cons|)
    {
      hide Conserved, QueueOk, HandOk, IdleOk, ConsOk, InStep;
      cons := cons - {con};
    }

    method GiveBack(quest: Quest?)
      requires Valid() && (quest != null ==> quest in place && place[quest] == Loose)
      modifies this`queue, this`place
      ensures Valid() && queue == Waiting(quest, old(queue)) && place == Pushed(old(place), quest) && place.Keys == old(place).Keys
      ensures Numbers() == old(Numbers()).(waiting := |queue|)
    {
      hide Conserved, QueueOk, HandOk, IdleOk, ConsOk, InStep;
      if quest != null {
        PushFront(quest);
      }
    }

    /** The first half of releaseClosed: quests that have had enough failures are dropped from the queue. */
    method TakeBack(con: FcgiConnection, quest: Quest?) returns (dropped: seq<Quest>)
      requires Valid() && con in all
      requires quest != null ==> quest in place && place[quest] == Loose
      modifies this`cons, this`queue, this`place, this`errCount, this`conCount
      ensures Valid() && cons == old(cons) - {con} && place.Keys == old(place).Keys
      ensures var overflow := old(errCount) >= old(conCount);
              && Drops(overflow, Pushed(old(place), quest), place, dropped)
              && queue == (if overflow then [] else Waiting(quest, old(queue)))
              && Numbers() == Charged(old(Numbers()).(count := |cons|, waiting := |Waiting(quest, old(queue))|))
              && errCount == (if overflow then 0 else old(errCount) + 1)
              && conCount == (if overflow then 0 else old(conCount))
    {
      hide Conserved, QueueOk, HandOk, IdleOk, ConsOk, Abandoned, InStep, Drops, Charged, Numbers, Pushed, Waiting;
      Forget(con);
      GiveBack(quest);
      dropped := CountError();
    }

    /** Opens connections for the quests that still wait after a failure. */
    method Refill()
      requires Valid()
      modifies this`cons, this`all, this`fates, this`refused, this`early, this`queue, this`place, this`errCount, this`conCount,
               place.Keys`outcome
      ensures Valid() && old(all) <= all && fresh(all - old(all))
      ensures old(cons) <= cons
      ensures place.Keys == old(place).Keys && Fate(old(place), place, null)
      ensures KeptOrLost(Lasts(old(Numbers()), Numbers(), 0), old(place), place, old(queue), queue)
      ensures Onward(old(Numbers()), Numbers()) && ErrorsCounted(old(Numbers()), Numbers(), 0)
      ensures Opened(conmax, old(Numbers()), Numbers(), 0)
      decreases if queue == [] then 0 else Patience(), 3
    {
      hide Conserved, QueueOk, HandOk, ConsOk, IdleOk, Fate, InStep;
      hide Onward, ErrorsCounted, Opened, Lasts, KeptOrLost;
      if queue != [] {
        OpenMore();
      } else {
        StaysPut(place);
        KeptSoFar(place, queue);
        LastsAtFirst(Numbers(), Numbers());
        NothingOpened(conmax, Numbers());
      }
    }

    /** Takes back a closed connection and the quest it could not complete. */
    method ReleaseClosed(con: FcgiConnection, quest: Quest?)
      requires Valid() && con in all
      requires quest != null ==> quest in place && place[quest] == Loose
      modifies this`cons, this`all, this`fates, this`refused, this`early, this`queue, this`place, this`errCount, this`conCount,
               place.Keys`outcome
      ensures Valid() && old(all) <= all && fresh(all - old(all))
      ensures old(cons) - {con} <= cons
      ensures place.Keys == old(place).Keys && Fate(old(place), place, quest)
      ensures var a := old(Numbers()).(count := |old(cons) - {con}|, waiting := |Waiting(quest, old(queue))|);
              && Onward(a, Numbers()) && ErrorsCounted(a, Numbers(), 1) && Opened(conmax, a, Numbers(), 1)
              && KeptOrLost(Lasts(a, Numbers(), 1), Pushed(old(place), quest), place, Waiting(quest, old(queue)), queue)
      decreases if quest == null && queue == [] then 1 else 2 + conCount - errCount, 0
    {
      hide Conserved, QueueOk, HandOk, IdleOk, ConsOk, Fate, Abandoned, Failed, QueueFailed, InStep, Drops, Pushed;
      hide Onward, ErrorsCounted, Opened, KeptOrLost, Lasts, Numbers, Charged;
      FewErrors();
      ghost var a := Numbers().(count := |cons - {con}|, waiting := |Waiting(quest, queue)|);
      ghost var overflow := OverLimit();
      var dropped := TakeBack(con, quest);
      ghost var mid, waiting, m := place, queue, Numbers();
      Refill();
      ghost var grown, b := place, Numbers();
      DroppedStayLoose(overflow, Pushed(old(place), quest), mid, grown, dropped);
      KeysStay(mid, grown);
      FailAll(dropped);
      FateOfRelease(overflow, Lasts(m, b, 0), old(place), quest, mid, grown, dropped, place, Waiting(quest, old(queue)), waiting, queue);
      ReleaseCounts(conmax, a, b);
    }

    ghost predicate OverLimit()
      reads this`errCount, this`conCount, this`cons, this`queue, this`fates, this`listening, this`refused, this`early
      ensures OverLimit() <==> errCount >= conCount
      ensures OverLimit() <==> Numbers().errs >= Numbers().limit
    {
      errCount >= conCount
    }

    /** releaseClosed as its callers see it. */
    method Release(con: FcgiConnection, quest: Quest?)
      requires Valid() && con in all
      requires quest != null ==> quest in place && place[quest] == Loose
      modifies this`cons, this`all, this`fates, this`refused, this`early, this`queue, this`place, this`errCount, this`conCount,
               place.Keys`outcome
      ensures Valid() && old(all) <= all && fresh(all - old(all))
      ensures old(cons) - {con} <= cons
      ensures place.Keys == old(place).Keys && Fate(old(place), place, quest)
      ensures quest != null ==> place[quest] == Queued || place[quest] == Done(Error)
      ensures Within(old(errCount), old(conCount), 1 + refused - old(refused)) ==>
                queue == Waiting(quest, old(queue)) && place == Pushed(old(place), quest)
      ensures !Within(old(errCount), old(conCount), 1 + refused - old(refused)) ==>
                queue == [] && QueueFailed(old(place), place, quest)
      ensures Onward(old(Numbers()), Numbers()) && Capped(conmax, old(Numbers()), Numbers())
      ensures Opened(conmax, old(Numbers()).(count := |old(cons) - {con}|, waiting := |Waiting(quest, old(queue))|), Numbers(), 1)
    {
      hide Conserved, QueueOk, HandOk, IdleOk, ConsOk, Fate, QueueFailed, InStep, Pushed, Onward, ErrorsCounted, Opened, KeptOrLost, Capped;
      ghost var a := Numbers();
      ghost var m := a.(count := |cons - {con}|, waiting := |Waiting(quest, queue)|);
      Fewer(cons, con);
      ReleaseClosed(con, quest);
      CappedRelease(conmax, a, m, Numbers());
      PushedKeptOrLost(Lasts(m, Numbers(), 1), old(place), quest, place, old(queue), queue);
    }

    method PopFront() returns (quest: Quest)
      requires Valid() && queue != []
      modifies this`queue, this`place
      ensures Valid() && [quest] + queue == old(queue)
      ensures quest in old(place) && old(place)[quest] == Queued && place == old(place)[quest := Loose]
    {
      hide ConsOk, HandOk, IdleOk, Conserved, InStep;
      quest := queue[0];
      LooseIsOpen(quest);
      MoveKeeps(place, quest, Loose);
      queue := queue[1..];
      place := place[quest := Loose];
      AwayDecides(this, all, hand, old(place), place);
    }

    method PushIdle(con: FcgiConnection)
      requires Valid() && con in all && con.state == Idle && con.quest == null
      requires con !in idlestack && con !in hand && (con.out.InWrite? ==> con.overtaken)
      modifies this`idlestack
      ensures Valid() && idlestack == old(idlestack) + [con]
    {
      hide ConsOk, HandOk, Conserved, QueueOk, InStep;
      idlestack := idlestack + [con];
    }

    /** The next quest to serve, or a place on the stack of idle connections. */
    method GetQuestOrPutback(con: FcgiConnection) returns (quest: Quest?)
      requires Valid() && con in all && con.state == Idle && con.quest == null
      requires con !in idlestack && con !in hand && (con.out.InWrite? ==> con.overtaken)
      modifies this`errCount, this`conCount, this`queue, this`place, this`idlestack
      ensures Valid() && place.Keys == old(place).Keys
      ensures errCount == 0 && conCount == |cons|
      ensures quest == null <==> old(queue) == []
      ensures quest != null ==> [quest] + queue == old(queue) && idlestack == old(idlestack) &&
                                quest in old(place) && old(place)[quest] == Queued && place == old(place)[quest := Loose]
      ensures quest == null ==> place == old(place) && queue == old(queue) &&
                                idlestack == old(idlestack) + (if isShutdown then [] else [con])
    {
      hide ConsOk, HandOk, Conserved, QueueOk, InStep, IdleOk;
      quest := null;
      errCount := 0;
      conCount := |cons|;
      if queue != [] {
        quest := PopFront();
      } else if !isShutdown {
        PushIdle(con);
      }
    }

    /** Notes a new quest in the ledger. */
    ghost method Accept(quest: Quest)
      requires Valid() && quest !in place && quest.outcome == None
      modifies this`place
      ensures Valid() && place == old(place)[quest := Loose]
    {
      hide ConsOk, HandOk, IdleOk, Conserved, InStep;
      MoveKeeps(place, quest, Loose);
      place := place[quest := Loose];
      AwayDecides(this, all, hand, old(place), place);
    }

    method PopIdle() returns (c: FcgiConnection)
      requires Valid() && idlestack != []
      modifies this`idlestack
      ensures Valid() && idlestack == old(idlestack)[..|old(idlestack)| - 1]
      ensures c == old(idlestack)[|idlestack|] && c in all && c !in idlestack && c !in hand && Resting(c)
    {
      hide ConsOk, HandOk, Conserved, QueueOk, InStep;
      c := idlestack[|idlestack| - 1];
      idlestack := idlestack[..|idlestack| - 1];
    }

    method PushBack(quest: Quest)
      requires Valid() && quest in place && place[quest] == Loose
      modifies this`queue, this`place
      ensures Valid() && queue == old(queue) + [quest] && place == old(place)[quest := Queued]
    {
      hide ConsOk, HandOk, IdleOk, Conserved, InStep;
      LooseIsOpen(quest);
      MoveKeeps(place, quest, Queued);
      queue := queue + [quest];
      place := place[quest := Queued];
      AwayDecides(this, all, hand, old(place), place);
    }

    lemma LooseIsOpen(quest: Quest)
      requires Valid() && quest in place && !place[quest].Done?
      ensures quest.outcome == None
    {
    }

    /** A quest is on its way to a connection that does not know it yet. */
    ghost method GiveTo(c: FcgiConnection, quest: Quest)
      requires Valid() && quest in place && place[quest] == Loose
      requires c in all && c !in idlestack && c !in hand && Resting(c)
      modifies this`hand, this`place
      ensures Valid() && hand == old(hand)[c := quest] && place == old(place)[quest := Handed(c)]
    {
      hide Conserved, ConsOk, QueueOk, HandOk, InStep;
      LooseIsOpen(quest);
      MoveKeeps(place, quest, Handed(c));
      HeldDecides(this, all, place, quest, Handed(c));
      QueueUnmoved(queue, place, quest, Handed(c));
      HandGrows(hand, place, c, quest);
      hand := hand[c := quest];
      place := place[quest := Handed(c)];
    }

    ghost method TakeFrom(c: FcgiConnection)
      requires Valid() && c in hand
      modifies this`hand, this`place
      ensures Valid() && hand == old(hand) - {c}
      ensures old(hand)[c] in old(place) && old(place)[old(hand)[c]] == Handed(c)
      ensures place == old(place)[old(hand)[c] := Loose]
    {
      hide Conserved, ConsOk, QueueOk, InStep;
      LooseIsOpen(hand[c]);
      MoveKeeps(place, hand[c], Loose);
      HeldDecides(this, all, place, hand[c], Loose);
      QueueUnmoved(queue, place, hand[c], Loose);
      HandShrinks(hand, place, c);
      place := place[hand[c] := Loose];
      hand := hand - {c};
    }

    /** Takes the next good connection off the idle stack, dropping those that closed meanwhile. */
    method PickIdle() returns (con: FcgiConnection?)
      requires Valid()
      modifies this`idlestack, this`idle
      ensures Valid()
      ensures con != null ==> con in all && con !in idlestack && con !in hand && Resting(con) && con.Ok()
      ensures if con == null then idlestack == [] else |idlestack| < |old(idlestack)| && con == old(idlestack)[|idlestack|]
      ensures idlestack == old(idlestack)[..|idlestack|]
      ensures forall i :: |idlestack| <= i < |old(idlestack)| && old(idlestack)[i] != con ==> !old(idlestack)[i].Ok()
      ensures idle == if old(idle) > |idlestack| then |idlestack| else old(idle)
    {
      hide Conserved, ConsOk, HandOk, IdleOk, QueueOk, Resting, InStep;
      con := null;
      while idlestack != [] && con == null
        invariant Valid()
        invariant con != null ==> con in all && con !in idlestack && con !in hand && Resting(con) && con.Ok()
        invariant con != null ==> |idlestack| < |old(idlestack)| && con == old(idlestack)[|idlestack|]
        invariant |idlestack| <= |old(idlestack)| && idlestack == old(idlestack)[..|idlestack|] && idle == old(idle)
        invariant forall i :: |idlestack| <= i < |old(idlestack)| && old(idlestack)[i] != con ==> !old(idlestack)[i].Ok()
        decreases idlestack, con == null
      {
        var c := PopIdle();
        if c.Ok() {
          con := c;
        }
      }
      if idle > |idlestack| {
        idle := |idlestack|;
      }
    }

    method Enqueue(quest: Quest)
      requires Valid() && quest in place && place[quest] == Loose
      modifies this, place.Keys`outcome
      ensures Valid() && old(all) <= all && fresh(all - old(all)) && hand == old(hand)
      ensures Capped(conmax, old(Numbers()), Numbers())
      ensures place.Keys == old(place).Keys && Fate(old(place)[quest := Queued], place, null)
    {
      hide Conserved, ConsOk, HandOk, IdleOk, QueueOk, Fate, Capped, OneOpened, KeptOrLost, InStep;
      ghost var a := Numbers();
      PushBack(quest);
      ghost var m := Numbers();
      CappedSame(conmax, a, m);
      StaysPut(place);
      if |cons| < conmax {
        var connected := NewConnection(false);
        CappedOne(conmax, m, Numbers(), false, connected);
        CappedOn(conmax, a, m, Numbers());
      }
    }

    /**
     * Accepts a quest (process, up to where it lets go of the lock): it goes
     * to an idle connection that is still good, or else into the queue.
     */
    method Process(quest: Quest) returns (con: FcgiConnection?)
      requires Valid() && NoneLoose(place) && quest !in place && quest.outcome == None
      modifies this, place.Keys`outcome, quest`outcome
      ensures Valid() && NoneLoose(place) && old(all) <= all && fresh(all - old(all))
      ensures place.Keys == old(place).Keys + {quest}
      ensures Capped(conmax, old(Numbers()), Numbers())
      ensures old(isShutdown) ==> con == null && place == old(place)[quest := Done(Error)]
      ensures con != null ==> con in hand && hand == old(hand)[con := quest] && place == old(place)[quest := Handed(con)]
      ensures !old(isShutdown) && old(idlestack) != [] && old(idlestack[|idlestack| - 1].Ok()) ==>
                con == old(idlestack)[|old(idlestack)| - 1]
      ensures con == null ==> hand == old(hand)
      ensures con == null && !old(isShutdown) ==> Fate(old(place)[quest := Queued], place, null)
    {
      hide Conserved, ConsOk, HandOk, IdleOk, QueueOk, Fate, NoneLoose, Resting, InStep, QueueFailed, Within, Capped;
      ghost var a := Numbers();
      con := null;
      if isShutdown {
        Refuse(quest);
        CappedSame(conmax, a, Numbers());
        return;
      }
      con := PickIdle();
      ghost var m := Numbers();
      CappedSame(conmax, a, m);
      if con == null {
        AcceptForQueue(quest);
        CappedOn(conmax, a, m, Numbers());
      } else {
        AcceptFor(con, quest);
        CappedSame(conmax, a, Numbers());
      }
    }

    method AcceptForQueue(quest: Quest)
      requires Valid() && NoneLoose(place) && quest !in place && quest.outcome == None
      modifies this, place.Keys`outcome, quest`outcome
      ensures Valid() && NoneLoose(place) && old(all) <= all && fresh(all - old(all)) && hand == old(hand)
      ensures Capped(conmax, old(Numbers()), Numbers())
      ensures place.Keys == old(place).Keys + {quest} && Fate(old(place)[quest := Queued], place, null)
    {
      hide Conserved, ConsOk, HandOk, IdleOk, QueueOk, Fate, NoneLoose, InStep, Capped;
      ghost var a := Numbers();
      Accept(quest);
      assert place[quest := Queued] == old(place)[quest := Queued];
      ghost var m := Numbers();
      CappedSame(conmax, a, m);
      Enqueue(quest);
      CappedOn(conmax, a, m, Numbers());
      FateSettles(old(place), quest, place);
    }

    ghost method AcceptFor(con: FcgiConnection, quest: Quest)
      requires Valid() && NoneLoose(place) && quest !in place && quest.outcome == None
      requires con in all && con !in idlestack && con !in hand && Resting(con)
      modifies this`hand, this`place
      ensures Valid() && NoneLoose(place) && place.Keys == old(place).Keys + {quest}
      ensures hand == old(hand)[con := quest] && place == old(place)[quest := Handed(con)]
    {
      hide Conserved, ConsOk, HandOk, IdleOk, QueueOk, NoneLoose, Resting, InStep;
      Accept(quest);
      SettleOne(old(place), quest, Handed(con));
      GiveTo(con, quest);
      assert place == old(place)[quest := Handed(con)];
    }

    method Refuse(quest: Quest)
      requires Valid() && NoneLoose(place) && quest !in place && quest.outcome == None
      modifies this`place, quest`outcome
      ensures Valid() && NoneLoose(place) && place == old(place)[quest := Done(Error)]
    {
      hide Conserved, ConsOk, HandOk, IdleOk, QueueOk, NoneLoose, InStep;
      SettleOne(place, quest, Done(Error));
      Accept(quest);
      FinishLoose(quest, Error);
      assert place == old(place)[quest := Done(Error)];
    }

    /** Refuses further quests and asks every connection to close in time. */
    method Shutdown()
      requires Valid() && NoneLoose(place)
      modifies this`isShutdown, this`idlestack, this`cons, cons`isShutdown
      ensures Valid() && NoneLoose(place) && isShutdown && cons == {} && idlestack == []
      ensures forall c :: c in old(cons) ==> c.isShutdown
    {
      hide ConsOk, Conserved, QueueOk, HandOk, NoneLoose, InStep;
      isShutdown := true;
      idlestack := [];
      var closing := cons;
      cons := {};
      forall c | c in closing {
        c.isShutdown := true;
      }
    }

    /** Asks one connection to close if some have been idle all the time. */
    method OnReapTimer()
      requires Valid() && NoneLoose(place)
      modifies this`idle, this`cons, cons`isShutdown
      ensures Valid() && NoneLoose(place) && cons <= old(cons)
      ensures |cons| == |old(cons)| - if old(idle) != 0 && |old(cons)| > 1 then 1 else 0
      ensures forall c :: c in old(cons) ==> c.isShutdown == (c !in cons || old(c.isShutdown))
      ensures idle == |idlestack|
    {
      hide ConsOk, Conserved, QueueOk, HandOk, IdleOk, NoneLoose, InStep;
      if idle != 0 && |cons| > 1 {
        var con :| con in cons;
        cons := cons - {con};
        con.isShutdown := true;
      }
      idle := |idlestack|;
    }

    /** The end of the pool: what still waits fails. */
    method Destroy()
      requires Valid() && NoneLoose(place)
      modifies this`queue, this`place, place.Keys`outcome
      ensures Valid() && NoneLoose(place) && queue == []
      ensures place == Failed(old(place), set q | q in old(place) && old(place)[q] == Queued)
    {
      hide ConsOk, Conserved, QueueOk, HandOk, IdleOk, InStep;
      var dropped := Abandon();
      FailAll(dropped);
    }

    /** Every accepted quest is finished, or waits, or is at one connection: one of these, and once. */
    lemma OnePlaceEach(q: Quest)
      requires Valid() && NoneLoose(place) && q in place
      ensures q.outcome != None ==>
                q !in queue && (forall c :: c in all ==> c.quest != q) && (forall c :: c in hand ==> hand[c] != q)
      ensures q.outcome == None ==>
                q in queue || (exists c :: c in all && c.quest == q) || (exists c :: c in hand && hand[c] == q)
      ensures q in queue ==> (forall c :: c in all ==> c.quest != q) && (forall c :: c in hand ==> hand[c] != q)
      ensures forall i, j :: 0 <= i < j < |queue| && queue[i] == q ==> queue[j] != q
      ensures forall c, d :: c in all && d in all && c.quest == q && d.quest == q ==> c == d
      ensures forall c, d :: c in hand && d in all && hand[c] == q ==> d.quest != q
      ensures forall c, d :: c in hand && d in hand && hand[c] == q && hand[d] == q ==> c == d
    {
      if q.outcome == None {
        match place[q] {
          case Queued => assert q in queue;
          case Held(c) => assert c in all && c.quest == q;
          case Handed(c) => assert c in hand && hand[c] == q;
          case _ =>
        }
      }
    }
  }

  class FcgiConnection {
    const client: FcgiClient
    const reqmax: nat
    const autoretry: bool
    var open: bool
    var isShutdown: bool
    var state: State
    var quest: Quest?
    var ibytes: nat
    var reqseq: nat
    var out: Out               // _oloc, and whose request _ov points into

    /** The last quest whose request was written as a whole. */
    ghost var whole: Quest?
    /** Whether an answer was ever taken while its request was still being written. */
    ghost var overtaken: bool

    constructor (client: FcgiClient, reqmax: nat, autoretry: bool, open: bool)
      ensures this.client == client && this.open == open && quest == null && state == Connect && InStep(this)
      ensures this.reqmax == reqmax && this.autoretry == autoretry && !isShutdown && ibytes == reqseq == 0 && out == AtTest
    {
      this.client, this.reqmax, this.autoretry := client, reqmax, autoretry;
      this.open, isShutdown, state, quest, ibytes, reqseq, out := open, false, Connect, null, 0, 0, AtTest;
      whole, overtaken := null, false;
    }

    predicate Ok()
      reads this`isShutdown, this`state
    {
      !isShutdown && state == Idle
    }

    ghost predicate Ready()
      reads this, client, client.all`open, client.all`quest, client.all`state, client.all`out, client.all`whole,
            client.all`overtaken, client.place.Keys`outcome
    {
      client.Valid() && this in client.all
    }

    /** Starts work on a quest. */
    method TakeUp(q: Quest)
      requires Ready() && open && quest == null && state == Idle && (out.InWrite? ==> overtaken)
      requires this !in client.idlestack && this !in client.hand
      requires q in client.place && client.place[q] == Loose
      modifies this`quest, this`state, client`place
      ensures Ready() && quest == q && state == Write && client.place == old(client.place)[q := Held(this)]
    {
      hide Conserved, QueueOk, HandOk;
      client.LooseIsOpen(q);
      MoveKeeps(client.place, q, Held(this));
      QueueUnmoved(client.queue, client.place, q, Held(this));
      HandUnmoved(client.hand, client.place, q, Held(this));
      quest := q;
      state := Write;
      client.place := client.place[q := Held(this)];
    }

    /** Gives its quest up to running code. */
    method LetGo() returns (q: Quest)
      requires Ready() && quest != null
      modifies this`quest, client`place
      ensures Ready() && quest == null && q == old(quest) && q in old(client.place)
      ensures old(client.place)[q] == Held(this) && client.place == old(client.place)[q := Loose]
    {
      hide Conserved, QueueOk, HandOk;
      q := quest;
      client.LooseIsOpen(q);
      MoveKeeps(client.place, q, Loose);
      QueueUnmoved(client.queue, client.place, q, Loose);
      HandUnmoved(client.hand, client.place, q, Loose);
      quest := null;
      client.place := client.place[q := Loose];
    }

    method MarkClosed()
      requires Ready() && open && quest == null
      modifies this`open, this`state
      ensures Ready() && !open && state == Closed
    {
      hide Conserved, QueueOk, HandOk;
      open := false;
      state := Closed;
    }

    method Shut() returns (q: Quest?)
      requires Ready() && open
      modifies this`open, this`state, this`quest, client`place
      ensures Ready() && !open && state == Closed && quest == null && q == old(quest)
      ensures q == null ==> client.place == old(client.place)
      ensures q != null ==> q in old(client.place) && old(client.place)[q] == Held(this) &&
                            client.place == old(client.place)[q := Loose]
    {
      hide Conserved, QueueOk, HandOk, ConsOk, IdleOk, InStep;
      q := null;
      if quest != null {
        q := LetGo();
      }
      MarkClosed();
    }

    lemma ClosedHasNone()
      requires Ready()
      ensures !open ==> quest == null
      ensures state == Idle ==> open
      ensures quest != null ==> this !in client.idlestack && this !in client.hand
      ensures quest != null ==> quest in client.place && client.place[quest] == Held(this) && (state == Write || state == Read)
      ensures state == Connect ==> this !in client.idlestack && this !in client.hand
    {
    }

    /**
     * Closes the descriptor once. The quest, if any, goes back to the front of
     * the queue, whether it is marked for retry or not, unless this failure
     * and the connects that fail at once are too many; then all that wait fail.
     */
    method DoClose()
      requires Ready() && NoneLoose(client.place)
      modifies this`open, this`state, this`quest, client, client.place.Keys`outcome
      ensures Ready() && NoneLoose(client.place) && Grows(old(client.place), client.place)
      ensures !open && quest == null && client.place.Keys == old(client.place).Keys
      ensures old(client.all) <= client.all && old(client.cons) - {this} <= client.cons
      ensures var a := old(client.Numbers());
              var m := a.(count := |old(client.cons) - {this}|, waiting := |Waiting(old(quest), old(client.queue))|);
              && Onward(a, client.Numbers()) && Capped(client.conmax, a, client.Numbers())
              && (old(open) ==> Opened(client.conmax, m, client.Numbers(), 1))
      ensures old(open) ==> state == Closed
      ensures old(open) && Within(old(client.errCount), old(client.conCount), 1 + client.refused - old(client.refused)) ==>
                client.queue == Waiting(old(quest), old(client.queue)) && client.place == Pushed(old(client.place), old(quest))
      ensures old(open) && !Within(old(client.errCount), old(client.conCount), 1 + client.refused - old(client.refused)) ==>
                client.queue == [] && QueueFailed(old(client.place), client.place, old(quest))
      ensures !old(open) ==> client.place == old(client.place) && state == old(state)
    {
      hide Conserved, QueueOk, HandOk, ConsOk, IdleOk, Fate, NoneLoose, Grows, QueueFailed, InStep, Opened, Capped, Pushed, Waiting;
      hide Onward, Within;
      GrowsSelf(client.place);
      ClosedHasNone();
      NothingHappened(client.conmax, client.Numbers());
      ghost var before := client.place;
      if open {
        // The code clears its quest only after the release, still under its lock.
        var q := Shut();
        ghost var loose := client.place;
        client.Release(this, q);
        ClosedOutcome(Within(old(client.errCount), old(client.conCount), 1 + client.refused - old(client.refused)),
                      before, loose, client.place, q);
      }
    }

    method Connected()
      requires Ready() && open && state == Connect
      modifies this`state
      ensures Ready() && state == Idle && quest == null && !out.InWrite?
    {
      hide Conserved, QueueOk, HandOk;
      assert this !in client.idlestack && this !in client.hand && quest == null;
      state := Idle;
    }

    /** A connection just established asks for a quest. */
    method Established()
      requires Ready() && open && state == Connect && NoneLoose(client.place)
      modifies this`state, this`quest, client
      ensures Ready() && NoneLoose(client.place) && Grows(old(client.place), client.place)
      ensures client.place.Keys == old(client.place).Keys
      ensures client.all == old(client.all) && client.cons == old(client.cons) && client.listening == old(client.listening)
      ensures client.errCount == 0 && client.conCount == |client.cons| && client.refused == old(client.refused)
      ensures client.fates == old(client.fates) && client.early == old(client.early)
      ensures quest == null ==> state == Idle && client.place == old(client.place) && client.queue == old(client.queue)
      ensures quest != null ==> state == Write && quest in client.place && client.place[quest] == Held(this)
      ensures quest == null <==> old(client.queue) == []
      ensures quest != null ==> [quest] + client.queue == old(client.queue) && client.place == old(client.place)[quest := Held(this)]
    {
      hide Conserved, QueueOk, HandOk, ConsOk, IdleOk, InStep, Fate, NoneLoose, Grows;
      GrowsSelf(client.place);
      ghost var before := client.place;
      ClosedHasNone();
      Connected();
      var q := client.GetQuestOrPutback(this);
      if q != null {
        SettleOne(before, q, Held(this));
        GrowsByOne(before, q, Held(this));
        TakeUp(q);
        assert client.place == before[q := Held(this)];
      }
    }

    /** Whether do_write has something to write: a suspended write goes on without a look at quest and state. */
    predicate HasToWrite()
      reads this`out, this`quest, this`state
    {
      out.InWrite? || (out.AtTest? && quest != null && state == Write)
    }

    /** One attempt to write what there is to write; io is what the socket does. */
    method Resume(io: WriteResult) returns (rc: int)
      requires Ready() && state != Connect
      modifies this`state, this`ibytes, this`out, this`whole
      ensures Ready() && state != Connect
      ensures var result := if old(open) then io else WriteFailed;
              if old(out.Ended?) || (old(HasToWrite()) && result.WriteFailed?) then rc == -1 && out.Ended? && state == old(state)
              else if old(HasToWrite()) && result.WroteAll? then
                rc == 1 && out == AtTest && state == Read && ibytes == 0 &&
                whole == if old(out.InWrite?) then old(out).of else old(quest)
              else rc == 0 && state == old(state) && out == if old(HasToWrite()) && old(out.AtTest?) then InWrite(old(quest)) else old(out)
    {
      hide Conserved, QueueOk, HandOk, ConsOk, IdleOk, InStep;
      ClosedHasNone();
      if out.Ended? {
        return -1;
      }
      if out.AtTest? {
        if quest == null || state != Write {
          return 0;
        }
        Begin();
      }
      if !open || io.WriteFailed? {
        Break();
        return -1;
      }
      if io.WrotePart? {
        return 0;
      }
      Sent();
      return 1;
    }

    /** The request of the quest in hand is to be written. */
    method Begin()
      requires Ready() && out.AtTest? && quest != null && state == Write
      modifies this`out
      ensures Ready() && out == InWrite(quest)
    {
      hide Conserved, QueueOk, HandOk, ConsOk;
      out := InWrite(quest);
    }

    method Break()
      requires Ready() && state != Connect
      modifies this`out
      ensures Ready() && out == Ended
    {
      hide Conserved, QueueOk, HandOk, ConsOk;
      out := Ended;
    }

    /** The request has been written as a whole. */
    method Sent()
      requires Ready() && open && state != Connect && out.InWrite?
      modifies this`state, this`ibytes, this`out, this`whole
      ensures Ready() && state == Read && ibytes == 0 && out == AtTest && whole == old(out).of
    {
      hide Conserved, QueueOk, HandOk, ConsOk, IdleOk, InStep;
      MustBeOvertaken();
      Flushed();
      ibytes := 0;
      Await();
    }

    lemma MustBeOvertaken()
      requires Ready() && out.InWrite?
      ensures this in client.idlestack || this in client.hand ==> overtaken
    {
    }

    method Flushed()
      requires Ready() && state != Connect && out.InWrite?
      modifies this`out, this`whole
      ensures Ready() && out == AtTest && whole == old(out).of && (quest != null && !overtaken ==> whole == quest)
    {
      hide Conserved, QueueOk, HandOk, ConsOk;
      whole := out.of;
      out := AtTest;
    }

    method Await()
      requires Ready() && open && state != Connect && out == AtTest && (quest != null && !overtaken ==> whole == quest)
      requires this in client.idlestack || this in client.hand ==> overtaken
      modifies this`state
      ensures Ready() && state == Read
    {
      hide Conserved, QueueOk, HandOk;
      state := Read;
    }

    /** do_write: a new connection first takes a quest. */
    method DoWrite(io: WriteResult) returns (rc: int)
      requires Ready() && (state == Connect ==> open) && NoneLoose(client.place)
      modifies this`state, this`quest, this`ibytes, this`out, this`whole, client
      ensures Ready() && NoneLoose(client.place) && Grows(old(client.place), client.place)
      ensures client.place.Keys == old(client.place).Keys
      ensures client.all == old(client.all) && client.cons == old(client.cons)
      ensures client.listening == old(client.listening) && client.refused == old(client.refused)
      ensures client.fates == old(client.fates) && client.early == old(client.early)
      ensures state != Connect
      ensures old(state) != Connect ==>
                quest == old(quest) && client.place == old(client.place) && client.queue == old(client.queue) &&
                client.errCount == old(client.errCount) && client.conCount == old(client.conCount) &&
                client.idlestack == old(client.idlestack) && client.hand == old(client.hand) &&
                (rc < 0 <==> old(WriteFails(io)))
      ensures old(state) != Connect && old(HasToWrite()) && io.WroteAll? && open ==>
                state == Read && whole == if old(out.InWrite?) then old(out).of else quest
      ensures old(state) == Connect ==>
                client.errCount == 0 && client.conCount == |client.cons| &&
                (quest == null <==> old(client.queue) == []) && (rc < 0 <==> quest != null && io.WriteFailed?)
      ensures old(state) == Connect && quest != null ==>
                [quest] + client.queue == old(client.queue) && client.place == old(client.place)[quest := Held(this)]
    {
      hide Conserved, QueueOk, HandOk, ConsOk, IdleOk, Fate, NoneLoose, Grows, Resting;
      GrowsSelf(client.place);
      if state == Connect {
        Established();
      }
      rc := Resume(io);
    }

    predicate WriteFails(io: WriteResult)
      reads this`out, this`quest, this`state, this`open
    {
      out.Ended? || (HasToWrite() && (io.WriteFailed? || !open))
    }

    /** Starts a quest in hand on this connection (_operate). */
    method OperateLoose(q: Quest, io: WriteResult)
      requires Ready() && quest == null && (state == Idle || state == Closed) && (out.InWrite? ==> overtaken)
      requires this !in client.idlestack && this !in client.hand
      requires q in client.place && client.place[q] == Loose
      requires OnlyLoose(client.place, q)
      modifies this`open, this`state, this`quest, this`ibytes, this`out, this`whole, client, client.place.Keys`outcome
      ensures Ready() && NoneLoose(client.place) && Grows(old(client.place), client.place)
      ensures client.place.Keys == old(client.place).Keys
      ensures state != Connect
      ensures Capped(client.conmax, old(client.Numbers()), client.Numbers())
      ensures old(state) == Idle && old(out.InWrite?) && io.WroteAll? ==> quest == q && state == Read && whole == old(out).of
    {
      hide Conserved, QueueOk, HandOk, Fate, NoneLoose, Grows, QueueFailed, ConsOk, IdleOk, InStep, Capped, Onward, Opened;
      ghost var a := client.Numbers();
      ghost var before := client.place;
      if state == Closed {
        client.Release(this, q);
        FateGrows(before, client.place, q);
      } else {
        ClosedHasNone();
        TakeUp(q);
        OnlyOneLoose(before, q, Held(this));
        GrowsByOne(before, q, Held(this));
        ghost var mid := client.place;
        var rc := DoWrite(io);
        ghost var m := client.Numbers();
        CappedSame(client.conmax, a, m);
        GrowsOn(before, mid, client.place);
        if rc < 0 {
          ghost var late := client.place;
          DoClose();
          CappedOn(client.conmax, a, m, client.Numbers());
          GrowsOn(before, late, client.place);
        }
      }
    }

    /**
     * The second half of process, once this connection is locked. ok is the
     * assertion there that the connection, unless closed, is idle; where it
     * fails nothing is done.
     */
    method Operate(q: Quest, io: WriteResult) returns (ok: bool)
      requires Ready() && NoneLoose(client.place) && this in client.hand && client.hand[this] == q
      modifies this`open, this`state, this`quest, this`ibytes, this`out, this`whole, client, client.place.Keys`outcome
      ensures Ready() && NoneLoose(client.place) && Grows(old(client.place), client.place)
      ensures client.place.Keys == old(client.place).Keys
      ensures Capped(client.conmax, old(client.Numbers()), client.Numbers())
      ensures ok <==> old(state) != Read
      ensures !ok ==> overtaken && client.place == old(client.place)
    {
      hide Conserved, QueueOk, ConsOk, Fate, Grows, NoneLoose, OnlyLoose, InStep, Capped;
      ghost var a := client.Numbers();
      ghost var before := client.place;
      GrowsSelf(before);
      assert Resting(this) && this !in client.idlestack;
      if state == Read {
        CappedSame(client.conmax, a, client.Numbers());
        return false;
      }
      client.TakeFrom(this);
      GrowsByOne(before, q, Loose);
      NoOtherLoose(before, q);
      ghost var mid := client.place;
      ghost var m := client.Numbers();
      CappedSame(client.conmax, a, m);
      OperateLoose(q, io);
      CappedOn(client.conmax, a, m, client.Numbers());
      GrowsOn(before, mid, client.place);
      return true;
    }

    /** Finishes the quest it holds. */
    method FinishQuest(o: Outcome)
      requires Ready() && NoneLoose(client.place) && quest != null
      modifies this`quest, client`place, quest`outcome
      ensures Ready() && NoneLoose(client.place) && Grows(old(client.place), client.place) && quest == null
      ensures old(quest) in old(client.place) && old(client.place)[old(quest)] == Held(this)
      ensures client.place == old(client.place)[old(quest) := Done(o)]
    {
      hide Conserved, QueueOk, HandOk, ConsOk, IdleOk, NoneLoose, Grows, InStep;
      ghost var before := client.place;
      var q := LetGo();
      client.FinishLoose(q, o);
      SettleOne(before, q, Done(o));
      GrowsByOne(before, q, Done(o));
      assert client.place == before[q := Done(o)];
    }

    /** What do_read resets; not where a write was suspended. */
    method GoIdle()
      requires Ready() && open && quest == null && this !in client.idlestack && this !in client.hand && state != Connect
      modifies this`state, this`ibytes, this`reqseq, this`overtaken
      ensures Ready() && state == Idle && reqseq == old(reqseq) + 1 && overtaken == (old(overtaken) || out.InWrite?)
      ensures ibytes == 0
    {
      hide Conserved, QueueOk, HandOk;
      overtaken := overtaken || out.InWrite?;
      ibytes := 0;
      state := Idle;
      reqseq := reqseq + 1;
    }

    /** Whether the quest in hand can be tried again: nothing read, its request not known to be sent, and not marked before. */
    predicate SafeToRetry(read: nat)
      requires quest != null
      reads this`quest, this`state, quest`retry
    {
      autoretry && state != Read && read == 0 && !quest.retry
    }

    /** Reading failed: the quest is marked for a retry if that is safe, and fails otherwise. */
    method ReadFailed()
      requires Ready() && NoneLoose(client.place)
      modifies this`quest, client`place, if quest == null then {} else {quest}
      ensures Ready() && NoneLoose(client.place) && Grows(old(client.place), client.place)
      ensures client.place.Keys == old(client.place).Keys
      ensures old(quest) == null ==> quest == null && client.place == old(client.place)
      ensures old(quest) != null ==>
                if old(SafeToRetry(ibytes)) then quest == old(quest) && quest.retry && client.place == old(client.place)
                else quest == null && client.place == old(client.place)[old(quest) := Done(Error)]
    {
      hide Conserved, QueueOk, HandOk, ConsOk, IdleOk, NoneLoose, Grows, InStep;
      GrowsSelf(client.place);
      ClosedHasNone();
      if quest != null {
        if state != Read && ibytes == 0 && !quest.retry && autoretry {
          quest.retry := true;
        } else {
          FinishQuest(Error);
        }
      }
    }

    /** An idle connection asks for the next quest. */
    method AskForNext(io: WriteResult)
      requires Ready() && NoneLoose(client.place) && open && quest == null && state == Idle && (out.InWrite? ==> overtaken)
      requires this !in client.idlestack && this !in client.hand
      modifies this`open, this`state, this`quest, this`ibytes, this`out, this`whole, client, client.place.Keys`outcome
      ensures Ready() && NoneLoose(client.place) && Grows(old(client.place), client.place)
      ensures client.place.Keys == old(client.place).Keys && state != Connect
      ensures Capped(client.conmax, old(client.Numbers()), client.Numbers())
      ensures old(client.queue) == [] ==>
                open && quest == null && state == Idle && out == old(out) && client.queue == [] &&
                client.idlestack == old(client.idlestack) + (if old(client.isShutdown) then [] else [this]) &&
                client.place == old(client.place) && client.isShutdown == old(client.isShutdown)
      ensures old(client.queue) != [] && old(out.InWrite?) && io.WroteAll? ==>
                quest == old(client.queue)[0] && state == Read && whole == old(out).of
    {
      hide Conserved, QueueOk, HandOk, ConsOk, IdleOk, NoneLoose, OnlyLoose, Grows, Resting, InStep, Capped;
      ghost var a := client.Numbers();
      ghost var before := client.place;
      GrowsSelf(before);
      var q := client.GetQuestOrPutback(this);
      ghost var m := client.Numbers();
      CappedSame(client.conmax, a, m);
      if q != null {
        ghost var mid := client.place;
        NoOtherLoose(before, q);
        GrowsByOne(before, q, Loose);
        OperateLoose(q, io);
        CappedOn(client.conmax, a, m, client.Numbers());
        GrowsOn(before, mid, client.place);
      }
    }

    /**
     * The answer is complete: the quest is done and the connection asks for
     * the next. A write that was suspended stays so, with nothing or the next
     * quest in hand.
     */
    method Answered(io: WriteResult) returns (rc: int)
      requires Ready() && NoneLoose(client.place) && open && quest != null
      modifies this, client, client.place.Keys`outcome
      ensures Ready() && NoneLoose(client.place) && Grows(old(client.place), client.place)
      ensures client.place.Keys == old(client.place).Keys
      ensures Capped(client.conmax, old(client.Numbers()), client.Numbers())
      ensures old(quest) in client.place && client.place[old(quest)] == Done(Answer)
      ensures state != Connect && (rc < 0 ==> open)
      ensures isShutdown == old(isShutdown) && reqseq == old(reqseq) + 1
      ensures overtaken == (old(overtaken) || old(out.InWrite?))
      ensures reqseq < reqmax && old(client.queue) == [] && !old(client.isShutdown) ==>
                rc == 1 && open && quest == null && state == Idle && out == old(out) && client.queue == [] &&
                client.idlestack == old(client.idlestack) + [this] && !client.isShutdown &&
                client.place == old(client.place)[old(quest) := Done(Answer)]
      ensures reqseq < reqmax && old(client.queue) != [] && old(out.InWrite?) && io.WroteAll? ==>
                quest == old(client.queue)[0] && state == Read && whole == old(out).of
    {
      hide Conserved, QueueOk, HandOk, ConsOk, IdleOk, NoneLoose, OnlyLoose, Grows, Resting, InStep, Capped;
      ghost var a := client.Numbers();
      ClosedHasNone();
      FinishQuest(Answer);
      GoIdle();
      ghost var m := client.Numbers();
      CappedSame(client.conmax, a, m);
      if reqseq >= reqmax {
        return -1;
      }
      ghost var before := client.place;
      AskForNext(io);
      CappedOn(client.conmax, a, m, client.Numbers());
      GrowsOn(old(client.place), before, client.place);
      DoneStays(before, old(quest), client.place);
      return 1;
    }

    /** Reading came to an end that is not an answer to the quest in hand. */
    predicate Fails(r: ReadResult) {
      r.Broken? || (r.Complete? && r.pending)
    }

    /** One round of reading; io is for a write of the next quest. */
    method DoRead(r: ReadResult, io: WriteResult) returns (rc: int)
      requires Ready() && NoneLoose(client.place) && (state == Connect ==> open)
      modifies this, client, client.place.Keys
      ensures Ready() && NoneLoose(client.place) && Grows(old(client.place), client.place)
      ensures client.place.Keys == old(client.place).Keys
      ensures state == Connect ==> open
      ensures Capped(client.conmax, old(client.Numbers()), client.Numbers())
      ensures isShutdown == old(isShutdown)
      ensures r.Complete? && !r.pending && old(quest) != null ==>
                client.place[old(quest)] == Done(Answer) && overtaken == (old(overtaken) || old(out.InWrite?))
      ensures !(r.Complete? && !r.pending && old(quest) != null) ==>
                (rc == if r.Paused? then 0 else -1) && state == old(state) && open == old(open) && out == old(out) &&
                overtaken == old(overtaken) && ibytes == old(ibytes) + r.n &&
                unchanged(client`queue, client`errCount, client`conCount, client`refused, client`listening)
      ensures r.Paused? || old(quest) == null ==> quest == old(quest) && client.place == old(client.place)
      ensures Fails(r) && old(quest) != null ==>
                if old(SafeToRetry(ibytes + r.n)) then quest == old(quest) && quest.retry && client.place == old(client.place)
                else quest == null && client.place == old(client.place)[old(quest) := Done(Error)]
    {
      hide Conserved, QueueOk, HandOk, ConsOk, IdleOk, NoneLoose, OnlyLoose, Grows, Resting, InStep, Capped;
      NothingHappened(client.conmax, client.Numbers());
      ghost var a := client.Numbers();
      GrowsSelf(client.place);
      ClosedHasNone();
      ibytes := ibytes + r.n;
      match r {
        case Paused(_) =>
          return 0;
        case Complete(_, pending) =>
          if quest != null && !pending {
            rc := Answered(io);
            return;
          }
        case Broken(_) =>
      }
      ReadFailed();
      CappedSame(client.conmax, a, client.Numbers());
      rc := -1;
    }

    /** Whether the event says that reading failed. */
    predicate ReadFails(read: Option<ReadResult>) {
      read.Some? && Fails(read.value)
    }

    predicate Answers(read: Option<ReadResult>) {
      read.Some? && read.value.Complete? && !read.value.pending
    }

    /** event_on_fd up to where it may close. */
    method ReadAndWrite(read: Option<ReadResult>, closed: bool, writable: bool, next: WriteResult, io: WriteResult)
      returns (shouldClose: bool)
      requires Ready() && NoneLoose(client.place) && (state == Connect ==> open)
      modifies this, client, client.place.Keys
      ensures Ready() && NoneLoose(client.place) && Grows(old(client.place), client.place)
      ensures client.place.Keys == old(client.place).Keys
      ensures Capped(client.conmax, old(client.Numbers()), client.Numbers())
      ensures old(quest) != null && Answers(read) ==> client.place[old(quest)] == Done(Answer)
      ensures old(quest) != null && !Answers(read) ==>
                && unchanged(client`errCount, client`conCount, client`refused)
                && (shouldClose <==> ReadFails(read) || closed || (writable && old(WriteFails(io))))
                && if ReadFails(read) && !old(SafeToRetry(ibytes + read.value.n)) then client.place[old(quest)] == Done(Error)
                   else quest == old(quest) && client.place[old(quest)] == Held(this)
    {
      hide Conserved, QueueOk, HandOk, ConsOk, IdleOk, NoneLoose, OnlyLoose, Grows, Fate, Resting, InStep, QueueFailed, Capped, Onward, Opened;
      ghost var a := client.Numbers();
      NothingHappened(client.conmax, a);
      GrowsSelf(client.place);
      ClosedHasNone();
      shouldClose := false;
      if read.Some? {
        var rc := DoRead(read.value, next);
        if rc < 0 {
          shouldClose := true;
        }
      }
      if closed {
        shouldClose := true;
      }
      ghost var mid, n := client.place, client.Numbers();
      if !shouldClose && writable {
        shouldClose := WriteRound(io);
        GrowsOn(old(client.place), mid, client.place);
        FateInHand(mid, client.place, old(quest));
        CappedOn(client.conmax, a, n, client.Numbers());
      }
    }

    /** One round of writing. */
    method WriteRound(io: WriteResult) returns (failed: bool)
      requires Ready() && (state == Connect ==> open) && NoneLoose(client.place)
      modifies this`state, this`quest, this`ibytes, this`out, this`whole, client
      ensures Ready() && NoneLoose(client.place) && Grows(old(client.place), client.place)
      ensures client.place.Keys == old(client.place).Keys
      ensures Capped(client.conmax, old(client.Numbers()), client.Numbers())
      ensures old(quest) != null ==>
                && quest == old(quest) && client.place == old(client.place) && unchanged(client`errCount, client`conCount, client`refused)
                && (failed <==> old(WriteFails(io)))
    {
      hide Conserved, QueueOk, HandOk, ConsOk, IdleOk, NoneLoose, OnlyLoose, Grows, Fate, Resting, QueueFailed, Capped, Onward, Opened;
      ghost var n := client.Numbers();
      ConnectHasNone();
      var rc := DoWrite(io);
      CappedSame(client.conmax, n, client.Numbers());
      failed := rc < 0;
    }

    lemma ConnectHasNone()
      requires Ready()
      ensures state == Connect ==> quest == null
    {
    }

    /**
     * What the dispatcher reports of the descriptor; a late event may find it
     * closed. A quest in hand is finished by its answer, fails if reading does
     * and it is not safe to try it again, and otherwise goes back to the pool
     * if the connection closes, marked or not, or stays.
     */
    method EventOnFd(read: Option<ReadResult>, closed: bool, writable: bool, next: WriteResult, io: WriteResult)
      requires Ready() && NoneLoose(client.place) && (state == Connect ==> open)
      modifies this, client, client.place.Keys
      ensures Ready() && NoneLoose(client.place) && Grows(old(client.place), client.place)
      ensures client.place.Keys == old(client.place).Keys
      ensures Capped(client.conmax, old(client.Numbers()), client.Numbers())
      ensures old(quest) != null ==>
                var q := old(quest);
                if Answers(read) then client.place[q] == Done(Answer)
                else if ReadFails(read) && !old(SafeToRetry(ibytes + read.value.n)) then client.place[q] == Done(Error)
                else if ReadFails(read) || closed || (writable && old(WriteFails(io))) then
                  client.place[q] ==
                    if Within(old(client.errCount), old(client.conCount), 1 + client.refused - old(client.refused)) then Queued
                    else Done(Error)
                else quest == q && client.place[q] == Held(this)
    {
      hide Conserved, QueueOk, HandOk, ConsOk, IdleOk, NoneLoose, OnlyLoose, Grows, Fate, Resting, InStep, QueueFailed, Capped, Onward, Opened;
      ghost var a := client.Numbers();
      ClosedHasNone();
      var shouldClose := ReadAndWrite(read, closed, writable, next, io);
      ghost var late, m := client.place, client.Numbers();
      ClosedHasNone();
      if shouldClose {
        DoClose();
        GrowsOn(old(client.place), late, client.place);
        FateInHand(late, client.place, old(quest));
        CappedOn(client.conmax, a, m, client.Numbers());
      }
    }

    /**
     * Unless an answer overtook its request, a connection that process has
     * given a quest is idle or closed, and an answer is awaited only for a
     * request that was written as a whole.
     */
    lemma InStepUnlessOvertaken()
      requires Ready() && !overtaken
      ensures this in client.hand || this in client.idlestack ==> (state == Idle || state == Closed) && !out.InWrite?
      ensures quest != null && state == Read ==> whole == quest
      ensures quest != null && out.InWrite? ==> out.of == quest
    {
    }

    /**
     * What an overtaking answer does to an idle pool, whatever its state: the
     * next quest is given to this connection, the suspended write comes to its
     * end before the quest is started, and the assertion of _operate fails.
     */
    method OvertakenMeetsAssertion(q: Quest) returns (ok: bool)
      requires Ready() && NoneLoose(client.place) && open && state == Write && quest != null && out.InWrite?
      requires !isShutdown && reqseq + 1 < reqmax && client.queue == [] && !client.isShutdown
      requires q !in client.place && q.outcome == None
      modifies this, client, client.place.Keys, q`outcome
      ensures !ok
    {
      hide Conserved, QueueOk, HandOk, ConsOk, IdleOk, NoneLoose, Grows, Fate, Resting, InStep, QueueFailed;
      var rc := Answered(WrotePart);
      var con := client.Process(q);
      assert con == this;
      rc := Resume(WroteAll);
      ok := Operate(q, WroteAll);
    }

    /** And with a quest waiting: it counts as sent although its request was never written. */
    method OvertakenIsNotSent() returns (next: Quest)
      requires Ready() && NoneLoose(client.place) && open && state == Write && quest != null && out.InWrite?
      requires reqseq + 1 < reqmax && client.queue != []
      modifies this, client, client.place.Keys`outcome
      ensures next == old(client.queue[0]) && quest == next && state == Read && whole == old(out).of
      ensures !old(overtaken) ==> whole != next
    {
      hide Conserved, QueueOk, HandOk, ConsOk, IdleOk, NoneLoose, Grows, Resting;
      next := client.queue[0];
      QueuedIsNotHeld();
      var rc := Answered(WroteAll);
    }

    lemma QueuedIsNotHeld()
      requires Ready() && quest != null
      ensures quest !in client.queue
      ensures !overtaken && out.InWrite? ==> out.of == quest
    {
    }

    /** The time for the connect or for the answer is over: no retry. */
    method EventOnTask()
      requires Ready() && NoneLoose(client.place)
      modifies this, client, client.place.Keys`outcome
      ensures Ready() && NoneLoose(client.place) && Grows(old(client.place), client.place)
      ensures client.place.Keys == old(client.place).Keys
      ensures Capped(client.conmax, old(client.Numbers()), client.Numbers())
      ensures old(quest) != null ==> client.place[old(quest)] == Done(Error)
      ensures !open && quest == null
    {
      hide Conserved, QueueOk, HandOk, ConsOk, IdleOk, NoneLoose, Grows, Fate, Resting, InStep, QueueFailed, Capped, Onward, Opened;
      ghost var a := client.Numbers();
      GrowsSelf(client.place);
      ClosedHasNone();
      if quest != null {
        FinishQuest(Error);
      }
      ghost var mid := client.place;
      ghost var m := client.Numbers();
      CappedSame(client.conmax, a, m);
      DoClose();
      CappedOn(client.conmax, a, m, client.Numbers());
      GrowsOn(old(client.place), mid, client.place);
      if old(quest) != null {
        DoneStays(mid, old(quest), client.place);
      }
    }
  }

  /**
   * "At most once" is not for a whole life: a quest, marked for retry or not,
   * goes back to the queue whenever its request cannot be written, here twice.
   */
  method RequeuedTwice(client: FcgiClient, c: FcgiConnection, d: FcgiConnection, q: Quest)
    requires c.client == d.client == client && c.Ready() && d.Ready() && NoneLoose(client.place)
    requires c != d && c in client.cons && d in client.cons && client.listening && client.fates == [] && client.queue == [q]
    requires c.open && d.open && c.state == d.state == Connect
    modifies client, c, d, client.place.Keys`outcome
    ensures client.Valid() && NoneLoose(client.place) && client.queue == [q]
    ensures q in client.place && client.place[q] == Queued && q.outcome == None && !c.open && !d.open
  {
    RequeuedOnce(client, c, q);
    RequeuedOnce(client, d, q);
  }

  /** A new connection takes up the only quest, fails to write it and closes: the quest is queued again. */
  method RequeuedOnce(client: FcgiClient, c: FcgiConnection, q: Quest)
    requires c.client == client && c.Ready() && NoneLoose(client.place)
    requires c in client.cons && client.listening && client.fates == [] && client.queue == [q] && c.open && c.state == Connect
    modifies client, c, client.place.Keys`outcome
    ensures client.Valid() && NoneLoose(client.place) && client.queue == [q] && client.listening && client.fates == []
    ensures q in client.place && client.place[q] == Queued && q.outcome == None
    ensures !c.open && old(client.all) <= client.all && old(client.cons) - {c} <= client.cons
    ensures client.place.Keys == old(client.place).Keys
  {
    hide Conserved, QueueOk, HandOk, ConsOk, IdleOk, NoneLoose, Grows, Resting, InStep, QueueFailed;
    var rc := c.DoWrite(WriteFailed);
    assert ([c.quest] + client.queue)[0] == q;
    assert client.conCount >= 1 by { assert c in client.cons; }
    c.DoClose();
    client.LooseIsOpen(q);
  }

  /**
   * The maximum is not kept when a connect fails at once and more were to be
   * opened: the release opens as many anew, and the loop then goes on. With a
   * maximum of two, one connection that closes and two quests that wait,
   * there are three connections in the end.
   */
  method OverTheMaximum(client: FcgiClient, c: FcgiConnection)
    requires c.client == client && c.Ready() && NoneLoose(client.place)
    requires c.open && c in client.cons && |client.cons| <= client.conmax && client.errCount + 2 <= client.conCount
    requires var n := client.conmax + 1 - |client.cons|; n >= 2 && |client.queue| >= n && FirstFails(client.fates, n)
    modifies client, c, client.place.Keys`outcome
    ensures |client.cons| == 2 * client.conmax - old(|client.cons|) > client.conmax
  {
    hide Conserved, QueueOk, HandOk, ConsOk, IdleOk, NoneLoose, Grows, Resting, InStep, QueueFailed, Onward, Capped;
    ghost var m := client.Numbers().(count := |client.cons - {c}|, waiting := |Waiting(c.quest, client.queue)|);
    assert |client.cons - {c}| == |client.cons| - 1;
    c.DoClose();
    assert Opened(client.conmax, m, client.Numbers(), 1);
  }
}
