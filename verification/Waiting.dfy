/** A synchronous submitter and the queue: its transfer is queued alone, events happen while it waits,
    and it finds the transfer finished or gives up. */
module Waiting {
  import opened Extents
  import opened EngineQueue
  import opened QueueProtocol
  import opened Completion

  /** The submitter holds the descriptor lock, so nobody queues or aborts meanwhile; a count is a 32-bit register. */
  predicate WhileWaiting(e: Event) {
    match e
    case Serviced(r) => r.wbCount < TWO_32 && r.count < TWO_32
    case WentOffline => true
    case WentOnline => true
    case _ => false
  }

  ghost predicate AllWhileWaiting(es: seq<Event>) {
    forall i :: 0 <= i < |es| ==> WhileWaiting(es[i])
  }

  /** The queue after the events. */
  function Attend(q: Queue, es: seq<Event>): Queue
    requires AllWhileWaiting(es)
    decreases |es|
  {
    if es == [] then q else Attend(Next(q, es[0]), es[1..])
  }

  /** What the events make of a transfer of n descriptors that is queued alone on an engine started with
      status s. Submitted means that nobody ever decides. */
  function Fate(n: nat, s: Status, es: seq<Event>): TransferState
    decreases |es|
  {
    if es == [] then Submitted
    else
      match es[0]
      case Serviced(r) =>
        var read := if r.wbCount == 0 || r.wbError then r.status else s;
        if r.wbCount > 0 then Decision(n, r.wbCount, read.error)
        else if r.count > 0 then Decision(n, r.count, read.error)
        else if read.busy then Fate(n, read, es[1..]) else Submitted
      case WentOffline => Submitted
      case _ => Fate(n, s, es[1..])
  }

  /** The write-back, or without one the register, counts n descriptors or more. */
  predicate SawAtLeast(r: Report, n: nat) {
    r.wbCount >= n || (r.wbCount == 0 && r.count >= n)
  }

  /** Only a service call that saw all descriptors completes a transfer. */
  lemma {:induction false} CompletedWasSeen(n: nat, s: Status, es: seq<Event>)
    requires Fate(n, s, es) == Completed
    ensures exists i :: 0 <= i < |es| && es[i].Serviced? && SawAtLeast(es[i].report, n)
    decreases |es|
  {
    match es[0]
    case Serviced(r) =>
      if r.wbCount == 0 && r.count == 0 {
        CompletedWasSeen(n, r.status, es[1..]);
        var i :| 0 <= i < |es[1..]| && es[1..][i].Serviced? && SawAtLeast(es[1..][i].report, n);
        assert es[i + 1] == es[1..][i];
      }
    case WentOffline =>
    case _ =>
      CompletedWasSeen(n, s, es[1..]);
      var i :| 0 <= i < |es[1..]| && es[1..][i].Serviced? && SawAtLeast(es[1..][i].report, n);
      assert es[i + 1] == es[1..][i];
  }

  /** Queued alone on a running engine. */
  ghost predicate Alone(q: Queue, x: Xfer) {
    q.list == [x] && q.running && q.dequeued == 0 && Waits(x, q.states)
  }

  /** What c > 0 completed descriptors make of a lone transfer of n. */
  function Decision(n: nat, c: nat, error: bool): TransferState {
    if c > n then Completed else if error || c < n then Failed else Completed
  }

  /** The two stages take a lone transfer out of the queue with the state it deserves. */
  lemma OneUnfolds(q: Queue, x: Xfer, c: nat)
    requires q.list == [x] && x.id in q.states && c > 0
    ensures
      var q' := ServiceBoth(q, c);
      q'.list == [] && q'.states == q.states[x.id := Decision(x.descNum, c, q.status.error)] && q'.first == q.first
  {
    assert HeadDone(q).list == [];
    if c > x.descNum {
      assert ServiceList(q, c) == ServiceList(HeadDone(q), c - x.descNum);
    }
  }

  /** A service call of the lone transfer that sees a completed descriptor decides it. */
  lemma {:induction false} AloneDecided(q: Queue, x: Xfer, r: Report)
    requires Alone(q, x) && 0 < SeenCount(r) < TWO_32
    ensures
      var q' := Service(q, r);
      && q'.list == [] && !q'.running && q'.first == q.first
      && q'.states == q.states[x.id := Decision(x.descNum, SeenCount(r), Observe(q, r).status.error)]
  {
    var o, c := Observe(q, r), SeenCount(r);
    ObservesOnly(q, r);
    NetOfFresh(q, r);
    OneUnfolds(o, x, c);
    hide ServiceBoth, Observe, Net;
  }

  lemma ObservesOnly(q: Queue, r: Report)
    ensures Observe(q, r).list == q.list && Observe(q, r).states == q.states && Observe(q, r).first == q.first
  {
  }

  lemma NetOfFresh(q: Queue, r: Report)
    requires q.dequeued == 0 && SeenCount(r) < TWO_32
    ensures Net(q, r) == SeenCount(r)
  {
  }

  /** Events on a stopped engine change neither queue nor states: nothing starts it again but queueing. */
  lemma {:induction false} StoppedStays(q: Queue, es: seq<Event>)
    requires !q.running && AllWhileWaiting(es)
    ensures
      var q' := Attend(q, es);
      q'.list == q.list && q'.states == q.states && !q'.running && q'.first == q.first
    decreases |es|
  {
    if es != [] {
      StoppedStays(Next(q, es[0]), es[1..]);
    }
  }

  /** A service call that finds an idle engine and no completed descriptor strands a transfer, right
      after it was queued on a fresh engine: whatever is reported from then on, it stays SUBMITTED on a
      stopped engine. */
  lemma IdleReportStrands(bus: nat, restart: Status, es: seq<Event>) returns (qs: seq<Queue>, run: seq<Event>)
    requires AllWhileWaiting(es)
    ensures IsRun(qs, run) && |run| == 2 && qs[0] == Fresh() && Valid(qs[0])
    ensures run[1] == Serviced(Report(0, false, Status(false, false), 0, restart)) && qs[1].running
    ensures
      var q := Attend(qs[2], es);
      q.list == [Xfer(0, 1, bus)] && Has(0, q.states, Submitted) && !q.running
  {
    var x, r := Xfer(0, 1, bus), Report(0, false, Status(false, false), 0, restart);
    var q0 := Fresh();
    var q1 := Next(q0, Enqueued(x, restart));
    assert q1.list == [x] && q1.states == map[0 := Submitted] && q1.running;
    var q2 := Next(q1, Serviced(r));
    assert q2.list == [x] && q2.states == q1.states && !q2.running;
    StoppedStays(q2, es);
    qs, run := [q0, q1, q2], [Enqueued(x, restart), Serviced(r)];
    hide Next;
  }

  /** The lone transfer ends up in the state of its fate: out of the queue if that is a final one, and
      otherwise still the only one queued. */
  lemma {:induction false} FateIs(q: Queue, x: Xfer, es: seq<Event>)
    requires Alone(q, x) && AllWhileWaiting(es)
    ensures
      var q', f := Attend(q, es), Fate(x.descNum, q.status, es);
      && q'.states == q.states[x.id := f]
      && q'.list == (if f == Submitted then [x] else []) && q'.first == q.first
      && (f != Submitted ==> !q'.running)
    decreases |es|
  {
    assert q.states == q.states[x.id := Submitted];
    if es != [] {
      var q1 := Next(q, es[0]);
      match es[0]
      case Serviced(r) =>
        if SeenCount(r) > 0 {
          AloneDecided(q, x, r);
          hide Service;
          StoppedStays(q1, es[1..]);
        } else if r.status.busy {
          FateIs(q1, x, es[1..]);
        } else {
          StoppedStays(q1, es[1..]);
        }
      case WentOffline =>
        StoppedStays(q1, es[1..]);
      case WentOnline =>
        FateIs(q1, x, es[1..]);
    }
  }

  /** The device accepts transfers, or neither it nor the engine does. */
  predicate Gate(q: Queue, open: bool) {
    q.offline == !open && q.request == !open
  }

  /** Whether it does after event e. */
  predicate Opened(open: bool, e: Event) {
    if e.WentOffline? then false else if e.WentOnline? then true else open
  }

  /** And after some events: the last one that takes it offline or online decides. */
  predicate OpenAfter(open: bool, es: seq<Event>)
    decreases |es|
  {
    if es == [] then open else OpenAfter(Opened(open, es[0]), es[1..])
  }

  /** With at most one transfer queued no service call starts the engine again, so it opens nothing. */
  lemma {:induction false} OneEventGate(q: Queue, e: Event, open: bool)
    requires WhileWaiting(e) && Gate(q, open) && |q.list| <= 1
    ensures Gate(Next(q, e), Opened(open, e)) && |Next(q, e).list| <= 1
  {
    if e.Serviced? && q.running && SeenCount(e.report) != 0 {
      BothKeepFlags(Observe(q, e.report), Net(q, e.report));
      BothShrinks(Observe(q, e.report), Net(q, e.report));
      hide ServiceBoth;
    }
  }

  lemma {:induction false} BothKeepFlags(q: Queue, c: nat)
    ensures ServiceBoth(q, c).offline == q.offline && ServiceBoth(q, c).request == q.request
    decreases |q.list|
  {
    if q.list != [] && c > q.list[0].descNum {
      BothKeepFlags(HeadDone(q), c - q.list[0].descNum);
    }
  }

  lemma {:induction false} GateAfter(q: Queue, es: seq<Event>, open: bool)
    requires AllWhileWaiting(es) && Gate(q, open) && |q.list| <= 1
    ensures Gate(Attend(q, es), OpenAfter(open, es))
    decreases |es|
  {
    if es != [] {
      OneEventGate(q, es[0], open);
      hide Next, Opened;
      GateAfter(Next(q, es[0]), es[1..], Opened(open, es[0]));
    }
  }

  /** An event that leaves the lone transfer undecided and the engine running. */
  predicate LeavesOpen(e: Event) {
    match e
    case Serviced(r) => r.wbCount == 0 && r.count == 0 && r.status.busy
    case WentOffline => false
    case _ => true
  }

  /** Event i is the service call that decides. */
  ghost predicate Decides(es: seq<Event>, i: nat) {
    && i < |es| && es[i].Serviced? && (es[i].report.wbCount > 0 || es[i].report.count > 0)
    && forall j :: 0 <= j < i ==> LeavesOpen(es[j])
  }

  /** The status known after event e. */
  function Read(s: Status, e: Event): Status {
    if e.Serviced? && (e.report.wbCount == 0 || e.report.wbError) then e.report.status else s
  }

  /** The status known after event i. */
  function StatusAt(s: Status, es: seq<Event>, i: nat): Status
    requires i < |es|
  {
    Read(if i == 0 then s else StatusAt(s, es, i - 1), es[i])
  }

  lemma {:induction false} StatusShifts(s: Status, es: seq<Event>, i: nat)
    requires 0 < i < |es|
    ensures StatusAt(s, es, i) == StatusAt(Read(s, es[0]), es[1..], i - 1)
  {
    if i > 1 {
      StatusShifts(s, es, i - 1);
    }
  }

  /** The first service call that sees a completed descriptor makes the decision. */
  lemma {:induction false} DeciderDecides(n: nat, s: Status, es: seq<Event>, i: nat)
    requires Decides(es, i)
    ensures Fate(n, s, es) == Decision(n, SeenCount(es[i].report), StatusAt(s, es, i).error)
    decreases i
  {
    if i > 0 {
      assert LeavesOpen(es[0]);
      assert forall j :: 0 <= j < i - 1 ==> es[1..][j] == es[j + 1];
      DeciderDecides(n, Read(s, es[0]), es[1..], i - 1);
      StatusShifts(s, es, i);
    }
  }

  /** Without one nothing is ever decided. */
  lemma {:induction false} DecidedByOne(n: nat, s: Status, es: seq<Event>) returns (i: nat)
    requires Fate(n, s, es) != Submitted
    ensures Decides(es, i)
    decreases |es|
  {
    if es[0].Serviced? && (es[0].report.wbCount > 0 || es[0].report.count > 0) {
      return 0;
    }
    var k := DecidedByOne(n, Read(s, es[0]), es[1..]);
    forall j | 0 <= j < k + 1 ensures LeavesOpen(es[j]) {
      if j > 0 {
        assert es[j] == es[1..][j - 1];
      }
    }
    return k + 1;
  }

  lemma {:induction false} DeciderIsFirst(es: seq<Event>, i: nat, k: nat)
    requires Decides(es, i) && k < i
    ensures !Decides(es, k)
  {
    assert LeavesOpen(es[k]);
  }

  /** A write-back that decides completes a transfer of n descriptors if and only if it counts them all, and more
      would do too; the register does not matter. */
  lemma {:induction false} WriteBackDecides(n: nat, s: Status, es: seq<Event>, i: nat)
    requires Decides(es, i) && es[i].report.wbCount > 0
    ensures Fate(n, s, es) == Completed <==>
      es[i].report.wbCount > n || (es[i].report.wbCount == n && !StatusAt(s, es, i).error)
  {
    DeciderDecides(n, s, es, i);
  }

  /** With counts that never exceed n, a transfer of n descriptors completes if and only if the first
      service call to see any, by its write-back or else by the register, saw all of them, without an error. */
  lemma {:induction false} CompletedIff(n: nat, s: Status, es: seq<Event>)
    requires forall i :: 0 <= i < |es| && es[i].Serviced? ==> es[i].report.wbCount <= n && es[i].report.count <= n
    ensures Fate(n, s, es) == Completed <==>
      exists i: nat ::
        && Decides(es, i) && !StatusAt(s, es, i).error
        && (es[i].report.wbCount == n || (es[i].report.wbCount == 0 && es[i].report.count == n))
  {
    if Fate(n, s, es) != Submitted {
      var i := DecidedByOne(n, s, es);
      DeciderDecides(n, s, es, i);
      forall k: nat | Decides(es, k) ensures k == i {
        if k < i {
          DeciderIsFirst(es, i, k);
        } else if i < k {
          DeciderIsFirst(es, k, i);
        }
      }
    } else {
      forall k: nat | Decides(es, k) ensures false {
        DeciderDecides(n, s, es, k);
      }
    }
  }

  // ---------- the submitter ----------

  /** What befalls one transfer from outside: the status the engine is started with, the events during
      the wait, the status read when giving up, and how many bytes the hardware moves in all. */
  datatype Conduct = Conduct(start: Status, events: seq<Event>, stop: Status, bytes: nat)

  /** How it ends for the submitter; Submitted means that it gave up waiting. */
  datatype Ending = Refused(error: int) | Waited(state: TransferState)

  function EndingOf(q: Queue, x: Xfer, c: Conduct): Ending {
    if QueueError(q, x) != 0 then Refused(QueueError(q, x)) else Waited(Fate(x.descNum, c.start, c.events))
  }

  /** A transfer whose wait ends undecided is aborted. */
  function Final(s: TransferState): TransferState {
    if s == Submitted then Aborted else s
  }

  predicate AcceptsAll(q: Queue) {
    !q.offline && !q.request
  }

  // transfer_queue, the wait, and transfer_abort if the wait brings no decision.
  method Await(p: Engine, x: Xfer, c: Conduct) returns (e: Ending)
    requires p.list == [] && !p.running && x.id !in p.states && x.descNum > 0 && AllWhileWaiting(c.events)
    modifies p
    ensures e == EndingOf(old(p.View()), x, c)
    ensures p.list == [] && !p.running
    ensures e.Refused? ==> p.View() == old(p.View())
    ensures e.Waited? ==> p.first == FirstOf(x) && p.states == old(p.states)[x.id := Final(e.state)]
    ensures e.Waited? ==> Gate(p.View(), OpenAfter(true, c.events))
  {
    ghost var q := p.View();
    var rv := p.TransferQueue(x, c.start);
    if rv != 0 {
      return Refused(rv);
    }
    QueuedAlone(q, x, c);
    hide Enqueue, Attend, Fate, Abort;
    Watch(p, c.events);
    var state := p.states[x.id];
    if state == Submitted {
      AbortAlone(p.View(), x, c.stop);
      p.TransferAbort(x, c.stop);
    }
    e := Waited(state);
  }

  /** Queued on an idle engine, a transfer is alone, and its fate is the one of the events. */
  lemma {:induction false} QueuedAlone(q: Queue, x: Xfer, c: Conduct)
    requires q.list == [] && !q.running && x.id !in q.states && QueueError(q, x) == 0 && AllWhileWaiting(c.events)
    ensures
      var q', f := Attend(Enqueue(q, x, c.start), c.events), Fate(x.descNum, c.start, c.events);
      && q'.states == q.states[x.id := f] && q'.list == (if f == Submitted then [x] else [])
      && q'.first == FirstOf(x) && (f != Submitted ==> !q'.running)
      && Gate(q', OpenAfter(true, c.events))
  {
    var q1 := Enqueue(q, x, c.start);
    assert Alone(q1, x) && q1.first == FirstOf(x) && q1.status == c.start && Gate(q1, true);
    assert q1.states == q.states[x.id := Submitted];
    hide Attend, Fate, Enqueue;
    FateIs(q1, x, c.events);
    GateAfter(q1, c.events, true);
  }

  lemma AbortAlone(q: Queue, x: Xfer, s: Status)
    requires q.list == [x] && x.descNum > 0 && Has(x.id, q.states, Submitted)
    ensures
      var q' := Abort(q, x, s);
      q'.list == [] && !q'.running && q'.states == q.states[x.id := Aborted] && q'.first == q.first
      && q'.offline == q.offline && q'.request == q.request
  {
  }

  // The events of a wait, one after the other.
  method Watch(p: Engine, es: seq<Event>)
    requires AllWhileWaiting(es)
    modifies p
    ensures p.View() == Attend(old(p.View()), es)
  {
    for i := 0 to |es|
      invariant Attend(p.View(), es[i..]) == Attend(old(p.View()), es)
    {
      ghost var q := p.View();
      assert es[i..][0] == es[i] && es[i..][1..] == es[i + 1..];
      assert WhileWaiting(es[i]);
      match es[i] {
        case Serviced(r) =>
          var rv := p.EngineService(r);
        case WentOffline =>
          p.DeviceOffline();
        case WentOnline =>
          p.DeviceOnline();
      }
      assert p.View() == Next(q, es[i]);
      hide Next;
      assert Attend(q, es[i..]) == Attend(p.View(), es[i + 1..]);
    }
    assert es[|es|..] == [];
  }
}
