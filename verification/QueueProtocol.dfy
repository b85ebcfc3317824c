/** What every operation of the queue protocol keeps, and what holds over whole runs of it. */
module QueueProtocol {
  import opened Extents
  import opened Descriptors
  import opened EngineQueue

  lemma {:induction false} LeavesNothing(l: seq<Xfer>, st: States)
    ensures Leaves(l, st, l, st, 0)
  {
  }

  lemma {:induction false} PopLeaves(l: seq<Xfer>, st: States, s: TransferState)
    requires Queued(l, st) && l != [] && s != Submitted
    ensures Leaves(l, st, l[1..], st[l[0].id := s], 1)
    ensures Queued(l[1..], st[l[0].id := s])
  {
  }

  lemma {:induction false} LeavesCompose(l: seq<Xfer>, st: States, l1: seq<Xfer>, st1: States, l2: seq<Xfer>, st2: States, k1: nat, k2: nat)
    requires Queued(l, st) && Leaves(l, st, l1, st1, k1) && Leaves(l1, st1, l2, st2, k2)
    ensures Leaves(l, st, l2, st2, k1 + k2)
  {
    assert l[k1..][k2..] == l[k1 + k2..];
    assert forall j :: 0 <= j < k2 ==> l1[j] == l[k1 + j];
    forall i | 0 <= i < k1 + k2 ensures Ended(l[i].id, st2) {
      if i >= k1 {
        assert l1[i - k1] == l[i];
      }
    }
  }

  /** Stage one takes a number of completed transfers off the head and accounts for their
      descriptors; what is left of the count never exceeds what the new head has. */
  lemma {:induction false} ListLeaves(q: Queue, count: nat) returns (k: nat)
    requires Queued(q.list, q.states)
    ensures
      var (q1, rest) := ServiceList(q, count);
      && Leaves(q.list, q.states, q1.list, q1.states, k) && Queued(q1.list, q1.states)
      && q1 == q.(list := q1.list, states := q1.states, dequeued := q1.dequeued)
      && q1.dequeued + rest == q.dequeued + count
      && (q1.list == [] || rest <= q1.list[0].descNum)
    decreases |q.list|
  {
    hide Queued, Leaves;
    if q.list == [] || count <= q.list[0].descNum {
      LeavesNothing(q.list, q.states);
      return 0;
    }
    var q' := HeadDone(q);
    PopLeaves(q.list, q.states, Completed);
    var k' := ListLeaves(q', count - q.list[0].descNum);
    var (q1, rest) := ServiceList(q', count - q.list[0].descNum);
    LeavesCompose(q.list, q.states, q'.list, q'.states, q1.list, q1.states, 1, k');
    return 1 + k';
  }

  /** Stage two takes the head off, if there is one; only an error stops the engine. */
  lemma {:induction false} FinalLeaves(q: Queue, count: nat) returns (k: nat)
    requires Queued(q.list, q.states)
    ensures
      var q' := ServiceFinal(q, count);
      && Leaves(q.list, q.states, q'.list, q'.states, k) && Queued(q'.list, q'.states)
      && (q'.running ==> q.running)
  {
    hide Queued, Leaves;
    if q.list == [] {
      LeavesNothing(q.list, q.states);
      return 0;
    }
    PopLeaves(q.list, q.states, Failed);
    PopLeaves(q.list, q.states, Completed);
    return 1;
  }

  /** Both stages together only take transfers off the head. */
  lemma {:induction false} BothLeave(q: Queue, count: nat) returns (k: nat)
    requires Queued(q.list, q.states)
    ensures
      var q' := ServiceBoth(q, count);
      Leaves(q.list, q.states, q'.list, q'.states, k) && Queued(q'.list, q'.states) && (q'.running ==> q.running)
  {
    hide Queued, Leaves, ServiceFinal, ServiceList;
    var k1 := ListLeaves(q, count);
    var (q1, rest) := ServiceList(q, count);
    var k2 := FinalLeaves(q1, rest);
    var q2 := ServiceFinal(q1, rest);
    LeavesCompose(q.list, q.states, q1.list, q1.states, q2.list, q2.states, k1, k2);
    return k1 + k2;
  }

  /** After resuming the engine runs exactly if there is work. A restart begins a new run; an engine that was
      stopped and has no more work is idle if a shutdown was asked for. */
  lemma ResumeSettles(q: Queue, s: Status)
    ensures
      var q' := Resume(q, s);
      && q'.list == q.list && q'.states == q.states && q'.offline == q.offline && (q'.running <==> q'.list != [])
      && (q.running ==> q' == q.(running := q.list != []))
      && (!q.running && q.list != [] ==>
            !q'.request && !q'.idle && q'.dequeued == 0 && q'.status == s && q'.first.bus == q.list[0].bus)
      && (!q.running && q.list == [] ==> q' == q.(idle := q.idle || q.request))
  {
  }

  lemma {:induction false} ServiceLeaves(q: Queue, r: Report) returns (k: nat)
    requires Valid(q)
    ensures
      var q' := Service(q, r);
      && Leaves(q.list, q.states, q'.list, q'.states, k) && Queued(q'.list, q'.states)
      && (q.running && SeenCount(r) != 0 ==> (q'.running <==> q'.list != []))
      && (!q.running || SeenCount(r) == 0 ==> q'.list == q.list && (q'.running ==> q.running))
  {
    hide Queued, Leaves, ServiceBoth, Resume, Net;
    if !q.running || SeenCount(r) == 0 {
      LeavesNothing(q.list, q.states);
      return 0;
    }
    k := BothLeave(Observe(q, r), Net(q, r));
    ResumeSettles(ServiceBoth(Observe(q, r), Net(q, r)), r.restart);
  }

  // ---------- main results ----------

  /** Every operation keeps the invariant, and transfers leave only from the head, with a final state,
      while everybody else's state stays; only queueing adds one, at the tail, as SUBMITTED, and then
      the engine runs. */
  lemma {:induction false} NextKeeps(q: Queue, e: Event) returns (k: nat)
    requires Valid(q) && Enabled(q, e)
    ensures Valid(Next(q, e))
    ensures
      var q' := Next(q, e);
      if e.Enqueued? && QueueError(q, e.x) == 0 then
        q'.list == q.list + [e.x] && q'.states == q.states[e.x.id := Submitted] && q'.running
      else Leaves(q.list, q.states, q'.list, q'.states, k)
  {
    hide Queued, Leaves, Service, SeenCount;
    LeavesNothing(q.list, q.states);
    k := 0;
    match e
    case Enqueued(x, s) =>
      if QueueError(q, x) == 0 {
        EnqueueKeeps(q.list, q.states, x);
      }
    case Serviced(r) =>
      k := ServiceLeaves(q, r);
    case TimedOut(s) =>
      k := 1;
      HeadWaits(q.list, q.states);
      PopLeaves(q.list, q.states, Aborted);
    case _ =>
  }

  lemma HeadWaits(l: seq<Xfer>, st: States)
    requires Queued(l, st) && l != []
    ensures Waits(l[0], st)
  {
  }

  lemma {:induction false} EnqueueKeeps(l: seq<Xfer>, st: States, x: Xfer)
    requires Queued(l, st) && x.id !in st && x.descNum > 0
    ensures Queued(l + [x], st[x.id := Submitted])
  {
    var l', st' := l + [x], st[x.id := Submitted];
    forall i | 0 <= i < |l'| ensures Waits(l'[i], st') && (i < |l| ==> l'[i].id != x.id) {
      if i < |l| {
        assert Waits(l[i], st);
      }
    }
  }

  /** A run of the protocol: each event enabled when it happens. */
  ghost predicate IsRun(qs: seq<Queue>, es: seq<Event>) {
    |qs| == |es| + 1 &&
    forall i :: 0 <= i < |es| ==> Follows(qs[i], es[i], qs[i + 1])
  }

  predicate Follows(q: Queue, e: Event, q': Queue) {
    Enabled(q, e) && q' == Next(q, e)
  }

  /** A final state is kept, and its transfer is not in the queue. */
  lemma {:induction false} EndedStays(q: Queue, e: Event, id: nat)
    requires Valid(q) && Enabled(q, e) && Ended(id, q.states)
    ensures Has(id, Next(q, e).states, q.states[id])
  {
    hide Next, QueueError;
    var k := NextKeeps(q, e);
    forall i | 0 <= i < |q.list| ensures q.list[i].id != id {
      assert Waits(q.list[i], q.states);
    }
  }

  /** In every run the invariant holds throughout. */
  lemma {:induction false} RunKeeps(qs: seq<Queue>, es: seq<Event>, i: nat)
    requires IsRun(qs, es) && Valid(qs[0]) && i < |qs|
    ensures Valid(qs[i])
  {
    hide Valid, Next;
    if i > 0 {
      RunKeeps(qs, es, i - 1);
      assert Follows(qs[i - 1], es[i - 1], qs[i]);
      var k := NextKeeps(qs[i - 1], es[i - 1]);
    }
  }

  /** In every run a transfer that has a final state keeps it for good and is not queued any more: it
      leaves the queue at most once. */
  lemma {:induction false} LeavesOnce(qs: seq<Queue>, es: seq<Event>, i: nat, j: nat, id: nat)
    requires IsRun(qs, es) && Valid(qs[0]) && i <= j < |qs| && Ended(id, qs[i].states)
    ensures Has(id, qs[j].states, qs[i].states[id])
    ensures forall n :: 0 <= n < |qs[j].list| ==> qs[j].list[n].id != id
    decreases j - i
  {
    hide Next, Enabled;
    RunKeeps(qs, es, j);
    if i < j {
      LeavesOnce(qs, es, i, j - 1, id);
      RunKeeps(qs, es, j - 1);
      assert Follows(qs[j - 1], es[j - 1], qs[j]);
      EndedStays(qs[j - 1], es[j - 1], id);
    }
    forall n | 0 <= n < |qs[j].list| ensures qs[j].list[n].id != id {
      assert Waits(qs[j].list[n], qs[j].states);
    }
  }

  /** Starting the engine points the hardware at the head of the queue; for an aligned ring, the burst
      fetched with its first descriptor ends before the transfer does, stays in one block, and is the longest
      such burst. */
  lemma FirstBurstStays(q: Queue, s: Status)
    requires Valid(q) && CanStart(q) && q.list[0].bus % 32 == 0
    ensures
      var first, head := Start(q, s).first, q.list[0];
      && first.bus == head.bus && 1 + first.adjacent <= head.descNum && InOneBlock(first.bus, first.adjacent)
      && (1 + first.adjacent == head.descNum || !InOneBlock(first.bus, first.adjacent + 1))
  {
    HeadWaits(q.list, q.states);
    hide Lo, NextAdj, InOneBlock;
    AdjacentBurstStaysInBlock(q.list[0].descNum, q.list[0].bus);
  }

  /** Aborting a queued transfer keeps the invariant exactly if it is the one at the head. */
  lemma {:induction false} AbortKeepsIff(q: Queue, x: Xfer, s: Status)
    requires Valid(q) && x in q.list
    ensures Valid(Abort(q, x, s)) <==> q.list[0] == x
  {
    hide Leaves;
    var i :| 0 <= i < |q.list| && q.list[i] == x;
    assert Waits(q.list[i], q.states);
    if q.list[0] == x {
      PopLeaves(q.list, q.states, Aborted);
    } else {
      var q' := Abort(q, x, s);
      assert q'.list[i] == x && !Waits(q'.list[i], q'.states);
    }
  }

  /** After servicing a running engine it runs if and only if there is work, exactly when a completed
      descriptor was seen or the engine reported itself busy; otherwise it stands still over its work
      until the next transfer is queued. */
  lemma {:induction false} ServiceRunsIff(q: Queue, r: Report)
    requires Valid(q) && q.running
    ensures
      var q' := Service(q, r);
      (q'.running <==> q'.list != []) <==> r.wbCount > 0 || r.count > 0 || r.status.busy
  {
    hide Queued, Leaves, ServiceBoth, Resume, Net;
    var k := ServiceLeaves(q, r);
  }
}
