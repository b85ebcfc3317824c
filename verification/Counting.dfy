/** What a count of completed descriptors means against what the hardware really did: when a service
    call, and when a whole run of the engine, calls nothing completed that is not. */
module Counting {
  import opened Extents
  import opened EngineQueue
  import opened QueueProtocol
  import opened Completion

  // ---------- one service call ----------

  /** How many of c completed descriptors this run has not dequeued yet. */
  function Newly(q: Queue, c: nat): nat {
    if c > q.dequeued then c - q.dequeued else 0
  }

  /** A transfer list and its states as they should be after c more completed descriptors. */
  ghost predicate Settled(q: Queue, c: nat, q': Queue, n: nat) {
    && n <= |q.list| && q'.list == q.list[n..]
    && (forall i :: 0 <= i < |q.list| ==> (i < n <==> Reached(q.list, i, c)))
    && (forall i :: 0 <= i < n ==> Has(q.list[i].id, q'.states, Verdict(q.list, i, c)))
    && OthersKeep(q.list, n, q.states, q'.states)
  }

  /** A running engine finds a count and no error; counts are 32-bit registers. */
  predicate Counts(q: Queue, r: Report) {
    q.running && 0 < SeenCount(r) < TWO_32 && q.dequeued < TWO_32 && !Observe(q, r).status.error
  }

  lemma NetIs(q: Queue, r: Report)
    requires Counts(q, r)
    ensures Net(q, r) == if SeenCount(r) >= q.dequeued then SeenCount(r) - q.dequeued else TWO_32 - (q.dequeued - SeenCount(r))
  {
    assert SeenCount(r) < q.dequeued ==> (SeenCount(r) - q.dequeued) % TWO_32 == SeenCount(r) - q.dequeued + TWO_32;
  }

  /** What a service call does to the queue is the accounting of the net count. */
  lemma {:induction false} SettlesNet(q: Queue, r: Report) returns (n: nat)
    requires Valid(q) && Counts(q, r) && Net(q, r) > 0
    ensures Settled(q, Net(q, r), Service(q, r), n)
  {
    var o, c := Observe(q, r), Net(q, r);
    ObserveKeepsList(q, r);
    assert o.states == q.states;
    ServedByBoth(q, r);
    hide Observe, Net, Queued, ServiceBoth, Service;
    n := ServiceAccounts(o, c);
  }

  lemma {:induction false} ServiceShrinks(q: Queue, r: Report)
    requires Counts(q, r)
    ensures q.list != [] ==> |Service(q, r).list| < |q.list|
  {
    ObserveKeepsList(q, r);
    ServedByBoth(q, r);
    hide Observe, Net, ServiceBoth, Service;
    BothShrinks(Observe(q, r), Net(q, r));
  }

  lemma {:induction false} NotReached(q: Queue, q': Queue, n: nat)
    requires q.list != [] && |q'.list| < |q.list|
    ensures !Settled(q, 0, q', n)
  {
    assert !Reached(q.list, 0, 0);
  }

  /** A service call of a running engine, which always has work, does right by its queue if and only if
      the hardware count exceeds what this run already dequeued. */
  lemma {:induction false} ServiceSettlesIff(q: Queue, r: Report)
    requires Valid(q) && Counts(q, r)
    ensures (exists n: nat :: Settled(q, Newly(q, SeenCount(r)), Service(q, r), n)) <==> SeenCount(r) > q.dequeued
  {
    ServiceShrinks(q, r);
    NetIs(q, r);
    hide Observe, Queued, Service, Net;
    if SeenCount(r) > q.dequeued {
      assert Net(q, r) == Newly(q, SeenCount(r));
      var n := SettlesNet(q, r);
    } else {
      forall n: nat ensures !Settled(q, Newly(q, SeenCount(r)), Service(q, r), n) {
        NotReached(q, Service(q, r), n);
      }
    }
  }

  /** After a write-back the register of completed descriptors is not read. */
  lemma WriteBackIgnoresRegister(q: Queue, r: Report, n: nat)
    requires r.wbCount > 0
    ensures Service(q, r) == Service(q, r.(count := n))
  {
    hide ServiceBoth, Resume;
  }

  /** List and states are as they should be when c descriptors of this run are completed in all. */
  ghost predicate Judges(q: Queue, c: nat, q': Queue) {
    exists n: nat :: Settled(q, Newly(q, c), q', n)
  }

  /** The same for a call after a write-back: the count of the write-back is the true one. Its error flag makes
      the call read the status, and otherwise the status is the one last read. */
  lemma WriteBackSettlesIff(q: Queue, r: Report)
    requires Valid(q) && q.running && q.dequeued < TWO_32
    requires 0 < r.wbCount < TWO_32 && !(if r.wbError then r.status.error else q.status.error)
    ensures Judges(q, r.wbCount, Service(q, r)) <==> r.wbCount > q.dequeued
  {
    assert Counts(q, r) && SeenCount(r) == r.wbCount;
    hide Service, Settled, Queued, Newly;
    ServiceSettlesIff(q, r);
  }

  /** And for a call from the interrupt handler: the register is. */
  lemma RegisterSettlesIff(q: Queue, r: Report)
    requires Valid(q) && q.running && q.dequeued < TWO_32
    requires r.wbCount == 0 && 0 < r.count < TWO_32 && !r.status.error
    ensures Judges(q, r.count, Service(q, r)) <==> r.count > q.dequeued
  {
    assert Counts(q, r) && SeenCount(r) == r.count;
    hide Service, Settled, Queued, Newly;
    ServiceSettlesIff(q, r);
  }

  /** A count below desc_dequeued wraps around: everything queued that ends within the wrapped count is
      called completed, although the hardware has come to none of it. */
  lemma {:induction false} UndercountCompletes(q: Queue, r: Report) returns (n: nat)
    requires Valid(q) && Counts(q, r) && SeenCount(r) < q.dequeued
    ensures var c := TWO_32 - (q.dequeued - SeenCount(r)); Settled(q, c, Service(q, r), n)
    ensures forall i :: 0 <= i < |q.list| && Before(q.list, i + 1) <= TWO_32 - (q.dequeued - SeenCount(r)) ==>
      Has(q.list[i].id, Service(q, r).states, Completed)
  {
    NetIs(q, r);
    hide Observe, Queued, Service, Net, Settled;
    n := SettlesNet(q, r);
    forall i | 0 <= i < |q.list| && Before(q.list, i + 1) <= Net(q, r) ensures Has(q.list[i].id, Service(q, r).states, Completed) {
      SettledCompletes(q, Net(q, r), Service(q, r), n, i);
    }
  }

  lemma {:induction false} SettledCompletes(q: Queue, c: nat, q': Queue, n: nat, i: nat)
    requires Valid(q) && Settled(q, c, q', n) && i < |q.list| && Before(q.list, i + 1) <= c
    ensures Has(q.list[i].id, q'.states, Completed)
  {
    BeforeGrows(q.list, i + 1);
    ListedWaits(q, i);
    hide Queued, Before;
    assert Reached(q.list, i, c);
    assert Verdict(q.list, i, c) == Completed;
  }

  // ---------- a whole run of the engine ----------

  /** all is what was queued for this run so far; the first n of it are dequeued and accounted for. */
  ghost predicate Given(q: Queue, all: seq<Xfer>, n: nat) {
    && n <= |all| && q.list == all[n..] && q.dequeued == Before(all, n)
    && (forall i :: 0 <= i < n ==> Ended(all[i].id, q.states))
  }

  /** The hardware did h descriptors of this run. Whatever is called completed, it did. */
  ghost predicate Sound(all: seq<Xfer>, q: Queue, h: nat) {
    forall i :: 0 <= i < |all| && Has(all[i].id, q.states, Completed) ==> Before(all, i + 1) <= h
  }

  lemma {:induction false} BeforeSplits(l: seq<Xfer>, n: nat, m: nat)
    requires n + m <= |l|
    ensures Before(l, n + m) == Before(l, n) + Before(l[n..], m)
    decreases m
  {
    if m > 0 {
      BeforeSplits(l, n, m - 1);
      BeforeGrows(l, n + m);
      BeforeGrows(l[n..], m);
    }
  }

  lemma {:induction false} BeforeOfPrefix(l: seq<Xfer>, more: seq<Xfer>, n: nat)
    requires n <= |l|
    ensures Before(l + more, n) == Before(l, n)
    decreases n
  {
    if n > 0 {
      BeforeOfPrefix(l, more, n - 1);
      BeforeGrows(l, n);
      BeforeGrows(l + more, n);
    }
  }

  /** One service call, from the run's point of view. */
  ghost predicate CallOfRun(q: Queue, all: seq<Xfer>, n: nat, r: Report) {
    Valid(q) && Counts(q, r) && Given(q, all, n)
  }

  /** What a call with a count of nothing new does: it fails the head. */
  lemma {:induction false} NothingNewFails(q: Queue, r: Report)
    requires Valid(q) && Counts(q, r) && Net(q, r) == 0
    ensures
      var q', head := Service(q, r), q.list[0];
      && q'.list == q.list[1..] && q'.states == q.states[head.id := Failed]
      && (q'.running && Observe(q, r).running ==> q'.dequeued == q.dequeued + head.descNum)
  {
    HeadWaits(q.list, q.states);
    ObserveKeepsList(q, r);
    ServedByBoth(q, r);
    var o := Observe(q, r);
    assert o.states == q.states && o.dequeued == q.dequeued;
    hide Observe, Queued, ServiceBoth;
    BothUnfolds(o, 0);
  }

  /** desc_dequeued after a call that leaves the run going. */
  lemma {:induction false} DequeuedAfter(q: Queue, r: Report, n: nat)
    requires Valid(q) && Counts(q, r) && Net(q, r) > 0 && Settled(q, Net(q, r), Service(q, r), n)
    requires Observe(q, r).running && Service(q, r).running
    ensures Service(q, r).dequeued == q.dequeued + Before(q.list, n)
  {
    var o, c := Observe(q, r), Net(q, r);
    ObserveKeepsList(q, r);
    assert o.states == q.states && o.dequeued == q.dequeued;
    StaysInRun(o, c, r);
    hide Observe, Net, Queued, ServiceBoth, Service;
    var m := ServiceAccounts(o, c);
    assert |q.list[n..]| == |q.list[m..]|;
  }

  lemma {:induction false} StaysInRun(o: Queue, c: nat, r: Report)
    requires Queued(o.list, o.states) && o.running && c > 0 && !o.status.error
    requires Resume(ServiceBoth(o, c), r.restart).running
    ensures Resume(ServiceBoth(o, c), r.restart).dequeued == ServiceBoth(o, c).dequeued
    ensures Resume(ServiceBoth(o, c), r.restart).list == ServiceBoth(o, c).list
  {
    BothIgnoreStatus(o, c, true, o.status);
    assert Seen(o, true, o.status) == o;
    hide ServiceBoth;
  }

  /** A service call dequeues some more of what was given, and all that is dequeued has ended. */
  lemma {:induction false} CallKeepsGiven(q: Queue, all: seq<Xfer>, n: nat, r: Report) returns (m: nat)
    requires CallOfRun(q, all, n, r)
    ensures Observe(q, r).running && Service(q, r).running ==> Given(Service(q, r), all, n + m)
  {
    hide *;
    EndedStay(q, all, n, r);
    if Net(q, r) == 0 {
      m := 1;
      NothingNewFails(q, r);
      FailedIsOne(q, Service(q, r));
    } else {
      m := SettlesNet(q, r);
      if Observe(q, r).running && Service(q, r).running {
        DequeuedAfter(q, r, m);
      }
      SettledEnds(q, Net(q, r), Service(q, r), m);
    }
    if Observe(q, r).running && Service(q, r).running {
      MoreGiven(q, all, n, Service(q, r), m);
    }
  }

  lemma {:induction false} EndedStay(q: Queue, all: seq<Xfer>, n: nat, r: Report)
    requires CallOfRun(q, all, n, r)
    ensures n <= |all| && Valid(q) && Counts(q, r) && Given(q, all, n) && q.list != []
    ensures forall i :: 0 <= i < n ==> Ended(all[i].id, Service(q, r).states)
  {
    forall i | 0 <= i < n ensures Ended(all[i].id, Service(q, r).states) {
      hide Service, Observe, Queued, Before;
      EndedStays(q, Serviced(r), all[i].id);
    }
  }

  /** m more are dequeued and ended. */
  ghost predicate TakenOff(q: Queue, q': Queue, m: nat) {
    && m <= |q.list| && q'.list == q.list[m..] && (forall i :: 0 <= i < m ==> Ended(q.list[i].id, q'.states))
  }

  lemma {:induction false} SettledEnds(q: Queue, c: nat, q': Queue, m: nat)
    requires Settled(q, c, q', m)
    ensures TakenOff(q, q', m)
  {
    hide Before;
    forall i | 0 <= i < m ensures Ended(q.list[i].id, q'.states) {
      assert Has(q.list[i].id, q'.states, Verdict(q.list, i, c));
    }
  }

  lemma {:induction false} FailedIsOne(q: Queue, q': Queue)
    requires q.list != [] && q'.list == q.list[1..] && q'.states == q.states[q.list[0].id := Failed]
    ensures TakenOff(q, q', 1) && Before(q.list, 1) == q.list[0].descNum
  {
    OneBefore(q.list);
  }

  lemma {:induction false} MoreGiven(q: Queue, all: seq<Xfer>, n: nat, q': Queue, m: nat)
    requires Given(q, all, n) && TakenOff(q, q', m) && q'.dequeued == q.dequeued + Before(q.list, m)
    requires forall i :: 0 <= i < n ==> Ended(all[i].id, q'.states)
    ensures Given(q', all, n + m)
  {
    BeforeSplits(all, n, m);
    hide Before;
    forall i | n <= i < n + m ensures Ended(all[i].id, q'.states) {
      assert q.list[i - n] == all[i];
    }
    assert all[n..][m..] == all[n + m..];
  }

  lemma {:induction false} OneBefore(l: seq<Xfer>)
    requires l != []
    ensures Before(l, 1) == l[0].descNum
  {
  }

  /** Whoever is queued and does not leave is not completed. */
  lemma {:induction false} StaysUncompleted(q: Queue, q': Queue, m: nat, k: nat)
    requires Valid(q) && m <= k < |q.list| && OthersKeep(q.list, m, q.states, q'.states)
    ensures !Has(q.list[k].id, q'.states, Completed)
  {
    ListedWaits(q, k);
    assert Has(q.list[k].id, q'.states, q.states[q.list[k].id]);
  }

  /** A transfer that a call of the run, not below desc_dequeued, calls completed was passed. */
  lemma {:induction false} CalledIsPassed(q: Queue, all: seq<Xfer>, n: nat, r: Report, i: nat)
    requires CallOfRun(q, all, n, r) && SeenCount(r) >= q.dequeued && n <= i < |all|
    requires Has(all[i].id, Service(q, r).states, Completed)
    ensures Before(all, i + 1) <= SeenCount(r)
  {
    hide *;
    EndedStay(q, all, n, r);
    NetIs(q, r);
    QueuedOfGiven(q, all, n, i);
    if Net(q, r) == 0 {
      NothingNewFails(q, r);
      HeadFailed(q, Service(q, r), i - n);
    } else {
      var m := SettlesNet(q, r);
      SettledPasses(q, Net(q, r), Service(q, r), m, i - n);
    }
  }

  lemma {:induction false} QueuedOfGiven(q: Queue, all: seq<Xfer>, n: nat, i: nat)
    requires Given(q, all, n) && n <= i < |all|
    ensures i - n < |q.list| && q.list[i - n] == all[i] && Before(all, i + 1) == q.dequeued + Before(q.list, i - n + 1)
  {
    BeforeSplits(all, n, i - n + 1);
    hide Before;
    assert n + (i - n + 1) == i + 1;
  }

  lemma {:induction false} SettledPasses(q: Queue, c: nat, q': Queue, m: nat, k: nat)
    requires Valid(q) && Settled(q, c, q', m) && k < |q.list| && Has(q.list[k].id, q'.states, Completed)
    ensures Before(q.list, k + 1) <= c
  {
    hide Queued, Before;
    if k < m {
      assert Has(q.list[k].id, q'.states, Verdict(q.list, k, c));
    } else {
      StaysUncompleted(q, q', m, k);
    }
  }

  lemma {:induction false} HeadFailed(q: Queue, q': Queue, k: nat)
    requires Valid(q) && k < |q.list| && q'.states == q.states[q.list[0].id := Failed]
    ensures !Has(q.list[k].id, q'.states, Completed)
  {
    ListedWaits(q, k);
  }

  /** Such a call keeps a run sound. */
  lemma {:induction false} CallSound(q: Queue, all: seq<Xfer>, n: nat, r: Report, h: nat)
    requires CallOfRun(q, all, n, r) && Sound(all, q, h) && h <= SeenCount(r) && SeenCount(r) >= q.dequeued
    ensures Sound(all, Service(q, r), SeenCount(r))
  {
    hide Service, Observe, Queued, Before, Net;
    forall i | 0 <= i < |all| && Has(all[i].id, Service(q, r).states, Completed) ensures Before(all, i + 1) <= SeenCount(r) {
      if i < n {
        EndedStays(q, Serviced(r), all[i].id);
      } else {
        CalledIsPassed(q, all, n, r, i);
      }
    }
  }

  /** A call below desc_dequeued makes it unsound: the head is called completed. */
  lemma {:induction false} CallUnsound(q: Queue, all: seq<Xfer>, n: nat, r: Report)
    requires CallOfRun(q, all, n, r) && SeenCount(r) < q.dequeued && Before(all, |all|) <= TWO_32 / 2
    ensures !Sound(all, Service(q, r), SeenCount(r))
  {
    HeadFits(q, all, n);
    hide Service, Observe, Queued, Net, Before, Settled;
    var m := UndercountCompletes(q, r);
    assert q.list[0] == all[n];
    assert Has(all[n].id, Service(q, r).states, Completed);
  }

  lemma {:induction false} HeadFits(q: Queue, all: seq<Xfer>, n: nat)
    requires Valid(q) && q.running && Given(q, all, n) && Before(all, |all|) <= TWO_32 / 2
    ensures n < |all| && q.list != [] && q.dequeued <= Before(all, n + 1)
    ensures Before(q.list, 1) <= TWO_32 / 2 && q.dequeued <= TWO_32 / 2
  {
    BeforeSplits(all, n, 1);
    BeforeSplits(all, n + 1, |all| - n - 1);
  }

  /** What the run was given, after one more event. */
  function Grown(all: seq<Xfer>, q: Queue, e: Event): seq<Xfer> {
    if e.Enqueued? && QueueError(q, e.x) == 0 then all + [e.x] else all
  }

  /** The call is told of h completed descriptors, by the write-back if there is one and else by the register. */
  predicate Reported(r: Report, h: nat) {
    (r.wbCount > 0 ==> h == r.wbCount) && (r.wbCount == 0 ==> h == r.count)
  }

  /** One event of a run: something is queued, or the engine is serviced with the count of what the
      hardware did, which only grows, and no error. */
  ghost predicate RunStep(q: Queue, e: Event, q': Queue, all: seq<Xfer>, all': seq<Xfer>, h: nat, h': nat) {
    && q.running && Follows(q, e, q') && all' == Grown(all, q, e) && Before(all', |all'|) <= TWO_32 / 2
    && match e
       case Enqueued(x, s) => h' == h
       case Serviced(r) =>
         h <= h' < TWO_32 && Reported(r, h') && !(if r.wbCount == 0 || r.wbError then r.status else q.status).error
       case _ => false
  }

  /** One run of the engine, from its start; the last event may end it. alls is what was queued for it,
      hs what the hardware did of that. */
  ghost predicate OneRun(qs: seq<Queue>, es: seq<Event>, alls: seq<seq<Xfer>>, hs: seq<nat>) {
    && |es| + 1 == |qs| == |alls| == |hs|
    && Valid(qs[0]) && qs[0].list == alls[0] && qs[0].dequeued == 0
    && (forall k :: 0 <= k < |es| ==> RunStep(qs[k], es[k], qs[k + 1], alls[k], alls[k + 1], hs[k], hs[k + 1]))
    && (forall k :: 0 <= k < |es| - 1 ==> GoesOn(qs[k], es[k]))
  }

  /** The engine is not stopped to be serviced. */
  predicate GoesOn(q: Queue, e: Event) {
    e.Serviced? ==> Observe(q, e.report).running
  }

  /** A service call with a count below what was dequeued. */
  predicate Undercount(q: Queue, e: Event) {
    e.Serviced? && (0 < e.report.wbCount < q.dequeued || (e.report.wbCount == 0 && 0 < e.report.count < q.dequeued))
  }

  /** A count of zero changes neither queue nor states. */
  lemma {:induction false} ZeroCountKeeps(q: Queue, r: Report)
    requires q.running && SeenCount(r) == 0
    ensures Service(q, r).list == q.list && Service(q, r).states == q.states && Service(q, r).dequeued == q.dequeued
  {
  }

  lemma {:induction false} ZeroKeepsGiven(q: Queue, all: seq<Xfer>, n: nat, r: Report)
    requires q.running && SeenCount(r) == 0 && Given(q, all, n)
    ensures Given(Service(q, r), all, n)
  {
    hide Service, Before;
    ZeroCountKeeps(q, r);
  }

  lemma {:induction false} StepKeepsGiven(q: Queue, e: Event, q': Queue, all: seq<Xfer>, all': seq<Xfer>, h: nat, h': nat, n: nat)
    returns (n': nat)
    requires Valid(q) && RunStep(q, e, q', all, all', h, h') && GoesOn(q, e) && q'.running
    requires Given(q, all, n) && Before(all, |all|) <= TWO_32 / 2
    ensures Given(q', all', n')
  {
    BeforeSplits(all, n, |all| - n);
    hide Before, Queued, Service, Observe;
    match e
    case Serviced(r) =>
      hide Given;
      if SeenCount(r) == 0 {
        ZeroKeepsGiven(q, all, n, r);
        n' := n;
      } else {
        var m := CallKeepsGiven(q, all, n, r);
        n' := n + m;
      }
    case Enqueued(x, s) =>
      n' := n;
      EnqueueSteps(q, all, x, s, n);
  }

  /** Queueing on a running engine. */
  lemma {:induction false} EnqueueSteps(q: Queue, all: seq<Xfer>, x: Xfer, s: Status, n: nat)
    requires q.running && x.id !in q.states && Given(q, all, n)
    ensures Given(Enqueue(q, x, s), Grown(all, q, Enqueued(x, s)), n)
  {
    BeforeOfPrefix(all, [x], n);
    hide Before;
    if QueueError(q, x) == 0 {
      assert (all + [x])[n..] == all[n..] + [x];
    }
  }

  /** Everything given has a state. */
  lemma {:induction false} GivenKnown(q: Queue, all: seq<Xfer>, n: nat, i: nat)
    requires Valid(q) && Given(q, all, n) && i < |all|
    ensures all[i].id in q.states
  {
    hide Before;
    if i >= n {
      assert q.list[i - n] == all[i];
      ListedWaits(q, i - n);
    }
  }

  lemma {:induction false} StepSound(q: Queue, e: Event, q': Queue, all: seq<Xfer>, all': seq<Xfer>, h: nat, h': nat, n: nat)
    requires Valid(q) && RunStep(q, e, q', all, all', h, h') && Given(q, all, n) && Before(all, |all|) <= TWO_32 / 2
    requires Sound(all, q, h) && !Undercount(q, e)
    ensures Sound(all', q', h')
  {
    BeforeSplits(all, n, |all| - n);
    hide Before, Queued, Service, Observe;
    match e
    case Serviced(r) =>
      if SeenCount(r) == 0 {
        ZeroCountKeeps(q, r);
      } else {
        CallSound(q, all, n, r, h);
      }
    case Enqueued(x, s) =>
      forall i | 0 <= i < |all'| && Has(all'[i].id, q'.states, Completed) ensures Before(all', i + 1) <= h' {
        if i < |all| {
          GivenKnown(q, all, n, i);
          BeforeOfPrefix(all, [x], i + 1);
        }
      }
  }

  /** Where a run stands before each of its events. */
  lemma {:induction false} RunStands(qs: seq<Queue>, es: seq<Event>, alls: seq<seq<Xfer>>, hs: seq<nat>, k: nat) returns (n: nat)
    requires OneRun(qs, es, alls, hs) && k < |es| && Before(alls[0], |alls[0]|) <= TWO_32 / 2
    ensures Valid(qs[k]) && Given(qs[k], alls[k], n) && Before(alls[k], |alls[k]|) <= TWO_32 / 2
  {
    hide Before, Valid, Given, RunStep, GoesOn;
    assert RunStep(qs[k], es[k], qs[k + 1], alls[k], alls[k + 1], hs[k], hs[k + 1]);
    if k == 0 {
      n := 0;
      StartsGiven(qs[0], alls[0]);
    } else {
      var m := RunStands(qs, es, alls, hs, k - 1);
      var j := k - 1;
      assert RunStep(qs[j], es[j], qs[j + 1], alls[j], alls[j + 1], hs[j], hs[j + 1]) && GoesOn(qs[j], es[j]);
      StepFacts(qs[j], es[j], qs[k], alls[j], alls[k], hs[j], hs[k]);
      StepFacts(qs[k], es[k], qs[k + 1], alls[k], alls[k + 1], hs[k], hs[k + 1]);
      n := StepKeepsGiven(qs[j], es[j], qs[k], alls[j], alls[k], hs[j], hs[k], m);
    }
  }

  lemma {:induction false} StartsGiven(q: Queue, all: seq<Xfer>)
    requires q.list == all && q.dequeued == 0
    ensures Given(q, all, 0)
  {
  }

  lemma {:induction false} StepFacts(q: Queue, e: Event, q': Queue, all: seq<Xfer>, all': seq<Xfer>, h: nat, h': nat)
    requires Valid(q) && RunStep(q, e, q', all, all', h, h')
    ensures q.running && Valid(q') && Before(all', |all'|) <= TWO_32 / 2
  {
    hide Next, Queued, Before, Observe, Service;
    var k := NextKeeps(q, e);
  }

  /** As long as no count falls below what was dequeued, nothing is called completed that is not. */
  lemma {:induction false} SoundSoFar(qs: seq<Queue>, es: seq<Event>, alls: seq<seq<Xfer>>, hs: seq<nat>, k: nat)
    requires OneRun(qs, es, alls, hs) && k <= |es| && Before(alls[0], |alls[0]|) <= TWO_32 / 2
    requires forall j :: 0 <= j < k ==> !Undercount(qs[j], es[j])
    ensures Sound(alls[k], qs[k], hs[k])
  {
    hide Before, Valid, Given, RunStep, GoesOn, Undercount;
    if k == 0 {
      StartsSound(qs[0], hs[0]);
    } else {
      var j := k - 1;
      SoundSoFar(qs, es, alls, hs, j);
      var n := RunStands(qs, es, alls, hs, j);
      assert RunStep(qs[j], es[j], qs[j + 1], alls[j], alls[j + 1], hs[j], hs[j + 1]);
      StepSound(qs[j], es[j], qs[k], alls[j], alls[k], hs[j], hs[k], n);
    }
  }

  lemma {:induction false} StartsSound(q: Queue, h: nat)
    requires Valid(q)
    ensures Sound(q.list, q, h)
  {
    forall i | 0 <= i < |q.list| ensures !Has(q.list[i].id, q.states, Completed) {
      ListedWaits(q, i);
    }
  }

  /** In a run of fewer than 2^31 descriptors, COMPLETED always means that the hardware passed the whole
      transfer if and only if no service call has a count below what was already dequeued. */
  lemma {:induction false} RunSoundIff(qs: seq<Queue>, es: seq<Event>, alls: seq<seq<Xfer>>, hs: seq<nat>)
    requires OneRun(qs, es, alls, hs) && Before(alls[0], |alls[0]|) <= TWO_32 / 2
    ensures (forall k :: 0 <= k <= |es| ==> Sound(alls[k], qs[k], hs[k])) <==>
            (forall k :: 0 <= k < |es| ==> !Undercount(qs[k], es[k]))
  {
    hide Before, Valid, Given, RunStep, GoesOn, Undercount, Sound;
    if k :| 0 <= k < |es| && Undercount(qs[k], es[k]) {
      var n := RunStands(qs, es, alls, hs, k);
      assert RunStep(qs[k], es[k], qs[k + 1], alls[k], alls[k + 1], hs[k], hs[k + 1]);
      UndercountUnsound(qs[k], es[k], qs[k + 1], alls[k], alls[k + 1], hs[k], hs[k + 1], n);
    } else {
      forall k | 0 <= k <= |es| ensures Sound(alls[k], qs[k], hs[k]) {
        SoundSoFar(qs, es, alls, hs, k);
      }
    }
  }

  lemma {:induction false} UndercountUnsound(q: Queue, e: Event, q': Queue, all: seq<Xfer>, all': seq<Xfer>, h: nat, h': nat, n: nat)
    requires Valid(q) && RunStep(q, e, q', all, all', h, h') && Given(q, all, n) && Before(all, |all|) <= TWO_32 / 2
    requires Undercount(q, e)
    ensures !Sound(all', q', h')
  {
    BeforeSplits(all, n, |all| - n);
    hide Before, Queued, Service, Observe, Sound;
    CallUnsound(q, all, n, e.report);
  }

  /** The hardware is only ever seen between two transfers, each time further on. */
  ghost predicate EvenCount(e: Event, all: seq<Xfer>, h: nat, h': nat) {
    e.Serviced? && h' > 0 ==> h < h' && exists m: nat :: m <= |all| && Ends(all, m, h')
  }

  predicate Ends(all: seq<Xfer>, m: nat, h: nat)
    requires m <= |all|
  {
    Before(all, m) == h
  }

  lemma {:induction false} BeforeRises(l: seq<Xfer>, n: nat, m: nat)
    requires n <= m <= |l|
    ensures Before(l, n) <= Before(l, m)
    decreases m
  {
    if n < m {
      BeforeRises(l, n, m - 1);
      BeforeGrows(l, m);
    }
  }

  /** Then desc_dequeued is what the hardware did. */
  lemma {:induction false} EvenStep(q: Queue, r: Report, all: seq<Xfer>, n: nat, m: nat)
    requires CallOfRun(q, all, n, r) && q.dequeued < SeenCount(r) && m <= |all| && Ends(all, m, SeenCount(r))
    requires Observe(q, r).running && Service(q, r).running
    ensures Service(q, r).dequeued == SeenCount(r)
  {
    hide *;
    EndedStay(q, all, n, r);
    EndsInQueue(q, all, n, m, SeenCount(r));
    NetIs(q, r);
    var k := SettlesNet(q, r);
    DequeuedAfter(q, r, k);
    SettledAt(q, Net(q, r), Service(q, r), k, m - n);
  }

  /** A count between two transfers and beyond what is dequeued, in terms of what is still queued. */
  lemma {:induction false} EndsInQueue(q: Queue, all: seq<Xfer>, n: nat, m: nat, h: nat)
    requires Given(q, all, n) && m <= |all| && Ends(all, m, h) && q.dequeued < h
    ensures n <= m && m - n <= |q.list| && Before(q.list, m - n) == h - q.dequeued
  {
    if m < n {
      BeforeRises(all, m, n);
    }
    BeforeSplits(all, n, m - n);
    hide Before;
  }

  lemma {:induction false} SettledAt(q: Queue, c: nat, q': Queue, k: nat, m: nat)
    requires Settled(q, c, q', k) && m <= |q.list| && Before(q.list, m) == c
    ensures Before(q.list, k) == c
  {
    assert m < |q.list| ==> (m < k <==> Reached(q.list, m, c));
    if k < m {
      assert !Reached(q.list, k, c);
      BeforeRises(q.list, k, m);
    }
  }

  lemma {:induction false} EvenRunCounts(qs: seq<Queue>, es: seq<Event>, alls: seq<seq<Xfer>>, hs: seq<nat>, k: nat)
    requires OneRun(qs, es, alls, hs) && k < |es| && Before(alls[0], |alls[0]|) <= TWO_32 / 2 && hs[0] == 0
    requires forall j :: 0 <= j < |es| ==> EvenCount(es[j], alls[j], hs[j], hs[j + 1])
    ensures qs[k].dequeued == hs[k]
  {
    hide Before, Valid, Given, RunStep, GoesOn, EvenCount;
    if k > 0 {
      var j := k - 1;
      EvenRunCounts(qs, es, alls, hs, j);
      var n := RunStands(qs, es, alls, hs, j);
      assert RunStep(qs[j], es[j], qs[j + 1], alls[j], alls[j + 1], hs[j], hs[j + 1]) && GoesOn(qs[j], es[j]);
      assert RunStep(qs[k], es[k], qs[k + 1], alls[k], alls[k + 1], hs[k], hs[k + 1]);
      StepRuns(qs[k], es[k], qs[k + 1], alls[k], alls[k + 1], hs[k], hs[k + 1]);
      EvenCounts(qs[j], es[j], qs[k], alls[j], alls[k], hs[j], hs[k], n);
    }
  }

  lemma StepRuns(q: Queue, e: Event, q': Queue, all: seq<Xfer>, all': seq<Xfer>, h: nat, h': nat)
    requires RunStep(q, e, q', all, all', h, h')
    ensures q.running
  {
  }

  lemma {:induction false} EvenCounts(q: Queue, e: Event, q': Queue, all: seq<Xfer>, all': seq<Xfer>, h: nat, h': nat, n: nat)
    requires Valid(q) && RunStep(q, e, q', all, all', h, h') && Given(q, all, n) && Before(all, |all|) <= TWO_32 / 2
    requires GoesOn(q, e) && q'.running && q.dequeued == h && EvenCount(e, all, h, h')
    ensures q'.dequeued == h'
  {
    BeforeSplits(all, n, |all| - n);
    hide Before, Queued, Service, Observe;
    match e
    case Serviced(r) =>
      if SeenCount(r) == 0 {
        ZeroCountKeeps(q, r);
      } else {
        var m: nat :| m <= |all| && Ends(all, m, h');
        EvenStep(q, r, all, n, m);
      }
    case Enqueued(x, s) =>
  }

  /** A hardware that is only seen between transfers, each time further on, is always judged right. */
  lemma {:induction false} EvenRunIsSound(qs: seq<Queue>, es: seq<Event>, alls: seq<seq<Xfer>>, hs: seq<nat>)
    requires OneRun(qs, es, alls, hs) && Before(alls[0], |alls[0]|) <= TWO_32 / 2 && hs[0] == 0
    requires forall j :: 0 <= j < |es| ==> EvenCount(es[j], alls[j], hs[j], hs[j + 1])
    ensures forall k :: 0 <= k <= |es| ==> Sound(alls[k], qs[k], hs[k])
  {
    forall k | 0 <= k < |es| ensures !Undercount(qs[k], es[k]) {
      EvenRunCounts(qs, es, alls, hs, k);
      assert RunStep(qs[k], es[k], qs[k + 1], alls[k], alls[k + 1], hs[k], hs[k + 1]);
    }
    RunSoundIff(qs, es, alls, hs);
  }

  // ---------- runs that go wrong ----------

  /** Such a call can come: two transfers are queued, one descriptor is completed, and the engine is
      serviced twice with that count. The second call fails the second transfer. */
  lemma RepeatedCountFails(bus0: nat, bus1: nat) returns (qs: seq<Queue>, es: seq<Event>)
    ensures IsRun(qs, es) && qs[0] == Fresh() && Valid(qs[0]) && |es| == 4
    ensures es[3].Serviced? && qs[3].running && qs[3].list == [Xfer(1, 1, bus1)] && qs[3].dequeued == 1
    ensures es[3].report.wbCount == 0 && es[3].report.count == 1
    ensures Has(1, qs[4].states, Failed)
  {
    var busy := Status(true, false);
    var x0, x1, r := Xfer(0, 1, bus0), Xfer(1, 1, bus1), Report(0, false, busy, 1, busy);
    var q0 := Fresh();
    var q1 := Next(q0, Enqueued(x0, busy));
    var q2 := Next(q1, Enqueued(x1, busy));
    TwoQueued(x0, x1, busy);
    OneIsDone(q2, x0, x1, r);
    var q3 := Next(q2, Serviced(r));
    OneIsFailed(q3, x1, r);
    var q4 := Next(q3, Serviced(r));
    qs, es := [q0, q1, q2, q3, q4], [Enqueued(x0, busy), Enqueued(x1, busy), Serviced(r), Serviced(r)];
    hide Next;
  }

  lemma TwoQueued(x0: Xfer, x1: Xfer, s: Status)
    requires x0.id != x1.id && x0.descNum > 0 && x1.descNum > 0
    ensures
      var q2 := Enqueue(Enqueue(Fresh(), x0, s), x1, s);
      && x1.id !in Enqueue(Fresh(), x0, s).states && q2.running && q2.list == [x0, x1] && q2.dequeued == 0
  {
    assert Enqueue(Fresh(), x0, s).list == [x0];
  }

  lemma OneIsDone(q: Queue, x0: Xfer, x1: Xfer, r: Report)
    requires q.running && q.list == [x0, x1] && x0.descNum == 1 && q.dequeued == 0
    requires r == Report(0, false, Status(true, false), 1, Status(true, false))
    ensures var q' := Service(q, r); q'.running && q'.list == [x1] && q'.dequeued == 1
  {
  }

  lemma OneIsFailed(q: Queue, x: Xfer, r: Report)
    requires q.running && q.list == [x] && x.descNum == 1 && q.dequeued == 1
    requires r == Report(0, false, Status(true, false), 1, Status(true, false))
    ensures Has(x.id, Service(q, r).states, Failed)
  {
  }

  /** And so can a wrong completion: transfers of two descriptors and of one are queued, the hardware does
      one descriptor in all, and the engine is serviced twice with that count. The first call fails the
      first transfer and counts it off; the second one calls the second transfer completed. */
  lemma FalseCompletion(bus0: nat, bus1: nat) returns (qs: seq<Queue>, es: seq<Event>)
    ensures IsRun(qs, es) && qs[0] == Fresh() && Valid(qs[0]) && |es| == 4
    ensures es[2] == es[3] && es[3].Serviced? && es[3].report.wbCount == 0 && es[3].report.count == 1
    ensures qs[2].list == [Xfer(0, 2, bus0), Xfer(1, 1, bus1)] && qs[2].running && qs[2].dequeued == 0
    ensures Undercount(qs[3], es[3]) && Has(1, qs[4].states, Completed)
  {
    var busy := Status(true, false);
    var x0, x1, r := Xfer(0, 2, bus0), Xfer(1, 1, bus1), Report(0, false, busy, 1, busy);
    var q0 := Fresh();
    var q1 := Next(q0, Enqueued(x0, busy));
    var q2 := Next(q1, Enqueued(x1, busy));
    TwoQueued(x0, x1, busy);
    HalfIsFailed(q2, x0, x1, r);
    var q3 := Next(q2, Serviced(r));
    OtherIsCompleted(q3, x1, r);
    var q4 := Next(q3, Serviced(r));
    qs, es := [q0, q1, q2, q3, q4], [Enqueued(x0, busy), Enqueued(x1, busy), Serviced(r), Serviced(r)];
    hide Next;
  }

  lemma HalfIsFailed(q: Queue, x0: Xfer, x1: Xfer, r: Report)
    requires q.running && q.list == [x0, x1] && x0.descNum == 2 && q.dequeued == 0
    requires r == Report(0, false, Status(true, false), 1, Status(true, false))
    ensures var q' := Service(q, r); q'.running && q'.list == [x1] && q'.dequeued == 2
  {
  }

  lemma OtherIsCompleted(q: Queue, x: Xfer, r: Report)
    requires q.running && q.list == [x] && x.descNum == 1 && q.dequeued == 2
    requires r == Report(0, false, Status(true, false), 1, Status(true, false))
    ensures Has(x.id, Service(q, r).states, Completed)
  {
    var o := Observe(q, r);
    assert Net(q, r) == TWO_32 - 1;
    assert HeadDone(o).list == [];
    assert ServiceList(o, TWO_32 - 1) == ServiceList(HeadDone(o), TWO_32 - 2);
  }
}
