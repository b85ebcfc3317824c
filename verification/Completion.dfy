/** Completion accounting: what a count of completed descriptors does to the queue. */
module Completion {
  import opened Extents
  import opened EngineQueue
  import opened QueueProtocol

  /** The descriptors of the first n transfers. */
  function Before(list: seq<Xfer>, n: nat): nat
    requires n <= |list|
  {
    if n == 0 then 0 else list[0].descNum + Before(list[1..], n - 1)
  }

  /** The state a count of c completed descriptors gives transfer i: COMPLETED if it ends by c, FAILED
      if c falls inside it. */
  function Verdict(l: seq<Xfer>, i: nat, c: nat): TransferState
    requires i < |l|
  {
    if Before(l, i + 1) <= c then Completed else Failed
  }

  /** Transfer i begins before descriptor c. */
  predicate Reached(l: seq<Xfer>, i: nat, c: nat)
    requires i < |l|
  {
    Before(l, i) < c
  }

  /** The first n transfers left, each with its verdict: exactly those that begin before descriptor c.
      The rest stay in order, as they were, and the descriptors of those that left are accounted. */
  ghost predicate Accounted(q: Queue, c: nat, q': Queue, n: nat) {
    && n <= |q.list| && q'.list == q.list[n..] && q'.dequeued == q.dequeued + Before(q.list, n)
    && (forall i :: 0 <= i < |q.list| ==> (i < n <==> Reached(q.list, i, c)))
    && (forall i :: 0 <= i < n ==> Has(q.list[i].id, q'.states, Verdict(q.list, i, c)))
    && OthersKeep(q.list, n, q.states, q'.states)
  }

  lemma {:induction false} VerdictStep(l: seq<Xfer>, i: nat, c: nat)
    requires 0 < i < |l| && c > l[0].descNum
    ensures Reached(l, i, c) <==> Reached(l[1..], i - 1, c - l[0].descNum)
    ensures Verdict(l, i, c) == Verdict(l[1..], i - 1, c - l[0].descNum)
  {
  }

  /** A head that is completed and leaves, followed by an accounted rest, is accounted. */
  lemma {:induction false} AccountedStep(q: Queue, c: nat, q1: Queue, q': Queue, m: nat)
    requires Queued(q.list, q.states) && q.list != [] && c > q.list[0].descNum
    requires q1 == HeadDone(q)
    requires Accounted(q1, c - q.list[0].descNum, q', m)
    ensures Accounted(q, c, q', m + 1)
  {
    var l, n := q.list, m + 1;
    hide Verdict, Reached, OthersKeep;
    assert q1.list[m..] == l[n..];
    forall i | 0 <= i < |l| ensures i < n <==> Reached(l, i, c) {
      if i == 0 {
        ReachedHead(l, c);
      } else {
        VerdictStep(l, i, c);
        assert i - 1 < m <==> Reached(q1.list, i - 1, c - l[0].descNum);
      }
    }
    HeadKeepsItsState(l, q1.states, q'.states, m);
    forall i | 0 <= i < n ensures Has(l[i].id, q'.states, Verdict(l, i, c)) {
      if i == 0 {
        ReachedHead(l, c);
      } else {
        VerdictStep(l, i, c);
        assert Has(q1.list[i - 1].id, q'.states, Verdict(q1.list, i - 1, c - l[0].descNum));
      }
    }
    OthersStep(l, q.states, q'.states, Completed, m);
  }

  lemma {:induction false} ReachedHead(l: seq<Xfer>, c: nat)
    requires l != [] && c > 0
    ensures Reached(l, 0, c) && Verdict(l, 0, c) == if l[0].descNum <= c then Completed else Failed
  {
    assert Before(l, 1) == l[0].descNum;
  }

  lemma {:induction false} HeadKeepsItsState(l: seq<Xfer>, st1: States, st2: States, m: nat)
    requires l != [] && m < |l| && OthersKeep(l[1..], m, st1, st2) && l[0].id in st1
    requires forall j :: 0 < j < |l| ==> l[0].id != l[j].id
    ensures Has(l[0].id, st2, st1[l[0].id])
  {
    forall i | 0 <= i < m ensures l[1..][i].id != l[0].id {
      assert l[1..][i] == l[i + 1];
    }
  }

  lemma {:induction false} OthersStep(l: seq<Xfer>, st: States, st2: States, s: TransferState, m: nat)
    requires l != [] && m < |l| && OthersKeep(l[1..], m, st[l[0].id := s], st2)
    ensures OthersKeep(l, m + 1, st, st2)
  {
    var st1 := st[l[0].id := s];
    forall id | id in st && (forall i :: 0 <= i < m + 1 ==> l[i].id != id) ensures Has(id, st2, st[id]) {
      assert l[0].id != id;
      assert id in st1 && st1[id] == st[id];
      forall i | 0 <= i < m ensures l[1..][i].id != id {
        assert l[1..][i] == l[i + 1];
      }
    }
  }

  /** One transfer left, the count not exceeding its descriptors. */
  lemma {:induction false} AccountedLast(q: Queue, c: nat, q': Queue)
    requires q.list != [] && 0 < c <= q.list[0].descNum
    requires q' == Pop(q, Verdict(q.list, 0, c)).(dequeued := q.dequeued + q.list[0].descNum)
    ensures Accounted(q, c, q', 1)
  {
    forall i | 0 <= i < |q.list| ensures i < 1 <==> Reached(q.list, i, c) {
      if i > 0 {
        assert Before(q.list, i) == q.list[0].descNum + Before(q.list[1..], i - 1);
      }
    }
    assert Before(q.list, 1) == q.list[0].descNum;
  }

  /** Given some completed descriptors, the two stages mark and dequeue exactly the transfers that the
      cumulative counts say. */
  lemma {:induction false} ServiceAccounts(q: Queue, c: nat) returns (n: nat)
    requires Queued(q.list, q.states) && c > 0 && !q.status.error
    ensures Accounted(q, c, ServiceBoth(q, c), n)
    decreases |q.list|
  {
    hide Queued, Verdict, Accounted;
    if q.list == [] {
      AccountedNothing(q, c);
      return 0;
    }
    var d := q.list[0].descNum;
    if c <= d {
      ReachedHead(q.list, c);
      AccountedLast(q, c, ServiceBoth(q, c));
      return 1;
    }
    var q1 := HeadDone(q);
    PopLeaves(q.list, q.states, Completed);
    var m := ServiceAccounts(q1, c - d);
    AccountedStep(q, c, q1, ServiceBoth(q1, c - d), m);
    return m + 1;
  }

  lemma {:induction false} AccountedNothing(q: Queue, c: nat)
    requires q.list == []
    ensures Accounted(q, c, q, 0)
  {
  }

  /** A service call that finds nothing newly completed fails the head although the engine has not
      come to it: the accounting is right exactly if something completed or nothing waits. */
  lemma {:induction false} AccountsIff(q: Queue, c: nat)
    requires Queued(q.list, q.states) && !q.status.error
    ensures (exists n: nat :: Accounted(q, c, ServiceBoth(q, c), n)) <==> c > 0 || q.list == []
  {
    if c > 0 {
      var n := ServiceAccounts(q, c);
    } else if q.list == [] {
      AccountedNothing(q, c);
      assert ServiceBoth(q, c) == q;
    } else {
      forall n: nat ensures !Accounted(q, c, ServiceBoth(q, c), n) {
        NothingReached(q, ServiceBoth(q, c), n);
      }
    }
  }

  /** With no descriptor completed nothing may leave. */
  lemma {:induction false} NothingReached(q: Queue, q': Queue, n: nat)
    requires |q'.list| < |q.list|
    ensures !Accounted(q, 0, q', n)
  {
    assert !Reached(q.list, 0, 0);
  }

  /** How many transfers leave when n are complete and the engine reports an error. */
  function LeavingOnError(q: Queue, n: nat): nat {
    if n < |q.list| then n + 1 else n
  }

  /** Transfer i ends before descriptor c. */
  predicate Passed(l: seq<Xfer>, i: nat, c: nat)
    requires i < |l|
  {
    Before(l, i + 1) < c
  }

  /** The first n transfers, exactly those that end before descriptor c, left as COMPLETED and are
      accounted for; the next one left as FAILED, unaccounted, with the engine stopped. */
  ghost predicate ErrorAccounted(q: Queue, c: nat, q': Queue, n: nat) {
    && n <= |q.list| && q'.list == q.list[LeavingOnError(q, n)..] && q'.dequeued == q.dequeued + Before(q.list, n)
    && (forall i :: 0 <= i < |q.list| ==> (i < n <==> Passed(q.list, i, c)))
    && (forall i :: 0 <= i < n ==> Has(q.list[i].id, q'.states, Completed))
    && (n < |q.list| ==> Has(q.list[n].id, q'.states, Failed) && !q'.running)
    && OthersKeep(q.list, LeavingOnError(q, n), q.states, q'.states)
  }

  lemma {:induction false} PassedStep(l: seq<Xfer>, i: nat, c: nat)
    requires 0 < i < |l| && c > l[0].descNum
    ensures Passed(l, i, c) <==> Passed(l[1..], i - 1, c - l[0].descNum)
  {
  }

  lemma PassedHead(l: seq<Xfer>, c: nat)
    requires l != []
    ensures Passed(l, 0, c) <==> l[0].descNum < c
  {
    assert Before(l, 1) == l[0].descNum;
  }

  /** Whoever comes later ends later. */
  lemma {:induction false} NotPassed(l: seq<Xfer>, i: nat, c: nat)
    requires i < |l| && c <= l[0].descNum
    ensures !Passed(l, i, c)
  {
    assert Before(l, i + 1) == l[0].descNum + Before(l[1..], i);
  }

  lemma {:induction false} ErrorStep(q: Queue, c: nat, q1: Queue, q': Queue, m: nat)
    requires Queued(q.list, q.states) && q.list != [] && c > q.list[0].descNum
    requires q1 == HeadDone(q) && ErrorAccounted(q1, c - q.list[0].descNum, q', m)
    ensures ErrorAccounted(q, c, q', m + 1)
  {
    var l, n, k := q.list, m + 1, LeavingOnError(q1, m);
    hide Passed, OthersKeep;
    assert q1.list[k..] == l[k + 1..];
    PassedHead(l, c);
    forall i | 0 < i < |l| ensures i < n <==> Passed(l, i, c) {
      PassedStep(l, i, c);
      assert i - 1 < m <==> Passed(q1.list, i - 1, c - l[0].descNum);
    }
    HeadKeepsItsState(l, q1.states, q'.states, k);
    forall i | 0 < i < n ensures Has(l[i].id, q'.states, Completed) {
      assert Has(q1.list[i - 1].id, q'.states, Completed);
    }
    OthersStep(l, q.states, q'.states, Completed, k);
  }

  lemma FailsHead(q: Queue, c: nat)
    requires q.status.error && (q.list == [] || c <= q.list[0].descNum)
    ensures ServiceBoth(q, c) == if q.list == [] then q else Stop(Pop(q, Failed))
  {
  }

  lemma {:induction false} ErrorLast(q: Queue, c: nat)
    requires q.list == [] || c <= q.list[0].descNum
    requires q.status.error
    ensures ErrorAccounted(q, c, ServiceBoth(q, c), 0)
  {
    hide ServiceBoth, Passed;
    FailsHead(q, c);
    forall i | 0 <= i < |q.list| ensures !Passed(q.list, i, c) {
      NotPassed(q.list, i, c);
    }
  }

  /** With an error status, the two stages complete what the engine has passed and fail the next. */
  lemma {:induction false} ErrorAccounts(q: Queue, c: nat) returns (n: nat)
    requires Queued(q.list, q.states) && q.status.error
    ensures ErrorAccounted(q, c, ServiceBoth(q, c), n)
    decreases |q.list|
  {
    hide Queued, ErrorAccounted;
    if q.list == [] || c <= q.list[0].descNum {
      ErrorLast(q, c);
      return 0;
    }
    PopLeaves(q.list, q.states, Completed);
    var m := ErrorAccounts(HeadDone(q), c - q.list[0].descNum);
    ErrorStep(q, c, HeadDone(q), ServiceBoth(HeadDone(q), c - q.list[0].descNum), m);
    return m + 1;
  }

  // ---------- one run of the engine, several service calls ----------

  lemma BothUnfolds(q: Queue, c: nat)
    requires q.list != [] && !q.status.error
    ensures
      var d := q.list[0].descNum;
      ServiceBoth(q, c) ==
        if c > d then ServiceBoth(HeadDone(q), c - d)
        else if c == d then HeadDone(q)
        else Pop(q, Failed).(dequeued := q.dequeued + d)
  {
  }

  lemma BothOfNothing(q: Queue, c: nat)
    requires q.list == []
    ensures ServiceBoth(q, c) == q
  {
  }

  /** The same queue, with another status and running or not. */
  function Seen(q: Queue, running: bool, s: Status): Queue {
    q.(running := running, status := s)
  }

  lemma HeadDoneSeen(q: Queue, running: bool, s: Status)
    requires q.list != []
    ensures HeadDone(Seen(q, running, s)) == Seen(HeadDone(q), running, s)
    ensures Pop(Seen(q, running, s), Failed) == Seen(Pop(q, Failed), running, s)
  {
  }

  /** With no error pending, the two stages do not care about the status or whether the engine runs. */
  lemma {:induction false} BothIgnoreStatus(q: Queue, c: nat, running: bool, s: Status)
    requires !q.status.error && !s.error
    ensures ServiceBoth(Seen(q, running, s), c) == Seen(ServiceBoth(q, c), running, s)
    decreases |q.list|
  {
    hide ServiceBoth, HeadDone, Pop;
    var q' := Seen(q, running, s);
    if q.list == [] {
      BothOfNothing(q, c);
      BothOfNothing(q', c);
      return;
    }
    HeadDoneSeen(q, running, s);
    BothUnfolds(q, c);
    BothUnfolds(q', c);
    if c > q.list[0].descNum {
      HeadDoneShorter(q);
      BothIgnoreStatus(HeadDone(q), c - q.list[0].descNum, running, s);
    }
  }

  lemma HeadDoneShorter(q: Queue)
    requires q.list != []
    ensures |HeadDone(q).list| == |q.list| - 1 && HeadDone(q).status == q.status
  {
  }

  /** The two stages in two steps, the first ending between transfers, come to one step. */
  lemma {:induction false} BothInSteps(q: Queue, c1: nat, c2: nat, n: nat)
    requires Queued(q.list, q.states) && !q.status.error
    requires 0 < n <= |q.list| && Before(q.list, n) == c1 < c2
    ensures
      var q1 := ServiceBoth(q, c1);
      && q1.list == q.list[n..] && q1.dequeued == q.dequeued + c1
      && q1 == q.(list := q1.list, states := q1.states, dequeued := q1.dequeued)
      && ServiceBoth(q1, c2 - c1) == ServiceBoth(q, c2)
    decreases |q.list|
  {
    hide Queued, Leaves, ServiceBoth;
    var d, q0 := q.list[0].descNum, HeadDone(q);
    PopLeaves(q.list, q.states, Completed);
    assert c1 == d + Before(q0.list, n - 1);
    BothUnfolds(q, c1);
    BothUnfolds(q, c2);
    if n > 1 {
      BeforeIsPositive(q0.list, q0.states, n - 1);
      BothInSteps(q0, c1 - d, c2 - d, n - 1);
      assert q0.list[n - 1..] == q.list[n..];
    }
  }

  /** While the engine stays busy, a service call that saw the end of some transfers makes no difference
      to what the next one with a higher count comes to. */
  lemma {:induction false} TwoCallsMerge(q: Queue, r1: Report, r2: Report, n: nat)
    requires Valid(q) && q.running && 0 < n < |q.list|
    requires r1.wbCount == 0 && r1.status.busy && !r1.status.error
    requires r2.wbCount == 0 && !r2.status.error
    requires q.dequeued + Before(q.list, n) == r1.count < r2.count < TWO_32
    ensures Service(q, r1).running && Service(q, r1).dequeued == r1.count
    ensures Service(Service(q, r1), r2) == Service(q, r2)
  {
    hide Queued, ServiceBoth;
    var q1, c1, c2 := Observe(q, r1), r1.count - q.dequeued, r2.count - q.dequeued;
    BeforeIsPositive(q.list, q.states, n);
    assert Net(q, r1) == c1 && Net(q, r2) == c2;
    BothInSteps(q1, c1, c2, n);
    var q2 := ServiceBoth(q1, c1);
    assert Service(q, r1) == q2;
    assert Net(q2, r2) == c2 - c1;
    var o1, o2 := Observe(q2, r2), Observe(q, r2);
    BothIgnoreStatus(q2, c2 - c1, o1.running, o1.status);
    BothIgnoreStatus(q1, c2, o2.running, o2.status);
  }

  /** The two stages take at least one transfer. */
  lemma {:induction false} BothShrinks(q: Queue, c: nat)
    ensures |ServiceBoth(q, c).list| <= |q.list| && (q.list != [] ==> |ServiceBoth(q, c).list| < |q.list|)
    decreases |q.list|
  {
    if q.list != [] && c > q.list[0].descNum {
      BothShrinks(HeadDone(q), c - q.list[0].descNum);
    }
  }

  /** What a service call does to queue and states is what the two stages do. */
  lemma ServedByBoth(q: Queue, r: Report)
    requires q.running && SeenCount(r) != 0
    ensures
      var q', b := Service(q, r), ServiceBoth(Observe(q, r), Net(q, r));
      q'.list == b.list && q'.states == b.states
  {
    hide ServiceBoth, Net, Observe;
    ResumeSettles(ServiceBoth(Observe(q, r), Net(q, r)), r.restart);
  }

  /** A count that falls inside transfer n - 1, or ends with it, takes off n transfers. */
  lemma {:induction false} CountTakesOff(q: Queue, c: nat, q': Queue, n: nat, m: nat)
    requires Accounted(q, c, q', m) && 0 < n < |q.list| && Before(q.list, n - 1) < c <= Before(q.list, n)
    ensures m == n
  {
    assert n - 1 < m <==> Reached(q.list, n - 1, c);
    assert n < m <==> Reached(q.list, n, c);
  }

  /** Queue and states after a service call whose count falls inside transfer n - 1, or ends with it. */
  lemma {:induction false} ServedInside(q: Queue, r: Report, n: nat)
    requires Valid(q) && q.running && 0 < n < |q.list| && r.wbCount == 0 && !r.status.error
    requires q.dequeued + Before(q.list, n - 1) < r.count <= q.dequeued + Before(q.list, n) && r.count < TWO_32
    ensures Service(q, r).list == q.list[n..]
    ensures Has(q.list[n - 1].id, Service(q, r).states, if r.count == q.dequeued + Before(q.list, n) then Completed else Failed)
  {
    var o, c := Observe(q, r), r.count - q.dequeued;
    assert Net(q, r) == c && o.list == q.list && o.states == q.states && !o.status.error;
    hide Observe, Net, Queued, ServiceBoth;
    ServedByBoth(q, r);
    var m := ServiceAccounts(o, c);
    CountTakesOff(o, c, ServiceBoth(o, c), n, m);
  }

  /** The state of a transfer that a count leaves behind. */
  lemma {:induction false} ServedPast(q: Queue, r: Report, n: nat)
    requires Valid(q) && q.running && 0 < n < |q.list| && r.wbCount == 0 && !r.status.error
    requires q.dequeued + Before(q.list, n) <= r.count < TWO_32 && Before(q.list, n) > 0
    ensures Has(q.list[n - 1].id, Service(q, r).states, Completed)
  {
    var o, c := Observe(q, r), r.count - q.dequeued;
    assert Net(q, r) == c && o.list == q.list && o.states == q.states && !o.status.error;
    hide Observe, Net, Queued, ServiceBoth;
    ServedByBoth(q, r);
    var m := ServiceAccounts(o, c);
    BeforeGrows(q.list, n);
    ListedWaits(q, n - 1);
    assert n - 1 < m <==> Reached(o.list, n - 1, c);
  }

  lemma {:induction false} BeforeGrows(l: seq<Xfer>, n: nat)
    requires 0 < n <= |l|
    ensures Before(l, n) == Before(l, n - 1) + l[n - 1].descNum
  {
    if n > 1 {
      BeforeGrows(l[1..], n - 1);
    }
  }

  lemma {:induction false} ListedWaits(q: Queue, i: nat)
    requires Valid(q) && i < |q.list|
    ensures Waits(q.list[i], q.states)
  {
  }

  /** Two calls come to what the later one alone would have done if and only if the earlier one ended
      between transfers: a count that falls inside a transfer fails it, and its descriptors are counted
      off as if they were done. */
  lemma {:induction false} TwoCallsMergeIff(q: Queue, r1: Report, r2: Report, n: nat)
    requires Valid(q) && q.running && 0 < n < |q.list|
    requires r1.wbCount == 0 && r1.status.busy && !r1.status.error
    requires r2.wbCount == 0 && !r2.status.error
    requires q.dequeued + Before(q.list, n - 1) < r1.count <= q.dequeued + Before(q.list, n)
    requires r1.count < r2.count < TWO_32
    ensures Service(Service(q, r1), r2) == Service(q, r2) <==> r1.count == q.dequeued + Before(q.list, n)
  {
    hide Service, Queued, Before;
    if r1.count == q.dequeued + Before(q.list, n) {
      TwoCallsMerge(q, r1, r2, n);
    } else {
      var id := q.list[n - 1].id;
      var q1, q2 := Service(q, r1), Service(q, r2);
      ServedInside(q, r1, n);
      BusyStaysRunning(q, r1);
      FailedForGood(q1, r2, id);
      if r2.count >= q.dequeued + Before(q.list, n) {
        ServedPast(q, r2, n);
      } else {
        ServedInside(q, r2, n);
        ServedByBoth(q1, r2);
        hide Observe, Net, ServiceBoth;
        BothShrinks(Observe(q1, r2), Net(q1, r2));
        ObserveKeepsList(q1, r2);
      }
    }
  }

  lemma ObserveKeepsList(q: Queue, r: Report)
    ensures Observe(q, r).list == q.list
  {
  }

  lemma {:induction false} BusyStaysRunning(q: Queue, r: Report)
    requires Valid(q) && q.running && r.wbCount == 0 && r.count > 0
    ensures Valid(Service(q, r)) && (Service(q, r).running <==> Service(q, r).list != [])
  {
    hide Service, Queued;
    var k := ServiceLeaves(q, r);
  }

  lemma {:induction false} FailedForGood(q: Queue, r: Report, id: nat)
    requires Valid(q) && Has(id, q.states, Failed)
    ensures Has(id, Service(q, r).states, Failed)
  {
    EndedStays(q, Serviced(r), id);
  }

  /** The queue after a sequence of service calls. */
  function Serve(q: Queue, rs: seq<Report>): Queue {
    if rs == [] then q else Service(Serve(q, rs[..|rs| - 1]), rs[|rs| - 1])
  }

  /** The count ends between two transfers of the run, and the engine is still at work. */
  ghost predicate EndsBetween(q: Queue, r: Report) {
    && r.wbCount == 0 && r.status.busy && !r.status.error
    && exists n: nat :: 0 < n < |q.list| && CountIs(q, r, n)
  }

  predicate CountIs(q: Queue, r: Report, n: nat)
    requires n <= |q.list|
  {
    q.dequeued + Before(q.list, n) == r.count
  }

  /** desc_dequeued does its work: any number of service calls of one run, each but the last ending
      between transfers and with ever higher counts, comes to what the last one alone would have done. */
  lemma {:induction false} ServiceCallsMerge(q: Queue, rs: seq<Report>)
    requires Valid(q) && q.running && rs != []
    requires forall k :: 0 <= k < |rs| - 1 ==> EndsBetween(q, rs[k])
    requires forall k :: 0 <= k < |rs| - 1 ==> rs[k].count < rs[k + 1].count
    requires
      var last := rs[|rs| - 1];
      last.wbCount == 0 && !last.status.error && last.count < TWO_32
    ensures Serve(q, rs) == Service(q, rs[|rs| - 1])
  {
    hide Service, Queued;
    if |rs| == 1 {
      assert Serve(q, rs[..0]) == q;
    } else {
      var init, last := rs[..|rs| - 1], rs[|rs| - 1];
      var prev := rs[|rs| - 2];
      assert init[|init| - 1] == prev && prev.count < last.count;
      ServiceCallsMerge(q, init);
      var n: nat :| 0 < n < |q.list| && CountIs(q, prev, n);
      TwoCallsMerge(q, prev, last, n);
    }
  }

  lemma {:induction false} BeforeIsPositive(l: seq<Xfer>, st: States, n: nat)
    requires Queued(l, st) && 0 < n <= |l|
    ensures Before(l, n) > 0
  {
    HeadWaits(l, st);
  }

  /** Whatever starts the engine, its count of dequeued descriptors starts from 0 and no shutdown is pending. */
  lemma {:induction false} CountsFromStart(q: Queue, e: Event)
    requires Valid(q) && Enabled(q, e) && Next(q, e).running
    requires !q.running || (e.Serviced? && !Observe(q, e.report).running)
    ensures Next(q, e).dequeued == 0 && !Next(q, e).request
  {
    hide Queued, Leaves, ServiceBoth, Net;
    if e.Serviced? && q.running {
      var k := BothLeave(Observe(q, e.report), Net(q, e.report));
    }
  }
}
