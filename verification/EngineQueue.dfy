/** The locked queue protocol of an SG DMA engine: queueing, completion service, restart, abort on
    timeout, and taking the device offline. Every operation runs under the engine lock, so the
    interleavings are the sequences of operations. */
module EngineQueue {
  import opened Extents
  import opened Descriptors

  datatype TransferState = Submitted | Completed | Failed | Aborted

  /** A transfer as the queue sees it: descNum descriptors, adjacent in the ring from bus address bus on. */
  datatype Xfer = Xfer(id: nat, descNum: nat, bus: nat)

  /** The registers that tell the hardware where to begin, and how many descriptors to fetch with the first. */
  datatype First = First(bus: nat, adjacent: nat)

  type States = map<nat, TransferState>

  /** The bits of the status register that the protocol looks at. */
  datatype Status = Status(busy: bool, error: bool)

  /** The fields of the engine that the protocol reads and writes; states are those of the transfers. */
  datatype Queue = Queue(
    running: bool, offline: bool, request: bool, idle: bool, list: seq<Xfer>,
    states: States, dequeued: nat, status: Status, first: First)

  /** The state an engine is created in. */
  function Fresh(): Queue {
    Queue(false, false, false, false, [], map[], 0, Status(false, false), First(0, 0))
  }

  /** What a service call learns from the hardware: the write-back word, the status register and the
      count of completed descriptors, and the status a restart finds. */
  datatype Report = Report(wbCount: nat, wbError: bool, status: Status, count: nat, restart: Status)

  const EINVAL: int := 22
  const EBUSY: int := 16

  /** The head leaves the queue in the given state. */
  function Pop(q: Queue, s: TransferState): Queue
    requires q.list != []
  {
    q.(list := q.list[1..], states := q.states[q.list[0].id := s])
  }

  /** The head leaves as completed, and its descriptors are accounted for. */
  function HeadDone(q: Queue): Queue
    requires q.list != []
  {
    Pop(q, Completed).(dequeued := q.dequeued + q.list[0].descNum)
  }

  // ---------- engine_start, xdma_engine_stop ----------

  function Stop(q: Queue): Queue {
    q.(running := false)
  }

  predicate CanStart(q: Queue) {
    !q.running && q.list != []
  }

  function FirstOf(x: Xfer): First {
    First(x.bus, NextAdj(x.descNum, Lo(x.bus)))
  }

  function Start(q: Queue, s: Status): Queue {
    if CanStart(q) then
      q.(running := true, request := false, idle := false, dequeued := 0, status := s, first := FirstOf(q.list[0]))
    else q
  }

  // ---------- engine_service ----------

  /** Stage one: while more descriptors are completed than the head has, the head is complete. */
  function ServiceList(q: Queue, count: nat): (Queue, nat)
    decreases |q.list|
  {
    if q.list == [] || count <= q.list[0].descNum then (q, count)
    else ServiceList(HeadDone(q), count - q.list[0].descNum)
  }

  /** Stage two: the transfer the engine stopped on. */
  function ServiceFinal(q: Queue, count: nat): Queue {
    if q.list == [] then q
    else if q.status.error then Stop(Pop(q, Failed))
    else
      var s := if count < q.list[0].descNum then Failed else Completed;
      Pop(q, s).(dequeued := q.dequeued + q.list[0].descNum)
  }

  function ServiceBoth(q: Queue, count: nat): Queue {
    var (q1, rest) := ServiceList(q, count);
    ServiceFinal(q1, rest)
  }

  function Resume(q: Queue, s: Status): Queue {
    if !q.running then
      if q.list != [] then Start(q, s)
      else if q.request then q.(idle := true)
      else q
    else if q.list == [] then Stop(q)
    else q
  }

  /** The completed count a service call of a running engine works with; 0 makes it stop early. */
  function SeenCount(r: Report): nat {
    if r.wbCount == 0 then r.count else r.wbCount
  }

  /** The count net of what this run already dequeued, in 32-bit unsigned arithmetic. */
  function Net(q: Queue, r: Report): nat {
    (SeenCount(r) - q.dequeued) % TWO_32
  }

  /** Before the accounting: the status is read unless a plain write-back came, and an engine that
      went idle or wrote back is stopped. */
  function Observe(q: Queue, r: Report): Queue {
    var q1 := if r.wbCount == 0 || r.wbError then q.(status := r.status) else q;
    if !q1.status.busy || r.wbCount != 0 then Stop(q1) else q1
  }

  function Service(q: Queue, r: Report): Queue {
    if !q.running then q.(status := r.status)
    else if SeenCount(r) == 0 then Observe(q, r)
    else Resume(ServiceBoth(Observe(q, r), Net(q, r)), r.restart)
  }

  // ---------- transfer_queue, transfer_abort, xdma_device_offline and _online ----------

  function QueueError(q: Queue, x: Xfer): int {
    if x.descNum == 0 then -EINVAL else if q.offline || q.request then -EBUSY else 0
  }

  function Enqueue(q: Queue, x: Xfer, s: Status): Queue {
    if QueueError(q, x) != 0 then q
    else
      var q1 := q.(list := q.list + [x], states := q.states[x.id := Submitted]);
      if q1.running then q1 else Start(q1, s)
  }

  /** A wait for x ended without a result: the transfer is aborted and the engine stopped. */
  function Abort(q: Queue, x: Xfer, s: Status): Queue {
    var q0 := q.(status := s);
    if x.descNum == 0 then q0 else
    var q1 := if q0.list != [] && q0.list[0] == x then q0.(list := q0.list[1..]) else q0;
    var q2 := if x.id in q1.states && q1.states[x.id] == Submitted then q1.(states := q1.states[x.id := Aborted]) else q1;
    Stop(q2)
  }

  function GoOffline(q: Queue): Queue {
    Stop(q.(offline := true, request := true))
  }

  function GoOnline(q: Queue): Queue {
    q.(offline := false, request := false)
  }

  datatype Event =
    | Enqueued(x: Xfer, start: Status)
    | Serviced(report: Report)
    | TimedOut(status: Status)           // the transfer at the head of the queue
    | WentOffline
    | WentOnline

  /** A transfer is queued at most once in its life; only a queued one can time out. */
  predicate Enabled(q: Queue, e: Event) {
    match e
    case Enqueued(x, s) => x.id !in q.states
    case TimedOut(s) => q.list != []
    case _ => true
  }

  function Next(q: Queue, e: Event): Queue
    requires Enabled(q, e)
  {
    match e
    case Enqueued(x, s) => Enqueue(q, x, s)
    case Serviced(r) => Service(q, r)
    case TimedOut(s) => Abort(q, q.list[0], s)
    case WentOffline => GoOffline(q)
    case WentOnline => GoOnline(q)
  }

  // ---------- the invariant ----------

  /** Whatever is queued is SUBMITTED, has descriptors, and is queued once. */
  ghost predicate Queued(l: seq<Xfer>, st: States) {
    && (forall i :: 0 <= i < |l| ==> Waits(l[i], st))
    && (forall i, j :: 0 <= i < j < |l| ==> l[i].id != l[j].id)
  }

  predicate Waits(x: Xfer, st: States) {
    x.descNum > 0 && Has(x.id, st, Submitted)
  }

  predicate Has(id: nat, st: States, s: TransferState) {
    id in st && st[id] == s
  }

  predicate Ended(id: nat, st: States) {
    id in st && st[id] != Submitted
  }

  /** Whoever is not among the first k of l keeps its state. */
  ghost predicate OthersKeep(l: seq<Xfer>, k: nat, st: States, st': States)
    requires k <= |l|
  {
    forall id :: id in st && (forall i :: 0 <= i < k ==> l[i].id != id) ==> Has(id, st', st[id])
  }

  /** And a running engine has work. */
  ghost predicate Valid(q: Queue) {
    Queued(q.list, q.states) && (q.running ==> q.list != [])
  }

  /** The first k transfers leave with a final state; nobody else's state changes. */
  ghost predicate Leaves(l: seq<Xfer>, st: States, l': seq<Xfer>, st': States, k: nat) {
    && k <= |l| && l' == l[k..]
    && (forall i :: 0 <= i < k ==> Ended(l[i].id, st'))
    && OthersKeep(l, k, st, st')
  }

  // ---------- the engine ----------

  class Engine {
    var running: bool
    var offline: bool
    var request: bool
    var idle: bool
    var list: seq<Xfer>
    var states: map<nat, TransferState>
    var dequeued: nat
    var status: Status
    var first: First

    constructor ()
      ensures View() == Fresh()
    {
      running, offline, request, idle, list, states := false, false, false, false, [], map[];
      dequeued, status, first := 0, Status(false, false), First(0, 0);
    }

    ghost function View(): Queue
      reads this
    {
      Queue(running, offline, request, idle, list, states, dequeued, status, first)
    }

    /** engine_start succeeds exactly on an idle engine with a non-empty queue. */
    method EngineStart(s: Status) returns (started: bool)
      modifies this
      ensures started == old(CanStart(View())) && View() == Start(old(View()), s)
    {
      if running || list == [] {
        return false;
      }
      request, idle := false, false;
      dequeued, status := 0, s;
      first := First(list[0].bus, NextAdj(list[0].descNum, Lo(list[0].bus)));
      running := true;
      return true;
    }

    method EngineStop()
      modifies this
      ensures View() == Stop(old(View()))
    {
      running := false;
    }

    // engine_service_transfer_list: rest is what is left of the completed count.
    method ServiceTransferList(count: nat) returns (rest: nat)
      modifies this
      ensures (View(), rest) == ServiceList(old(View()), count)
    {
      rest := count;
      while list != [] && rest > list[0].descNum
        invariant ServiceList(View(), rest) == ServiceList(old(View()), count)
        decreases |list|
      {
        rest := rest - list[0].descNum;
        dequeued := dequeued + list[0].descNum;
        states := states[list[0].id := Completed];
        list := list[1..];
      }
    }

    // engine_service_final_transfer.
    method ServiceFinalTransfer(count: nat)
      modifies this
      ensures View() == ServiceFinal(old(View()), count)
    {
      if list == [] {
        return;
      }
      var head := list[0];
      if status.error {
        states := states[head.id := Failed];
        EngineStop();
      } else if count < head.descNum {
        states := states[head.id := Failed];
        dequeued := dequeued + head.descNum;
      } else {
        states := states[head.id := Completed];
        dequeued := dequeued + head.descNum;
      }
      list := list[1..];
    }

    // engine_service_resume.
    method ServiceResume(s: Status) returns (rv: int)
      modifies this
      ensures View() == Resume(old(View()), s) && rv == 0
    {
      rv := 0;
      if !running {
        if list != [] {
          var started := EngineStart(s);
          if !started {
            rv := -EINVAL;
          }
        } else if request {
          idle := true;
        }
      } else if list == [] {
        EngineStop();
      }
    }

    /** engine_service: the result tells the caller of an error flag in the write-back. */
    method EngineService(r: Report) returns (rv: int)
      modifies this
      ensures View() == Service(old(View()), r)
      ensures rv == if old(running) && r.wbError then -1 else 0
    {
      hide ServiceList, ServiceFinal, Resume;
      if !running {
        status := r.status;
        return 0;
      }
      if r.wbCount == 0 || r.wbError {
        status := r.status;
      }
      if !status.busy || r.wbCount != 0 {
        EngineStop();
      }
      var count := if r.wbCount == 0 then r.count else r.wbCount;
      if count != 0 {
        var net := (count - dequeued) % TWO_32;
        var rest := ServiceTransferList(net);
        ServiceFinalTransfer(rest);
        var resumed := ServiceResume(r.restart);
      }
      return if r.wbError then -1 else 0;
    }

    /** transfer_queue: an accepted transfer is at the tail and the engine runs; engine_start, called
        only here on an idle engine whose queue just grew, cannot fail. */
    method TransferQueue(x: Xfer, s: Status) returns (rv: int)
      modifies this
      ensures rv == QueueError(old(View()), x) && View() == Enqueue(old(View()), x, s)
      ensures rv == if x.descNum == 0 then -22 else if old(offline) || old(request) then -16 else 0
      ensures rv == 0 ==> running && list == old(list) + [x]
    {
      if x.descNum == 0 {
        return -EINVAL;
      }
      if offline {
        return -EBUSY;
      }
      if request {
        return -EBUSY;
      }
      states := states[x.id := Submitted];
      list := list + [x];
      if !running {
        var started := EngineStart(s);
        assert started;
      }
      return 0;
    }

    // transfer_abort followed by the stop, as the submit path does after a wait without a result.
    method TransferAbort(x: Xfer, s: Status)
      modifies this
      ensures View() == Abort(old(View()), x, s)
    {
      status := s;
      if x.descNum == 0 {
        return;
      }
      if list != [] && list[0] == x {
        list := list[1..];
      }
      if x.id in states && states[x.id] == Submitted {
        states := states[x.id := Aborted];
      }
      EngineStop();
    }

    method DeviceOffline()
      modifies this
      ensures View() == GoOffline(old(View()))
    {
      offline, request := true, true;
      EngineStop();
    }

    method DeviceOnline()
      modifies this
      ensures View() == GoOnline(old(View()))
    {
      offline, request := false, false;
    }
  }
}
