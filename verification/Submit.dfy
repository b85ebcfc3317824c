/** xdma_xfer_submit: one request driven through the ring, transfer by transfer, until it is done or
    one transfer does not complete. What the hardware does is free, but it never reports a descriptor
    as completed whose bytes it has not moved; and it may move bytes of a transfer that it never completes. */
module Submit {
  import opened Extents
  import opened Request
  import opened Walker
  import opened Ring
  import opened Descriptors
  import opened Waiting
  import EQ = EngineQueue

  const EIO: int := 5
  const ERESTARTSYS: int := 512

  /** The error code of an ending; 0 is success. */
  function Code(e: Ending): int {
    match e
    case Refused(error) => error
    case Waited(state) => if state == EQ.Completed then 0 else if state == EQ.Failed then -EIO else -ERESTARTSYS
  }

  // ---------- the hardware ----------

  /** What the hardware and the service calls do with the k-th transfer, which holds the given extents. */
  type Hardware = (nat, seq<Extent>) -> Conduct

  /** n completed descriptors of a transfer are backed by the bytes moved. */
  predicate Backed(n: nat, part: seq<Extent>, bytes: nat) {
    n <= |part| && TotalLen(part[..n]) <= bytes
  }

  /** So are the write-back and, where it is read, the register. */
  predicate ReportBacked(r: EQ.Report, part: seq<Extent>, bytes: nat) {
    Backed(r.wbCount, part, bytes) && (r.wbCount == 0 ==> Backed(r.count, part, bytes))
  }

  ghost predicate HonestConduct(c: Conduct, part: seq<Extent>) {
    && AllWhileWaiting(c.events) && c.bytes <= TotalLen(part)
    && forall i :: 0 <= i < |c.events| && c.events[i].Serviced? ==> ReportBacked(c.events[i].report, part, c.bytes)
  }

  ghost predicate HonestHardware(hw: Hardware) {
    forall k: nat, part: seq<Extent> :: HonestConduct(hw(k, part), part)
  }

  /** What becomes of the k-th transfer once it is queued. */
  function FateOf(hw: Hardware, k: nat, part: seq<Extent>): EQ.TransferState {
    Fate(|part|, hw(k, part).start, hw(k, part).events)
  }

  /** A completed transfer was moved whole: an honest hardware cannot have reported all of its
      descriptors otherwise. */
  lemma {:induction false} CompletedIsMoved(hw: Hardware, k: nat, part: seq<Extent>)
    requires HonestHardware(hw) && FateOf(hw, k, part) == EQ.Completed
    ensures hw(k, part).bytes == TotalLen(part)
  {
    var c := hw(k, part);
    assert HonestConduct(c, part);
    CompletedWasSeen(|part|, c.start, c.events);
    var i :| 0 <= i < |c.events| && c.events[i].Serviced? && SawAtLeast(c.events[i].report, |part|);
    assert ReportBacked(c.events[i].report, part, c.bytes);
    assert part[..|part|] == part;
  }

  /** A transfer that fails may have moved bytes: the hardware did one of two descriptors and stopped. */
  lemma FailedMayMove()
    ensures
      var part := [Extent(0, 1), Extent(1, 1)];
      var idle := EQ.Status(false, false);
      var c := Conduct(idle, [EQ.Serviced(EQ.Report(0, false, idle, 1, idle))], idle, 1);
      HonestConduct(c, part) && Fate(|part|, c.start, c.events) == EQ.Failed && c.bytes > 0
  {
    var part := [Extent(0, 1), Extent(1, 1)];
    assert part[..0] == [] && part[..1][..0] == [] && part[..1] == [Extent(0, 1)];
    TakeOne(part, 0);
    TakeOne(part, 1);
    assert part[..2] == part;
  }

  // ---------- the transfers of a request ----------

  /** The transfers the submit loop makes of the pending extents: runs of slots that never pass the ring's end. */
  function Plan(es: seq<Extent>, descIdx: nat, descMax: nat): seq<seq<Extent>>
    requires descIdx < descMax
    decreases |es|
  {
    if es == [] then []
    else
      var n := Take(|es|, descIdx, descMax);
      [es[..n]] + Plan(es[n..], Advance(descIdx, n, descMax), descMax)
  }

  /** The extents in the first n transfers. */
  function Planned(plan: seq<seq<Extent>>, n: nat): nat
    requires n <= |plan|
  {
    if n == 0 then 0 else Planned(plan, n - 1) + |plan[n - 1]|
  }

  lemma {:induction false} PlannedShifts(plan: seq<seq<Extent>>, n: nat)
    requires 0 < n <= |plan|
    ensures Planned(plan, n) == |plan[0]| + Planned(plan[1..], n - 1)
  {
    if n > 1 {
      PlannedShifts(plan, n - 1);
    }
  }

  /** One unfolding of the plan. */
  lemma {:induction false} PlanUnfolds(es: seq<Extent>, descIdx: nat, descMax: nat) returns (n: nat, next: nat)
    requires descIdx < descMax && es != []
    ensures 0 < n <= |es| && next < descMax
    ensures
      var plan, rest := Plan(es, descIdx, descMax), Plan(es[n..], next, descMax);
      plan != [] && plan[0] == es[..n] && plan[1..] == rest
  {
    n := Take(|es|, descIdx, descMax);
    next := Advance(descIdx, n, descMax);
  }

  /** All pending extents are planned. */
  lemma {:induction false} PlanIsWhole(es: seq<Extent>, descIdx: nat, descMax: nat)
    requires descIdx < descMax
    ensures var plan := Plan(es, descIdx, descMax); Planned(plan, |plan|) == |es|
    decreases |es|
  {
    if es != [] {
      var n, next := PlanUnfolds(es, descIdx, descMax);
      hide Plan;
      PlanIsWhole(es[n..], next, descMax);
      PlannedShifts(Plan(es, descIdx, descMax), |Plan(es, descIdx, descMax)|);
    }
  }

  /** The transfers are non-empty and hold the pending extents in order, each exactly once. */
  lemma {:induction false} PlanPartitions(es: seq<Extent>, descIdx: nat, descMax: nat, k: nat)
    requires descIdx < descMax && k < |Plan(es, descIdx, descMax)|
    ensures
      var plan := Plan(es, descIdx, descMax);
      var p := Planned(plan, k);
      p + |plan[k]| <= |es| && plan[k] == es[p..p + |plan[k]|] && |plan[k]| > 0
    decreases |es|
  {
    var n, next := PlanUnfolds(es, descIdx, descMax);
    hide Plan;
    if k > 0 {
      PlannedShifts(Plan(es, descIdx, descMax), k);
      hide Planned;
      PlanPartitions(es[n..], next, descMax, k - 1);
      var rest := Plan(es[n..], next, descMax);
      var p := Planned(rest, k - 1);
      SliceOfRest(es, n, p, |rest[k - 1]|);
    }
  }

  lemma SliceOfRest(es: seq<Extent>, n: nat, p: nat, m: nat)
    requires n + p + m <= |es|
    ensures es[n..][p..p + m] == es[n + p..n + p + m]
  {
  }

  /** A request that fits the ring takes at most two transfers, wherever the ring stands. */
  lemma AtMostTwoRuns(es: seq<Extent>, descIdx: nat, descMax: nat)
    requires descIdx < descMax && |es| <= descMax
    ensures |Plan(es, descIdx, descMax)| <= 2
    ensures |Plan(es, descIdx, descMax)| == 2 <==> descIdx + |es| > descMax
  {
    if es != [] {
      var n := Take(|es|, descIdx, descMax);
      var rest := es[n..];
      if n < |es| {
        assert Advance(descIdx, n, descMax) == 0;
        assert Take(|rest|, 0, descMax) == |rest|;
        assert Plan(rest, 0, descMax) == [rest] + Plan([], Advance(0, |rest|, descMax), descMax) by {
          assert rest[..|rest|] == rest && rest[|rest|..] == [];
        }
      } else {
        assert rest == [];
      }
    }
  }

  /** What moving the first cut extents comes to. */
  function Moved(dir: Direction, es: seq<Extent>, ep: nat, cut: nat): (ms: seq<Move>)
    requires cut <= |es|
    ensures |ms| == TotalLen(es[..cut])
  {
    Mapping(dir, Stream(es[..cut]), ep)
  }

  /** Adding the run of extents p .. p + n - 1 extends what is moved. */
  lemma {:induction false} MovedExtends(dir: Direction, es: seq<Extent>, ep: nat, p: nat, n: nat)
    requires p + n <= |es|
    ensures Moved(dir, es, ep, p + n) ==
            Moved(dir, es, ep, p) + Mapping(dir, Stream(es[p..p + n]), ep + |Moved(dir, es, ep, p)|)
    ensures |Moved(dir, es, ep, p + n)| == |Moved(dir, es, ep, p)| + TotalLen(es[p..p + n])
  {
    hide Stream, Mapping, TotalLen;
    assert es[..p + n] == es[..p] + es[p..p + n];
    StreamConcat(es[..p], es[p..p + n]);
    MappingAppend(dir, Stream(es[..p]), Stream(es[p..p + n]), ep);
  }

  /** The hardware started on a freshly built transfer walks all of its slots and moves its extents. */
  lemma {:induction false} TransferWalk(ring: seq<Desc>, base: nat, first: nat, dir: Direction, es: seq<Extent>, ep: nat)
    requires |es| > 0 && HoldsTransfer(ring, base, first, dir, Placed(es, ep))
    ensures Walk(ring, base, SlotAddr(base, first), |ring|) ==
      Stopped(Mapping(dir, Stream(es), ep), Slots(first, first + |es|))
  {
    hide *;
    FitsInRing(ring, base, first, dir, Placed(es, ep));
    assert SlotAddr(base, first + 0) == SlotAddr(base, first);
    WalkFromPiece(ring, base, first, dir, Placed(es, ep), 0, |ring|);
    PlacedMoves(dir, es, ep);
  }

  /** Where the submit loop stands after handing out the first cut extents of es. */
  ghost predicate Synced(engine: Engine, req: RequestCb, es: seq<Extent>, ep: nat, cut: nat)
    reads engine`descIdx, req`swDescIdx, req`swDescCnt, req`epAddr, req.sdesc
  {
    && engine.Valid() && cut == req.swDescIdx <= req.swDescCnt <= req.sdesc.Length
    && es == req.sdesc[..req.swDescCnt]
    && req.epAddr == ep + |Moved(engine.dir, es, ep, cut)|
  }

  /** transfer_init followed by the hardware's walk of what it built. */
  method NextTransfer(engine: Engine, req: RequestCb, ghost es: seq<Extent>, ghost ep: nat, ghost cut: nat)
    returns (xfer: Transfer, ghost walk: WalkResult)
    requires Synced(engine, req, es, ep, cut) && cut < |es|
    modifies engine`descIdx, engine`descUsed, engine.desc, req`epAddr, req`swDescIdx
    ensures xfer.descNum == Take(|es| - cut, old(engine.descIdx), engine.desc.Length) && 1 <= xfer.descNum <= |es| - cut
    ensures Synced(engine, req, es, ep, cut + xfer.descNum)
    ensures engine.descUsed == old(engine.descUsed) + xfer.descNum
    ensures engine.descIdx == Advance(old(engine.descIdx), xfer.descNum, engine.desc.Length)
    ensures xfer.descIndex == old(engine.descIdx) && xfer.descIndex + xfer.descNum <= engine.desc.Length
    ensures walk == Walk(engine.desc[..], engine.descBus, xfer.descBus, engine.desc.Length)
    ensures walk.Stopped? && walk.slots == Slots(xfer.descIndex, xfer.descIndex + xfer.descNum)
    ensures Moved(engine.dir, es, ep, cut + xfer.descNum) == Moved(engine.dir, es, ep, cut) + walk.moves
    ensures xfer.len == Wrap32(|walk.moves|)
  {
    hide Walk, Placed, Stream, Mapping, HoldsTransfer, Slots, SlotAddr, TotalLen, Moved, Take, Advance;
    ghost var epNow := req.epAddr;
    xfer := engine.TransferInit(req);
    ghost var n := xfer.descNum;
    ghost var taken := req.sdesc[cut..cut + n];
    assert es[cut..cut + n] == taken;
    TransferWalk(engine.desc[..], engine.descBus, xfer.descIndex, engine.dir, taken, epNow);
    MovedExtends(engine.dir, es, ep, cut, n);
    walk := Walk(engine.desc[..], engine.descBus, xfer.descBus, engine.desc.Length);
  }

  // transfer_destroy: the slots of a finished transfer are cleared.
  method Destroy(engine: Engine, xfer: Transfer)
    requires xfer.descIndex + xfer.descNum <= engine.desc.Length
    modifies engine.desc
    ensures forall s :: 0 <= s < engine.desc.Length ==>
      engine.desc[s] == if xfer.descIndex <= s < xfer.descIndex + xfer.descNum then Desc(0, 0, 0, 0, 0, 0, 0, 0)
                        else old(engine.desc[s])
  {
    forall s | xfer.descIndex <= s < xfer.descIndex + xfer.descNum {
      engine.desc[s] := ZERO_DESC;
    }
  }

  /** One transfer more of the plan. */
  lemma {:induction false} PlanStep(es: seq<Extent>, cut: nat, descIdx: nat, descMax: nat)
    requires descIdx < descMax && cut < |es|
    ensures
      var n := Take(|es| - cut, descIdx, descMax);
      Plan(es[cut..], descIdx, descMax) == [es[cut..cut + n]] + Plan(es[cut + n..], Advance(descIdx, n, descMax), descMax)
  {
    var n := Take(|es| - cut, descIdx, descMax);
    assert es[cut..][..n] == es[cut..cut + n] && es[cut..][n..] == es[cut + n..];
  }

  /** No transfer is queued, and every transfer to come is new to the queue. */
  ghost predicate Quiet(p: EQ.Engine, nextId: nat)
    reads p
  {
    p.list == [] && !p.running && forall id :: id in p.states ==> id < nextId
  }

  // One turn of the submit loop: build, queue, wait, account. part is what the transfer holds, ring what
  // the hardware found, and moves what the walk from the first-descriptor register moves as a whole.
  method Attempt(engine: Engine, req: RequestCb, p: EQ.Engine, hw: Hardware, k: nat, id: nat,
                 ghost es: seq<Extent>, ghost ep: nat, ghost cut: nat)
    returns (xfer: Transfer, e: Ending, part: seq<Extent>, ghost ring: seq<Desc>, ghost moves: seq<Move>)
    requires engine.Valid() && Synced(engine, req, es, ep, cut) && cut < |es|
    requires HonestHardware(hw) && Quiet(p, id)
    requires req.swDescIdx == cut
    modifies engine`descIdx, engine`descUsed, engine.desc, req`epAddr, req`swDescIdx, p
    ensures xfer.descNum == |part| && 1 <= |part| <= |es| - cut && part == es[cut..cut + |part|]
    ensures e == (if AcceptsAll(old(p.View())) then Waited(FateOf(hw, k, part)) else Refused(-EQ.EBUSY))
    ensures engine.Valid() && Synced(engine, req, es, ep, cut + |part|) && req.swDescIdx == cut + |part|
    ensures Quiet(p, id + 1) && (e.Waited? ==> AcceptsAll(p.View()) == OpenAfter(true, hw(k, part).events))
    ensures engine.descUsed == old(engine.descUsed) + if e.Refused? then |part| else 0
    ensures Moved(engine.dir, es, ep, cut + |part|) == Moved(engine.dir, es, ep, cut) + moves && |moves| == TotalLen(part)
    ensures xfer.len == Wrap32(TotalLen(part))
    ensures Walk(ring, engine.descBus, xfer.descBus, |ring|) == Stopped(moves, Slots(xfer.descIndex, xfer.descIndex + xfer.descNum))
    ensures e.Waited? ==> p.first.bus == xfer.descBus
    ensures Plan(es[cut..], old(engine.descIdx), engine.desc.Length) ==
            [part] + Plan(es[cut + |part|..], engine.descIdx, engine.desc.Length)
  {
    hide Placed, Stream, TotalLen, Mapping, HoldsTransfer, Walk, Slots, SlotAddr, Moved, Take, Plan, Advance, Fate;
    PlanStep(es, cut, engine.descIdx, engine.desc.Length);
    ghost var walk;
    xfer, walk := NextTransfer(engine, req, es, ep, cut);
    part := req.sdesc[req.swDescIdx - xfer.descNum..req.swDescIdx];
    assert part == es[cut..cut + xfer.descNum];
    ring, moves := engine.desc[..], walk.moves;
    MovedExtends(engine.dir, es, ep, cut, |part|);
    assert HonestConduct(hw(k, part), part);
    e := Await(p, EQ.Xfer(id, xfer.descNum, xfer.descBus), hw(k, part));
    if !e.Refused? {
      engine.descUsed := engine.descUsed - xfer.descNum;
      Destroy(engine, xfer);
    }
  }

  // ---------- the loop ----------

  /** Whether the queue takes the k-th transfer, if it took and completed all before: for the first one
      open says so, for the others whether the device was last taken offline or online during the wait
      before. */
  predicate OpenFor(open: bool, plan: seq<seq<Extent>>, hw: Hardware, k: nat)
    requires k <= |plan|
  {
    if k == 0 then open else OpenAfter(true, hw(k - 1, plan[k - 1]).events)
  }

  /** How the k-th transfer ends. */
  function EndOf(open: bool, plan: seq<seq<Extent>>, hw: Hardware, k: nat): Ending
    requires k < |plan|
  {
    if OpenFor(open, plan, hw, k) then Waited(FateOf(hw, k, plan[k])) else Refused(-16)
  }

  predicate Succeeds(open: bool, plan: seq<seq<Extent>>, hw: Hardware, k: nat)
    requires k < |plan|
  {
    EndOf(open, plan, hw, k) == Waited(EQ.Completed)
  }

  /** The first c transfers of the plan are completed; then either none is left, or the next one is not. */
  ghost predicate EndedAt(open: bool, plan: seq<seq<Extent>>, hw: Hardware, c: nat, last: Ending) {
    && c <= |plan| && (forall k: nat | k < c :: Succeeds(open, plan, hw, k))
    && (c < |plan| ==> last == EndOf(open, plan, hw, c) && !Succeeds(open, plan, hw, c))
  }

  /** The bytes the hardware moved for the transfer that did not complete. */
  function Stray(plan: seq<seq<Extent>>, hw: Hardware, c: nat, last: Ending): nat {
    if c < |plan| && last.Waited? then hw(c, plan[c]).bytes else 0
  }

  /** They are some of its bytes, and with those of the completed transfers no more than the request has. */
  lemma {:induction false} StrayIsBounded(es: seq<Extent>, descIdx: nat, descMax: nat, hw: Hardware, c: nat, last: Ending)
    requires descIdx < descMax && HonestHardware(hw) && c < |Plan(es, descIdx, descMax)|
    ensures
      var plan := Plan(es, descIdx, descMax);
      Stray(plan, hw, c, last) <= TotalLen(plan[c]) && Planned(plan, c) <= |es|
      && Good(es, plan, c) + TotalLen(plan[c]) <= TotalLen(es)
  {
    var plan := Plan(es, descIdx, descMax);
    StrayIsPart(hw, c, plan[c]);
    hide Plan;
    PlanPartitions(es, descIdx, descMax, c);
    var n, m := Planned(plan, c), Planned(plan, c) + |plan[c]|;
    hide Stream;
    assert es[..m] == es[..n] + plan[c];
    StreamConcat(es[..n], plan[c]);
    PrefixStream(es, m);
  }

  /** The bytes in the first c transfers. */
  function Good(es: seq<Extent>, plan: seq<seq<Extent>>, c: nat): nat
    requires c <= |plan| && Planned(plan, c) <= |es|
  {
    TotalLen(es[..Planned(plan, c)])
  }

  /** What the driver counts for them: each length in the 32 bits it is kept in. */
  function Counted(plan: seq<seq<Extent>>, c: nat): nat
    requires c <= |plan|
  {
    if c == 0 then 0 else Counted(plan, c - 1) + Wrap32(TotalLen(plan[c - 1]))
  }

  /** The first c transfers are shorter than 2^32 bytes. */
  ghost predicate Short(plan: seq<seq<Extent>>, c: nat)
    requires c <= |plan|
  {
    forall k: nat | k < c :: TotalLen(plan[k]) < TWO_32
  }

  /** The driver counts the bytes right if and only if no transfer has 2^32 bytes or more, and otherwise too few. */
  lemma {:induction false} CountedIff(es: seq<Extent>, plan: seq<seq<Extent>>, descIdx: nat, descMax: nat, c: nat)
    requires descIdx < descMax && plan == Plan(es, descIdx, descMax) && c <= |plan| && Planned(plan, c) <= |es|
    ensures Counted(plan, c) <= Good(es, plan, c)
    ensures Counted(plan, c) == Good(es, plan, c) <==> Short(plan, c)
    decreases c
  {
    hide *;
    if c > 0 {
      PlanPartitions(es, descIdx, descMax, c - 1);
      CountedIff(es, plan, descIdx, descMax, c - 1);
      OneCounted(es, plan, c - 1);
    } else {
      NoneCounted(es, plan);
    }
  }

  lemma {:induction false} NoneCounted(es: seq<Extent>, plan: seq<seq<Extent>>)
    ensures Planned(plan, 0) == 0 && Counted(plan, 0) == 0 == Good(es, plan, 0) && Short(plan, 0)
  {
    assert es[..0] == [];
  }

  /** What one transfer more adds on both sides. */
  lemma {:induction false} OneCounted(es: seq<Extent>, plan: seq<seq<Extent>>, c: nat)
    requires c < |plan| && Planned(plan, c) + |plan[c]| <= |es| && plan[c] == es[Planned(plan, c)..Planned(plan, c) + |plan[c]|]
    ensures Planned(plan, c + 1) == Planned(plan, c) + |plan[c]|
    ensures Good(es, plan, c + 1) == Good(es, plan, c) + TotalLen(plan[c])
    ensures Counted(plan, c + 1) == Counted(plan, c) + Wrap32(TotalLen(plan[c]))
    ensures Wrap32(TotalLen(plan[c])) <= TotalLen(plan[c])
    ensures Wrap32(TotalLen(plan[c])) == TotalLen(plan[c]) <==> TotalLen(plan[c]) < TWO_32
    ensures Short(plan, c + 1) <==> Short(plan, c) && TotalLen(plan[c]) < TWO_32
  {
    GoodGrows(es, plan, c);
    hide Good, Planned, TotalLen, Plan;
  }

  lemma {:induction false} GoodGrows(es: seq<Extent>, plan: seq<seq<Extent>>, c: nat)
    requires c < |plan| && Planned(plan, c) + |plan[c]| <= |es| && plan[c] == es[Planned(plan, c)..Planned(plan, c) + |plan[c]|]
    ensures Planned(plan, c + 1) == Planned(plan, c) + |plan[c]|
    ensures Good(es, plan, c + 1) == Good(es, plan, c) + TotalLen(plan[c])
  {
    var n, m := Planned(plan, c), Planned(plan, c) + |plan[c]|;
    hide Stream;
    assert es[..m] == es[..n] + plan[c];
    StreamConcat(es[..n], plan[c]);
  }

  /** Two descriptors of 2^31 bytes in one transfer are counted as nothing. */
  lemma LengthVanishes(addr: nat, descIdx: nat, descMax: nat)
    requires descIdx + 2 <= descMax
    ensures
      var es := [Extent(addr, TWO_32 / 2), Extent(addr + TWO_32 / 2, TWO_32 / 2)];
      var plan := Plan(es, descIdx, descMax);
      |plan| == 1 && Planned(plan, 1) == 2 && Good(es, plan, 1) == TWO_32 && Counted(plan, 1) == 0
  {
    var es := [Extent(addr, TWO_32 / 2), Extent(addr + TWO_32 / 2, TWO_32 / 2)];
    hide Stream;
    assert es[..2] == es && es[2..] == [] && es[..1] == [es[0]];
    NoPlan(Advance(descIdx, 2, descMax), descMax);
    assert Plan(es, descIdx, descMax) == [es];
    assert TotalLen(es) == TWO_32;
    hide Plan;
    assert Counted([es], 1) == Counted([es], 0) + Wrap32(TWO_32);
  }

  /** What was moved is the bytes of the completed transfers and those that the last one got to, in
      order from the beginning of the stream, byte k to or from ep + k. */
  ghost predicate LogIs(log: seq<Move>, dir: Direction, es: seq<Extent>, ep: nat, good: nat, stray: nat) {
    |log| == good + stray <= |Stream(es)| && log == Mapping(dir, Stream(es), ep)[..|log|]
  }

  lemma {:induction false} MovedPart(dir: Direction, es: seq<Extent>, ep: nat, cut: nat, n: nat)
    requires cut <= |es| && n <= |Moved(dir, es, ep, cut)|
    ensures n <= |Stream(es)| && Moved(dir, es, ep, cut)[..n] == Mapping(dir, Stream(es), ep)[..n]
    ensures |Moved(dir, es, ep, cut)| == TotalLen(es[..cut])
  {
    PrefixStream(es, cut);
    hide Stream, TotalLen;
  }

  /** The log after the last transfer, when it was moved up to some byte. */
  lemma {:induction false} LogAtEnd(dir: Direction, es: seq<Extent>, ep: nat, cut: nat, n: nat, moves: seq<Move>, stray: nat)
    requires cut + n <= |es| && stray <= |moves|
    requires Moved(dir, es, ep, cut + n) == Moved(dir, es, ep, cut) + moves
    ensures LogIs(Moved(dir, es, ep, cut) + moves[..stray], dir, es, ep, TotalLen(es[..cut]), stray)
  {
    hide Moved, Mapping, Stream, TotalLen;
    var whole := Moved(dir, es, ep, cut + n);
    var log := Moved(dir, es, ep, cut) + moves[..stray];
    assert log == whole[..|log|];
    MovedPart(dir, es, ep, cut + n, |log|);
    MovedPart(dir, es, ep, cut, 0);
  }

  // The loop of the submit path, up to the first transfer that does not complete.
  method SubmitLoop(engine: Engine, req: RequestCb, p: EQ.Engine, hw: Hardware, firstId: nat,
                    ghost es: seq<Extent>, ghost ep: nat, ghost plan: seq<seq<Extent>>)
    returns (done: nat, rv: int, attempts: nat, ghost c: nat, ghost last: Ending, ghost log: seq<Move>)
    requires engine.Valid() && Synced(engine, req, es, ep, 0) && req.swDescIdx == 0 && req.swDescCnt == |es|
    requires HonestHardware(hw) && Quiet(p, firstId)
    requires plan == Plan(es, engine.descIdx, engine.desc.Length)
    modifies engine`descIdx, engine`descUsed, engine.desc, req`epAddr, req`swDescIdx, p
    ensures engine.Valid() && Quiet(p, firstId + attempts)
    ensures EndedAt(AcceptsAll(old(p.View())), plan, hw, c, last) && attempts == (if c < |plan| then c + 1 else c)
    ensures rv == if c < |plan| then Code(last) else 0
    ensures Planned(plan, c) <= |es| && done == Counted(plan, c)
    ensures LogIs(log, engine.dir, es, ep, Good(es, plan, c), Stray(plan, hw, c, last))
    ensures engine.descUsed == old(engine.descUsed) <==> c == |plan| || last.Waited?
  {
    hide Placed, Stream, TotalLen, Mapping, HoldsTransfer, Walk, Slots, SlotAddr, Moved, Take, Plan, Advance, Fate,
         HonestHardware, Synced, EndOf, Succeeds, OpenFor, FateOf, Code, AcceptsAll, OpenAfter;
    FirstOpen(AcceptsAll(p.View()), plan, hw);
    var nents: nat := req.swDescCnt;
    ghost var cut: nat := 0;
    done, rv, attempts, c, log, last := 0, 0, 0, 0, [], Refused(0);
    ghost var open := AcceptsAll(p.View());
    assert es[0..] == es;
    NothingMoved(engine.dir, es, ep);
    while nents != 0
      invariant engine.Valid() && Synced(engine, req, es, ep, cut) && req.swDescIdx == cut && nents + cut == |es|
      invariant Quiet(p, firstId + attempts) && c == attempts <= |plan|
      invariant cut == Planned(plan, c) && AcceptsAll(p.View()) == OpenFor(open, plan, hw, c)
      invariant plan[c..] == Plan(es[cut..], engine.descIdx, engine.desc.Length)
      invariant forall k: nat | k < c :: Succeeds(open, plan, hw, k)
      invariant log == Moved(engine.dir, es, ep, cut) && |log| == TotalLen(es[..cut]) && done == Counted(plan, c)
      invariant rv == 0 && engine.descUsed == old(engine.descUsed)
    {
      var xfer, e, part;
      ghost var ring, moves;
      xfer, e, part, ring, moves := Attempt(engine, req, p, hw, attempts, firstId + attempts, es, ep, cut);
      assert plan[c] == part && plan[c + 1..] == plan[c..][1..];
      ThisOne(open, plan, hw, c, part, e);
      attempts := attempts + 1;
      rv := Code(e);
      if rv < 0 {
        last := e;
        ghost var stray := if e.Waited? then hw(c, part).bytes else 0;
        StrayIsPart(hw, c, part);
        LogAtEnd(engine.dir, es, ep, cut, |part|, moves, stray);
        log := log + moves[..stray];
        return;
      }
      MovedPart(engine.dir, es, ep, cut + |part|, 0);
      nents, done := nents - xfer.descNum, done + xfer.len;
      cut, log, c := cut + |part|, log + moves, c + 1;
    }
    assert es[cut..] == [];
    NoPlan(engine.descIdx, engine.desc.Length);
    WholeLog(engine.dir, es, ep);
  }

  /** What the attempt at the k-th transfer shows. */
  lemma ThisOne(open: bool, plan: seq<seq<Extent>>, hw: Hardware, k: nat, part: seq<Extent>, e: Ending)
    requires k < |plan| && part == plan[k]
    requires e == if OpenFor(open, plan, hw, k) then Waited(FateOf(hw, k, part)) else Refused(-EQ.EBUSY)
    ensures e == EndOf(open, plan, hw, k) && (Code(e) < 0 <==> !Succeeds(open, plan, hw, k)) && Code(e) <= 0
    ensures e.Waited? == OpenFor(open, plan, hw, k)
    ensures Succeeds(open, plan, hw, k) ==> e.Waited? && OpenFor(open, plan, hw, k + 1) == OpenAfter(true, hw(k, part).events)
  {
    hide Fate;
  }

  lemma FirstOpen(open: bool, plan: seq<seq<Extent>>, hw: Hardware)
    ensures OpenFor(open, plan, hw, 0) == open
  {
  }

  lemma StrayIsPart(hw: Hardware, k: nat, part: seq<Extent>)
    requires HonestHardware(hw)
    ensures hw(k, part).bytes <= TotalLen(part)
  {
    assert HonestConduct(hw(k, part), part);
  }

  lemma NoPlan(descIdx: nat, descMax: nat)
    requires descIdx < descMax
    ensures Plan([], descIdx, descMax) == []
  {
  }

  /** When every transfer completed, the whole stream was moved. */
  lemma {:induction false} WholeLog(dir: Direction, es: seq<Extent>, ep: nat)
    ensures LogIs(Moved(dir, es, ep, |es|), dir, es, ep, TotalLen(es), 0) && es[..|es|] == es
  {
    assert es[..|es|] == es;
    MovedPart(dir, es, ep, |es|, |Moved(dir, es, ep, |es|)|);
  }

  lemma {:induction false} NothingMoved(dir: Direction, es: seq<Extent>, ep: nat)
    ensures Moved(dir, es, ep, 0) == [] && TotalLen(es[..0]) == 0
  {
    assert es[..0] == [];
  }

  /** What the caller of a submission is told: the bytes counted if there are any, and otherwise the error of
      the first transfer that did not complete, even if that moved some bytes. */
  predicate HonestResult(res: int, counted: nat, planned: nat, c: nat, last: Ending)
  {
    res ==
      if counted > 0 then counted
      else if c == planned then 0
      else match last
        case Refused(_) => -16
        case Waited(Failed) => -5
        case Waited(_) => -512
  }

  /** And the error by its cause: -16 if the queue was not open, -5 if the transfer failed, -512 if nobody
      decided it before the wait was over. */
  ghost predicate ErrorTold(res: int, open: bool, plan: seq<seq<Extent>>, hw: Hardware, c: nat)
    requires c < |plan|
  {
    if !OpenFor(open, plan, hw, c) then res == -16
    else
      && (FateOf(hw, c, plan[c]) == EQ.Failed ==> res == -5)
      && (FateOf(hw, c, plan[c]) == EQ.Submitted ==> res == -512)
  }

  lemma ErrorIsTold(res: int, open: bool, plan: seq<seq<Extent>>, hw: Hardware, c: nat, last: Ending)
    requires c < |plan| && EndedAt(open, plan, hw, c, last) && HonestResult(res, 0, |plan|, c, last)
    ensures ErrorTold(res, open, plan, hw, c)
  {
    hide Fate, OpenFor;
  }

  /** The result is an honest prefix. The hardware moved the stream of the pending extents from its
      beginning up to some byte, byte k to or from ep + k, and nothing else. The result counts the first c
      transfers, which completed, each with its 32-bit length; what the next one moved before it failed or
      timed out is moved but not counted. desc_used is given back for every transfer that was queued. */
  method XferSubmit(engine: Engine, req: RequestCb, p: EQ.Engine, hw: Hardware, firstId: nat)
    returns (res: int, attempts: nat, ghost c: nat, ghost last: Ending, ghost log: seq<Move>)
    requires engine.Valid() && HonestHardware(hw) && Quiet(p, firstId)
    requires req.swDescIdx == 0 && req.swDescCnt <= req.sdesc.Length
    modifies engine`descIdx, engine`descUsed, engine.desc, req`epAddr, req`swDescIdx, p
    ensures engine.Valid() && Quiet(p, firstId + attempts)
    ensures
      var es, plan := old(req.Pending()), Plan(old(req.Pending()), old(engine.descIdx), engine.desc.Length);
      && EndedAt(AcceptsAll(old(p.View())), plan, hw, c, last) && attempts == (if c < |plan| then c + 1 else c)
      && Planned(plan, c) <= |es|
      && LogIs(log, engine.dir, es, old(req.epAddr), Good(es, plan, c), Stray(plan, hw, c, last))
      && HonestResult(res, Counted(plan, c), |plan|, c, last)
      && (Counted(plan, c) == 0 && c < |plan| ==> ErrorTold(res, AcceptsAll(old(p.View())), plan, hw, c))
      && (engine.descUsed == old(engine.descUsed) <==> c == |plan| || OpenFor(AcceptsAll(old(p.View())), plan, hw, c))
  {
    ghost var es, ep := req.Pending(), req.epAddr;
    ghost var plan := Plan(es, engine.descIdx, engine.desc.Length);
    var done, rv;
    assert es == req.sdesc[..req.swDescCnt];
    NothingMoved(engine.dir, es, ep);
    hide Moved, Plan, Fate, LogIs, TotalLen, HonestHardware;
    done, rv, attempts, c, last, log := SubmitLoop(engine, req, p, hw, firstId, es, ep, plan);
    res := if done != 0 then done else rv;
    if done == 0 && c < |plan| {
      ErrorIsTold(res, AcceptsAll(old(p.View())), plan, hw, c, last);
    }
  }
}
