/** transfer_init: the next run of software descriptors packed into the engine's descriptor ring. */
module Ring {
  import opened Extents
  import opened Descriptors
  import opened Request
  import opened Walker

  /** Slots desc_index .. desc_index + desc_num - 1 of the ring. */
  datatype Transfer = Transfer(descIndex: nat, descBus: nat, descNum: nat, len: nat)

  function Min(a: nat, b: nat): nat {
    if a < b then a else b
  }

  /** How many software descriptors the next transfer takes: what is pending, but not past the ring's end. */
  function Take(pending: nat, descIdx: nat, descMax: nat): (n: nat)
    requires descIdx < descMax
    ensures n <= pending && descIdx + n <= descMax && (pending > 0 ==> n > 0)
  {
    var n := Min(pending, descMax);
    if descIdx + n >= descMax then descMax - descIdx else n
  }

  /** The ring index after n more slots. */
  function Advance(descIdx: nat, n: nat, descMax: nat): (next: nat)
    requires descMax > 0
    ensures next < descMax
  {
    (descIdx + n) % descMax
  }

  /** A transfer never passes the ring's end, and the next one begins in the slot behind it, or in slot 0. */
  lemma AdvanceIs(descIdx: nat, n: nat, descMax: nat)
    requires descIdx + n <= descMax && descMax > 0
    ensures Advance(descIdx, n, descMax) == if descIdx + n < descMax then descIdx + n else 0
  {
  }

  class Engine {
    const desc: array<Desc>
    const descBus: nat
    const dir: Direction
    var descIdx: nat
    var descUsed: int

    constructor (size: nat, descBus: nat, dir: Direction)
      requires size > 0
      ensures Valid() && fresh(desc) && descIdx == 0 && descUsed == 0
      ensures desc.Length == size && this.descBus == descBus && this.dir == dir
    {
      desc := new Desc[size](_ => ZERO_DESC);
      this.descBus, this.dir := descBus, dir;
      descIdx, descUsed := 0, 0;
    }

    ghost predicate Valid()
      reads this`descIdx
    {
      descIdx < desc.Length
    }

    // transfer_desc_init: links slots first .. first + count - 1 and clears their lengths.
    method DescInit(first: nat, count: nat)
      requires 1 <= count && first + count <= desc.Length
      modifies desc
      ensures forall s :: 0 <= s < desc.Length ==>
        desc[s] == if first <= s < first + count then Linked(old(desc[s]), descBus, s, first + count) else old(desc[s])
    {
      var bus := SlotAddr(descBus, first);
      var i := first;
      while i < first + count - 1
        invariant first <= i <= first + count - 1 && bus == SlotAddr(descBus, i)
        invariant forall s :: 0 <= s < desc.Length ==>
          desc[s] == if first <= s < i then Linked(old(desc[s]), descBus, s, first + count) else old(desc[s])
      {
        bus := bus + DESC_SIZE;
        desc[i] := desc[i].(nextLo := Lo(bus), nextHi := Hi(bus), bytes := 0, control := DESC_MAGIC);
        i := i + 1;
      }
      desc[i] := desc[i].(nextLo := 0, nextHi := 0, bytes := 0, control := DESC_MAGIC);
    }

    // transfer_build: fills the slots with the next software descriptors of the request.
    method Build(req: RequestCb, first: nat, count: nat) returns (len: nat)
      requires first + count <= desc.Length && req.swDescIdx + count <= req.swDescCnt <= req.sdesc.Length
      modifies desc, req`epAddr, req`swDescIdx
      ensures
        var ps := Placed(req.sdesc[old(req.swDescIdx)..old(req.swDescIdx) + count], old(req.epAddr));
        forall s :: 0 <= s < desc.Length ==>
          desc[s] == if first <= s < first + count then Filled(old(desc[s]), dir, ps[s - first]) else old(desc[s])
      ensures len == Wrap32(TotalLen(req.sdesc[old(req.swDescIdx)..old(req.swDescIdx) + count]))
      ensures req.epAddr == old(req.epAddr) + TotalLen(req.sdesc[old(req.swDescIdx)..old(req.swDescIdx) + count])
      ensures req.swDescIdx == old(req.swDescIdx) + count
    {
      hide Wrap32, Filled, Placed;
      ghost var es := req.sdesc[req.swDescIdx..req.swDescIdx + count];
      ghost var ps := Placed(es, req.epAddr);
      len := 0;
      NothingSummed(es);
      for i := 0 to count
        invariant req.swDescIdx == old(req.swDescIdx)
        invariant len == Wrap32(TotalLen(es[..i])) && req.epAddr == old(req.epAddr) + TotalLen(es[..i])
        invariant forall s :: 0 <= s < desc.Length ==>
          desc[s] == if first <= s < first + i then Filled(old(desc[s]), dir, ps[s - first]) else old(desc[s])
      {
        var sw := req.sdesc[req.swDescIdx + i];
        assert sw == es[i];
        TakeOne(es, i);
        PlacedAt(es, old(req.epAddr), i);
        desc[first + i] := Filled(desc[first + i], dir, Piece(sw.addr, req.epAddr, sw.len));
        Wrap32Add(TotalLen(es[..i]), sw.len);
        len := Wrap32(len + sw.len);
        req.epAddr := req.epAddr + sw.len;
      }
      assert es[..count] == es;
      req.swDescIdx := req.swDescIdx + count;
    }

    // The loop that announces, in every descriptor, how many more may be fetched with the next one.
    method FillAdjacent(first: nat, count: nat)
      requires first + count <= desc.Length
      requires forall s :: first <= s < first + count ==> desc[s].nextLo == Lo(NextAddr(descBus, s, first + count))
      modifies desc
      ensures forall s :: 0 <= s < desc.Length ==>
        desc[s] == if first <= s < first + count then Announced(old(desc[s]), descBus, s, first + count) else old(desc[s])
    {
      for i := 0 to count
        invariant forall s :: 0 <= s < desc.Length ==>
          desc[s] == if first <= s < first + i then Announced(old(desc[s]), descBus, s, first + count) else old(desc[s])
      {
        var d := desc[first + i];
        var nextAdj := NextAdj(count - i - 1, d.nextLo);
        assert count - i - 1 == first + count - (first + i) - 1;
        desc[first + i] := d.(control := WithAdjacent(d.control, nextAdj as bv32));
      }
    }

    // Links and fills the slots of one transfer and flags the last one.
    method LinkAndFill(req: RequestCb, first: nat, count: nat) returns (len: nat)
      requires 1 <= count && first + count <= desc.Length && req.swDescIdx + count <= req.swDescCnt <= req.sdesc.Length
      modifies desc, req`epAddr, req`swDescIdx
      ensures
        var ps := Placed(req.sdesc[old(req.swDescIdx)..old(req.swDescIdx) + count], old(req.epAddr));
        forall s :: 0 <= s < desc.Length ==>
          desc[s] == if first <= s < first + count then Finished(old(desc[s]), descBus, s, first + count, dir, ps[s - first])
                     else old(desc[s])
      ensures len == Wrap32(TotalLen(req.sdesc[old(req.swDescIdx)..old(req.swDescIdx) + count]))
      ensures req.epAddr == old(req.epAddr) + TotalLen(req.sdesc[old(req.swDescIdx)..old(req.swDescIdx) + count])
      ensures req.swDescIdx == old(req.swDescIdx) + count
    {
      hide Linked, Filled, WithFlags, Placed, TotalLen;
      DescInit(first, count);
      len := Build(req, first, count);
      var last := first + count - 1;
      desc[last] := desc[last].(control := WithFlags(desc[last].control, STOP_FLAGS));
    }

    // The slots of one transfer, from initialisation to adjacency.
    method FillSlots(req: RequestCb, first: nat, count: nat) returns (len: nat)
      requires 1 <= count && first + count <= desc.Length && req.swDescIdx + count <= req.swDescCnt <= req.sdesc.Length
      modifies desc, req`epAddr, req`swDescIdx
      ensures HoldsTransfer(desc[..], descBus, first, dir,
        Placed(req.sdesc[old(req.swDescIdx)..old(req.swDescIdx) + count], old(req.epAddr)))
      ensures forall s :: 0 <= s < desc.Length && !(first <= s < first + count) ==> desc[s] == old(desc[s])
      ensures len == Wrap32(TotalLen(req.sdesc[old(req.swDescIdx)..old(req.swDescIdx) + count]))
      ensures req.epAddr == old(req.epAddr) + TotalLen(req.sdesc[old(req.swDescIdx)..old(req.swDescIdx) + count])
      ensures req.swDescIdx == old(req.swDescIdx) + count
    {
      hide *;
      ghost var end := first + count;
      ghost var ps := Placed(req.sdesc[req.swDescIdx..req.swDescIdx + count], req.epAddr);
      ghost var d0 := desc[..];
      len := LinkAndFill(req, first, count);
      forall s | first <= s < end
        ensures desc[s].nextLo == Lo(NextAddr(descBus, s, end))
        ensures Announced(desc[s], descBus, s, end) == PlannedDesc(descBus, s, end, dir, ps[s - first])
      {
        AnnouncedIsPlanned(d0[s], descBus, s, end, dir, ps[s - first]);
      }
      FillAdjacent(first, count);
      SlotsHold(desc[..], descBus, first, dir, ps);
    }

    /** transfer_init: the ring now holds the next pending extents as a transfer, and nothing else moved. */
    method TransferInit(req: RequestCb) returns (xfer: Transfer)
      requires Valid() && req.swDescIdx < req.swDescCnt <= req.sdesc.Length
      modifies this`descIdx, this`descUsed, desc, req`epAddr, req`swDescIdx
      ensures
        var n := Take(req.swDescCnt - old(req.swDescIdx), old(descIdx), desc.Length);
        var es := req.sdesc[old(req.swDescIdx)..old(req.swDescIdx) + n];
        && xfer == Transfer(old(descIdx), SlotAddr(descBus, old(descIdx)), n, Wrap32(TotalLen(es)))
        && HoldsTransfer(desc[..], descBus, xfer.descIndex, dir, Placed(es, old(req.epAddr)))
        && req.epAddr == old(req.epAddr) + TotalLen(es) && req.swDescIdx == old(req.swDescIdx) + n
        && descIdx == Advance(old(descIdx), n, desc.Length) && descUsed == old(descUsed) + n
      ensures xfer.descNum == Min(req.swDescCnt - old(req.swDescIdx), desc.Length - old(descIdx))
      ensures descIdx == if old(descIdx) + xfer.descNum < desc.Length then old(descIdx) + xfer.descNum else 0
      ensures Valid()
      ensures forall s :: 0 <= s < desc.Length && !(xfer.descIndex <= s < xfer.descIndex + xfer.descNum) ==> desc[s] == old(desc[s])
    {
      hide HoldsTransfer, Placed, TotalLen, SlotAddr, Advance;
      AdvanceIs(descIdx, Take(req.swDescCnt - req.swDescIdx, descIdx, desc.Length), desc.Length);
      var descMax := Min(req.swDescCnt - req.swDescIdx, desc.Length);
      var first := descIdx;
      if descIdx + descMax >= desc.Length {
        descMax := desc.Length - descIdx;
      }
      var len := FillSlots(req, first, descMax);
      descIdx := Advance(descIdx, descMax, desc.Length);
      descUsed := descUsed + descMax;
      xfer := Transfer(first, SlotAddr(descBus, first), descMax, len);
    }
  }

  lemma PlacedAt(es: seq<Extent>, ep: nat, i: nat)
    requires i < |es|
    ensures Placed(es, ep)[i] == Piece(es[i].addr, ep + TotalLen(es[..i]), es[i].len)
  {
  }

  lemma NothingSummed(es: seq<Extent>)
    ensures TotalLen(es[..0]) == 0 && Wrap32(0) == 0
  {
  }

  lemma {:induction false} SlotsHold(ring: seq<Desc>, base: nat, first: nat, dir: Direction, ps: seq<Piece>)
    requires first + |ps| <= |ring|
    requires forall s :: first <= s < first + |ps| ==> ring[s] == PlannedDesc(base, s, first + |ps|, dir, ps[s - first])
    ensures HoldsTransfer(ring, base, first, dir, ps)
  {
  }

  /** A slot after linking, filling and, if it is the last one, flagging. */
  function Finished(d: Desc, base: nat, slot: nat, end: nat, dir: Direction, p: Piece): Desc {
    var f := Filled(Linked(d, base, slot, end), dir, p);
    if slot + 1 == end then f.(control := WithFlags(f.control, STOP_FLAGS)) else f
  }

  /** Whatever a slot held before, announcing the adjacency completes it as planned. */
  lemma AnnouncedIsPlanned(d: Desc, base: nat, slot: nat, end: nat, dir: Direction, p: Piece)
    requires slot < end
    ensures Finished(d, base, slot, end, dir, p).nextLo == Lo(NextAddr(base, slot, end))
    ensures Announced(Finished(d, base, slot, end, dir, p), base, slot, end) == PlannedDesc(base, slot, end, dir, p)
  {
    hide Lo, Hi, WithFlags, WithAdjacent, AdjacentFor, NextAddr;
  }

  /** transfer_desc_init on one slot. */
  function Linked(d: Desc, base: nat, slot: nat, end: nat): Desc {
    var next := NextAddr(base, slot, end);
    d.(nextLo := Lo(next), nextHi := Hi(next), bytes := 0, control := DESC_MAGIC)
  }

  /** xdma_desc_adjacent on one slot. */
  function Announced(d: Desc, base: nat, slot: nat, end: nat): Desc
    requires slot < end
  {
    d.(control := WithAdjacent(d.control, AdjacentFor(base, slot, end)))
  }
}
