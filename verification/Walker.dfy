/** The hardware's view of a descriptor ring: it follows the bus addresses from the first descriptor
    until one that carries STOPPED, and moves the bytes each descriptor names. */
module Walker {
  import opened Extents
  import opened Descriptors

  datatype Direction = ToDevice | FromDevice

  /** One byte moved; src and dst are in different memories. */
  datatype Move = Move(src: nat, dst: nat)

  /** len bytes between root-complex address rc and end-point address ep. */
  datatype Piece = Piece(rc: nat, ep: nat, len: nat)

  datatype WalkResult = Stopped(moves: seq<Move>, slots: seq<nat>) | Lost

  function MovesOf(d: Desc): (ms: seq<Move>)
    ensures |ms| == d.bytes
  {
    seq(d.bytes, k requires 0 <= k < d.bytes => Move(Join(d.srcLo, d.srcHi) + k, Join(d.dstLo, d.dstHi) + k))
  }

  /** Bus address of a slot of a ring that starts at bus address base. */
  function SlotAddr(base: nat, slot: nat): nat {
    base + 32 * slot
  }

  /** The walk from the descriptor at bus address addr of a ring that starts at bus address base. */
  function Walk(ring: seq<Desc>, base: nat, addr: nat, fuel: nat): WalkResult
    decreases fuel
  {
    if fuel == 0 || addr < base || (addr - base) % 32 != 0 || (addr - base) / 32 >= |ring| then Lost
    else
      var slot := (addr - base) / 32;
      var d := ring[slot];
      if Magic(d.control) != DESC_MAGIC then Lost
      else if Flags(d.control) & 1 == 1 then Stopped(MovesOf(d), [slot])
      else
        match Walk(ring, base, Join(d.nextLo, d.nextHi), fuel - 1)
        case Lost => Lost
        case Stopped(moves, slots) => Stopped(MovesOf(d) + moves, [slot] + slots)
  }

  // ---------- what a transfer is meant to look like ----------

  function PieceMoves(dir: Direction, p: Piece): (ms: seq<Move>)
    ensures |ms| == p.len
  {
    seq(p.len, k requires 0 <= k < p.len => if dir == ToDevice then Move(p.rc + k, p.ep + k) else Move(p.ep + k, p.rc + k))
  }

  /** The moves of the pieces from index i on. */
  function MovesFrom(dir: Direction, ps: seq<Piece>, i: nat): seq<Move>
    decreases |ps| - i
  {
    if i >= |ps| then [] else PieceMoves(dir, ps[i]) + MovesFrom(dir, ps, i + 1)
  }

  /** Bus address in the next field of a slot of the transfer that ends before slot end. */
  function NextAddr(base: nat, slot: nat, end: nat): nat {
    if slot + 1 < end then SlotAddr(base, slot + 1) else 0
  }

  function AdjacentFor(base: nat, slot: nat, end: nat): bv32
    requires slot < end
  {
    NextAdj(end - slot - 1, Lo(NextAddr(base, slot, end))) as bv32
  }

  function PlannedControl(base: nat, slot: nat, end: nat): bv32
    requires slot < end
  {
    WithAdjacent(if slot + 1 == end then WithFlags(DESC_MAGIC, STOP_FLAGS) else DESC_MAGIC, AdjacentFor(base, slot, end))
  }

  /** xdma_desc_set: addresses and length; the next pointer and control word stay. */
  function Filled(d: Desc, dir: Direction, p: Piece): Desc {
    var src, dst := if dir == ToDevice then p.rc else p.ep, if dir == ToDevice then p.ep else p.rc;
    d.(bytes := p.len, srcLo := Lo(src), srcHi := Hi(src), dstLo := Lo(dst), dstHi := Hi(dst))
  }

  function PlannedDesc(base: nat, slot: nat, end: nat, dir: Direction, p: Piece): Desc
    requires slot < end
  {
    var next := NextAddr(base, slot, end);
    Filled(ZERO_DESC, dir, p).(control := PlannedControl(base, slot, end), nextLo := Lo(next), nextHi := Hi(next))
  }

  /** The ring holds the pieces as a linked, terminated transfer from slot first on. */
  ghost predicate HoldsTransfer(ring: seq<Desc>, base: nat, first: nat, dir: Direction, ps: seq<Piece>) {
    var end := first + |ps|;
    end <= |ring| && forall s :: first <= s < end ==> ring[s] == PlannedDesc(base, s, end, dir, ps[s - first])
  }

  lemma PlannedControlDecodes(base: nat, slot: nat, end: nat)
    requires slot < end
    ensures
      var c := PlannedControl(base, slot, end);
      && Magic(c) == DESC_MAGIC
      && Flags(c) == (if slot + 1 == end then STOP_FLAGS else 0)
      && Adjacent(c) == AdjacentFor(base, slot, end)
  {
    var bare := if slot + 1 == end then WithFlags(DESC_MAGIC, STOP_FLAGS) else DESC_MAGIC;
    SmallCount(NextAdj(end - slot - 1, Lo(NextAddr(base, slot, end))));
    FlagsDecode(DESC_MAGIC, STOP_FLAGS);
    AdjacentDecodes(bare, AdjacentFor(base, slot, end));
    assert (bare >> 8) & 0x30 == 0;
  }

  /** An adjacency count fits the 6-bit field. */
  lemma SmallCount(adjacent: nat)
    requires adjacent < 64
    ensures adjacent as bv32 < 64
  {
  }

  /** What the hardware reads in piece i of a transfer. */
  lemma {:induction false} PieceDecodes(ring: seq<Desc>, base: nat, first: nat, dir: Direction, ps: seq<Piece>, i: nat)
    requires HoldsTransfer(ring, base, first, dir, ps) && i < |ps|
    ensures first + i < |ring|
    ensures
      var d := ring[first + i];
      && Magic(d.control) == DESC_MAGIC
      && (Flags(d.control) & 1 == 1 <==> i + 1 == |ps|)
      && Join(d.nextLo, d.nextHi) == NextAddr(base, first + i, first + |ps|)
      && MovesOf(d) == PieceMoves(dir, ps[i])
  {
    var slot, end := first + i, first + |ps|;
    assert ring[slot] == PlannedDesc(base, slot, end, dir, ps[slot - first]);
    hide PlannedControl, Magic, Flags, NextAddr, HoldsTransfer, Lo, Hi, Join;
    PlannedControlDecodes(base, slot, end);
    JoinSplit(NextAddr(base, slot, end));
    JoinSplit(ps[i].rc);
    JoinSplit(ps[i].ep);
  }

  /** The count that the hardware reads in each slot of a transfer in an aligned ring: fetched with the
      next descriptor, so many more end before the transfer does and stay in one block; in the last slot
      it is 0. */
  lemma {:induction false} AnnouncedBurstStays(ring: seq<Desc>, base: nat, first: nat, dir: Direction, ps: seq<Piece>, i: nat)
    returns (n: nat)
    requires HoldsTransfer(ring, base, first, dir, ps) && i < |ps| && base % 32 == 0
    ensures n < 64 && first + i < |ring| && Adjacent(ring[first + i].control) == n as bv32
    ensures
      if i + 1 == |ps| then n == 0
      else
        && i + 1 + n < |ps| && InOneBlock(SlotAddr(base, first + i + 1), n)
        && (i + 2 + n == |ps| || !InOneBlock(SlotAddr(base, first + i + 1), n + 1))
  {
    var slot, end := first + i, first + |ps|;
    assert ring[slot] == PlannedDesc(base, slot, end, dir, ps[slot - first]);
    PlannedControlDecodes(base, slot, end);
    n := NextAdj(end - slot - 1, Lo(NextAddr(base, slot, end)));
    hide PlannedControl, Magic, Flags, Adjacent, HoldsTransfer, Lo, Filled;
    if i + 1 < |ps| {
      SlotAligned(base, slot + 1);
      hide SlotAddr;
      AdjacentBurstStaysInBlock(end - slot - 1, SlotAddr(base, slot + 1));
    }
  }

  /** The control word of each slot, bit by bit: the magic number, the count in bits 8 to 13, and in the last
      slot STOPPED, COMPLETED and EOP, which are bits 0, 1 and 4. */
  lemma {:induction false} ControlBits(ring: seq<Desc>, base: nat, first: nat, dir: Direction, ps: seq<Piece>, i: nat)
    requires HoldsTransfer(ring, base, first, dir, ps) && i < |ps|
    ensures first + i < |ring|
    ensures
      var c := ring[first + i].control;
      && c & 0xFFFF_0000 == 0xAD4B_0000 && c & 0xC000 == 0
      && if i + 1 == |ps| then c & 0x01 != 0 && c & 0x02 != 0 && c & 0x10 != 0 && c & 0xEC == 0 && c & 0x3F00 == 0
         else c & 0xFF == 0
  {
    var slot, end := first + i, first + |ps|;
    assert ring[slot] == PlannedDesc(base, slot, end, dir, ps[slot - first]);
    assert ring[slot].control == PlannedControl(base, slot, end);
    SmallCount(NextAdj(end - slot - 1, Lo(NextAddr(base, slot, end))));
    WordBits(i + 1 == |ps|, AdjacentFor(base, slot, end));
  }

  lemma WordBits(last: bool, adjacent: bv32)
    requires adjacent < 64 && (last ==> adjacent == 0)
    ensures
      var c := WithAdjacent(if last then WithFlags(DESC_MAGIC, STOP_FLAGS) else DESC_MAGIC, adjacent);
      && c & 0xFFFF_0000 == 0xAD4B_0000 && c & 0xC000 == 0
      && if last then c & 0x01 != 0 && c & 0x02 != 0 && c & 0x10 != 0 && c & 0xEC == 0 && c & 0x3F00 == 0
         else c & 0xFF == 0
  {
  }

  /** The other words of each slot: 32-bit halves of the two addresses and of the next slot's bus address, which
      is 32 bytes on, or 0 after the last slot. */
  lemma {:induction false} SlotWords(ring: seq<Desc>, base: nat, first: nat, dir: Direction, ps: seq<Piece>, i: nat)
    requires HoldsTransfer(ring, base, first, dir, ps) && i < |ps|
    ensures first + i < |ring|
    ensures
      var d, p := ring[first + i], ps[i];
      && d.srcLo < 0x1_0000_0000 && d.dstLo < 0x1_0000_0000 && d.nextLo < 0x1_0000_0000 && d.bytes == p.len
      && 0x1_0000_0000 * d.srcHi + d.srcLo == (if dir == ToDevice then p.rc else p.ep)
      && 0x1_0000_0000 * d.dstHi + d.dstLo == (if dir == ToDevice then p.ep else p.rc)
      && 0x1_0000_0000 * d.nextHi + d.nextLo == if i + 1 < |ps| then base + 32 * (first + i + 1) else 0
  {
    var slot, end := first + i, first + |ps|;
    assert ring[slot] == PlannedDesc(base, slot, end, dir, ps[slot - first]);
  }

  lemma SlotAligned(base: nat, slot: nat)
    requires base % 32 == 0
    ensures SlotAddr(base, slot) % 32 == 0
  {
  }

  /** One step of the walk at an aligned slot of the ring. */
  lemma {:induction false} WalkStep(ring: seq<Desc>, base: nat, slot: nat, fuel: nat)
    requires slot < |ring| && fuel > 0 && Magic(ring[slot].control) == DESC_MAGIC
    ensures
      var d := ring[slot];
      Walk(ring, base, SlotAddr(base, slot), fuel) ==
        if Flags(d.control) & 1 == 1 then Stopped(MovesOf(d), [slot])
        else match Walk(ring, base, Join(d.nextLo, d.nextHi), fuel - 1)
             case Lost => Lost
             case Stopped(moves, slots) => Stopped(MovesOf(d) + moves, [slot] + slots)
  {
    hide Magic, Flags, Join, MovesOf;
    var addr := SlotAddr(base, slot);
    assert (addr - base) % 32 == 0 && (addr - base) / 32 == slot;
  }

  /** Slots first .. last - 1, in order. */
  function Slots(first: nat, last: nat): seq<nat>
    decreases last - first
  {
    if first >= last then [] else [first] + Slots(first + 1, last)
  }

  lemma SlotsAre(first: nat, last: nat)
    requires first <= last
    ensures |Slots(first, last)| == last - first
    ensures forall k :: 0 <= k < last - first ==> Slots(first, last)[k] == first + k
    decreases last - first
  {
    if first < last {
      SlotsAre(first + 1, last);
    }
  }

  /** The walk from piece i of a transfer moves the pieces from i on and stops at the last slot. */
  lemma {:induction false} WalkFromPiece(ring: seq<Desc>, base: nat, first: nat, dir: Direction, ps: seq<Piece>, i: nat, fuel: nat)
    requires HoldsTransfer(ring, base, first, dir, ps) && i < |ps| && |ps| - i <= fuel
    ensures Walk(ring, base, SlotAddr(base, first + i), fuel) == Stopped(MovesFrom(dir, ps, i), Slots(first + i, first + |ps|))
    decreases |ps| - i
  {
    hide *;
    FitsInRing(ring, base, first, dir, ps);
    PieceDecodes(ring, base, first, dir, ps, i);
    Unfold(base, first, dir, ps, i);
    WalkStep(ring, base, first + i, fuel);
    if i + 1 < |ps| {
      WalkFromPiece(ring, base, first, dir, ps, i + 1, fuel - 1);
    }
  }

  lemma {:induction false} FitsInRing(ring: seq<Desc>, base: nat, first: nat, dir: Direction, ps: seq<Piece>)
    requires HoldsTransfer(ring, base, first, dir, ps)
    ensures first + |ps| <= |ring|
  {
  }

  /** One unfolding of everything the walk from piece i is compared with. */
  lemma {:induction false} Unfold(base: nat, first: nat, dir: Direction, ps: seq<Piece>, i: nat)
    requires i < |ps|
    ensures i + 1 < |ps| ==> NextAddr(base, first + i, first + |ps|) == SlotAddr(base, first + (i + 1))
    ensures
      if i + 1 == |ps| then MovesFrom(dir, ps, i) == PieceMoves(dir, ps[i]) && Slots(first + i, first + |ps|) == [first + i]
      else
        && MovesFrom(dir, ps, i) == PieceMoves(dir, ps[i]) + MovesFrom(dir, ps, i + 1)
        && Slots(first + i, first + |ps|) == [first + i] + Slots(first + (i + 1), first + |ps|)
  {
    hide PieceMoves;
    assert Slots(first + i, first + |ps|) == [first + i] + Slots(first + i + 1, first + |ps|);
  }

  // ---------- placing a stream at consecutive end-point addresses ----------

  /** Extents put one after the other from end-point address ep on. */
  function Placed(es: seq<Extent>, ep: nat): (ps: seq<Piece>)
    ensures |ps| == |es|
  {
    seq(|es|, k requires 0 <= k < |es| => Piece(es[k].addr, ep + TotalLen(es[..k]), es[k].len))
  }

  /** Byte k of a stream to or from end-point address ep + k, each byte once, in order. */
  function Mapping(dir: Direction, stream: seq<nat>, ep: nat): (ms: seq<Move>)
    ensures |ms| == |stream|
  {
    seq(|stream|, k requires 0 <= k < |stream| =>
      if dir == ToDevice then Move(stream[k], ep + k) else Move(ep + k, stream[k]))
  }

  lemma {:induction false} MovesAppend(dir: Direction, ps: seq<Piece>, p: Piece, i: nat)
    requires i <= |ps|
    ensures MovesFrom(dir, ps + [p], i) == MovesFrom(dir, ps, i) + PieceMoves(dir, p)
    decreases |ps| - i
  {
    hide PieceMoves;
    if i < |ps| {
      MovesAppend(dir, ps, p, i + 1);
    } else {
      assert MovesFrom(dir, ps + [p], i + 1) == [];
    }
  }

  lemma {:induction false} MappingAppend(dir: Direction, stream: seq<nat>, more: seq<nat>, ep: nat)
    ensures Mapping(dir, stream + more, ep) == Mapping(dir, stream, ep) + Mapping(dir, more, ep + |stream|)
  {
  }

  lemma PieceIsMapping(dir: Direction, e: Extent, ep: nat)
    ensures PieceMoves(dir, Piece(e.addr, ep, e.len)) == Mapping(dir, Span(e.addr, e.len), ep)
  {
  }

  /** Extents placed one after the other move their stream byte by byte. */
  lemma {:induction false} PlacedMoves(dir: Direction, es: seq<Extent>, ep: nat)
    ensures MovesFrom(dir, Placed(es, ep), 0) == Mapping(dir, Stream(es), ep)
    decreases |es|
  {
    if |es| > 0 {
      var init, last := es[..|es| - 1], es[|es| - 1];
      PlacedMoves(dir, init, ep);
      assert es == init + [last];
      hide *;
      PlacedMovesStep(dir, init, last, ep);
    }
  }

  lemma {:induction false} PlacedMovesStep(dir: Direction, init: seq<Extent>, last: Extent, ep: nat)
    requires MovesFrom(dir, Placed(init, ep), 0) == Mapping(dir, Stream(init), ep)
    ensures MovesFrom(dir, Placed(init + [last], ep), 0) == Mapping(dir, Stream(init + [last]), ep)
  {
    hide *;
    var p := Piece(last.addr, ep + TotalLen(init), last.len);
    StreamAppend(init, last);
    PlacedAppend(init, last, ep);
    MovesAppend(dir, Placed(init, ep), p, 0);
    MappingAppend(dir, Stream(init), Span(last.addr, last.len), ep);
    PieceIsMapping(dir, last, ep + TotalLen(init));
  }

  lemma {:induction false} PlacedAppend(init: seq<Extent>, last: Extent, ep: nat)
    ensures Placed(init + [last], ep) == Placed(init, ep) + [Piece(last.addr, ep + TotalLen(init), last.len)]
  {
    hide TotalLen;
    var es := init + [last];
    forall k | 0 <= k < |es|
      ensures Placed(es, ep)[k] == (Placed(init, ep) + [Piece(last.addr, ep + TotalLen(init), last.len)])[k]
    {
      assert es[..k] == init[..k];
      assert init[..|init|] == init;
    }
  }
}
