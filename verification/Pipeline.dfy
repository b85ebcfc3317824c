/** From the user buffer to the device and back: what the stages of the driver come to together. */
module Pipeline {
  import opened Extents
  import opened Request
  import opened Walker
  import opened Submit
  import opened DmaMemory
  import opened Ring
  import opened Waiting
  import EQ = EngineQueue
  import UB = UserBuffer

  /** DMA mapping may merge table entries and move pages, but every byte keeps its offset in its page. */
  ghost predicate KeepsOffsets(sgl: seq<Extent>, buf: nat, len: nat) {
    |Stream(sgl)| == len && forall k: nat | k < len :: Stream(sgl)[k] % 4096 == (buf + k) % 4096
  }

  /** The first byte of a non-empty extent in the stream of its list. */
  lemma {:induction false} ExtentStart(es: seq<Extent>, i: nat)
    requires i < |es| && es[i].len > 0
    ensures TotalLen(es[..i]) < |Stream(es)| && Stream(es)[TotalLen(es[..i])] == es[i].addr
  {
    TakeOne(es, i);
    PrefixStream(es, i + 1);
    var t := TotalLen(es[..i]);
    assert t == |Stream(es[..i])|;
    hide Stream, TotalLen;
    assert Stream(es[..i + 1])[t] == Span(es[i].addr, es[i].len)[0];
  }

  /** A power of two up to 128 divides the page size, so equal page offsets are equal residues. */
  lemma OffsetsGiveResidues(align: nat, a: nat, b: nat)
    requires UB.IsAlignment(align) && a % 4096 == b % 4096
    ensures a % align == b % align
  {
    var m, o := a / 4096, b / 4096;
    assert a == b + 4096 * (m - o);
    var q := 4096 / align;
    assert a == b + align * (q * (m - o)) by {
      assert align * q == 4096;
      assert align * (q * (m - o)) == (align * q) * (m - o);
    }
    SameResidue(align, b, a, q * (m - o));
  }

  lemma SameResidue(d: nat, x: nat, y: nat, k: int)
    requires d > 0 && y == x + d * k
    ensures x % d == y % d
  {
    var q, r := x / d, x % d;
    assert y == d * (q + k) + r;
    DivisionUnique(d, y, q + k, r);
  }

  lemma DivisionUnique(d: nat, y: nat, q: int, r: nat)
    requires d > 0 && r < d && y == d * q + r
    ensures y % d == r
  {
    var q', r' := y / d, y % d;
    assert d * q' + r' == d * q + r;
    if q != q' {
      MulAtLeast(d, if q > q' then q - q' else q' - q);
    }
  }

  lemma MulAtLeast(d: nat, k: nat)
    requires k >= 1
    ensures d * k >= d
  {
  }

  /** Adding the same distance on both sides does not change whether residues agree. */
  lemma ResiduesShift(d: nat, x: nat, y: nat, t: nat)
    requires d > 0
    ensures (x + t) % d == (y + t) % d <==> x % d == y % d
  {
    if x % d == y % d {
      SameResidue(d, x + t, y + t, y / d - x / d);
    }
    if (x + t) % d == (y + t) % d {
      SameResidue(d, x, y, (y + t) / d - (x + t) / d);
    }
  }

  /** check_transfer_align accepts an incremental-mode request exactly if every descriptor emitted for
      it has equal root-complex and end-point residues, whatever desc_blen_max cuts it into. */
  lemma {:induction false} AlignedIff(align: nat, granularity: nat, buf: nat, len: nat, pos: nat, sync: bool, sgl: seq<Extent>, blen: nat)
    requires UB.IsAlignment(align) && granularity > 0 && blen > 0 && len > 0 && KeepsOffsets(sgl, buf, len)
    ensures UB.CheckTransferAlign(false, align, granularity, buf, len, pos, sync) ==
      if forall p :: p in Placed(AllPieces(sgl, blen), pos) ==> p.rc % align == p.ep % align then 0 else -22
  {
    UB.LsbIsMod(buf, align);
    UB.LsbIsMod(pos, align);
    var es := AllPieces(sgl, blen);
    var ps := Placed(es, pos);
    AllPiecesCover(sgl, blen);
    forall i: nat | i < |ps|
      ensures ps[i].rc % align == ps[i].ep % align <==> buf % align == pos % align
    {
      PieceResidue(align, buf, len, pos, sgl, es, i);
    }
    assert |es| > 0;
    assert ps[0] in ps;
  }

  /** In non-incremental mode it accepts a request exactly if its first byte is aligned in the host, its length is
      whole granules, and, for a synchronous one, its end-point address is aligned. */
  lemma {:induction false} NonIncrementalIff(align: nat, granularity: nat, buf: nat, len: nat, pos: nat, sync: bool, sgl: seq<Extent>)
    requires UB.IsAlignment(align) && UB.IsAlignment(granularity) && len > 0 && KeepsOffsets(sgl, buf, len)
    ensures UB.CheckTransferAlign(true, align, granularity, buf, len, pos, sync) ==
      if Stream(sgl)[0] % align == 0 && TotalLen(sgl) % granularity == 0 && (sync ==> pos % align == 0) then 0 else -22
  {
    UB.LsbIsMod(buf, align);
    UB.LsbIsMod(pos, align);
    UB.LsbIsMod(len, granularity);
    assert Stream(sgl)[0] % 4096 == (buf + 0) % 4096;
    OffsetsGiveResidues(align, Stream(sgl)[0], buf);
  }

  lemma {:induction false} PieceResidue(align: nat, buf: nat, len: nat, pos: nat, sgl: seq<Extent>, es: seq<Extent>, i: nat)
    requires UB.IsAlignment(align) && KeepsOffsets(sgl, buf, len) && Stream(es) == Stream(sgl)
    requires i < |es| && es[i].len > 0
    ensures
      var p := Placed(es, pos)[i];
      p.rc % align == p.ep % align <==> buf % align == pos % align
  {
    var t := TotalLen(es[..i]);
    ExtentStart(es, i);
    assert es[i].addr % 4096 == (buf + t) % 4096;
    OffsetsGiveResidues(align, es[i].addr, buf + t);
    ResiduesShift(align, buf, pos, t);
  }

  /** The pieces of the transfers are the pieces of the request: a run of extents placed where the
      request stands is that run of the request's placed extents. */
  lemma {:induction false} TransfersEmitPlaced(es: seq<Extent>, ep: nat, p: nat, n: nat)
    requires p + n <= |es|
    ensures Placed(es[p..p + n], ep + TotalLen(es[..p])) == Placed(es, ep)[p..p + n]
  {
    var taken, want := Placed(es[p..p + n], ep + TotalLen(es[..p])), Placed(es, ep)[p..p + n];
    forall k | 0 <= k < n ensures taken[k] == want[k] {
      PrefixLengths(es, p, n, k);
    }
  }

  lemma {:induction false} PrefixLengths(es: seq<Extent>, p: nat, n: nat, k: nat)
    requires p + n <= |es| && k <= n
    ensures TotalLen(es[..p + k]) == TotalLen(es[..p]) + TotalLen(es[p..p + n][..k])
  {
    hide Stream;
    assert es[..p + k] == es[..p] + es[p..p + k];
    assert es[p..p + n][..k] == es[p..p + k];
    StreamConcat(es[..p], es[p..p + k]);
  }

  /** The log of a request's pieces is a log of its scatterlist. */
  lemma {:induction false} LogOfScatterlist(log: seq<Move>, dir: Direction, sgl: seq<Extent>, blen: nat, ep: nat, good: nat, stray: nat)
    requires blen > 0 && LogIs(log, dir, AllPieces(sgl, blen), ep, good, stray)
    ensures LogIs(log, dir, sgl, ep, good, stray)
  {
    AllPiecesCover(sgl, blen);
  }

  lemma {:induction false} MappingTake(dir: Direction, stream: seq<nat>, ep: nat, n: nat)
    requires n <= |stream|
    ensures Mapping(dir, stream, ep)[..n] == Mapping(dir, stream[..n], ep)
  {
  }

  /** Writing: the counted bytes of the host's stream are in the device, from ep on; behind them, up to
      the end of the transfer that did not complete, a byte is either the host's or the old one; all
      else is unchanged. next is the length of that transfer. */
  lemma {:induction false} WriteCopiesPrefix(sgl: seq<Extent>, ep: nat, good: nat, stray: nat, next: nat, log: seq<Move>,
                                             host: Memory, device: Memory, a: nat)
    requires LogIs(log, ToDevice, sgl, ep, good, stray) && stray <= next
    ensures
      var now := Perform(log, host, device)(a);
      && (ep <= a < ep + good ==> now == host(Stream(sgl)[a - ep]))
      && (ep + good <= a < ep + good + next ==> now == device(a) || (a - ep < |Stream(sgl)| && now == host(Stream(sgl)[a - ep])))
      && (!(ep <= a < ep + good + next) ==> now == device(a))
  {
    MappingTake(ToDevice, Stream(sgl), ep, |log|);
    hide Mapping, Perform, Stream;
    ToDeviceCopies(Stream(sgl)[..|log|], ep, host, device, a);
  }

  lemma {:induction false} DistinctTake(s: seq<nat>, n: nat, k: nat)
    requires Distinct(s) && n <= |s| && k < |s|
    ensures if k < n then s[..n][k] == s[k] && s[k] !in s[..n][k + 1..] else s[k] !in s[..n]
  {
  }

  /** Reading, with a scatterlist that names no byte twice: the counted bytes of the stream hold the
      device's bytes from ep on; up to the end of the transfer that did not complete a byte of the stream
      is either the device's or the old one; the bytes behind are unchanged, and so is all other memory. */
  lemma {:induction false} ReadCopiesPrefix(sgl: seq<Extent>, ep: nat, good: nat, stray: nat, next: nat, log: seq<Move>,
                                            device: Memory, host: Memory, a: nat)
    requires LogIs(log, FromDevice, sgl, ep, good, stray) && stray <= next && Distinct(Stream(sgl))
    ensures a !in Stream(sgl) ==> Perform(log, device, host)(a) == host(a)
    ensures
      forall k: nat | k < |Stream(sgl)| && Stream(sgl)[k] == a ::
        var now := Perform(log, device, host)(a);
        && (k < good ==> now == device(ep + k))
        && (good <= k < good + next ==> now == host(a) || now == device(ep + k))
        && (good + next <= k ==> now == host(a))
  {
    MappingTake(FromDevice, Stream(sgl), ep, |log|);
    hide Mapping, Perform, Stream;
    FromDeviceCopies(Stream(sgl)[..|log|], ep, device, host, a);
    forall k: nat | k < |Stream(sgl)| && Stream(sgl)[k] == a
      ensures Perform(log, device, host)(a) == if k < |log| then device(ep + k) else host(a)
    {
      DistinctTake(Stream(sgl), |log|, k);
    }
  }

  /** xdma_xfer_submit as a whole, from the scatterlist to the result. Unless it overruns its table, the
      bytes moved are those of the first transfers, which completed, and some of the next; the result
      counts the first ones or is the error of the next, and it is right exactly if each of the first ones
      is shorter than 2^32 bytes. It is the total exactly if every transfer is taken, completes and is that
      short. */
  method SubmitScatterlist(engine: Engine, sgl: seq<Extent>, ep: nat, blen: nat, p: EQ.Engine, hw: Hardware, firstId: nat)
    returns (overrun: bool, res: int, attempts: nat, ghost c: nat, ghost last: Ending, ghost log: seq<Move>)
    requires engine.Valid() && HonestHardware(hw) && Quiet(p, firstId)
    requires 0 < blen < TWO_32
    modifies engine`descIdx, engine`descUsed, engine.desc, p
    ensures engine.Valid() && Quiet(p, firstId + attempts)
    ensures overrun <==> |AllPieces(sgl, blen)| > TableSize(sgl, blen)
    ensures
      var es, plan := AllPieces(sgl, blen), Plan(AllPieces(sgl, blen), old(engine.descIdx), engine.desc.Length);
      !overrun ==>
        && EndedAt(AcceptsAll(old(p.View())), plan, hw, c, last) && Planned(plan, c) <= |es|
        && LogIs(log, engine.dir, sgl, ep, Good(es, plan, c), Stray(plan, hw, c, last))
        && HonestResult(res, Counted(plan, c), |plan|, c, last)
        && (Counted(plan, c) == 0 && c < |plan| ==> ErrorTold(res, AcceptsAll(old(p.View())), plan, hw, c))
        && (HonestResult(res, Good(es, plan, c), |plan|, c, last) <==> Short(plan, c))
        && (engine.descUsed == old(engine.descUsed) <==> c == |plan| || OpenFor(AcceptsAll(old(p.View())), plan, hw, c))
        && (res == TotalLen(sgl) <==> AllSucceed(AcceptsAll(old(p.View())), plan, hw) && Short(plan, |plan|))
  {
    hide AllPieces, Stream, TotalLen, Mapping, LogIs, Plan, Fate, HonestHardware, TableSize, WithinBlen, AllSucceed, Quiet,
         OpenFor, Short, Counted, ErrorTold;
    AllPiecesCover(sgl, blen);
    ghost var es := AllPieces(sgl, blen);
    ghost var plan := Plan(es, engine.descIdx, engine.desc.Length);
    var req;
    req, overrun := InitRequest(sgl, ep, blen);
    res, attempts, c, last, log := 0, 0, 0, Refused(0), [];
    if overrun {
      return;
    }
    NoEmptyPiece(es, blen);
    res, attempts, c, last, log := XferSubmit(engine, req, p, hw, firstId);
    LogOfScatterlist(log, engine.dir, sgl, blen, ep, Good(es, plan, c), Stray(plan, hw, c, last));
    TotalMeansAll(sgl, blen, old(engine.descIdx), engine.desc.Length, AcceptsAll(old(p.View())), hw, c, last, res);
  }

  lemma NoEmptyPiece(es: seq<Extent>, blen: nat)
    requires WithinBlen(es, blen)
    ensures forall e :: e in es ==> e.len > 0
  {
  }

  /** Every transfer of the plan is taken and completes. */
  ghost predicate AllSucceed(open: bool, plan: seq<seq<Extent>>, hw: Hardware) {
    forall k: nat | k < |plan| :: Succeeds(open, plan, hw, k)
  }

  /** When the result is right, and when it is the total. */
  lemma {:induction false} TotalMeansAll(sgl: seq<Extent>, blen: nat, descIdx: nat, descMax: nat, open: bool, hw: Hardware,
                                         c: nat, last: Ending, res: int)
    requires blen > 0 && descIdx < descMax
    requires
      var es, plan := AllPieces(sgl, blen), Plan(AllPieces(sgl, blen), descIdx, descMax);
      && EndedAt(open, plan, hw, c, last) && Planned(plan, c) <= |es|
      && HonestResult(res, Counted(plan, c), |plan|, c, last)
    ensures
      var es, plan := AllPieces(sgl, blen), Plan(AllPieces(sgl, blen), descIdx, descMax);
      && (HonestResult(res, Good(es, plan, c), |plan|, c, last) <==> Short(plan, c))
      && (res == TotalLen(sgl) <==> AllSucceed(open, plan, hw) && Short(plan, |plan|))
  {
    var es, plan := AllPieces(sgl, blen), Plan(AllPieces(sgl, blen), descIdx, descMax);
    assert c <= |plan|;
    hide *;
    AllPiecesCover(sgl, blen);
    NoEmptyPiece(es, blen);
    assert TotalLen(es) == |Stream(es)| == TotalLen(sgl);
    GoodIsTotalIff(es, plan, descIdx, descMax, c);
    CountedIff(es, plan, descIdx, descMax, c);
    CompleteIff(open, plan, hw, c, last, res, TotalLen(es), Good(es, plan, c), Counted(plan, c));
  }

  lemma CompleteIff(open: bool, plan: seq<seq<Extent>>, hw: Hardware, c: nat, last: Ending, res: int, total: nat, good: nat, counted: nat)
    requires EndedAt(open, plan, hw, c, last) && HonestResult(res, counted, |plan|, c, last)
    requires counted <= good <= total && (good == total <==> c == |plan|) && (counted == good <==> Short(plan, c))
    ensures HonestResult(res, good, |plan|, c, last) <==> Short(plan, c)
    ensures res == total <==> AllSucceed(open, plan, hw) && Short(plan, |plan|)
  {
    hide Fate, Short;
    if c < |plan| {
      ThisOne(open, plan, hw, c, plan[c], last);
    }
  }

  /** The first c transfers have all the bytes exactly if they are all. */
  lemma {:induction false} GoodIsTotalIff(es: seq<Extent>, plan: seq<seq<Extent>>, descIdx: nat, descMax: nat, c: nat)
    requires descIdx < descMax && plan == Plan(es, descIdx, descMax) && c <= |plan| && Planned(plan, c) <= |es|
    requires forall e :: e in es ==> e.len > 0
    ensures Good(es, plan, c) <= TotalLen(es) && (Good(es, plan, c) == TotalLen(es) <==> c == |plan|)
  {
    hide Plan;
    PlanIsWhole(es, descIdx, descMax);
    assert es[..|es|] == es;
    if c < |plan| {
      GoodIsShort(es, plan, descIdx, descMax, c);
    }
  }

  /** The first c transfers, if they are not all, have fewer bytes than the request. */
  lemma {:induction false} GoodIsShort(es: seq<Extent>, plan: seq<seq<Extent>>, descIdx: nat, descMax: nat, c: nat)
    requires descIdx < descMax && plan == Plan(es, descIdx, descMax) && c < |plan| && Planned(plan, c) <= |es|
    requires forall e :: e in es ==> e.len > 0
    ensures Good(es, plan, c) < TotalLen(es)
  {
    hide Plan;
    PlanPartitions(es, descIdx, descMax, c);
    var n := Planned(plan, c);
    TakeOne(es, n);
    assert es[n] in es;
    PrefixStream(es, n + 1);
  }
}
