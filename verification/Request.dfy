/** xdma_init_request: a scatterlist cut into software descriptors no longer than desc_blen_max. */
module Request {
  import opened Extents

  /** The pieces of one scatterlist entry. */
  function Pieces(addr: nat, len: nat, blen: nat): seq<Extent>
    requires blen > 0
    decreases len
  {
    if len == 0 then []
    else if len > blen then [Extent(addr, blen)] + Pieces(addr + blen, len - blen, blen)
    else [Extent(addr, len)]
  }

  /** The pieces of a whole scatterlist. */
  function AllPieces(sgl: seq<Extent>, blen: nat): seq<Extent>
    requires blen > 0
  {
    if |sgl| == 0 then [] else AllPieces(sgl[..|sgl| - 1], blen) + Pieces(sgl[|sgl| - 1].addr, sgl[|sgl| - 1].len, blen)
  }

  ghost predicate WithinBlen(es: seq<Extent>, blen: nat) {
    forall e :: e in es ==> 1 <= e.len <= blen
  }

  lemma {:induction false} PiecesCover(addr: nat, len: nat, blen: nat)
    requires blen > 0
    ensures Stream(Pieces(addr, len, blen)) == Span(addr, len)
    ensures WithinBlen(Pieces(addr, len, blen), blen)
    ensures forall i: nat | i + 1 < |Pieces(addr, len, blen)| :: Pieces(addr, len, blen)[i].len == blen
    decreases len
  {
    if len > blen {
      hide Stream;
      var rest := Pieces(addr + blen, len - blen, blen);
      PiecesCover(addr + blen, len - blen, blen);
      OneExtent(Extent(addr, blen));
      StreamConcat([Extent(addr, blen)], rest);
      SpanSplit(addr, blen, len - blen);
    } else if len > 0 {
      OneExtent(Extent(addr, len));
    }
  }

  lemma OneExtent(e: Extent)
    ensures Stream([e]) == Span(e.addr, e.len)
  {
    StreamAppend([], e);
    assert [] + [e] == [e];
  }

  /** There are ceil(len / blen) pieces. */
  lemma {:induction false} PiecesNumber(addr: nat, len: nat, blen: nat)
    requires blen > 0
    ensures |Pieces(addr, len, blen)| == (len + blen - 1) / blen
    decreases len
  {
    if len > blen {
      PiecesNumber(addr + blen, len - blen, blen);
      DivStep(len + blen - 1, blen);
    } else if len > 0 {
      DivStep(len + blen - 1, blen);
      SmallDiv(len - 1, blen);
    } else {
      SmallDiv(blen - 1, blen);
    }
  }

  lemma DivStep(x: nat, d: nat)
    requires d > 0 && x >= d
    ensures x / d == (x - d) / d + 1
  {
    var q, m := (x - d) / d, (x - d) % d;
    assert x == (q + 1) * d + m;
    DivUnique(x, d, q + 1, m);
  }

  lemma SmallDiv(x: nat, d: nat)
    requires x < d
    ensures x / d == 0
  {
  }

  lemma DivUnique(x: nat, d: nat, q: nat, m: nat)
    requires d > 0 && m < d && x == q * d + m
    ensures x / d == q
  {
    var q' := x / d;
    assert q' * d <= x < q' * d + d;
    if q' < q {
      MulLe(q' + 1, q, d);
    } else if q < q' {
      MulLe(q + 1, q', d);
    }
  }

  lemma MulLe(x: nat, y: nat, z: nat)
    requires x <= y
    ensures x * z <= y * z
  {
  }

  /** The pieces of a request are the scatterlist's bytes, in order, cut into legal lengths. */
  lemma {:induction false} AllPiecesCover(sgl: seq<Extent>, blen: nat)
    requires blen > 0
    ensures Stream(AllPieces(sgl, blen)) == Stream(sgl)
    ensures WithinBlen(AllPieces(sgl, blen), blen)
  {
    if |sgl| > 0 {
      var init, last := sgl[..|sgl| - 1], sgl[|sgl| - 1];
      AllPiecesCover(init, blen);
      PiecesCover(last.addr, last.len, blen);
      StreamConcat(AllPieces(init, blen), Pieces(last.addr, last.len, blen));
      assert sgl == init + [last];
      StreamAppend(init, last);
    }
  }

  // ---------- the size of the software descriptor table ----------

  /** What one entry adds to the table beyond its one slot, in 32-bit unsigned arithmetic. */
  function Extra(len: nat, blen: nat): nat
    requires blen > 0
  {
    if len > blen then (len + blen - 1) % TWO_32 / blen else 0
  }

  /** nents + extra. */
  function TableSize(sgl: seq<Extent>, blen: nat): nat
    requires blen > 0
  {
    if |sgl| == 0 then 0 else TableSize(sgl[..|sgl| - 1], blen) + 1 + Extra(sgl[|sgl| - 1].len, blen)
  }

  /** The rounding in Extra does not wrap around. */
  predicate RoundsUp(len: nat, blen: nat) {
    len <= blen || len + blen - 1 < TWO_32
  }

  /** A length above the maximum takes at least two pieces, any other at most one. */
  lemma PieceCount(len: nat, blen: nat)
    requires 0 < blen
    ensures len > blen <==> (len + blen - 1) / blen >= 2
  {
    if len > blen {
      DivStep(len + blen - 1, blen);
      DivStep(len - 1, blen);
    } else if len > 0 {
      DivStep(len + blen - 1, blen);
      SmallDiv(len - 1, blen);
    } else {
      SmallDiv(blen - 1, blen);
    }
  }

  /** An entry's share of the table holds its pieces exactly when its rounding does not wrap. One that is cut then
      has a slot to spare; when the rounding wraps, it has the one slot of an entry that is not cut. */
  lemma EntryFitsIff(addr: nat, len: nat, blen: nat)
    requires 0 < blen < TWO_32 && len < TWO_32
    ensures |Pieces(addr, len, blen)| <= 1 + Extra(len, blen) <==> RoundsUp(len, blen)
    ensures Extra(len, blen) == if len > blen && len + blen - 1 < 0x1_0000_0000 then |Pieces(addr, len, blen)| else 0
  {
    PiecesNumber(addr, len, blen);
    PieceCount(len, blen);
    hide Pieces;
    if !RoundsUp(len, blen) {
      assert (len + blen - 1) % TWO_32 == len + blen - 1 - TWO_32;
      SmallDiv(len + blen - 1 - TWO_32, blen);
    } else if len > blen {
      assert (len + blen - 1) % TWO_32 == len + blen - 1;
    }
  }

  /** When no entry's rounding wraps, the table has a slot for every piece. */
  lemma {:induction false} TableIsLargeEnough(sgl: seq<Extent>, blen: nat)
    requires 0 < blen < TWO_32 && forall e :: e in sgl ==> e.len < TWO_32 && RoundsUp(e.len, blen)
    ensures |AllPieces(sgl, blen)| <= TableSize(sgl, blen)
  {
    if |sgl| > 0 {
      TableIsLargeEnough(sgl[..|sgl| - 1], blen);
      var last := sgl[|sgl| - 1];
      EntryFitsIff(last.addr, last.len, blen);
    }
  }

  /** An entry is no longer than the list. */
  lemma {:induction false} EntryIsPart(sgl: seq<Extent>, i: nat)
    requires i < |sgl|
    ensures sgl[i].len <= TotalLen(sgl)
  {
    if i < |sgl| - 1 {
      EntryIsPart(sgl[..|sgl| - 1], i);
    }
  }

  /** Non-empty entries that need no cutting fill their slots exactly. */
  lemma {:induction false} SmallEntries(sgl: seq<Extent>, blen: nat)
    requires blen > 0 && TotalLen(sgl) <= blen && forall e :: e in sgl ==> e.len > 0
    ensures |AllPieces(sgl, blen)| == TableSize(sgl, blen)
  {
    if |sgl| > 0 {
      SmallEntries(sgl[..|sgl| - 1], blen);
    }
  }

  /** One entry whose rounding wraps leaves the table too small: it is so long that all the others
      together need no cutting and have nothing to spare. */
  lemma {:induction false} WrapOverruns(sgl: seq<Extent>, blen: nat, i: nat)
    requires 0 < blen < TWO_32 && TotalLen(sgl) < TWO_32 && forall e :: e in sgl ==> e.len > 0
    requires i < |sgl| && !RoundsUp(sgl[i].len, blen)
    ensures |AllPieces(sgl, blen)| > TableSize(sgl, blen)
  {
    var init, last := sgl[..|sgl| - 1], sgl[|sgl| - 1];
    EntryIsPart(sgl, i);
    EntryIsPart(sgl, |sgl| - 1);
    if i == |sgl| - 1 {
      SmallEntries(init, blen);
      EntryFitsIff(last.addr, last.len, blen);
    } else {
      EntryIsPart(init, i);
      WrapOverruns(init, blen, i);
    }
  }

  /** The table has a slot for every piece of a mapped request exactly if no entry's rounding wraps. */
  lemma {:induction false} TableFitsIff(sgl: seq<Extent>, blen: nat)
    requires 0 < blen < TWO_32 && TotalLen(sgl) < TWO_32 && forall e :: e in sgl ==> e.len > 0
    ensures |AllPieces(sgl, blen)| <= TableSize(sgl, blen) <==> forall e :: e in sgl ==> RoundsUp(e.len, blen)
  {
    forall e | e in sgl ensures e.len < TWO_32 {
      var i :| 0 <= i < |sgl| && sgl[i] == e;
      EntryIsPart(sgl, i);
    }
    if e :| e in sgl && !RoundsUp(e.len, blen) {
      var i :| 0 <= i < |sgl| && sgl[i] == e;
      WrapOverruns(sgl, blen, i);
    } else {
      TableIsLargeEnough(sgl, blen);
    }
  }

  /** With the default desc_blen_max of 2^28 - 1, one entry of 2^32 - 1 bytes is cut into 17 pieces for a table of
      one slot. */
  lemma OverrunExample(addr: nat)
    ensures |AllPieces([Extent(addr, 0xFFFF_FFFF)], 0xFFF_FFFF)| == 17
    ensures TableSize([Extent(addr, 0xFFFF_FFFF)], 0xFFF_FFFF) == 1
  {
    var sgl := [Extent(addr, 0xFFFF_FFFF)];
    assert sgl[..0] == [];
    PiecesNumber(addr, 0xFFFF_FFFF, 0xFFF_FFFF);
    hide Pieces;
    assert AllPieces(sgl, 0xFFF_FFFF) == [] + Pieces(addr, 0xFFFF_FFFF, 0xFFF_FFFF);
  }

  class RequestCb {
    const sdesc: array<Extent>
    var epAddr: nat
    var totalLen: nat
    var swDescIdx: nat
    var swDescCnt: nat

    constructor (size: nat, epAddr: nat)
      ensures fresh(sdesc) && sdesc.Length == size
      ensures this.epAddr == epAddr && totalLen == 0 && swDescIdx == 0 && swDescCnt == 0
    {
      sdesc := new Extent[size](_ => Extent(0, 0));
      this.epAddr := epAddr;
      totalLen, swDescIdx, swDescCnt := 0, 0, 0;
    }

    /** The software descriptors not yet handed to a transfer. */
    ghost function Pending(): seq<Extent>
      requires swDescIdx <= swDescCnt <= sdesc.Length
      reads this, sdesc
    {
      sdesc[swDescIdx..swDescCnt]
    }
  }

  method CountTable(sgl: seq<Extent>, blen: nat) returns (max: nat)
    requires 0 < blen
    ensures max == TableSize(sgl, blen)
  {
    var extra := 0;
    for i := 0 to |sgl|
      invariant i + extra == TableSize(sgl[..i], blen)
    {
      assert sgl[..i + 1][..i] == sgl[..i];
      if sgl[i].len > blen {
        extra := extra + (sgl[i].len + blen - 1) % TWO_32 / blen;
      }
    }
    assert sgl[..|sgl|] == sgl;
    max := |sgl| + extra;
  }

  // The inner loop of xdma_init_request: cuts one entry into the table from index from on. It stops at
  // the first write past the table, from where the C program is undefined.
  method CutEntry(sdesc: array<Extent>, from: nat, entry: Extent, blen: nat) returns (j: nat, overrun: bool)
    requires 0 < blen && from <= sdesc.Length
    modifies sdesc
    ensures overrun <==> from + |Pieces(entry.addr, entry.len, blen)| > sdesc.Length
    ensures !overrun ==> j == from + |Pieces(entry.addr, entry.len, blen)|
    ensures !overrun ==> sdesc[..j] == old(sdesc[..from]) + Pieces(entry.addr, entry.len, blen)
  {
    hide Pieces;
    var tlen: nat, addr: nat := entry.len, entry.addr;
    ghost var all := old(sdesc[..from]) + Pieces(entry.addr, entry.len, blen);
    j, overrun := from, false;
    while tlen > 0
      invariant from <= j <= sdesc.Length
      invariant sdesc[..j] + Pieces(addr, tlen, blen) == all
    {
      FirstPiece(addr, tlen, blen);
      if j == sdesc.Length {
        overrun := true;
        return;
      }
      ghost var done := sdesc[..j];
      var cut := if tlen > blen then blen else tlen;
      sdesc[j] := Extent(addr, cut);
      assert sdesc[..j + 1] == done + [Extent(addr, cut)];
      AppendHead(done, Extent(addr, cut), Pieces(addr + cut, tlen - cut, blen));
      j, addr, tlen := j + 1, addr + cut, tlen - cut;
    }
    NoPieces(addr, blen);
  }

  lemma FirstPiece(addr: nat, len: nat, blen: nat)
    requires blen > 0 && len > 0
    ensures
      var cut := if len > blen then blen else len;
      Pieces(addr, len, blen) == [Extent(addr, cut)] + Pieces(addr + cut, len - cut, blen)
  {
  }

  lemma NoPieces(addr: nat, blen: nat)
    requires blen > 0
    ensures Pieces(addr, 0, blen) == []
  {
  }

  lemma {:induction false} AppendHead(done: seq<Extent>, e: Extent, rest: seq<Extent>)
    ensures done + ([e] + rest) == done + [e] + rest
  {
  }

  /** xdma_init_request: it writes past its table exactly if there are more pieces than nents + extra.
      Otherwise the "j > max" rejection is not taken, and the request holds exactly the pieces, with the
      total length in the 32 bits it is stored in. */
  method InitRequest(sgl: seq<Extent>, epAddr: nat, blen: nat) returns (req: RequestCb, overrun: bool)
    requires 0 < blen < TWO_32
    ensures fresh(req) && fresh(req.sdesc)
    ensures overrun <==> |AllPieces(sgl, blen)| > TableSize(sgl, blen)
    ensures req.epAddr == epAddr && req.swDescIdx == 0 && req.swDescCnt <= req.sdesc.Length
    ensures !overrun ==> req.Pending() == AllPieces(sgl, blen) && req.totalLen == Wrap32(TotalLen(sgl))
  {
    hide Pieces, AllPieces, TableSize, TotalLen, Wrap32, Stream, WithinBlen;
    var max := CountTable(sgl, blen);
    req := new RequestCb(max, epAddr);
    var j := 0;
    overrun := false;
    NoEntries(sgl, blen);
    for i := 0 to |sgl|
      invariant fresh(req) && fresh(req.sdesc) && req.sdesc.Length == max
      invariant req.epAddr == epAddr && req.swDescIdx == 0 && req.swDescCnt == 0
      invariant j == |AllPieces(sgl[..i], blen)| && j <= max
      invariant req.sdesc[..j] == AllPieces(sgl[..i], blen)
      invariant req.totalLen == Wrap32(TotalLen(sgl[..i]))
    {
      OneMore(sgl, i, blen);
      Wrap32Add(TotalLen(sgl[..i]), sgl[i].len);
      req.totalLen := Wrap32(req.totalLen + sgl[i].len);
      j, overrun := CutEntry(req.sdesc, j, sgl[i], blen);
      if overrun {
        return;
      }
    }
    assert sgl[..|sgl|] == sgl;
    req.swDescCnt := j;
  }

  /** A sum in an unsigned int. */
  function Wrap32(n: nat): nat {
    n % TWO_32
  }

  lemma Wrap32Add(n: nat, m: nat)
    ensures Wrap32(Wrap32(n) + m) == Wrap32(n + m)
  {
  }

  lemma {:induction false} NoEntries(sgl: seq<Extent>, blen: nat)
    requires 0 < blen
    ensures AllPieces(sgl[..0], blen) == [] && Wrap32(TotalLen(sgl[..0])) == 0
  {
  }

  /** What one more entry adds. */
  lemma {:induction false} OneMore(sgl: seq<Extent>, i: nat, blen: nat)
    requires 0 < blen && i < |sgl|
    ensures AllPieces(sgl[..i + 1], blen) == AllPieces(sgl[..i], blen) + Pieces(sgl[i].addr, sgl[i].len, blen)
    ensures |AllPieces(sgl[..i + 1], blen)| <= |AllPieces(sgl, blen)|
    ensures TotalLen(sgl[..i + 1]) == TotalLen(sgl[..i]) + sgl[i].len
  {
    assert sgl[..i + 1][..i] == sgl[..i];
    TakeOne(sgl, i);
    PiecesGrow(sgl, i + 1, blen);
  }

  lemma {:induction false} PiecesGrow(sgl: seq<Extent>, n: nat, blen: nat)
    requires 0 < blen && n <= |sgl|
    ensures |AllPieces(sgl[..n], blen)| <= |AllPieces(sgl, blen)|
    decreases |sgl|
  {
    if n < |sgl| {
      PiecesGrow(sgl[..|sgl| - 1], n, blen);
      assert sgl[..|sgl| - 1][..n] == sgl[..n];
    } else {
      assert sgl[..n] == sgl;
    }
  }
}
