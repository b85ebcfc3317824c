/** cdev_sgdma.c: the alignment check, and the cutting of a user buffer into pages. */
module UserBuffer {
  import opened Extents
  import opened Powers

  const ENOMEM: int := 12
  const EFAULT: int := 14
  const EINVAL: int := 22

  /** One entry of the scatter table: nbytes at an offset into a pinned page frame. */
  datatype PageEntry = PageEntry(frame: nat, offset: nat, nbytes: nat)

  datatype Mapping = Mapped(table: seq<PageEntry>) | Error(code: int)

  /** The pages_nr formula, in the 32 bits it is stored in. */
  function PagesNr(buf: nat, len: nat): nat {
    (buf + len + 4095 - (buf - buf % 4096)) / 4096 % TWO_32
  }

  /** The number of different pages that [buf, buf + len) touches. */
  function PagesTouched(buf: nat, len: nat): nat {
    if len == 0 then 0 else (buf + len - 1) / 4096 - buf / 4096 + 1
  }

  /** Bytes handled before table entry i when every entry runs to its page's end. */
  function Consumed(buf: nat, len: nat, i: nat): (n: nat)
    ensures n <= len
  {
    if i == 0 then 0 else if 4096 * i - buf % 4096 < len then 4096 * i - buf % 4096 else len
  }

  /** The formula counts the touched pages of any non-empty buffer of less than 2^32 bytes; of an
      empty one it counts the page a misaligned start lies in. */
  lemma PagesNrCounts(buf: nat, len: nat)
    requires len < TWO_32
    ensures PagesNr(buf, len) == if len > 0 then PagesTouched(buf, len) else if buf % 4096 == 0 then 0 else 1
    ensures Consumed(buf, len, PagesNr(buf, len)) == len
    ensures forall i: nat | i < PagesNr(buf, len) && len > 0 :: Consumed(buf, len, i) < len
  {
    var off, q := buf % 4096, buf / 4096;
    assert buf == 4096 * q + off;
    var n := (off + len + 4095) / 4096;
    assert buf + len + 4095 - (buf - buf % 4096) == off + len + 4095;
    assert n < TWO_32;
    if len > 0 {
      var e := (off + len - 1) / 4096;
      assert n == e + 1;
      assert (buf + len - 1) / 4096 == q + e by {
        assert buf + len - 1 == 4096 * q + (off + len - 1);
      }
    }
  }

  /** The virtual extent of table entry i. */
  function VirtualExtent(buf: nat, table: seq<PageEntry>, i: nat): Extent
    requires i < |table|
  {
    Extent((buf / 4096 + i) * 4096 + table[i].offset, table[i].nbytes)
  }

  function VirtualExtents(buf: nat, table: seq<PageEntry>): (es: seq<Extent>)
    ensures |es| == |table|
  {
    seq(|table|, i requires 0 <= i < |table| => VirtualExtent(buf, table, i))
  }

  /** The table names the pinned frames in order, each entry lies in its page, and together the
      entries are exactly the bytes of the buffer, in order. */
  ghost predicate Covers(buf: nat, len: nat, frames: seq<nat>, table: seq<PageEntry>) {
    && |table| == |frames| == PagesNr(buf, len)
    && (forall i :: 0 <= i < |table| ==>
          table[i].frame == frames[i] && table[i].offset + table[i].nbytes <= 4096 && (len > 0 ==> table[i].nbytes > 0))
    && Stream(VirtualExtents(buf, table)) == Span(buf, len)
  }

  /** Entry i of the table, when the buffer is shorter than 2^32 bytes. */
  function Entry(buf: nat, len: nat, frames: seq<nat>, i: nat): PageEntry
    requires i < |frames|
  {
    var c := Consumed(buf, len, i);
    PageEntry(frames[i], (buf + c) % 4096, Consumed(buf, len, i + 1) - c)
  }

  /** One turn of the loop: the piece up to the end of the page, cut to 32 bits. */
  lemma OneEntry(buf: nat, len: nat, i: nat)
    requires len < TWO_32 && i < PagesNr(buf, len)
    ensures
      var c := Consumed(buf, len, i);
      var offset := (buf + c) % 4096;
      var rest := len - c;
      && Consumed(buf, len, i + 1) == c + (if 4096 - offset < rest then 4096 - offset else rest)
      && (len > 0 ==> c < len && Consumed(buf, len, i + 1) > c && (buf / 4096 + i) * 4096 + offset == buf + c)
  {
    PagesNrCounts(buf, len);
    var off, q := buf % 4096, buf / 4096;
    assert buf == 4096 * q + off;
    if i > 0 && len > 0 {
      assert Consumed(buf, len, i) < len;
      assert buf + Consumed(buf, len, i) == 4096 * (q + i);
    }
  }

  lemma {:induction false} EntriesCover(buf: nat, len: nat, frames: seq<nat>, table: seq<PageEntry>, n: nat)
    requires len < TWO_32 && |table| == |frames| == PagesNr(buf, len) && n <= |table|
    requires forall i :: 0 <= i < |table| ==> table[i] == Entry(buf, len, frames, i)
    ensures Stream(VirtualExtents(buf, table)[..n]) == Span(buf, Consumed(buf, len, n))
  {
    var es := VirtualExtents(buf, table);
    if n > 0 {
      EntryExtends(buf, len, frames, table, n - 1);
      var e := es[n - 1];
      hide *;
      EntriesCover(buf, len, frames, table, n - 1);
      TakeOne(es, n - 1);
    }
  }

  /** Entry i continues the buffer where the entries before it stopped. */
  lemma {:induction false} EntryExtends(buf: nat, len: nat, frames: seq<nat>, table: seq<PageEntry>, i: nat)
    requires len < TWO_32 && |table| == |frames| == PagesNr(buf, len) && i < |table|
    requires table[i] == Entry(buf, len, frames, i)
    ensures
      var e := VirtualExtents(buf, table)[i];
      Span(buf, Consumed(buf, len, i + 1)) == Span(buf, Consumed(buf, len, i)) + Span(e.addr, e.len)
  {
    OneEntry(buf, len, i);
    var c := Consumed(buf, len, i);
    var e := VirtualExtents(buf, table)[i];
    assert e == VirtualExtent(buf, table, i);
    if len > 0 {
      assert e.addr == buf + c && Consumed(buf, len, i + 1) == c + e.len;
      SpanSplit(buf, c, e.len);
    }
  }

  lemma {:induction false} TableCovers(buf: nat, len: nat, frames: seq<nat>, table: seq<PageEntry>)
    requires len < TWO_32 && |table| == |frames| == PagesNr(buf, len)
    requires forall i :: 0 <= i < |table| ==> table[i] == Entry(buf, len, frames, i)
    ensures Covers(buf, len, frames, table)
  {
    forall i | 0 <= i < |table|
      ensures table[i].frame == frames[i] && table[i].offset + table[i].nbytes <= 4096 && (len > 0 ==> table[i].nbytes > 0)
    {
      OneEntry(buf, len, i);
    }
    EntriesCover(buf, len, frames, table, |table|);
    PagesNrCounts(buf, len);
    assert VirtualExtents(buf, table)[..|table|] == VirtualExtents(buf, table);
  }

  /** char_sgdma_map_user_buf_to_sgl. memory says whether the table and the list of pages could be
      allocated; pinError and frames are the result of get_user_pages_fast: an error, or the frames it
      could pin. The mapping succeeds exactly if there is a page to map, memory for it, all pages were
      pinned without an immediate repeat, and the length fits 32 bits; then the table covers the buffer. */
  method MapUserBuf(buf: nat, len: nat, memory: bool, pinError: int, frames: seq<nat>) returns (r: Mapping)
    requires pinError <= 0
    ensures r.Mapped? <==>
      && PagesNr(buf, len) != 0 && memory && pinError == 0 && |frames| == PagesNr(buf, len) && len < TWO_32
      && forall i :: 0 <= i < |frames| - 1 ==> frames[i] != frames[i + 1]
    ensures r.Mapped? ==> Covers(buf, len, frames, r.table)
    ensures r.Error? ==> r.code == if PagesNr(buf, len) == 0 then -22
      else if !memory then -12
      else if pinError < 0 then pinError
      else if |frames| != PagesNr(buf, len) || exists i :: 0 <= i < |frames| - 1 && frames[i] == frames[i + 1] then -14
      else -22
  {
    var pagesNr := PagesNr(buf, len);
    if pagesNr == 0 {
      return Error(-EINVAL);
    }
    if !memory {
      return Error(-ENOMEM);
    }
    if pinError < 0 {
      return Error(pinError);
    }
    if |frames| != pagesNr {
      return Error(-EFAULT);
    }
    for i := 1 to pagesNr
      invariant forall j :: 0 <= j < i - 1 ==> frames[j] != frames[j + 1]
    {
      if frames[i - 1] == frames[i] {
        return Error(-EFAULT);
      }
    }
    var table, left := FillTable(buf, len, frames);
    if left != 0 {
      return Error(-EINVAL);
    }
    TableCovers(buf, len, frames, table[..]);
    r := Mapped(table[..]);
  }

  // The loop over the pages; left is the length it could not place.
  method FillTable(buf: nat, len: nat, frames: seq<nat>) returns (table: array<PageEntry>, left: nat)
    requires |frames| == PagesNr(buf, len)
    ensures fresh(table) && table.Length == |frames|
    ensures left == 0 <==> len < TWO_32
    ensures len < TWO_32 ==> forall i :: 0 <= i < |frames| ==> table[i] == Entry(buf, len, frames, i)
  {
    table := new PageEntry[|frames|](_ => PageEntry(0, 0, 0));
    var at: nat := buf;
    left := len;
    for i := 0 to |frames|
      invariant left / TWO_32 == len / TWO_32
      invariant len < TWO_32 ==> at == buf + Consumed(buf, len, i) && left == len - Consumed(buf, len, i)
      invariant len < TWO_32 ==> forall k :: 0 <= k < i ==> table[k] == Entry(buf, len, frames, k)
    {
      if len < TWO_32 {
        OneEntry(buf, len, i);
      }
      var offset := at % 4096;
      var cut := left % TWO_32;
      var nbytes := if 4096 - offset < cut then 4096 - offset else cut;
      table[i] := PageEntry(frames[i], offset, nbytes);
      at, left := at + nbytes, left - nbytes;
    }
    if len < TWO_32 {
      PagesNrCounts(buf, len);
    }
  }

  // ---------- alignment ----------

  /** The mask of the address and length checks. */
  function Lsb(x: nat, align: nat): nat
    requires align > 0
  {
    And(x, align - 1)
  }

  /** The alignments the 8-bit addr_align register field can hold as a power of two. */
  ghost predicate IsAlignment(align: nat) {
    align in {1, 2, 4, 8, 16, 32, 64, 128}
  }

  lemma LsbIsMod(x: nat, align: nat)
    requires IsAlignment(align)
    ensures Lsb(x, align) == x % align
  {
    var k := if align == 1 then 0 else if align == 2 then 1 else if align == 4 then 2 else if align == 8 then 3
      else if align == 16 then 4 else if align == 32 then 5 else if align == 64 then 6 else 7;
    SmallPowers();
    hide And, Pow2;
    MaskIsMod(x, k);
  }

  lemma SmallPowers()
    ensures Pow2(0) == 1 && Pow2(1) == 2 && Pow2(2) == 4 && Pow2(3) == 8
    ensures Pow2(4) == 16 && Pow2(5) == 32 && Pow2(6) == 64 && Pow2(7) == 128
  {
    assert Pow2(3) == 2 * Pow2(2);
    assert Pow2(5) == 2 * Pow2(4);
  }

  /** check_transfer_align. */
  function CheckTransferAlign(nonIncr: bool, align: nat, granularity: nat, buf: nat, count: nat, pos: nat, sync: bool): int
    requires align > 0 && granularity > 0
  {
    if nonIncr then
      if Lsb(buf, align) != 0 then -EINVAL
      else if Lsb(pos, align) != 0 && sync then -EINVAL
      else if Lsb(count, granularity) != 0 then -EINVAL
      else 0
    else if Lsb(buf, align) != Lsb(pos, align) then -EINVAL
    else 0
  }
}
