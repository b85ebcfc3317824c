/** The 32-byte hardware descriptor: control word, addresses, adjacency, and what it moves. */
module Descriptors {
  import opened Extents

  const DESC_MAGIC: bv32 := 0xAD4B0000
  const STOP_FLAGS: bv32 := 0x13       // STOPPED | COMPLETED | EOP
  const MAX_ADJ_BLOCK: nat := 64
  const DESC_SIZE: nat := 32

  datatype Desc = Desc(
    control: bv32, bytes: nat, srcLo: nat, srcHi: nat, dstLo: nat, dstHi: nat, nextLo: nat, nextHi: nat)

  const ZERO_DESC: Desc := Desc(0, 0, 0, 0, 0, 0, 0, 0)

  // PCI_DMA_L and PCI_DMA_H.
  function Lo(addr: nat): (w: nat)
    ensures w < TWO_32
  {
    addr % TWO_32
  }

  function Hi(addr: nat): nat {
    addr / TWO_32
  }

  /** The address the hardware puts together from two words. */
  function Join(lo: nat, hi: nat): nat {
    hi * TWO_32 + lo
  }

  lemma JoinSplit(addr: nat)
    ensures Join(Lo(addr), Hi(addr)) == addr
  {
  }

  // ---------- control word ----------

  function WithAdjacent(control: bv32, adjacent: bv32): bv32 {
    (control & 0x0000F0FF) | 0xAD4B0000 | (adjacent << 8)
  }

  function WithFlags(control: bv32, flags: bv32): bv32 {
    (control & 0xFFFFFF00) | flags
  }

  // The fields the hardware decodes.
  function Magic(control: bv32): bv32 { control & 0xFFFF0000 }
  function Adjacent(control: bv32): bv32 { (control >> 8) & 0x3F }
  function Flags(control: bv32): bv32 { control & 0xFF }

  /** Setting the adjacent count always leaves the magic and the flags decodable; the count itself
      decodes exactly when the word had no stale bit 12 or 13 that the new count lacks. */
  lemma AdjacentDecodes(control: bv32, adjacent: bv32)
    requires adjacent < 64
    ensures Magic(WithAdjacent(control, adjacent)) == DESC_MAGIC
    ensures Flags(WithAdjacent(control, adjacent)) == Flags(control)
    ensures Adjacent(WithAdjacent(control, adjacent)) == adjacent <==> (control >> 8) & 0x30 & !adjacent == 0
  {
  }

  /** Setting the flags keeps the rest of the word. */
  lemma FlagsDecode(control: bv32, flags: bv32)
    requires flags <= 0xFF
    ensures Flags(WithFlags(control, flags)) == flags
    ensures Magic(WithFlags(control, flags)) == Magic(control) && Adjacent(WithFlags(control, flags)) == Adjacent(control)
  {
  }

  /** How many descriptors beyond the next one may be fetched with it. */
  function NextAdj(remaining: nat, nextLo: nat): (adjacent: nat)
    ensures adjacent < 64
  {
    if remaining <= 1 then 0
    else
      var nextIndex := nextLo % 4096 / DESC_SIZE % MAX_ADJ_BLOCK;
      if MAX_ADJ_BLOCK - nextIndex - 1 < remaining - 1 then MAX_ADJ_BLOCK - nextIndex - 1 else remaining - 1
  }

  /** An offset inside an aligned block of d bytes. */
  lemma InBlock(d: nat, q: nat, o: nat)
    requires d == 2048 || d == 4096 || d == TWO_32
    requires o < d
    ensures (d * q + o) / d == q && (d * q + o) % d == o
  {
  }

  /** The low word of an address keeps its offset in a page, and that its offset in a block. */
  lemma BlockSlot(addr: nat)
    ensures Lo(addr) % 4096 == addr % 4096
    ensures addr % 4096 % 2048 == addr % 2048
    ensures addr % 4096 / 32 % 64 == addr % 2048 / 32
  {
    var q, m := addr / TWO_32, addr % TWO_32;
    var p, o := m / 4096, m % 4096;
    assert addr == 4096 * (q * 1048576 + p) + o;
    InBlock(4096, q * 1048576 + p, o);
    var b, s := o / 2048, o % 2048;
    assert addr == 2048 * (2 * (q * 1048576 + p) + b) + s;
    InBlock(2048, 2 * (q * 1048576 + p) + b, s);
    assert o == 2048 * b + s && 0 <= b <= 1;
  }

  /** A burst of n + 1 descriptors from bus address addr on lies in one block of 64, hence in one page. */
  predicate InOneBlock(addr: nat, n: nat) {
    (addr + 32 * n + 31) / 2048 == addr / 2048 && (addr + 32 * n + 31) / 4096 == addr / 4096
  }

  /** The count never promises a descriptor past the last one, and the whole burst starting at the
      next descriptor lies in one 2048-byte block, hence in one 4096-byte page. It is the largest such count. */
  lemma AdjacentBurstStaysInBlock(remaining: nat, next: nat)
    requires remaining >= 1 && next % 32 == 0
    ensures
      var adjacent := NextAdj(remaining, Lo(next));
      && adjacent <= remaining - 1 && InOneBlock(next, adjacent)
      && (adjacent == remaining - 1 || !InOneBlock(next, adjacent + 1))
  {
    var adjacent := NextAdj(remaining, Lo(next));
    BlockSlot(next);
    var s, o := next % 2048, next % 4096;
    assert adjacent <= remaining - 1 && adjacent <= 63 - s / 32;
    assert adjacent == remaining - 1 || adjacent == 63 - s / 32;
    hide Lo, NextAdj;
    SlotEnd(next, s, adjacent);
    InBlock(2048, next / 2048, s + 32 * adjacent + 31);
    assert o == s || o == s + 2048;
    InBlock(4096, next / 4096, o + 32 * adjacent + 31);
    if adjacent == 63 - s / 32 {
      BlockEnds(next, s, adjacent);
    }
  }

  /** One descriptor more would begin the next block. */
  lemma BlockEnds(next: nat, s: nat, adjacent: nat)
    requires next % 32 == 0 && s == next % 2048 && adjacent == 63 - s / 32
    ensures !InOneBlock(next, adjacent + 1)
  {
    var q := next / 2048;
    assert next == 2048 * q + s && s == 32 * (s / 32) + s % 32;
    assert s % 32 == 0 by {
      assert next == 32 * (64 * q) + s;
    }
    assert next + 32 * (adjacent + 1) + 31 == 2048 * (q + 1) + 31;
    InBlock(2048, q + 1, 31);
  }

  lemma SlotEnd(next: nat, s: nat, adjacent: nat)
    requires next % 32 == 0 && s == next % 2048 && adjacent <= 63 - s / 32
    ensures s + 32 * adjacent + 31 < 2048
  {
    assert next == 32 * (64 * (next / 2048)) + s;
    assert s % 32 == 0;
  }
}
