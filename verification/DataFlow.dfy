/** What the data registers hold at each phase of a run, in terms of the operand matrices. */
module DataFlow {
  import opened Words
  import opened Powers
  import opened ProcessingArray
  import opened Timeline
  import SA = ScatterA
  import SB = ScatterB
  import GC = GatherC
  import opened MatrixMultiply

  // ---------- addresses ----------

  /** The sizes the 13-bit address pointers can hold: 16, 32, 48 and 64. */
  ghost predicate Fits(r: nat) {
    1 <= r <= 4
  }

  lemma SomeSize(r: nat)
    requires Fits(r)
    ensures r > 0
  {
  }

  /** A row-major word index determines its row and column block. */
  lemma WordIndexInjective(r: nat, i: nat, c: nat, i': nat, c': nat)
    requires Fits(r) && c < r && c' < r && i * r + c == i' * r + c'
    ensures i == i' && c == c'
  {
    if r == 1 {} else if r == 2 {} else if r == 3 {} else {}
  }

  lemma WordIndexBound(r: nat, i: nat, c: nat)
    requires Fits(r) && i < 16 * r && c < r
    ensures i * r + c < 256
  {
    if r == 1 {} else if r == 2 {} else if r == 3 {} else {}
  }

  /** A 13-bit pointer to byte 16 * w of a small enough array is sliced back to the word index w. */
  lemma PointerSlice(pointer: nat, unit: nat, w: nat)
    requires unit == 16 || unit == 32
    requires pointer == unit * w && w < 256
    ensures pointer % 8192 / unit == w
  {
    assert pointer < 8192;
  }

  /** For every size the address slices are word indices, modulo 512 for the operands and 256 for C. */
  lemma AddressesWrap(r: nat, a: SA.Registers, b: SB.Control, i: nat, c: nat)
    ensures SA.Address(r, a) == (a.inBlockCnt * r + a.colCnt) % 512
    ensures SB.Address(r, b) == ((16 * b.rowCnt + b.inBlockCnt) * r + b.colCnt) % 512
    ensures GC.WordAddress(r, i, c) == (i * r + c) % 256
  {
    var wa, wb, wc := a.inBlockCnt * r + a.colCnt, (16 * b.rowCnt + b.inBlockCnt) * r + b.colCnt, i * r + c;
    assert a.inBlockCnt * (16 * r) + a.colCnt * 16 == 16 * wa by {
      assert a.inBlockCnt * (16 * r) == 16 * (a.inBlockCnt * r);
    }
    assert b.rowCnt * 16 * (16 * r) + b.colCnt * 16 + b.inBlockCnt * (16 * r) == 16 * wb by {
      assert wb == 16 * (b.rowCnt * r) + b.inBlockCnt * r + b.colCnt;
      assert b.rowCnt * 16 * (16 * r) == 256 * (b.rowCnt * r);
      assert b.inBlockCnt * (16 * r) == 16 * (b.inBlockCnt * r);
    }
    assert i * 2 * (16 * r) + c * 2 * 16 == 32 * wc by {
      assert i * 2 * (16 * r) == 32 * (i * r);
    }
    SliceWraps(wa);
    SliceWraps(wb);
    SliceWraps(wc);
  }

  lemma SliceWraps(w: nat)
    ensures 16 * w % 8192 / 16 == w % 512 && 32 * w % 8192 / 32 == w % 256
  {
    SliceOf(16, 512, w);
    SliceOf(32, 256, w);
  }

  /** The upper bits of a 13-bit pointer to word w of unit bytes. */
  lemma SliceOf(unit: nat, words: nat, w: nat)
    requires unit >= 1 && words >= 1 && unit * words == 8192
    ensures unit * w % 8192 / unit == w % words
  {
    var q, m := w / words, w % words;
    var rest := unit * m;
    assert unit * w == 8192 * q + rest by {
      Regroup(unit, words, q, m);
    }
    BelowUnit(unit, words, m);
    Quotient(8192, unit * w, q, rest);
    QuotientIs(unit, rest, m, 0);
  }

  lemma Regroup(unit: nat, words: nat, q: nat, m: nat)
    ensures unit * (words * q + m) == (unit * words) * q + unit * m
  {
  }

  lemma BelowUnit(unit: nat, words: nat, m: nat)
    requires m < words && unit >= 1
    ensures unit * m < unit * words
  {
  }

  /** The address slice of scatter_b names the word of row 16 * row + count, column block col. */
  lemma ScatterBAddress(r: nat, c: SB.Control)
    requires Fits(r) && c.rowCnt < r && c.colCnt < r && c.inBlockCnt < 16
    ensures SB.Address(r, c) == (16 * c.rowCnt + c.inBlockCnt) * r + c.colCnt
  {
    var w := (16 * c.rowCnt + c.inBlockCnt) * r + c.colCnt;
    WordIndexBound(r, 16 * c.rowCnt + c.inBlockCnt, c.colCnt);
    assert 16 * w == c.rowCnt * 16 * (16 * r) + c.colCnt * 16 + c.inBlockCnt * (16 * r) by {
      assert w == 16 * (c.rowCnt * r) + c.inBlockCnt * r + c.colCnt;
      assert c.rowCnt * 16 * (16 * r) == 256 * (c.rowCnt * r);
      assert c.inBlockCnt * (16 * r) == 16 * (c.inBlockCnt * r);
    }
    PointerSlice(c.rowCnt * 16 * (16 * r) + c.colCnt * 16 + c.inBlockCnt * (16 * r), 16, w);
  }

  lemma ScatterAAddress(r: nat, a: SA.Registers)
    requires Fits(r) && a.inBlockCnt < 16 * r && a.colCnt < r
    ensures SA.Address(r, a) == a.inBlockCnt * r + a.colCnt
  {
    WordIndexBound(r, a.inBlockCnt, a.colCnt);
    assert a.inBlockCnt * (16 * r) == 16 * (a.inBlockCnt * r);
    PointerSlice(a.inBlockCnt * (16 * r) + a.colCnt * 16, 16, a.inBlockCnt * r + a.colCnt);
  }

  lemma ResultAddress(r: nat, i: nat, c: nat)
    requires Fits(r) && i < 16 * r && c < r
    ensures GC.WordAddress(r, i, c) == i * r + c
  {
    WordIndexBound(r, i, c);
    assert i * 2 * (16 * r) == 32 * (i * r);
    PointerSlice(i * 2 * (16 * r) + c * 2 * 16, 32, i * r + c);
  }

  /** No two words of C share an address exactly when the matrices are at most 64 wide: this is the
      whole reason for the size limit of a run. */
  lemma SizesThatFit(r: nat)
    requires 1 <= r
    ensures Fits(r) <==>
      forall i: nat, c: nat, i': nat, c': nat | i < 16 * r && c < r && i' < 16 * r && c' < r ::
        GC.WordAddress(r, i, c) == GC.WordAddress(r, i', c') ==> i == i' && c == c'
  {
    if Fits(r) {
      forall i: nat, c: nat, i': nat, c': nat
        | i < 16 * r && c < r && i' < 16 * r && c' < r && GC.WordAddress(r, i, c) == GC.WordAddress(r, i', c')
        ensures i == i' && c == c'
      {
        ResultAddress(r, i, c);
        ResultAddress(r, i', c');
        WordIndexInjective(r, i, c, i', c');
      }
    } else {
      WrapCollides(r, 256 / r, 256 % r);
      assert GC.WordAddress(r, 256 / r, 256 % r) == GC.WordAddress(r, 0, 0);
    }
  }

  /** Past 64 columns the word after the 256th wraps around to word 0. */
  lemma WrapCollides(r: nat, i: nat, c: nat)
    requires 5 <= r && i == 256 / r && c == 256 % r
    ensures i < 16 * r && c < r && (i != 0 || c != 0)
    ensures GC.WordAddress(r, i, c) == GC.WordAddress(r, 0, 0)
  {
    assert i * r + c == 256;
    assert i * 2 * (16 * r) + c * 2 * 16 == 8192 by {
      assert i * 2 * (16 * r) == 32 * (i * r);
    }
  }

  // ---------- registers ----------

  /** Rows 0 .. n-1 of the tile buffer hold rows of B tile (row, col). */
  ghost predicate HoldsTileRows(t: Tile, b: Matrix, col: nat, row: nat, n: nat) {
    forall i: nat, j: nat | i < n && i < 16 && j < 16 :: t[i][j] == b(16 * row + i, 16 * col + j)
  }

  /** The lanes hold elements (i, 16 * c ..) of a matrix. */
  ghost predicate HoldsSlice(x: Lanes, a: Matrix, i: nat, c: nat) {
    forall j: nat | j < 16 :: x[j] == a(i, 16 * c + j)
  }

  /** Word i * r + c of an operand BRAM holds elements 16c .. 16c + 15 of row i. */
  lemma OperandWord(r: nat, mem: OperandBram, i: nat, c: nat)
    requires Fits(r) && i < 16 * r && c < r
    ensures i * r + c < 256
    ensures HoldsSlice(mem[i * r + c], OperandMatrix(r, mem), i, c)
  {
    WordIndexBound(r, i, c);
    var x := mem[i * r + c];
    forall j: nat | j < 16 ensures x[j] == OperandMatrix(r, mem)(i, 16 * c + j) {
      assert (16 * c + j) / 16 == c && (16 * c + j) % 16 == j;
    }
  }

  /** The lanes hold column k of B tile (row, col). */
  ghost predicate HoldsColumn(x: Lanes, b: Matrix, col: nat, row: nat, k: nat) {
    forall j: nat | j < 16 :: x[j] == b(16 * row + j, 16 * col + k)
  }

  /** After the given number of shifts (at least two) the newest column is in row 0, older ones below. */
  ghost predicate ArrayAfterShifts(pe: Tile, b: Matrix, col: nat, row: nat, shifts: nat) {
    forall m: nat | m < 16 && m + 2 <= shifts <= 17 :: HoldsColumn(pe[m], b, col, row, shifts - 2 - m)
  }

  /** scatter_b's fetch of tile (row, col) when its block counter is k. */
  ghost predicate Fetching(t: Tile, rdB: Lanes, b: Matrix, col: nat, row: nat, k: nat) {
    && HoldsTileRows(t, b, col, row, if k == 0 then 0 else k - 1)
    && (1 <= k <= 16 ==> HoldsSlice(rdB, b, 16 * row + k - 1, col))
  }

  ghost predicate TileBufferAt(r: nat, b: Matrix, p: Phase, t: Tile, rdB: Lanes) {
    match p
    case Launch(n) => (n >= 2 ==> Fetching(t, rdB, b, 0, 0, n - 2))
    case InTile(col, row, tau) =>
      if tau <= 15 then HoldsTileRows(t, b, col, row, 16)
      else !IsLast(r, col, row) ==> Fetching(t, rdB, b, NextCol(r, col, row), NextRow(r, row), tau - 16)
    case Finished => true
  }

  ghost predicate ChainInputAt(b: Matrix, p: Phase, bIns: Lanes) {
    p.InTile? && 1 <= p.tau <= 16 ==> HoldsColumn(bIns, b, p.col, p.row, p.tau - 1)
  }

  ghost predicate ArrayAt(b: Matrix, p: Phase, pe: Tile) {
    p.InTile? ==> ArrayAfterShifts(pe, b, p.col, p.row, if p.tau < 17 then p.tau else 17)
  }

  ghost predicate BroadcastAt(r: nat, a: Matrix, p: Phase, rdA: Lanes) {
    p.InTile? && 19 <= p.tau <= 16 * r + 18 ==> HoldsSlice(rdA, a, p.tau - 19, p.row)
  }

  /** How many terms of each dot product row i of the accumulation buffer has taken in. */
  function TermsIn(r: nat, p: Phase, i: nat): nat {
    if !p.InTile? || (p.row + 1 == r && p.tau > DoneTau(r, p.row)) then 0
    else if p.tau >= i + 20 then 16 * p.row + 16
    else 16 * p.row
  }

  /** Lane m of a result word of column block c belongs to column 16c + 15 - m of the product. */
  ghost predicate HoldsPartial(x: Lanes, a: Matrix, b: Matrix, i: nat, c: nat, n: nat) {
    forall m: nat | m < 16 :: x[m] == Wrap16(Dot(a, b, i, 16 * c + 15 - m, n))
  }

  ghost predicate AccumulatorAt(r: nat, a: Matrix, b: Matrix, p: Phase, buffer: seq<Lanes>) {
    && |buffer| == 16 * r
    && forall i: nat | i < 16 * r ::
        HoldsPartial(buffer[i], a, b, i, if p.InTile? then p.col else 0, TermsIn(r, p, i))
  }

  /** Whether the word of row i, column block c has been written back. */
  predicate WrittenAt(r: nat, p: Phase, i: nat, c: nat) {
    match p
    case Launch(_) => false
    case InTile(col, row, tau) => c < col || (c == col && row + 1 == r && tau >= 16 * r + 22 + i)
    case Finished => true
  }

  ghost predicate ResultsAt(r: nat, a: Matrix, b: Matrix, p: Phase, mem: ResultBram) {
    forall i: nat, c: nat | i < 16 * r && c < r && WrittenAt(r, p, i, c) ::
      i * r + c < 256 && HoldsPartial(mem[i * r + c], a, b, i, c, 16 * r)
  }

  // ---------- one clock of each data path ----------

  /** One cycle of a fetch: the word asked for at the previous count lands in the row before this one. */
  lemma FetchFollows(b: Matrix, col: nat, row: nat, k: nat, t: Tile, rdB: Lanes, t': Tile, rdB': Lanes)
    requires Fetching(t, rdB, b, col, row, k)
    requires t' == if 1 <= k <= 16 then t[k - 1 := rdB] else t
    requires k < 16 ==> HoldsSlice(rdB', b, 16 * row + k, col)
    ensures Fetching(t', rdB', b, col, row, k + 1)
  {
  }

  /** What BRAM B delivers one cycle after scatter_b put out its address. */
  ghost predicate DeliversNextRow(c: SB.Control, b: Matrix, rdB: Lanes) {
    c.state == SB.Preparing && c.inBlockCnt < 16 ==> HoldsSlice(rdB, b, 16 * c.rowCnt + c.inBlockCnt, c.colCnt)
  }

  lemma BramBDelivers(r: nat, p: Phase, mem: OperandBram)
    requires Fits(r) && Valid(r, p) && p != Finished
    ensures
      var c := ScatterBAt(r, p);
      DeliversNextRow(c, OperandMatrix(r, mem), mem[SB.Address(r, c)])
  {
    hide SB.Address, HoldsSlice;
    var c := ScatterBAt(r, p);
    if c.state == SB.Preparing && c.inBlockCnt < 16 {
      ScatterBAddress(r, c);
      OperandWord(r, mem, 16 * c.rowCnt + c.inBlockCnt, c.colCnt);
    }
  }

  lemma TileBufferFollows(r: nat, p: Phase, b: Matrix, t: Tile, rdB: Lanes, rdB': Lanes)
    requires Fits(r) && Valid(r, p) && p != Finished
    requires TileBufferAt(r, b, p, t, rdB) && DeliversNextRow(ScatterBAt(r, p), b, rdB')
    ensures TileBufferAt(r, b, After(r, p), SB.NextBuffer(ScatterBAt(r, p), t, false, rdB), rdB')
  {
    hide HoldsTileRows, HoldsSlice;
    var c := ScatterBAt(r, p);
    var t' := SB.NextBuffer(c, t, false, rdB);
    if c.state == SB.Preparing {
      FetchFollows(b, c.colCnt, c.rowCnt, c.inBlockCnt, t, rdB, t', rdB');
    } else if p == Launch(20) {
      FetchedIsWhole(b, 0, 0, t, 18, 18);
    } else if p.InTile? && p.tau >= 34 && !IsLast(r, p.col, p.row) {
      FetchedIsWhole(b, NextCol(r, p.col, p.row), NextRow(r, p.row), t, p.tau - 16, p.tau - 15);
    } else if p.Launch? || !IsLast(r, p.col, p.row) {
      NothingFetched(b, if p.Launch? then 0 else NextCol(r, p.col, p.row), if p.Launch? then 0 else NextRow(r, p.row), t, rdB');
    }
  }

  lemma NothingFetched(b: Matrix, col: nat, row: nat, t: Tile, rdB: Lanes)
    ensures Fetching(t, rdB, b, col, row, 0)
  {
  }

  /** Once all sixteen rows are in, the count no longer matters. */
  lemma FetchedIsWhole(b: Matrix, col: nat, row: nat, t: Tile, k: nat, k': nat)
    requires 17 <= k && HoldsTileRows(t, b, col, row, k - 1)
    ensures HoldsTileRows(t, b, col, row, 16) && (17 <= k' ==> HoldsTileRows(t, b, col, row, k' - 1))
  {
  }

  lemma ChainInputFollows(r: nat, p: Phase, b: Matrix, t: Tile, rdB: Lanes)
    requires Fits(r) && Valid(r, p) && p != Finished
    requires TileBufferAt(r, b, p, t, rdB)
    ensures
      var c := ScatterBAt(r, p);
      ChainInputAt(b, After(r, p), if c.state == SB.Loading then SB.Column(t, c.loadCnt) else ZERO_LANES)
  {
  }

  lemma ArrayFollows(r: nat, p: Phase, b: Matrix, pe: Tile, bIns: Lanes)
    requires Fits(r) && Valid(r, p) && p != Finished
    requires ArrayAt(b, p, pe) && ChainInputAt(b, p, bIns)
    ensures ArrayAt(b, After(r, p), ArrayNext(pe, false, ScatterBAt(r, p).stationaryCtrl, bIns))
  {
    hide ArrayNext, HoldsColumn;
    var next := ArrayNext(pe, false, ScatterBAt(r, p).stationaryCtrl, bIns);
    ShiftsAdvance(r, p);
    var q := After(r, p);
    if q.InTile? && q.tau > 0 && p.InTile? {
      var shifts := if q.tau < 17 then q.tau else 17;
      forall m: nat | m < 16 && m + 2 <= shifts ensures HoldsColumn(next[m], b, q.col, q.row, shifts - 2 - m) {
        ArrayRow(pe, ScatterBAt(r, p).stationaryCtrl, bIns, m);
        if p.tau > 16 {
          assert HoldsColumn(pe[m], b, p.col, p.row, 17 - 2 - m);
        } else if m > 0 {
          assert HoldsColumn(pe[m - 1], b, p.col, p.row, p.tau - 2 - (m - 1));
          assert shifts - 2 - m == p.tau - 2 - (m - 1);
        } else {
          assert shifts - 2 - m == p.tau - 1;
        }
      }
    }
  }

  /** The number of shifts into the array grows while stationaryCtrl is up. */
  lemma ShiftsAdvance(r: nat, p: Phase)
    requires Fits(r) && Valid(r, p) && p != Finished
    ensures
      var q := After(r, p);
      p.InTile? && q.InTile? && q.tau > 0 ==>
        q.tau == p.tau + 1 && q.col == p.col && q.row == p.row && ScatterBAt(r, p).stationaryCtrl == (p.tau <= 16)
  {
  }

  lemma BroadcastFollows(r: nat, p: Phase, mem: OperandBram)
    requires Fits(r) && Valid(r, p) && p != Finished
    ensures BroadcastAt(r, OperandMatrix(r, mem), After(r, p), mem[SA.Address(r, ScatterAAt(r, p))])
  {
    hide SA.Address, HoldsSlice;
    var s := ScatterAAt(r, p);
    if s.state == SA.Calculate {
      ScatterAAddress(r, s);
      OperandWord(r, mem, s.inBlockCnt, s.colCnt);
    }
  }

  /** The output of the PE array is, lane by lane, a wrapped dot product. */
  ghost predicate ComputesDots(cOuts: Lanes, pe: Tile, aIns: Lanes) {
    forall m: nat | m < 16 :: cOuts[m] == Wrap16(LaneSum(Products(aIns, pe[m]), 16))
  }

  /** One accumulation: a lane that holds n terms of its dot product holds n + 16 after the slice. */
  lemma AccumulateLane(a: Matrix, b: Matrix, i: nat, j: nat, base: nat, x: int, col: Lanes, aIns: Lanes)
    requires x == Wrap16(Dot(a, b, i, j, base))
    requires forall k: nat | k < 16 :: a(i, base + k) == aIns[k] && b(base + k, j) == col[k]
    ensures Wrap16(x + Wrap16(LaneSum(Products(aIns, col), 16))) == Wrap16(Dot(a, b, i, j, base + 16))
  {
    DotSlice(a, b, i, j, base, aIns, col, 16);
    Wrap16Add(Dot(a, b, i, j, base), LaneSum(Products(aIns, col), 16));
  }

  /** The same for the sixteen lanes of a buffer row. */
  lemma AccumulateSlice(a: Matrix, b: Matrix, i: nat, col: nat, row: nat, x: Lanes, pe: Tile, aIns: Lanes, cOuts: Lanes)
    requires HoldsPartial(x, a, b, i, col, 16 * row)
    requires HoldsSlice(aIns, a, i, row)
    requires ArrayAfterShifts(pe, b, col, row, 17)
    requires ComputesDots(cOuts, pe, aIns)
    ensures HoldsPartial(GC.AddLanes(x, cOuts), a, b, i, col, 16 * row + 16)
  {
    hide Wrap16, Dot, LaneSum, Products;
    var sum := GC.AddLanes(x, cOuts);
    forall m: nat | m < 16 ensures sum[m] == Wrap16(Dot(a, b, i, 16 * col + 15 - m, 16 * row + 16)) {
      assert HoldsColumn(pe[m], b, col, row, 17 - 2 - m);
      AccumulateLane(a, b, i, 16 * col + 15 - m, 16 * row, x[m], pe[m], aIns);
    }
  }

  lemma AccumulatorFollows(r: nat, p: Phase, a: Matrix, b: Matrix, buffer: seq<Lanes>, pe: Tile, aIns: Lanes, cOuts: Lanes)
    requires Fits(r) && Valid(r, p) && p != Finished
    requires AccumulatorAt(r, a, b, p, buffer) && ArrayAt(b, p, pe) && ComputesDots(cOuts, pe, aIns)
    requires BroadcastAt(r, a, p, aIns)
    ensures AccumulatorAt(r, a, b, After(r, p), GC.NextBuffer(r, GatherAt(r, p), buffer, false, cOuts))
  {
    var q := After(r, p);
    var c := GatherAt(r, p);
    var next := GC.NextBuffer(r, c, buffer, false, cOuts);
    forall i: nat | i < 16 * r
      ensures HoldsPartial(next[i], a, b, i, if q.InTile? then q.col else 0, TermsIn(r, q, i))
    {
      AccumulatorRowFollows(r, p, a, b, buffer, pe, aIns, cOuts, i);
    }
  }

  /** What happens to row i of the buffer when p is over. */
  lemma RowEvent(r: nat, p: Phase, i: nat)
    requires Fits(r) && Valid(r, p) && p != Finished && i < 16 * r
    ensures
      var c, q := GatherAt(r, p), After(r, p);
      if c.state == GC.Idle || c.bramState == GC.Cleaning then TermsIn(r, q, i) == 0
      else if c.state == GC.Gathering && c.inBlockCnt == i + 1 then
        p.InTile? && q.InTile? && q.col == p.col && p.tau == i + 19 &&
        TermsIn(r, p, i) == 16 * p.row && TermsIn(r, q, i) == 16 * p.row + 16
      else
        p.InTile? && q.InTile? && TermsIn(r, q, i) == TermsIn(r, p, i) && (q.col == p.col || TermsIn(r, q, i) == 0)
  {
  }

  lemma AccumulatorRowFollows(r: nat, p: Phase, a: Matrix, b: Matrix, buffer: seq<Lanes>, pe: Tile, aIns: Lanes, cOuts: Lanes, i: nat)
    requires Fits(r) && Valid(r, p) && p != Finished && i < 16 * r == |buffer|
    requires HoldsPartial(buffer[i], a, b, i, if p.InTile? then p.col else 0, TermsIn(r, p, i))
    requires ArrayAt(b, p, pe) && ComputesDots(cOuts, pe, aIns)
    requires BroadcastAt(r, a, p, aIns)
    ensures
      var q := After(r, p);
      HoldsPartial(GC.NextBuffer(r, GatherAt(r, p), buffer, false, cOuts)[i], a, b, i,
        if q.InTile? then q.col else 0, TermsIn(r, q, i))
  {
    RowEvent(r, p, i);
    hide After, TermsIn, GatherAt, ComputesDots, Wrap16, Dot;
    var q, c := After(r, p), GatherAt(r, p);
    var next := GC.NextBuffer(r, c, buffer, false, cOuts);
    if c.state == GC.Idle || c.bramState == GC.Cleaning {
      ZeroIsEmptySum(a, b, i, if q.InTile? then q.col else 0);
    } else if c.state == GC.Gathering && c.inBlockCnt == i + 1 {
      AccumulateSlice(a, b, i, p.col, p.row, buffer[i], pe, aIns, cOuts);
    } else {
      assert next[i] == buffer[i];
      ZeroTermsAnywhere(a, b, i, p.col, q.col, buffer[i]);
    }
  }

  lemma ZeroIsEmptySum(a: Matrix, b: Matrix, i: nat, c: nat)
    ensures HoldsPartial(ZERO_LANES, a, b, i, c, 0)
  {
  }

  /** An empty partial sum belongs to every column block. */
  lemma ZeroTermsAnywhere(a: Matrix, b: Matrix, i: nat, c: nat, c': nat, x: Lanes)
    ensures HoldsPartial(x, a, b, i, c, 0) ==> HoldsPartial(x, a, b, i, c', 0)
  {
    if HoldsPartial(x, a, b, i, c, 0) {
      forall m: nat | m < 16 ensures x[m] == Wrap16(Dot(a, b, i, 16 * c' + 15 - m, 0)) {
        assert x[m] == Wrap16(Dot(a, b, i, 16 * c + 15 - m, 0));
      }
    }
  }

  /** What happens to the written set when p is over: it grows by the word gather_c puts out. */
  lemma WrittenGrows(r: nat, p: Phase, i: nat, k: nat)
    requires Fits(r) && Valid(r, p) && p != Finished && i < 16 * r && k < r
    ensures
      var c := GatherAt(r, p);
      WrittenAt(r, After(r, p), i, k) <==>
        WrittenAt(r, p, i, k) || (c.bramState == GC.Writing && c.writeBackCnt == i && c.colCnt == k)
    ensures
      var c := GatherAt(r, p);
      c.bramState == GC.Writing ==>
        p.InTile? && p.col == c.colCnt < r && c.writeBackCnt < 16 * r && TermsIn(r, p, c.writeBackCnt) == 16 * r
  {
  }

  lemma ResultsFollow(r: nat, p: Phase, a: Matrix, b: Matrix, mem: ResultBram, buffer: seq<Lanes>)
    requires Fits(r) && Valid(r, p) && p != Finished
    requires ResultsAt(r, a, b, p, mem) && AccumulatorAt(r, a, b, p, buffer)
    ensures
      var c := GatherAt(r, p);
      ResultsAt(r, a, b, After(r, p),
        if c.bramState == GC.Writing then mem[GC.Address(r, c) := GC.Row(buffer, c.writeBackCnt)] else mem)
  {
    hide After, GatherAt, WrittenAt, TermsIn, HoldsPartial, GC.WordAddress;
    var c := GatherAt(r, p);
    var next := if c.bramState == GC.Writing then mem[GC.Address(r, c) := GC.Row(buffer, c.writeBackCnt)] else mem;
    forall i: nat, k: nat | i < 16 * r && k < r && WrittenAt(r, After(r, p), i, k)
      ensures i * r + k < 256 && HoldsPartial(next[i * r + k], a, b, i, k, 16 * r)
    {
      WordIndexBound(r, i, k);
      WrittenGrows(r, p, i, k);
      if c.bramState == GC.Writing {
        ResultAddress(r, c.writeBackCnt, c.colCnt);
        if c.writeBackCnt * r + c.colCnt == i * r + k {
          WordIndexInjective(r, c.writeBackCnt, c.colCnt, i, k);
        }
      }
    }
  }
}
