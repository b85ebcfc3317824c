/** A run with Final up too early, of more than one tile: scatter_b takes the first tile for the last, has to
    fetch it again, and stays one tile behind until Finish. */
module LateRun {
  import opened Words
  import opened ProcessingArray
  import opened Timeline
  import opened DataFlow
  import opened MatrixMultiply
  import opened AcceleratorRun
  import opened StaleReset
  import CC = ComputeControl
  import SA = ScatterA
  import SB = ScatterB
  import GC = GatherC

  /** The schedule of such a run from cycle 36 on. */
  datatype Late =
    | First(tau: nat)     // the visit to the first tile
    | Refetch(u: nat)     // everybody waits for the first tile to be fetched again
    | Visit(p: Phase)     // later visits, and the end

  /** Where everybody but scatter_b stands. */
  function Base(l: Late): Phase {
    match l
    case First(tau) => InTile(0, 0, tau)
    case Refetch(u) => InTile(0, 1, 0)
    case Visit(p) => p
  }

  ghost predicate ValidLate(r: nat, l: Late) {
    match l
    case First(tau) => 15 <= tau <= 16 * r + 21
    case Refetch(u) => u <= 18
    case Visit(p) => Valid(r, p) && !p.Launch? && (p.InTile? ==> p.row > 0 || p.col > 0)
  }

  function NextLate(r: nat, l: Late): Late {
    match l
    case First(tau) => if tau < 16 * r + 21 then First(tau + 1) else Refetch(0)
    case Refetch(u) => if u < 18 then Refetch(u + 1) else Visit(InTile(0, 1, 0))
    case Visit(p) => Visit(After(r, p))
  }

  function LateScatter(r: nat, l: Late): SB.Control {
    match l
    case First(tau) =>
      if tau == 15 then SB.Control(SB.Loading, 0, 1, 0, 15, true, false, true, false)
      else if tau == 16 then SB.Control(SB.Idle, 0, 1, 0, 0, false, false, true, true)
      else SB.Control(SB.Idle, 0, 0, 0, 0, false, true, false, false)
    case Refetch(u) =>
      if u <= 17 then SB.Control(SB.Preparing, u, 0, 0, 0, false, true, false, false)
      else SB.Control(SB.Waiting, 0, 1, 0, 0, false, true, false, false)
    case Visit(p) =>
      match p
      case InTile(col, row, tau) =>
        if tau <= 15 then SB.Control(SB.Loading, 0, row, col, tau, false, false, true, false)
        else if tau <= 33 then SB.Control(SB.Preparing, tau - 16, row, col, 0, false, false, tau == 16, tau == 16)
        else SB.Control(SB.Waiting, 0, NextRow(r, row), NextCol(r, col, row), 0, IsLast(r, col, row), false, false, false)
      case _ => SB.Control(SB.Waiting, 0, 0, 0, 0, true, false, false, false)
  }

  /** The control registers. */
  ghost predicate ControlLate(r: nat, l: Late, s: Machine) {
    && s.cc == ControlAt(r, Base(l), false) && s.sa == ScatterAAt(r, Base(l))
    && s.sb.ctl == LateScatter(r, l) && s.gc.ctl == GatherAt(r, Base(l)) && |s.gc.buffer| == 16 * r
  }

  lemma LateIsValid(r: nat, l: Late)
    requires r > 1 && ValidLate(r, l) && l != Visit(Finished)
    ensures ValidLate(r, NextLate(r, l)) && Valid(r, Base(l)) && Base(l) != Finished && !Base(l).Launch?
    ensures Base(NextLate(r, l)) == if l.Refetch? then Base(l) else After(r, Base(l))
  {
  }

  lemma LateWires(r: nat, l: Late)
    requires r > 1 && ValidLate(r, l) && l != Visit(Finished)
    ensures !l.Refetch? ==> LateScatter(r, l).loadDone == LoadDoneAt(Base(l))
    ensures l.Refetch? ==> !LateScatter(r, l).loadDone
    ensures LateScatter(r, l).stationaryCtrl == (!l.Refetch? && ScatterBAt(r, Base(l)).stationaryCtrl)
  {
  }

  lemma LateScatterFollows(r: nat, l: Late)
    requires r > 1 && ValidLate(r, l) && l != Visit(Finished)
    ensures SB.NextControl(r, LateScatter(r, l), false, BLoadAt(r, Base(l))) == LateScatter(r, NextLate(r, l))
  {
  }

  /** At the beginning of a visit everybody can wait. */
  lemma HoldsStill(r: nat, start: bool)
    requires r > 1
    ensures
      var p := InTile(0, 1, 0);
      && CC.Next(r, ControlAt(r, p, false), false, start, false, GC.GatherDone(GatherAt(r, p))) == ControlAt(r, p, false)
      && SA.Next(r, ScatterAAt(r, p), false, false) == ScatterAAt(r, p)
      && GC.NextControl(r, GatherAt(r, p), false, false) == GatherAt(r, p)
      && !ControlAt(r, p, false).bLoad && !ControlAt(r, p, false).startCal
  {
  }

  lemma LateControlFollows(r: nat, l: Late, s: Machine, start: bool)
    requires r > 1 && ValidLate(r, l) && l != Visit(Finished) && ControlLate(r, l, s)
    ensures ControlLate(r, NextLate(r, l), Step(r, s, false, start))
  {
    LateIsValid(r, l);
    LateWires(r, l);
    LateScatterFollows(r, l);
    var p := Base(l);
    WiresAgree(r, p, false);
    hide Step, ControlAt, ScatterAAt, ScatterBAt, GatherAt, LateScatter, NextLate, After, BLoadAt, StartCalAt, LoadDoneAt, GatherDoneAt,
         CC.Next, SA.Next, SB.NextControl, SB.NextBuffer, GC.NextControl, GC.NextBuffer, COuts, ValidLate, Valid;
    StepFields(r, s, start);
    BufferKeepsSize(r, s.gc.ctl, s.gc.buffer, COuts(s));
    if l.Refetch? {
      HoldsStill(r, start);
    } else {
      ControlFollows(r, p, false, start);
      ScatterAFollows(r, p);
      GatherFollows(r, p);
    }
  }

  lemma BufferKeepsSize(r: nat, g: GC.Control, buffer: seq<Lanes>, cOuts: Lanes)
    ensures |GC.NextBuffer(r, g, buffer, false, cOuts)| == |buffer|
  {
  }

  // ---------- data ----------

  /** The operand a run that is one tile behind works with: the first tile, and then each tile in the place
      of the next. */
  function Behind(r: nat, b: Matrix): Matrix {
    (k: nat, j: nat) =>
      if k < 16 && j < 16 then b(k, j)
      else if k >= 16 then b(k - 16, j)
      else if j >= 16 && r > 0 then b(k + 16 * (r - 1), j - 16) else 0
  }

  /** Its first tile is the first. */
  lemma FirstTileStays(r: nat, b: Matrix, t: Tile, n: nat)
    requires HoldsTileRows(t, b, 0, 0, n)
    ensures HoldsTileRows(t, Behind(r, b), 0, 0, n)
  {
  }

  /** And its next tile is the current one. */
  lemma TileMovesOn(r: nat, b: Matrix, t: Tile, col: nat, row: nat, n: nat)
    requires r > 1 && col < r && row < r && !IsLast(r, col, row) && HoldsTileRows(t, b, col, row, n)
    ensures HoldsTileRows(t, Behind(r, b), NextCol(r, col, row), NextRow(r, row), n)
  {
    hide Behind;
    forall i: nat, j: nat | i < n && i < 16 && j < 16
      ensures t[i][j] == Behind(r, b)(16 * NextRow(r, row) + i, 16 * NextCol(r, col, row) + j)
    {
      BehindElement(r, b, col, row, i, j);
    }
  }

  lemma BehindElement(r: nat, b: Matrix, col: nat, row: nat, i: nat, j: nat)
    requires r > 1 && col < r && row < r && !IsLast(r, col, row) && i < 16 && j < 16
    ensures Behind(r, b)(16 * NextRow(r, row) + i, 16 * NextCol(r, col, row) + j) == b(16 * row + i, 16 * col + j)
  {
    if row + 1 == r {
      assert 16 * NextRow(r, row) + i == i && 16 * NextCol(r, col, row) + j == 16 * col + 16 + j;
      assert i + 16 * (r - 1) == 16 * row + i;
    } else {
      assert 16 * NextRow(r, row) + i == 16 * row + 16 + i;
    }
  }

  lemma SliceMovesOn(r: nat, b: Matrix, x: Lanes, col: nat, row: nat, i: nat)
    requires r > 1 && col < r && row < r && !IsLast(r, col, row) && i < 16 && HoldsSlice(x, b, 16 * row + i, col)
    ensures HoldsSlice(x, Behind(r, b), 16 * NextRow(r, row) + i, NextCol(r, col, row))
  {
    hide Behind;
    forall j: nat | j < 16 ensures x[j] == Behind(r, b)(16 * NextRow(r, row) + i, 16 * NextCol(r, col, row) + j) {
      BehindElement(r, b, col, row, i, j);
    }
  }

  /** What flows from the tile buffer on, at phase p, for operands a and b. */
  ghost predicate Flows(r: nat, a: Matrix, b: Matrix, p: Phase, s: Machine) {
    && ChainInputAt(b, p, s.sb.bIns) && ArrayAt(b, p, s.pe) && BroadcastAt(r, a, p, s.rdA)
    && AccumulatorAt(r, a, b, p, s.gc.buffer) && ResultsAt(r, a, b, p, s.bramC)
  }

  /** What the tile buffer holds. */
  ghost predicate LateTile(r: nat, b: Matrix, l: Late, t: Tile, rdB: Lanes) {
    match l
    case First(tau) => HoldsTileRows(t, b, 0, 0, 16)
    case Refetch(u) => Fetching(t, rdB, b, 0, 0, u)
    case Visit(p) => TileBufferAt(r, Behind(r, b), p, t, rdB)
  }

  ghost predicate DataLate(r: nat, l: Late, s: Machine) {
    Flows(r, A(r, s), Behind(r, B(r, s)), Base(l), s) && LateTile(r, B(r, s), l, s.sb.buffer, s.rdB)
  }

  // One clock of what flows.

  lemma LateColumns(r: nat, l: Late, b: Matrix, t: Tile, rdB: Lanes)
    requires r > 1 && ValidLate(r, l) && l != Visit(Finished) && !l.Refetch? && LateTile(r, b, l, t, rdB)
    ensures
      var c := LateScatter(r, l);
      ChainInputAt(Behind(r, b), After(r, Base(l)), if c.state == SB.Loading then SB.Column(t, c.loadCnt) else ZERO_LANES)
  {
    var p := Base(l);
    if p.InTile? && p.tau <= 15 {
      if l.First? {
        FirstTileStays(r, b, t, 16);
      }
      hide Behind, HoldsTileRows, HoldsColumn, SB.Column;
      ColumnOfTile(Behind(r, b), t, p.col, p.row, p.tau);
    } else {
      hide Behind, HoldsColumn, SB.Column, LateTile;
    }
  }

  lemma ColumnOfTile(b: Matrix, t: Tile, col: nat, row: nat, k: nat)
    requires HoldsTileRows(t, b, col, row, 16) && k < 16
    ensures HoldsColumn(SB.Column(t, k), b, col, row, k)
  {
  }

  lemma FlowsOn(r: nat, l: Late, s: Machine, start: bool)
    requires Fits(r) && r > 1 && ValidLate(r, l) && l != Visit(Finished) && !l.Refetch? && ControlLate(r, l, s) && DataLate(r, l, s)
    ensures Flows(r, A(r, s), Behind(r, B(r, s)), Base(NextLate(r, l)), Step(r, s, false, start))
  {
    var p, a, b := Base(l), A(r, s), Behind(r, B(r, s));
    LateIsValid(r, l);
    LateWires(r, l);
    LateColumns(r, l, B(r, s), s.sb.buffer, s.rdB);
    hide Step, ControlAt, ScatterAAt, ScatterBAt, GatherAt, LateScatter, NextLate, After, Behind, LateTile, SB.Column, GC.NextBuffer,
         ChainInputAt, ArrayAt, BroadcastAt, AccumulatorAt, ResultsAt, ArrayNext, Products, LaneSum, Wrap16, SA.Address, ValidLate, Valid;
    StepFields(r, s, start);
    ArrayFollows(r, p, b, s.pe, s.sb.bIns);
    BroadcastFollows(r, p, s.bramA);
    forall l: nat | l < 16 ensures COuts(s)[l] == Wrap16(LaneSum(Products(AIns(s), s.pe[l]), 16)) {
      ArrayOutIsDot(s.pe, AIns(s), l);
    }
    BroadcastEnabled(r, p, a, s);
    AccumulatorFollows(r, p, a, b, s.gc.buffer, s.pe, AIns(s), COuts(s));
    ResultsFollow(r, p, a, b, s.bramC, s.gc.buffer);
  }

  /** The slice broadcast is the one read. */
  lemma BroadcastEnabled(r: nat, p: Phase, a: Matrix, s: Machine)
    requires r > 0 && Valid(r, p) && s.sa == ScatterAAt(r, p) && BroadcastAt(r, a, p, s.rdA)
    ensures BroadcastAt(r, a, p, AIns(s))
  {
  }

  /** While everybody waits nothing flows. */
  lemma FlowsStill(r: nat, s: Machine, start: bool, a: Matrix, b: Matrix)
    requires r > 1 && s.gc.ctl == GatherAt(r, InTile(0, 1, 0)) && Flows(r, a, b, InTile(0, 1, 0), s)
    ensures Flows(r, a, b, InTile(0, 1, 0), Step(r, s, false, start))
  {
    hide Step, HoldsPartial, HoldsColumn, HoldsSlice, COuts, WrittenAt;
    StepFields(r, s, start);
  }

  // One clock of the tile buffer.

  /** BRAM B delivers the row of the tile that scatter_b is fetching. */
  lemma LateDelivers(r: nat, c: SB.Control, mem: OperandBram)
    requires Fits(r) && c.rowCnt < r && c.colCnt < r
    ensures DeliversNextRow(c, OperandMatrix(r, mem), mem[SB.Address(r, c)])
  {
    hide SB.Address, HoldsSlice;
    if c.state == SB.Preparing && c.inBlockCnt < 16 {
      ScatterBAddress(r, c);
      OperandWord(r, mem, 16 * c.rowCnt + c.inBlockCnt, c.colCnt);
    }
  }

  lemma RefetchTile(r: nat, l: Late, b: Matrix, t: Tile, rdB: Lanes, rdB': Lanes)
    requires r > 1 && ValidLate(r, l) && (l.First? || l.Refetch?) && LateTile(r, b, l, t, rdB)
    requires DeliversNextRow(LateScatter(r, l), b, rdB')
    ensures LateTile(r, b, NextLate(r, l), SB.NextBuffer(LateScatter(r, l), t, false, rdB), rdB')
  {
    hide HoldsTileRows, HoldsSlice, Behind;
    var t' := SB.NextBuffer(LateScatter(r, l), t, false, rdB);
    match l
    case First(tau) => NothingFetched(b, 0, 0, t', rdB');
    case Refetch(u) =>
      if u <= 17 {
        FetchFollows(b, 0, 0, u, t, rdB, t', rdB');
      } else {
        FetchedIsWhole(b, 0, 0, t, 18, 18);
        TileMovesOn(r, b, t, 0, 0, 16);
      }
  }

  /** In terms of the operand that is one behind, scatter_b delivers what the schedule asks for. */
  lemma VisitDelivers(r: nat, p: Phase, b: Matrix, rdB: Lanes)
    requires r > 1 && ValidLate(r, Visit(p)) && p.InTile? && DeliversNextRow(LateScatter(r, Visit(p)), b, rdB)
    ensures DeliversNextRow(ScatterBAt(r, p), Behind(r, b), rdB)
  {
    hide Behind, HoldsSlice;
    var c := ScatterBAt(r, p);
    if c.state == SB.Preparing && c.inBlockCnt < 16 {
      SliceMovesOn(r, b, rdB, p.col, p.row, c.inBlockCnt);
    }
  }

  /** And does to the tile buffer what the schedule says, except while nobody needs it any more. */
  lemma VisitBuffers(r: nat, p: Phase, t: Tile, rdB: Lanes)
    requires r > 1 && ValidLate(r, Visit(p)) && p.InTile? && !IsLast(r, p.col, p.row)
    ensures SB.NextBuffer(LateScatter(r, Visit(p)), t, false, rdB) == SB.NextBuffer(ScatterBAt(r, p), t, false, rdB)
  {
  }

  lemma VisitTile(r: nat, p: Phase, b: Matrix, t: Tile, rdB: Lanes, rdB': Lanes)
    requires Fits(r) && r > 1 && ValidLate(r, Visit(p)) && p.InTile? && LateTile(r, b, Visit(p), t, rdB)
    requires DeliversNextRow(LateScatter(r, Visit(p)), b, rdB')
    ensures LateTile(r, b, NextLate(r, Visit(p)), SB.NextBuffer(LateScatter(r, Visit(p)), t, false, rdB), rdB')
  {
    var b', t' := Behind(r, b), SB.NextBuffer(LateScatter(r, Visit(p)), t, false, rdB);
    hide Behind, HoldsTileRows, HoldsSlice;
    if IsLast(r, p.col, p.row) {
      LastTileUnused(r, p, b', t, rdB, t', rdB');
    } else {
      VisitDelivers(r, p, b, rdB');
      VisitBuffers(r, p, t, rdB);
      hide SB.NextBuffer, LateScatter, ScatterBAt, After, TileBufferAt, Valid;
      TileBufferFollows(r, p, b', t, rdB, rdB');
    }
  }

  lemma LastTileUnused(r: nat, p: Phase, b: Matrix, t: Tile, rdB: Lanes, t': Tile, rdB': Lanes)
    requires r > 1 && ValidLate(r, Visit(p)) && p.InTile? && IsLast(r, p.col, p.row) && TileBufferAt(r, b, p, t, rdB)
    requires p.tau <= 15 ==> t' == t
    ensures TileBufferAt(r, b, After(r, p), t', rdB')
  {
  }

  // ---------- the whole run ----------

  ghost predicate OnLate(r: nat, l: Late, s: Machine) {
    ValidLate(r, l) && ControlLate(r, l, s) && DataLate(r, l, s)
  }

  lemma DataLateFollows(r: nat, l: Late, s: Machine, start: bool)
    requires Fits(r) && r > 1 && OnLate(r, l, s) && l != Visit(Finished)
    ensures DataLate(r, NextLate(r, l), Step(r, s, false, start))
    ensures Step(r, s, false, start).bramA == s.bramA && Step(r, s, false, start).bramB == s.bramB
  {
    LateCounts(r, l);
    LateIsValid(r, l);
    if l.Refetch? {
      FlowsStill(r, s, start, A(r, s), Behind(r, B(r, s)));
    } else {
      FlowsOn(r, l, s, start);
    }
    hide Step, ControlAt, ScatterAAt, ScatterBAt, GatherAt, LateScatter, NextLate, After, Behind, LateTile, Flows, SB.NextBuffer, SB.Address, Valid;
    StepFields(r, s, start);
    LateDelivers(r, LateScatter(r, l), s.bramB);
    if l.Visit? {
      VisitTile(r, l.p, B(r, s), s.sb.buffer, s.rdB, s.bramB[SB.Address(r, LateScatter(r, l))]);
    } else {
      RefetchTile(r, l, B(r, s), s.sb.buffer, s.rdB, s.bramB[SB.Address(r, LateScatter(r, l))]);
    }
  }

  lemma LateCounts(r: nat, l: Late)
    requires r > 1 && ValidLate(r, l) && l != Visit(Finished)
    ensures LateScatter(r, l).rowCnt < r && LateScatter(r, l).colCnt < r
  {
  }

  lemma LateFollows(r: nat, l: Late, s: Machine, start: bool)
    requires Fits(r) && r > 1 && OnLate(r, l, s) && l != Visit(Finished)
    ensures OnLate(r, NextLate(r, l), Step(r, s, false, start))
    ensures Step(r, s, false, start).bramA == s.bramA && Step(r, s, false, start).bramB == s.bramB
  {
    LateIsValid(r, l);
    LateControlFollows(r, l, s, start);
    DataLateFollows(r, l, s, start);
    hide *;
  }

  /** What the registers hold for the first tile they hold for the operand that is one behind. */
  lemma FirstFlows(r: nat, a: Matrix, b: Matrix, s: Machine)
    requires r > 1 && Flows(r, a, b, InTile(0, 0, 15), s)
    ensures Flows(r, a, Behind(r, b), InTile(0, 0, 15), s)
  {
    forall i: nat | i < 16 * r ensures HoldsPartial(s.gc.buffer[i], a, Behind(r, b), i, 0, 0) {
      assert HoldsPartial(s.gc.buffer[i], a, b, i, 0, TermsIn(r, InTile(0, 0, 15), i));
      NoTerms(s.gc.buffer[i], a, b, Behind(r, b), i);
    }
    forall x: Lanes, k: nat | k < 16 && HoldsColumn(x, b, 0, 0, k) ensures HoldsColumn(x, Behind(r, b), 0, 0, k) {
      FirstColumn(r, b, x, k);
    }
    hide Behind, HoldsPartial, HoldsColumn;
  }

  lemma FirstColumn(r: nat, b: Matrix, x: Lanes, k: nat)
    requires k < 16 && HoldsColumn(x, b, 0, 0, k)
    ensures HoldsColumn(x, Behind(r, b), 0, 0, k)
  {
  }

  lemma NoTerms(x: Lanes, a: Matrix, b: Matrix, b': Matrix, i: nat)
    requires HoldsPartial(x, a, b, i, 0, 0)
    ensures HoldsPartial(x, a, b', i, 0, 0)
  {
  }

  lemma StartsLate(r: nat, writeBack: bool, s: Machine)
    requires Fits(r) && r > 1 && Nearly(r, true, writeBack, 36, s) && (writeBack ==> r <= 2)
    ensures OnLate(r, First(15), s)
  {
    EarlyPhase(r, 36);
    hide PhaseAt, Behind, TileBufferAt, ChainInputAt, ArrayAt, BroadcastAt, AccumulatorAt, ResultsAt;
    FirstFlows(r, A(r, s), B(r, s), s);
    FirstTile(r, B(r, s), s.sb.buffer, s.rdB);
  }

  lemma FirstTile(r: nat, b: Matrix, t: Tile, rdB: Lanes)
    requires TileBufferAt(r, b, InTile(0, 0, 15), t, rdB)
    ensures HoldsTileRows(t, b, 0, 0, 16)
  {
  }

  function LateAt(r: nat, k: nat): Late {
    if k == 0 then First(15) else NextLate(r, LateAt(r, k - 1))
  }

  lemma FinishOfLate(r: nat, l: Late, s: Machine)
    requires r > 1 && OnLate(r, l, s)
    ensures s.cc.finish <==> l == Visit(Finished)
  {
    hide DataLate;
  }

  /** Until Finish the run is on the late schedule. */
  lemma {:induction false} LateRunFollows(r: nat, writeBack: bool, m: Machine, start: nat -> bool, k: nat)
    requires Fits(r) && r > 1 && AfterReset(r, true, writeBack, m) && start(0) && (writeBack ==> r <= 2)
    requires forall j: nat | j < 36 + k :: !StateAt(r, m, start, j).cc.finish
    ensures OnLate(r, LateAt(r, k), StateAt(r, m, start, 36 + k))
    ensures StateAt(r, m, start, 36 + k).bramA == m.bramA && StateAt(r, m, start, 36 + k).bramB == m.bramB
    decreases k
  {
    hide *;
    SomeSize(r);
    if k == 0 {
      NearlyAt(r, true, writeBack, m, start, 36);
      StartsLate(r, writeBack, StateAt(r, m, start, 36));
      LateUnfolds(r, 0);
    } else {
      LateRunFollows(r, writeBack, m, start, k - 1);
      FinishOfLate(r, LateAt(r, k - 1), StateAt(r, m, start, 36 + (k - 1)));
      LateUnfolds(r, k);
      StateUnfolds(r, m, start, 36 + (k - 1));
      LateFollows(r, LateAt(r, k - 1), StateAt(r, m, start, 36 + (k - 1)), start(36 + (k - 1)));
    }
  }

  lemma LateUnfolds(r: nat, k: nat)
    ensures LateAt(r, k) == if k == 0 then First(15) else NextLate(r, LateAt(r, k - 1))
  {
  }

  /** A run of more than one tile with Final up too early ends, if it does, with the mirrored product of A
      and an operand that is one tile behind B. */
  lemma LateRunComputes(r: nat, writeBack: bool, m: Machine, start: nat -> bool, n: nat)
    requires Fits(r) && r > 1 && AfterReset(r, true, writeBack, m) && start(0) && (writeBack ==> r <= 2)
    requires FirstFinish(r, m, start, n)
    ensures HoldsMirroredProduct(r, A(r, m), Behind(r, B(r, m)), StateAt(r, m, start, n).bramC)
  {
    NotSoEarly(r, true, writeBack, m, start, n);
    FinishFacts(r, m, start, n);
    hide *;
    LateRunFollows(r, writeBack, m, start, n - 36);
    FinishOfLate(r, LateAt(r, n - 36), StateAt(r, m, start, n));
    LateProduct(r, StateAt(r, m, start, n));
    SameOperands(r, m, StateAt(r, m, start, n));
  }

  lemma NotSoEarly(r: nat, final: bool, writeBack: bool, m: Machine, start: nat -> bool, n: nat)
    requires r > 0 && AfterReset(r, final, writeBack, m) && start(0) && FirstFinish(r, m, start, n)
    ensures n > 36
  {
    hide AfterReset, Nearly, StateAt;
    if n <= 36 {
      NearlyAt(r, final, writeBack, m, start, n);
      NearlyNoFinish(r, final, writeBack, n, StateAt(r, m, start, n));
    }
  }

  lemma SameOperands(r: nat, m: Machine, s: Machine)
    requires s.bramA == m.bramA && s.bramB == m.bramB
    ensures A(r, s) == A(r, m) && B(r, s) == B(r, m)
  {
  }

  lemma LateProduct(r: nat, s: Machine)
    requires Fits(r) && OnLate(r, Visit(Finished), s)
    ensures HoldsMirroredProduct(r, A(r, s), Behind(r, B(r, s)), s.bramC)
  {
    hide Behind, ChainInputAt, ArrayAt, BroadcastAt, AccumulatorAt, ResultsAt, LateTile, ControlLate;
    AllWrittenIsProduct(r, A(r, s), Behind(r, B(r, s)), s.bramC);
  }

  lemma {:induction false} LateIsEarly(r: nat, k: nat)
    requires r > 1 && k <= 16 * r + 25
    ensures LateAt(r, k) == if k <= 16 * r + 6 then First(15 + k) else Refetch(k - (16 * r + 7))
    decreases k
  {
    if k > 0 {
      LateIsEarly(r, k - 1);
    }
  }

  /** The late schedule is the schedule, 19 cycles later from the second visit on. */
  lemma {:induction false} LateIs(r: nat, k: nat)
    requires r > 1
    ensures
      LateAt(r, k) ==
        if k <= 16 * r + 6 then First(15 + k)
        else if k <= 16 * r + 25 then Refetch(k - (16 * r + 7))
        else Visit(PhaseAt(r, k + 17))
    decreases k
  {
    hide LateAt, PhaseAt, After;
    if k <= 16 * r + 25 {
      LateIsEarly(r, k);
    } else {
      LateUnfolds(r, k);
      if k == 16 * r + 26 {
        LateIsEarly(r, k - 1);
        SecondVisit(r);
      } else {
        LateIs(r, k - 1);
        PhaseFollows(r, k + 16);
      }
    }
  }

  lemma LateEnds(r: nat, n: nat)
    requires r > 1 && 36 < n <= RunLength(r) + 19
    ensures LateAt(r, n - 36) == Visit(Finished) <==> n == RunLength(r) + 19
  {
    LongRun(r);
    hide LateAt, PhaseAt, RunLength;
    LateIs(r, n - 36);
    if n - 36 > 16 * r + 25 {
      PhaseKeepsTime(r, n - 19);
    }
  }

  lemma MoreThanOne(r: nat)
    requires r > 1
    ensures r > 0 && RunLength(r) + 19 > 36
  {
    LongRun(r);
  }

  lemma FinishHere(r: nat, writeBack: bool, m: Machine, start: nat -> bool, n: nat)
    requires Fits(r) && r > 1 && AfterReset(r, true, writeBack, m) && start(0) && (writeBack ==> r <= 2)
    requires n <= RunLength(r) + 19 && forall j: nat | j < n :: !StateAt(r, m, start, j).cc.finish
    ensures StateAt(r, m, start, n).cc.finish <==> n == RunLength(r) + 19
  {
    hide *;
    MoreThanOne(r);
    if n <= 36 {
      NearlyAt(r, true, writeBack, m, start, n);
      NearlyNoFinish(r, true, writeBack, n, StateAt(r, m, start, n));
    } else {
      LateRunFollows(r, writeBack, m, start, n - 36);
      FinishOfLate(r, LateAt(r, n - 36), StateAt(r, m, start, n));
      LateEnds(r, n);
    }
  }

  lemma {:induction false} NoFinishBefore(r: nat, writeBack: bool, m: Machine, start: nat -> bool, n: nat)
    requires Fits(r) && r > 1 && AfterReset(r, true, writeBack, m) && start(0) && (writeBack ==> r <= 2)
    requires n <= RunLength(r) + 19
    ensures forall j: nat | j < n :: !StateAt(r, m, start, j).cc.finish
    decreases n
  {
    hide *;
    if n > 0 {
      NoFinishBefore(r, writeBack, m, start, n - 1);
      FinishHere(r, writeBack, m, start, n - 1);
    }
  }

  /** It ends, and takes 19 cycles more than a run should. */
  lemma LateRunFinishes(r: nat, writeBack: bool, m: Machine, start: nat -> bool)
    requires Fits(r) && r > 1 && AfterReset(r, true, writeBack, m) && start(0) && (writeBack ==> r <= 2)
    ensures FirstFinish(r, m, start, RunLength(r) + 19)
  {
    hide *;
    NoFinishBefore(r, writeBack, m, start, RunLength(r) + 19);
    FinishHere(r, writeBack, m, start, RunLength(r) + 19);
    IsFirstFinish(r, m, start, RunLength(r) + 19);
  }

  lemma IsFirstFinish(r: nat, m: Machine, start: nat -> bool, n: nat)
    requires StateAt(r, m, start, n).cc.finish && forall k: nat | k < n :: !StateAt(r, m, start, k).cc.finish
    ensures FirstFinish(r, m, start, n)
  {
    hide StateAt;
  }

  lemma LongRun(r: nat)
    requires r > 1
    ensures RunLength(r) + 19 > 16 * r + 62
  {
    MulMonotone(1, r, ColumnLength(r));
    MulMonotone(1, r, 16 * r + 22);
  }
}
