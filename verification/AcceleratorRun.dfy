/** Whole runs of the accelerator: from an accepted start to Finish, cycle by cycle. */
module AcceleratorRun {
  import opened Words
  import opened Powers
  import opened ProcessingArray
  import opened Timeline
  import opened DataFlow
  import opened MatrixMultiply
  import CC = ComputeControl
  import SA = ScatterA
  import SB = ScatterB
  import GC = GatherC

  function A(r: nat, m: Machine): Matrix {
    OperandMatrix(r, m.bramA)
  }

  function B(r: nat, m: Machine): Matrix {
    OperandMatrix(r, m.bramB)
  }

  /** Every register is where the schedule puts it; those that hold data, for the sizes whose addresses
      the pointers can hold. */
  ghost predicate OnSchedule(r: nat, f0: bool, p: Phase, m: Machine) {
    && Valid(r, p)
    && m.cc == ControlAt(r, p, f0)
    && m.sa == ScatterAAt(r, p)
    && m.sb.ctl == ScatterBAt(r, p)
    && m.gc.ctl == GatherAt(r, p)
    && BufferOnSchedule(r, p, m.gc.buffer)
    && (Fits(r) ==> DataOnSchedule(r, p, m))
  }

  /** The accumulation buffer keeps its size, and is clear when a run is over. */
  ghost predicate BufferOnSchedule(r: nat, p: Phase, buffer: seq<Lanes>) {
    |buffer| == 16 * r && (p == Finished ==> buffer == ZeroRows(16 * r))
  }

  ghost predicate DataOnSchedule(r: nat, p: Phase, m: Machine) {
    && TileBufferAt(r, B(r, m), p, m.sb.buffer, m.rdB)
    && ChainInputAt(B(r, m), p, m.sb.bIns)
    && ArrayAt(B(r, m), p, m.pe)
    && BroadcastAt(r, A(r, m), p, m.rdA)
    && AccumulatorAt(r, A(r, m), B(r, m), p, m.gc.buffer)
    && ResultsAt(r, A(r, m), B(r, m), p, m.bramC)
  }

  /** The design n cycles after state m, with start driven by an arbitrary signal. */
  function StateAt(r: nat, m: Machine, start: nat -> bool, n: nat): Machine
    decreases n
  {
    if n == 0 then m else Step(r, StateAt(r, m, start, n - 1), false, start(n - 1))
  }

  lemma ReadyIsOnSchedule(r: nat, m: Machine)
    requires r > 0 && Ready(r, m)
    ensures OnSchedule(r, m.cc.finish, Launch(0), m)
  {
    forall i: nat | i < 16 * r ensures HoldsPartial(m.gc.buffer[i], A(r, m), B(r, m), i, 0, 0) {
      assert m.gc.buffer[i] == ZERO_LANES;
    }
  }

  lemma FinishedIsReady(r: nat, f0: bool, m: Machine)
    requires OnSchedule(r, f0, Finished, m)
    ensures Ready(r, m) && m.cc.finish
  {
    hide DataOnSchedule;
  }

  /** One clock keeps the whole design on schedule, whatever start does once the run is under way. */
  lemma StepFollows(r: nat, f0: bool, p: Phase, m: Machine, start: bool)
    requires r > 0 && OnSchedule(r, f0, p, m) && p != Finished && (p == Launch(0) ==> start)
    ensures OnSchedule(r, f0, After(r, p), Step(r, m, false, start))
    ensures Step(r, m, false, start).bramA == m.bramA && Step(r, m, false, start).bramB == m.bramB
  {
    WiresAgree(r, p, f0);
    AfterIsValid(r, p);
    ControlFollows(r, p, f0, start);
    ScatterAFollows(r, p);
    ScatterBFollows(r, p);
    GatherFollows(r, p);
    BufferFollows(r, p, m.gc.buffer, COuts(m));
    if Fits(r) {
      DataFollows(r, f0, p, m, start);
    }
    hide DataOnSchedule, ControlAt, ScatterAAt, ScatterBAt, GatherAt, After, GC.NextControl, SB.NextControl, SA.Next, CC.Next;
  }

  lemma BufferFollows(r: nat, p: Phase, buffer: seq<Lanes>, cOuts: Lanes)
    requires r > 0 && Valid(r, p) && p != Finished && BufferOnSchedule(r, p, buffer)
    ensures BufferOnSchedule(r, After(r, p), GC.NextBuffer(r, GatherAt(r, p), buffer, false, cOuts))
  {
    hide GC.AddLanes;
  }

  lemma DataFollows(r: nat, f0: bool, p: Phase, m: Machine, start: bool)
    requires Fits(r) && OnSchedule(r, f0, p, m) && p != Finished
    ensures DataOnSchedule(r, After(r, p), Step(r, m, false, start))
  {
    var m' := Step(r, m, false, start);
    BramBDelivers(r, p, m.bramB);
    TileBufferFollows(r, p, B(r, m), m.sb.buffer, m.rdB, m'.rdB);
    ChainInputFollows(r, p, B(r, m), m.sb.buffer, m.rdB);
    ArrayFollows(r, p, B(r, m), m.pe, m.sb.bIns);
    BroadcastFollows(r, p, m.bramA);
    forall l: nat | l < 16 ensures COuts(m)[l] == Wrap16(LaneSum(Products(AIns(m), m.pe[l]), 16)) {
      ArrayOutIsDot(m.pe, AIns(m), l);
    }
    AccumulatorFollows(r, p, A(r, m), B(r, m), m.gc.buffer, m.pe, AIns(m), COuts(m));
    ResultsFollow(r, p, A(r, m), B(r, m), m.bramC, m.gc.buffer);
  }

  /** n cycles into a run the design is where the schedule says, and its operands are untouched. */
  lemma {:induction false} RunFollows(r: nat, m: Machine, start: nat -> bool, n: nat)
    requires r > 0 && Ready(r, m) && start(0) && n <= RunLength(r)
    ensures OnSchedule(r, m.cc.finish, PhaseAt(r, n), StateAt(r, m, start, n))
    ensures StateAt(r, m, start, n).bramA == m.bramA && StateAt(r, m, start, n).bramB == m.bramB
    decreases n
  {
    hide OnSchedule, Ready, After, Step, TimeOf, RunLength;
    if n == 0 {
      ReadyIsOnSchedule(r, m);
    } else {
      RunFollows(r, m, start, n - 1);
      PhaseKeepsTime(r, n - 1);
      StepFollows(r, m.cc.finish, PhaseAt(r, n - 1), StateAt(r, m, start, n - 1), start(n - 1));
    }
  }

  // ---------- main results ----------

  /** Position of column j once the columns of its 16-wide tile are reversed. */
  function Mirror(j: nat): nat {
    j - j % 16 + (15 - j % 16)
  }

  /** BRAM C holds the product of a and b in wrapped 16-bit arithmetic, with the columns of every
      16-wide tile in reversed order. */
  ghost predicate HoldsMirroredProduct(r: nat, a: Matrix, b: Matrix, mem: ResultBram) {
    forall i: nat, j: nat | i < 16 * r && j < 16 * r ::
      ResultAt(r, mem, i, j) == Wrap16(Dot(a, b, i, Mirror(j), 16 * r))
  }

  lemma AllWrittenIsProduct(r: nat, a: Matrix, b: Matrix, mem: ResultBram)
    requires Fits(r) && ResultsAt(r, a, b, Finished, mem)
    ensures HoldsMirroredProduct(r, a, b, mem)
  {
    forall i: nat, j: nat | i < 16 * r && j < 16 * r
      ensures ResultAt(r, mem, i, j) == Wrap16(Dot(a, b, i, Mirror(j), 16 * r))
    {
      var c, l := j / 16, j % 16;
      assert WrittenAt(r, Finished, i, c);
      assert HoldsPartial(mem[i * r + c], a, b, i, c, 16 * r);
      assert mem[i * r + c][l] == Wrap16(Dot(a, b, i, 16 * c + 15 - l, 16 * r));
      assert 16 * c + 15 - l == Mirror(j);
    }
  }

  /** Exactly RunLength(r) cycles after start was seen, Finish is up, the design is ready for the next
      run, and BRAM C holds the mirrored product if the size fits. start may do anything after the first cycle. */
  lemma RunComputesProduct(r: nat, m: Machine, start: nat -> bool)
    requires r > 0 && Ready(r, m) && start(0)
    ensures
      var m' := StateAt(r, m, start, RunLength(r));
      && Ready(r, m') && m'.cc.finish && m'.bramA == m.bramA && m'.bramB == m.bramB
      && (Fits(r) ==> HoldsMirroredProduct(r, A(r, m), B(r, m), m'.bramC))
  {
    var n := RunLength(r);
    RunFollows(r, m, start, n);
    PhaseKeepsTime(r, n);
    FinishedIsReady(r, m.cc.finish, StateAt(r, m, start, n));
    if Fits(r) {
      AllWrittenIsProduct(r, A(r, m), B(r, m), StateAt(r, m, start, n).bramC);
    }
  }

  /** Finish rises once, at the end of the run and at no cycle before. */
  lemma FinishOnlyAtEnd(r: nat, m: Machine, start: nat -> bool, n: nat)
    requires r > 0 && Ready(r, m) && start(0) && !m.cc.finish && n <= RunLength(r)
    ensures StateAt(r, m, start, n).cc.finish <==> n == RunLength(r)
  {
    RunFollows(r, m, start, n);
    PhaseKeepsTime(r, n);
  }

  /** The array holds B tile (row, col), the last column of the tile in the first PE row. */
  ghost predicate HoldsReversedTile(pe: Tile, b: Matrix, col: nat, row: nat) {
    forall l: nat, j: nat | l < 16 && j < 16 :: pe[l][j] == b(16 * row + j, 16 * col + 15 - l)
  }

  lemma LoadedArrayIsReversed(pe: Tile, b: Matrix, col: nat, row: nat)
    requires ArrayAfterShifts(pe, b, col, row, 17)
    ensures HoldsReversedTile(pe, b, col, row)
  {
    forall l: nat, j: nat | l < 16 && j < 16 ensures pe[l][j] == b(16 * row + j, 16 * col + 15 - l) {
      assert HoldsColumn(pe[l], b, col, row, 17 - 2 - l);
    }
  }

  /** Cycle n of a run is the one in which tile (row, col) is started. */
  ghost predicate StartsTile(r: nat, n: nat, col: nat, row: nat) {
    col < r && row < r && n == TimeOf(r, InTile(col, row, 17))
  }

  /** The controllers agree on tile (row, col), the array holds exactly that tile with its columns
      reversed, and scatter_b is already fetching the next tile unless there is none. */
  ghost predicate InStep(r: nat, s: Machine, col: nat, row: nat) {
    && s.cc.rowCnt == row && s.cc.colCnt == col && s.gc.ctl.rowCnt == row && s.gc.ctl.colCnt == col && s.sa.colCnt == row
    && (Fits(r) ==> HoldsReversedTile(s.pe, B(r, s), col, row))
    && (IsLast(r, col, row) ==> s.sb.ctl.state == SB.Idle)
    && (!IsLast(r, col, row) ==>
          s.sb.ctl.state == SB.Preparing && s.sb.ctl.rowCnt == NextRow(r, row) && s.sb.ctl.colCnt == NextCol(r, col, row))
  }

  /** start_cal is up in exactly one cycle for each tile, the tile's place in the schedule, and in that
      cycle all controllers are in step on this tile. */
  lemma Lockstep(r: nat, m: Machine, start: nat -> bool, n: nat)
    requires r > 0 && Ready(r, m) && start(0) && n <= RunLength(r)
    ensures StateAt(r, m, start, n).cc.startCal <==> exists col: nat, row: nat :: StartsTile(r, n, col, row)
    ensures forall col: nat, row: nat | StartsTile(r, n, col, row) :: InStep(r, StateAt(r, m, start, n), col, row)
  {
    hide OnSchedule, Ready, After, Step, TimeOf, RunLength, InStep, ControlAt;
    RunFollows(r, m, start, n);
    PhaseKeepsTime(r, n);
    var p, s := PhaseAt(r, n), StateAt(r, m, start, n);
    StartCalIsScheduled(r, m.cc.finish, p, s);
    if s.cc.startCal {
      assert StartsTile(r, n, p.col, p.row);
    }
    forall col: nat, row: nat | StartsTile(r, n, col, row) ensures s.cc.startCal && InStep(r, s, col, row) {
      PhaseAtItsTime(r, InTile(col, row, 17));
    }
  }

  lemma StartCalIsScheduled(r: nat, f0: bool, p: Phase, s: Machine)
    requires r > 0 && OnSchedule(r, f0, p, s)
    ensures s.cc.startCal <==> p.InTile? && p.tau == 17
    ensures p.InTile? ==> p.col < r && p.row < r
    ensures s.cc.startCal ==> InStep(r, s, p.col, p.row)
  {
    WiresAgree(r, p, f0);
    if p.InTile? && p.tau == 17 && Fits(r) {
      LoadedArrayIsReversed(s.pe, B(r, s), p.col, p.row);
    }
  }

  /** Final is up from the end of the last tile's fetch until that tile is loaded. */
  predicate FinalUp(r: nat, p: Phase) {
    match p
    case Launch(t) => r == 1 && t == 20
    case InTile(col, row, tau) =>
      if tau <= 15 then IsLast(r, col, row)
      else tau >= 34 && !IsLast(r, col, row) && IsLast(r, NextCol(r, col, row), NextRow(r, row))
    case Finished => false
  }

  /** write_back is up in the cycle after the last tile of a column block is gathered. */
  predicate WriteBackUp(r: nat, p: Phase) {
    p.InTile? && p.row + 1 == r && p.tau == 16 * r + 20
  }

  lemma UpInSchedule(r: nat, p: Phase)
    requires r > 0 && Valid(r, p)
    ensures ScatterBAt(r, p).final == FinalUp(r, p) && GatherAt(r, p).writeBack == WriteBackUp(r, p)
  {
  }

  /** A reset in cycle n of a run leaves the design at rest, one idle clock later, if and only if neither
      Final nor write_back is up in that cycle. */
  lemma ResetDuringRun(r: nat, m: Machine, start: nat -> bool, n: nat)
    requires r > 0 && Ready(r, m) && start(0) && n <= RunLength(r)
    ensures
      Ready(r, ResetThenIdle(r, StateAt(r, m, start, n), start(n))) <==>
        !FinalUp(r, PhaseAt(r, n)) && !WriteBackUp(r, PhaseAt(r, n))
  {
    hide Ready, After, Step, TimeOf, RunLength, ResetThenIdle, FinalUp, WriteBackUp, ScatterBAt, GatherAt;
    RunFollows(r, m, start, n);
    UpInSchedule(r, PhaseAt(r, n));
    BufferIsWhole(r, m.cc.finish, PhaseAt(r, n), StateAt(r, m, start, n));
    ResetReady(r, StateAt(r, m, start, n), start(n));
  }

  lemma BufferIsWhole(r: nat, f0: bool, p: Phase, s: Machine)
    requires OnSchedule(r, f0, p, s)
    ensures |s.gc.buffer| == 16 * r
  {
  }

  /** Every run has such cycles: one in which its last tile begins to load, one in which its first
      column block is complete. A reset there leaves a design that is not at rest. */
  lemma ResetCanSpoil(r: nat, m: Machine, start: nat -> bool)
    requires r > 0 && Ready(r, m) && start(0)
    ensures
      var n, k := TimeOf(r, InTile(r - 1, r - 1, 0)), TimeOf(r, InTile(0, r - 1, 16 * r + 20));
      && n < RunLength(r) && !Ready(r, ResetThenIdle(r, StateAt(r, m, start, n), start(n)))
      && k < RunLength(r) && !Ready(r, ResetThenIdle(r, StateAt(r, m, start, k), start(k)))
  {
    var p, q := InTile(r - 1, r - 1, 0), InTile(0, r - 1, 16 * r + 20);
    assert Valid(r, p) && FinalUp(r, p) && Valid(r, q) && WriteBackUp(r, q);
    hide Ready, TimeOf, RunLength, ResetThenIdle, StateAt;
    PhaseAtItsTime(r, p);
    PhaseAtItsTime(r, q);
    ResetDuringRun(r, m, start, TimeOf(r, p));
    ResetDuringRun(r, m, start, TimeOf(r, q));
  }

  /** The controller registers of a state. */
  datatype Controllers = Controllers(cc: CC.Registers, sa: SA.Registers, sb: SB.Control, gc: GC.Control)

  function Outline(m: Machine): Controllers {
    Controllers(m.cc, m.sa, m.sb.ctl, m.gc.ctl)
  }

  function ScheduledOutline(r: nat, p: Phase, f0: bool): Controllers {
    Controllers(ControlAt(r, p, f0), ScatterAAt(r, p), ScatterBAt(r, p), GatherAt(r, p))
  }

  /** A pulse that is up now is down in the next cycle, and its receiver acted on it. */
  predicate PulseTaken(now: bool, next: bool, taken: bool) {
    now ==> !next && taken
  }

  /** Every handshake pulse that is up in s finds its receiver in a state that takes it. */
  predicate PulsesTaken(s: Controllers, s': Controllers) {
    && PulseTaken(s.cc.bLoad, s'.cc.bLoad,
         (s.sb.state == SB.Idle && s'.sb.state == SB.Preparing) || (s.sb.state == SB.Waiting && s'.sb.state == SB.Loading))
    && PulseTaken(s.cc.startCal, s'.cc.startCal,
         s.sa.state in {SA.Idle, SA.Waiting} && s'.sa.state == SA.Calculate &&
         s.gc.state in {GC.Idle, GC.Waiting} && s'.gc.state == GC.Gathering)
    && PulseTaken(s.sb.loadDone, s'.sb.loadDone,
         s.cc.state == CC.Preparing && s'.cc.state == CC.Computing)
    && PulseTaken(GC.GatherDone(s.gc), GC.GatherDone(s'.gc),
         s.cc.state == CC.Computing && s'.cc.state in {CC.Preparing, CC.Idle})
  }

  lemma ScheduledPulsesTaken(r: nat, p: Phase, f0: bool)
    requires r > 0 && Valid(r, p) && p != Finished
    ensures PulsesTaken(ScheduledOutline(r, p, f0), ScheduledOutline(r, After(r, p), f0))
  {
  }

  lemma OutlineFollows(r: nat, f0: bool, p: Phase, m: Machine)
    requires OnSchedule(r, f0, p, m)
    ensures Outline(m) == ScheduledOutline(r, p, f0)
  {
  }

  /** No handshake pulse is lost: every pulse finds its receiver in a state that takes it, is acted on
      at that edge, and is down again one cycle later. */
  lemma NoPulseLost(r: nat, m: Machine, start: nat -> bool, n: nat)
    requires r > 0 && Ready(r, m) && start(0) && n < RunLength(r)
    ensures PulsesTaken(Outline(StateAt(r, m, start, n)), Outline(StateAt(r, m, start, n + 1)))
  {
    hide OnSchedule, Ready, After, Step, TimeOf, RunLength, PulsesTaken, Outline, ScheduledOutline;
    RunFollows(r, m, start, n);
    RunFollows(r, m, start, n + 1);
    PhaseKeepsTime(r, n);
    OutlineFollows(r, m.cc.finish, PhaseAt(r, n), StateAt(r, m, start, n));
    OutlineFollows(r, m.cc.finish, PhaseAt(r, n + 1), StateAt(r, m, start, n + 1));
    ScheduledPulsesTaken(r, PhaseAt(r, n), m.cc.finish);
  }

  // ---------- register widths ----------

  /** Every counter holds its value: the tile counters have as many bits as a row of tiles has tiles,
      the others sixteen. */
  predicate InWidths(r: nat, s: Controllers) {
    && s.cc.rowCnt < Pow2(r) && s.cc.colCnt < Pow2(r) && s.sa.colCnt < Pow2(r)
    && s.sb.rowCnt < Pow2(r) && s.sb.colCnt < Pow2(r) && s.gc.rowCnt < Pow2(r) && s.gc.colCnt < Pow2(r)
    && s.sa.inBlockCnt < 65536 && s.sb.inBlockCnt < 65536 && s.sb.loadCnt < 65536
    && s.gc.inBlockCnt < 65536 && s.gc.writeBackCnt < 65536
  }

  lemma ScheduledInWidths(r: nat, p: Phase, f0: bool)
    requires r > 0 && Valid(r, p) && 16 * r + 1 < 65536
    ensures InWidths(r, ScheduledOutline(r, p, f0))
  {
    BelowPow2(r);
    hide Pow2;
  }

  /** All counters stay in their declared widths throughout a run if and only if the matrices are less
      than 65535 wide: gather_c counts to 16r + 1 in sixteen bits. */
  lemma CountersFitIff(r: nat, m: Machine, start: nat -> bool)
    requires r > 0 && Ready(r, m) && start(0)
    ensures (forall n: nat | n <= RunLength(r) :: InWidths(r, Outline(StateAt(r, m, start, n)))) <==> 16 * r + 1 < 65536
  {
    hide OnSchedule, Ready, After, Step, TimeOf, RunLength, Outline, ScheduledOutline;
    if 16 * r + 1 < 65536 {
      forall n: nat | n <= RunLength(r) ensures InWidths(r, Outline(StateAt(r, m, start, n))) {
        RunFollows(r, m, start, n);
        PhaseKeepsTime(r, n);
        OutlineFollows(r, m.cc.finish, PhaseAt(r, n), StateAt(r, m, start, n));
        ScheduledInWidths(r, PhaseAt(r, n), m.cc.finish);
      }
    } else {
      var p := InTile(0, 0, 16 * r + 19);
      GatherCountsTo(r, m.cc.finish);
      PhaseAtItsTime(r, p);
      RunFollows(r, m, start, TimeOf(r, p));
      OutlineFollows(r, m.cc.finish, p, StateAt(r, m, start, TimeOf(r, p)));
    }
  }

  lemma GatherCountsTo(r: nat, f0: bool)
    requires r > 0
    ensures Valid(r, InTile(0, 0, 16 * r + 19))
    ensures ScheduledOutline(r, InTile(0, 0, 16 * r + 19), f0).gc.inBlockCnt == 16 * r + 1
  {
  }

  // ---------- write-back ----------

  /** The address written at this edge, if any. */
  function Port(r: nat, c: GC.Control): seq<nat> {
    if c.bramState == GC.Writing then [GC.Address(r, c)] else []
  }

  /** The BRAM C addresses written while gather_c goes through the given states, in order. */
  function WriteLog(r: nat, trace: seq<GC.Control>): seq<nat> {
    if |trace| == 0 then [] else WriteLog(r, trace[..|trace| - 1]) + Port(r, trace[|trace| - 1])
  }

  /** The states of gather_c during the first n cycles after state m. */
  function GatherTrace(r: nat, m: Machine, start: nat -> bool, n: nat): seq<GC.Control> {
    seq(n, k requires 0 <= k < n => StateAt(r, m, start, k).gc.ctl)
  }

  function ScheduledTrace(r: nat, n: nat): seq<GC.Control> {
    seq(n, k requires 0 <= k < n => GatherAt(r, PhaseAt(r, k)))
  }

  /** How many words have been written when a phase begins. */
  function WordsBefore(r: nat, p: Phase): nat {
    match p
    case Launch(_) => 0
    case InTile(col, row, tau) =>
      col * (16 * r) +
      if row + 1 != r || tau < 16 * r + 21 then 0 else if tau <= 32 * r + 21 then tau - (16 * r + 21) else 16 * r
    case Finished => r * (16 * r)
  }

  /** BRAM word of row i, column block c. */
  function WordIndex(r: nat, i: nat, c: nat): nat {
    i * r + c
  }

  /** Place of row i, column block c in the write-back order: column block by column block. */
  function OrderIndex(r: nat, c: nat, i: nat): nat {
    c * (16 * r) + i
  }

  ghost predicate InWriteOrder(r: nat, log: seq<nat>) {
    forall c: nat, i: nat | c < r && i < 16 * r && OrderIndex(r, c, i) < |log| ::
      log[OrderIndex(r, c, i)] == WordIndex(r, i, c)
  }

  lemma WordsAdvance(r: nat, p: Phase)
    requires Fits(r) && Valid(r, p) && p != Finished
    ensures WordsBefore(r, After(r, p)) == WordsBefore(r, p) + |Port(r, GatherAt(r, p))|
  {
    hide GC.WordAddress;
    if p.InTile? {
      MulSucc(p.col, 16 * r);
    }
  }

  lemma OrderIndexInjective(r: nat, c: nat, i: nat, c': nat, i': nat)
    requires i < 16 * r && i' < 16 * r && OrderIndex(r, c, i) == OrderIndex(r, c', i')
    ensures c == c' && i == i'
    decreases c' < c
  {
    if c < c' {
      MulSucc(c, 16 * r);
      MulMonotone(c + 1, c', 16 * r);
    } else if c' < c {
      OrderIndexInjective(r, c', i', c, i);
    }
  }

  /** Every index below r * 16r is the place of some word. */
  lemma OrderIndexOnto(r: nat, k: nat) returns (c: nat, i: nat)
    requires k < r * (16 * r)
    ensures c < r && i < 16 * r && k == OrderIndex(r, c, i)
  {
    c, i := k / (16 * r), k % (16 * r);
    if r <= c {
      MulMonotone(r, c, 16 * r);
    }
  }

  lemma OrderIndexBound(r: nat, c: nat, i: nat)
    requires c < r && i < 16 * r
    ensures OrderIndex(r, c, i) < r * (16 * r)
  {
    MulSucc(c, 16 * r);
    MulMonotone(c + 1, r, 16 * r);
  }

  lemma LogExtends(r: nat, p: Phase, log: seq<nat>)
    requires Fits(r) && Valid(r, p) && p != Finished
    requires |log| == WordsBefore(r, p) && InWriteOrder(r, log)
    ensures InWriteOrder(r, log + Port(r, GatherAt(r, p)))
  {
    var g := GatherAt(r, p);
    if g.bramState == GC.Writing {
      ResultAddress(r, g.writeBackCnt, g.colCnt);
      var longer := log + [WordIndex(r, g.writeBackCnt, g.colCnt)];
      assert |log| == OrderIndex(r, g.colCnt, g.writeBackCnt);
      forall c: nat, i: nat | c < r && i < 16 * r && OrderIndex(r, c, i) < |longer|
        ensures longer[OrderIndex(r, c, i)] == WordIndex(r, i, c)
      {
        if OrderIndex(r, c, i) == |log| {
          OrderIndexInjective(r, c, i, g.colCnt, g.writeBackCnt);
        }
      }
    } else {
      assert log + [] == log;
    }
  }

  lemma GatherTraceFollows(r: nat, m: Machine, start: nat -> bool, n: nat)
    requires Fits(r) && Ready(r, m) && start(0) && n <= RunLength(r)
    ensures GatherTrace(r, m, start, n) == ScheduledTrace(r, n)
  {
    forall k | 0 <= k < n ensures GatherTrace(r, m, start, n)[k] == ScheduledTrace(r, n)[k] {
      RunFollows(r, m, start, k);
    }
  }

  lemma EmptyLogInOrder(r: nat)
    ensures WordsBefore(r, PhaseAt(r, 0)) == 0 && WriteLog(r, ScheduledTrace(r, 0)) == [] && InWriteOrder(r, [])
  {
  }

  lemma LogGrows(r: nat, n: nat)
    requires n > 0
    ensures WriteLog(r, ScheduledTrace(r, n)) == WriteLog(r, ScheduledTrace(r, n - 1)) + Port(r, GatherAt(r, PhaseAt(r, n - 1)))
    ensures PhaseAt(r, n) == After(r, PhaseAt(r, n - 1))
  {
    hide GatherAt, Port, After;
    assert ScheduledTrace(r, n)[..n - 1] == ScheduledTrace(r, n - 1);
  }

  lemma {:induction false} ScheduledLogInOrder(r: nat, n: nat)
    requires Fits(r) && n <= RunLength(r)
    ensures |WriteLog(r, ScheduledTrace(r, n))| == WordsBefore(r, PhaseAt(r, n))
    ensures InWriteOrder(r, WriteLog(r, ScheduledTrace(r, n)))
  {
    hide *;
    SomeSize(r);
    if n == 0 {
      EmptyLogInOrder(r);
    } else {
      LogGrows(r, n);
      ScheduledLogInOrder(r, n - 1);
      PhaseKeepsTime(r, n - 1);
      WordsAdvance(r, PhaseAt(r, n - 1));
      LogExtends(r, PhaseAt(r, n - 1), WriteLog(r, ScheduledTrace(r, n - 1)));
    }
  }

  /** Every word of C is written in a run, and none twice. */
  lemma EveryWordWrittenOnce(r: nat, m: Machine, start: nat -> bool)
    requires Fits(r) && Ready(r, m) && start(0)
    ensures
      var log := WriteLog(r, GatherTrace(r, m, start, RunLength(r)));
      && |log| == r * (16 * r)
      && (forall i: nat, c: nat | i < 16 * r && c < r :: WordIndex(r, i, c) in log)
      && (forall k: nat, k': nat | k < k' < |log| :: log[k] != log[k'])
  {
    GatherTraceFollows(r, m, start, RunLength(r));
    ScheduledLogInOrder(r, RunLength(r));
    PhaseKeepsTime(r, RunLength(r));
    OrderedLogIsPermutation(r, WriteLog(r, ScheduledTrace(r, RunLength(r))));
  }

  lemma OrderedLogIsPermutation(r: nat, log: seq<nat>)
    requires Fits(r) && |log| == r * (16 * r) && InWriteOrder(r, log)
    ensures forall i: nat, c: nat | i < 16 * r && c < r :: WordIndex(r, i, c) in log
    ensures forall k: nat, k': nat | k < k' < |log| :: log[k] != log[k']
  {
    forall i: nat, c: nat | i < 16 * r && c < r ensures WordIndex(r, i, c) in log {
      OrderIndexBound(r, c, i);
      assert log[OrderIndex(r, c, i)] == WordIndex(r, i, c);
    }
    forall k: nat, k': nat | k < k' < |log| ensures log[k] != log[k'] {
      var c, i := OrderIndexOnto(r, k);
      var c', i' := OrderIndexOnto(r, k');
      if WordIndex(r, i, c) == WordIndex(r, i', c') {
        WordIndexInjective(r, i, c, i', c');
      }
    }
  }
}
