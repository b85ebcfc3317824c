/** A run that is started one idle clock after a reset which came while Final of scatter_b or write_back
    of gather_c was up: what the first 36 cycles make of it, and when it comes out right. */
module StaleReset {
  import opened Words
  import opened ProcessingArray
  import opened Timeline
  import opened DataFlow
  import opened MatrixMultiply
  import opened AcceleratorRun
  import CC = ComputeControl
  import SA = ScatterA
  import SB = ScatterB
  import GC = GatherC

  /** The control registers of the design one idle clock after a reset, by what the reset left. */
  ghost predicate AfterReset(r: nat, final: bool, writeBack: bool, m: Machine) {
    && m.cc == CC.Registers(CC.Idle, 0, 0, false, false, false)
    && m.sa == SA.Registers(SA.Idle, 0, 0, false, false)
    && m.sb.ctl == SB.Control(SB.Idle, 0, 0, 0, 0, final, true, false, false)
    && m.gc.ctl == (if writeBack then GC.Control(GC.Idle, 0, 0, 0, false, false, GC.Writing, 0, false)
                    else GC.Control(GC.Idle, 0, 0, 0, false, false, GC.BramIdle, 0, true))
    && m.gc.buffer == ZeroRows(16 * r)
  }

  lemma ResetLeaves(r: nat, m: Machine, start: bool)
    requires |m.gc.buffer| == 16 * r
    ensures AfterReset(r, m.sb.ctl.final, m.gc.ctl.writeBack, ResetThenIdle(r, m, start))
  {
    hide ArrayNext;
    var m1 := Step(r, m, true, start);
    var m2 := Step(r, m1, false, false);
    assert m1.gc.buffer == ZeroRows(16 * r) && m2.gc.buffer == ZeroRows(16 * r);
  }

  // ---------- the first 36 cycles ----------

  lemma {:induction false} EarlyPhase(r: nat, n: nat)
    requires r > 0 && n <= 21 + DoneTau(r, 0)
    ensures PhaseAt(r, n) == if n <= 20 then Launch(n) else InTile(0, 0, n - 21)
  {
    if n > 0 {
      EarlyPhase(r, n - 1);
    }
  }

  /** A write-back that nobody asked for: 16r words, the clearing of the buffer, and a done pulse. */
  function Spurious(r: nat, n: nat, g: GC.Control): GC.Control {
    if n < 16 * r then g.(bramState := GC.Writing, writeBackCnt := n, writeBackDone := false)
    else if n == 16 * r then g.(bramState := GC.Cleaning, writeBackCnt := 0, writeBackDone := true)
    else g
  }

  /** gather_c n cycles after start, at the given phase. */
  function StaleGather(r: nat, writeBack: bool, n: nat, p: Phase): GC.Control {
    if writeBack then Spurious(r, n, GatherAt(r, p)) else GatherAt(r, p)
  }

  /** scatter_b while Final is up too early. */
  function StaleScatter(r: nat, final: bool, p: Phase): SB.Control {
    ScatterBAt(r, p).(final := final || ScatterBAt(r, p).final)
  }

  ghost predicate Nearly(r: nat, final: bool, writeBack: bool, n: nat, s: Machine) {
    var p := PhaseAt(r, n);
    && s.cc == ControlAt(r, p, false) && s.sa == ScatterAAt(r, p)
    && s.sb.ctl == StaleScatter(r, final, p) && s.gc.ctl == StaleGather(r, writeBack, n, p)
    && |s.gc.buffer| == 16 * r && (Fits(r) ==> DataOnSchedule(r, p, s))
  }

  lemma StartsNearly(r: nat, final: bool, writeBack: bool, m: Machine)
    requires r > 0 && AfterReset(r, final, writeBack, m)
    ensures Nearly(r, final, writeBack, 0, m)
  {
    forall i: nat | i < 16 * r ensures HoldsPartial(m.gc.buffer[i], A(r, m), B(r, m), i, 0, 0) {
      assert m.gc.buffer[i] == ZERO_LANES;
    }
  }

  lemma {:induction false} ScatterBStale(r: nat, final: bool, n: nat)
    requires r > 0 && n < 36
    ensures
      var p := PhaseAt(r, n);
      SB.NextControl(r, StaleScatter(r, final, p), false, BLoadAt(r, p)) == StaleScatter(r, final, After(r, p))
  {
    EarlyPhase(r, n);
    hide PhaseAt;
  }

  lemma {:induction false} GatherStale(r: nat, writeBack: bool, n: nat)
    requires r > 0 && n < 36
    ensures
      var p := PhaseAt(r, n);
      && GC.NextControl(r, StaleGather(r, writeBack, n, p), false, StartCalAt(p)) == StaleGather(r, writeBack, n + 1, After(r, p))
      && StaleGather(r, writeBack, n, p).state == GC.Idle
  {
    EarlyPhase(r, n);
    hide PhaseAt;
  }

  /** compute_control waits for load_done all this time and does not mind a done pulse. */
  lemma {:induction false} ControlStale(r: nat, n: nat, start: bool, done: bool)
    requires r > 0 && n < 36 && (n == 0 ==> start)
    ensures
      var p := PhaseAt(r, n);
      && CC.Next(r, ControlAt(r, p, false), false, start, ScatterBAt(r, p).loadDone, done) == ControlAt(r, After(r, p), false)
      && ControlAt(r, p, false).bLoad == BLoadAt(r, p) && ControlAt(r, p, false).startCal == StartCalAt(p)
      && ScatterAAt(r, After(r, p)) == SA.Next(r, ScatterAAt(r, p), false, StartCalAt(p))
      && Valid(r, p) && p != Finished
  {
    EarlyPhase(r, n);
    hide PhaseAt;
  }

  /** The machine with its control registers on schedule. */
  function Mended(r: nat, s: Machine, p: Phase): Machine {
    s.(sb := s.sb.(ctl := ScatterBAt(r, p)), gc := s.gc.(ctl := GatherAt(r, p)))
  }

  /** One clock, register by register. */
  lemma StepFields(r: nat, s: Machine, start: bool)
    ensures
      var t := Step(r, s, false, start);
      && t.cc == CC.Next(r, s.cc, false, start, s.sb.ctl.loadDone, GC.GatherDone(s.gc.ctl))
      && t.sa == SA.Next(r, s.sa, false, s.cc.startCal)
      && t.sb.ctl == SB.NextControl(r, s.sb.ctl, false, s.cc.bLoad)
      && t.sb.buffer == SB.NextBuffer(s.sb.ctl, s.sb.buffer, false, s.rdB)
      && t.sb.bIns == (if s.sb.ctl.state == SB.Loading then SB.Column(s.sb.buffer, s.sb.ctl.loadCnt) else ZERO_LANES)
      && t.gc.ctl == GC.NextControl(r, s.gc.ctl, false, s.cc.startCal)
      && t.gc.buffer == GC.NextBuffer(r, s.gc.ctl, s.gc.buffer, false, COuts(s))
      && t.pe == ArrayNext(s.pe, false, s.sb.ctl.stationaryCtrl, s.sb.bIns)
      && t.bramA == s.bramA && t.bramB == s.bramB && t.bramC == NextBramC(r, s)
      && t.rdA == s.bramA[SA.Address(r, s.sa)] && t.rdB == s.bramB[SB.Address(r, s.sb.ctl)]
  {
    hide ArrayNext, CC.Next, SA.Next, SB.NextControl, SB.NextBuffer, GC.NextControl, GC.NextBuffer, SB.Column, COuts, NextBramC;
  }

  /** While gather_c is idle its buffer is clear, whatever the write-back machine does. */
  lemma IdleClears(r: nat, g: GC.Control, buffer: seq<Lanes>, cOuts: Lanes)
    requires g.state == GC.Idle
    ensures GC.NextBuffer(r, g, buffer, false, cOuts) == ZeroRows(|buffer|)
  {
  }

  lemma ScatterSame(c: SB.Control, c': SB.Control, buffer: Tile, rdB: Lanes, r: nat)
    requires c' == c.(final := c'.final)
    ensures SB.NextBuffer(c', buffer, false, rdB) == SB.NextBuffer(c, buffer, false, rdB)
    ensures SB.Address(r, c') == SB.Address(r, c)
  {
  }

  /** Nothing but BRAM C tells the machine from the mended one after a clock. */
  lemma {:induction false} StepOfMended(r: nat, final: bool, writeBack: bool, n: nat, s: Machine, start: bool)
    requires r > 0 && n < 36 && Nearly(r, final, writeBack, n, s)
    ensures
      var t, t' := Step(r, Mended(r, s, PhaseAt(r, n)), false, start), Step(r, s, false, start);
      && t'.sb.buffer == t.sb.buffer && t'.sb.bIns == t.sb.bIns && t'.pe == t.pe && t'.rdA == t.rdA && t'.rdB == t.rdB
      && t'.gc.buffer == t.gc.buffer && t'.bramA == t.bramA == s.bramA && t'.bramB == t.bramB == s.bramB
  {
    var p := PhaseAt(r, n);
    GatherStale(r, writeBack, n);
    GatherStale(r, false, n);
    hide Step, PhaseAt, ArrayNext, DataOnSchedule, ControlAt, ScatterAAt, ScatterBAt, GatherAt, ArrayOut, Spurious, COuts,
         SB.NextBuffer, SB.Address, SA.Address, SB.Column, GC.NextBuffer, GC.NextControl, SB.NextControl;
    StepFields(r, s, start);
    StepFields(r, Mended(r, s, p), start);
    IdleClears(r, s.gc.ctl, s.gc.buffer, COuts(s));
    IdleClears(r, GatherAt(r, p), s.gc.buffer, COuts(Mended(r, s, p)));
    ScatterSame(ScatterBAt(r, p), s.sb.ctl, s.sb.buffer, s.rdB, r);
  }

  /** While nothing is written back yet, what BRAM C holds does not matter. */
  lemma {:induction false} DataAgrees(r: nat, p: Phase, t: Machine, t': Machine)
    requires DataOnSchedule(r, p, t) && (p.Launch? || (p.InTile? && p.col == 0 && p.row == 0 && p.tau <= 16 * r + 21))
    requires t'.sb.buffer == t.sb.buffer && t'.sb.bIns == t.sb.bIns && t'.pe == t.pe && t'.rdA == t.rdA && t'.rdB == t.rdB
    requires t'.gc.buffer == t.gc.buffer && t'.bramA == t.bramA && t'.bramB == t.bramB
    ensures DataOnSchedule(r, p, t')
  {
    hide TileBufferAt, ChainInputAt, ArrayAt, BroadcastAt, AccumulatorAt, HoldsPartial;
  }

  lemma {:induction false} MendedOnSchedule(r: nat, final: bool, writeBack: bool, n: nat, s: Machine)
    requires r > 0 && n < 36 && Nearly(r, final, writeBack, n, s)
    ensures OnSchedule(r, false, PhaseAt(r, n), Mended(r, s, PhaseAt(r, n)))
  {
    EarlyPhase(r, n);
    var p := PhaseAt(r, n);
    if Fits(r) {
      DataAgrees(r, p, s, Mended(r, s, p));
    }
    hide PhaseAt, DataOnSchedule, ControlAt, ScatterAAt, ScatterBAt, GatherAt;
  }

  lemma {:induction false} NearlyControl(r: nat, final: bool, writeBack: bool, n: nat, s: Machine, start: bool)
    requires r > 0 && n < 36 && Nearly(r, final, writeBack, n, s) && (n == 0 ==> start)
    ensures
      var t, p' := Step(r, s, false, start), PhaseAt(r, n + 1);
      && t.cc == ControlAt(r, p', false) && t.sa == ScatterAAt(r, p')
      && t.sb.ctl == StaleScatter(r, final, p') && t.gc.ctl == StaleGather(r, writeBack, n + 1, p')
      && |t.gc.buffer| == 16 * r
  {
    var p := PhaseAt(r, n);
    PhaseFollows(r, n);
    ScatterBStale(r, final, n);
    GatherStale(r, writeBack, n);
    ControlStale(r, n, start, GC.GatherDone(s.gc.ctl));
    hide Step, PhaseAt, DataOnSchedule, ControlAt, ScatterAAt, ScatterBAt, GatherAt, Spurious, After, COuts, BLoadAt, StartCalAt,
         CC.Next, SA.Next, SB.NextControl, SB.NextBuffer, GC.NextControl, GC.NextBuffer;
    StepFields(r, s, start);
    IdleClears(r, s.gc.ctl, s.gc.buffer, COuts(s));
  }

  lemma PhaseFollows(r: nat, n: nat)
    ensures PhaseAt(r, n + 1) == After(r, PhaseAt(r, n))
  {
  }

  lemma {:induction false} NearlyData(r: nat, final: bool, writeBack: bool, n: nat, s: Machine, start: bool)
    requires Fits(r) && n < 36 && Nearly(r, final, writeBack, n, s)
    ensures DataOnSchedule(r, PhaseAt(r, n + 1), Step(r, s, false, start))
  {
    var p := PhaseAt(r, n);
    EarlyPhase(r, n);
    EarlyPhase(r, n + 1);
    PhaseFollows(r, n);
    hide Step, PhaseAt, DataOnSchedule, ControlAt, ScatterAAt, ScatterBAt, GatherAt, Spurious, After, Nearly;
    StepOfMended(r, final, writeBack, n, s, start);
    MendedOnSchedule(r, final, writeBack, n, s);
    DataFollows(r, false, p, Mended(r, s, p), start);
    DataAgrees(r, After(r, p), Step(r, Mended(r, s, p), false, start), Step(r, s, false, start));
  }

  lemma {:induction false} NearlyStep(r: nat, final: bool, writeBack: bool, n: nat, s: Machine, start: bool)
    requires r > 0 && n < 36 && Nearly(r, final, writeBack, n, s) && (n == 0 ==> start)
    ensures Nearly(r, final, writeBack, n + 1, Step(r, s, false, start))
    ensures Step(r, s, false, start).bramA == s.bramA && Step(r, s, false, start).bramB == s.bramB
  {
    NearlyControl(r, final, writeBack, n, s, start);
    if Fits(r) {
      NearlyData(r, final, writeBack, n, s, start);
    }
    hide DataOnSchedule, ControlAt, ScatterAAt, StaleScatter, StaleGather, Step, PhaseAt;
    StepFields(r, s, start);
  }

  lemma {:induction false} NearlyAt(r: nat, final: bool, writeBack: bool, m: Machine, start: nat -> bool, n: nat)
    requires r > 0 && AfterReset(r, final, writeBack, m) && start(0) && n <= 36
    ensures Nearly(r, final, writeBack, n, StateAt(r, m, start, n))
    ensures StateAt(r, m, start, n).bramA == m.bramA && StateAt(r, m, start, n).bramB == m.bramB
    decreases n
  {
    hide Nearly, AfterReset, Step;
    if n == 0 {
      StartsNearly(r, final, writeBack, m);
    } else {
      NearlyAt(r, final, writeBack, m, start, n - 1);
      NearlyStep(r, final, writeBack, n - 1, StateAt(r, m, start, n - 1), start(n - 1));
    }
  }

  /** Finish is down all this time. */
  lemma {:induction false} NearlyNoFinish(r: nat, final: bool, writeBack: bool, n: nat, s: Machine)
    requires r > 0 && n <= 36 && Nearly(r, final, writeBack, n, s)
    ensures !s.cc.finish
  {
    EarlyPhase(r, n);
    hide PhaseAt, DataOnSchedule;
  }

  lemma SecondVisit(r: nat)
    requires r > 1
    ensures PhaseAt(r, 16 * r + 43) == InTile(0, 1, 0)
  {
    EarlyPhase(r, 16 * r + 41);
    PhaseFollows(r, 16 * r + 41);
    PhaseFollows(r, 16 * r + 42);
    hide PhaseAt;
  }

  lemma StateBegins(r: nat, m: Machine, start: nat -> bool)
    ensures StateAt(r, m, start, 0) == m
  {
  }

  lemma StateUnfolds(r: nat, m: Machine, start: nat -> bool, n: nat)
    ensures StateAt(r, m, start, n + 1) == Step(r, StateAt(r, m, start, n), false, start(n))
  {
  }

  // ---------- when the run comes out right ----------

  /** Cycle n is the first in which Finish is up. */
  ghost predicate FirstFinish(r: nat, m: Machine, start: nat -> bool, n: nat) {
    StateAt(r, m, start, n).cc.finish && forall k: nat | k < n :: !StateAt(r, m, start, k).cc.finish
  }

  /** A run from m comes to its Finish with the mirrored product of the operands in BRAM C. */
  ghost predicate ComesOutRight(r: nat, m: Machine, start: nat -> bool) {
    exists n: nat :: FirstFinish(r, m, start, n) && HoldsMirroredProduct(r, A(r, m), B(r, m), StateAt(r, m, start, n).bramC)
  }

  lemma FinishFacts(r: nat, m: Machine, start: nat -> bool, n: nat)
    requires FirstFinish(r, m, start, n)
    ensures StateAt(r, m, start, n).cc.finish && forall k: nat | k < n :: !StateAt(r, m, start, k).cc.finish
  {
    hide StateAt;
  }

  /** Once on schedule a run stays there. */
  lemma {:induction false} FollowsFrom(r: nat, m: Machine, start: nat -> bool, k: nat, n: nat)
    requires r > 0 && 0 < k <= n <= RunLength(r) && OnSchedule(r, false, PhaseAt(r, k), StateAt(r, m, start, k))
    ensures OnSchedule(r, false, PhaseAt(r, n), StateAt(r, m, start, n))
    ensures StateAt(r, m, start, n).bramA == StateAt(r, m, start, k).bramA
    ensures StateAt(r, m, start, n).bramB == StateAt(r, m, start, k).bramB
    decreases n
  {
    hide OnSchedule, Ready, After, Step, TimeOf, RunLength;
    if n > k {
      FollowsFrom(r, m, start, k, n - 1);
      PhaseKeepsTime(r, n - 1);
      StepFollows(r, false, PhaseAt(r, n - 1), StateAt(r, m, start, n - 1), start(n - 1));
    }
  }

  /** After 36 cycles a stale Final does no harm if there is only one tile, and a stale write_back if the
      spurious write-back is over. */
  lemma {:induction false} BackOnSchedule(r: nat, final: bool, writeBack: bool, s: Machine)
    requires r > 0 && Nearly(r, final, writeBack, 36, s) && (final ==> r == 1) && (writeBack ==> r <= 2)
    ensures OnSchedule(r, false, PhaseAt(r, 36), s)
  {
    EarlyPhase(r, 36);
    hide PhaseAt, DataOnSchedule;
  }

  lemma LongEnough(r: nat)
    requires r > 0
    ensures RunLength(r) > 36
  {
    MulMonotone(1, r, ColumnLength(r));
  }

  /** Then the run comes out right, and takes as long as ever. */
  lemma {:induction false} HarmlessReset(r: nat, final: bool, writeBack: bool, m: Machine, start: nat -> bool)
    requires Fits(r) && AfterReset(r, final, writeBack, m) && start(0)
    requires (final ==> r == 1) && (writeBack ==> r <= 2)
    ensures FirstFinish(r, m, start, RunLength(r)) && ComesOutRight(r, m, start)
  {
    var l := RunLength(r);
    SomeSize(r);
    LongEnough(r);
    hide AfterReset, Nearly, OnSchedule, StateAt, RunLength, Step, PhaseAt, HoldsMirroredProduct;
    NearlyAt(r, final, writeBack, m, start, 36);
    BackOnSchedule(r, final, writeBack, StateAt(r, m, start, 36));
    forall k: nat | k < l ensures !StateAt(r, m, start, k).cc.finish {
      if k <= 36 {
        NearlyAt(r, final, writeBack, m, start, k);
        NearlyNoFinish(r, final, writeBack, k, StateAt(r, m, start, k));
      } else {
        FollowsFrom(r, m, start, 36, k);
        PhaseKeepsTime(r, k);
        FinishOfPhase(r, PhaseAt(r, k), StateAt(r, m, start, k));
      }
    }
    FollowsFrom(r, m, start, 36, l);
    PhaseKeepsTime(r, l);
    FinishOfPhase(r, PhaseAt(r, l), StateAt(r, m, start, l));
    FinishedProduct(r, StateAt(r, m, start, l));
    assert HoldsMirroredProduct(r, A(r, m), B(r, m), StateAt(r, m, start, l).bramC);
  }

  lemma FinishOfPhase(r: nat, p: Phase, s: Machine)
    requires OnSchedule(r, false, p, s)
    ensures s.cc.finish <==> p == Finished
  {
    hide DataOnSchedule;
  }

  lemma FinishedProduct(r: nat, s: Machine)
    requires Fits(r) && OnSchedule(r, false, Finished, s)
    ensures HoldsMirroredProduct(r, A(r, s), B(r, s), s.bramC)
  {
    AllWrittenIsProduct(r, A(r, s), B(r, s), s.bramC);
  }
}
