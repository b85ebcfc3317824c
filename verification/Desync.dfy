/** A run of three tiles a side or more with a spurious write-back: its done pulse comes while the first tile is
    being gathered, compute_control takes it for the end of that tile, and the controllers part. */
module Desync {
  import opened Words
  import opened Timeline
  import opened DataFlow
  import opened MatrixMultiply
  import opened AcceleratorRun
  import opened StaleReset
  import CC = ComputeControl
  import SA = ScatterA
  import SB = ScatterB
  import GC = GatherC

  /** One clock of the controllers. */
  function StepOutline(r: nat, c: Controllers, start: bool): Controllers {
    Controllers(
      CC.Next(r, c.cc, false, start, c.sb.loadDone, GC.GatherDone(c.gc)),
      SA.Next(r, c.sa, false, c.cc.startCal),
      SB.NextControl(r, c.sb, false, c.cc.bLoad),
      GC.NextControl(r, c.gc, false, c.cc.startCal))
  }

  lemma OutlineSteps(r: nat, s: Machine, start: bool)
    ensures Outline(Step(r, s, false, start)) == StepOutline(r, Outline(s), start)
  {
    hide Step, CC.Next, SA.Next, SB.NextControl, GC.NextControl;
    StepFields(r, s, start);
  }

  /** gather_c during and after the first visit, tau cycles into it. */
  function FirstGather(r: nat, tau: nat): GC.Control {
    StaleGather(r, true, tau + 21, InTile(0, 0, tau))
  }

  function Waits(row: nat, bLoad: bool): CC.Registers {
    CC.Registers(CC.Preparing, row, 0, false, bLoad, false)
  }

  function Computes(row: nat, startCal: bool): CC.Registers {
    CC.Registers(CC.Computing, row, 0, startCal, false, false)
  }

  // ---------- three tiles a side: scatter_b is still fetching when it is asked to load ----------

  function Stuck(r: nat, tau: nat): Controllers {
    Controllers(
      if tau <= 16 * r - 21 then ControlAt(r, InTile(0, 0, tau), false) else Waits(1, tau == 16 * r - 20),
      ScatterAAt(r, InTile(0, 0, tau)), ScatterBAt(r, InTile(0, 0, tau)), FirstGather(r, tau))
  }

  lemma StuckFollows(r: nat, tau: nat, start: bool)
    requires r == 3 && tau >= 15
    ensures StepOutline(r, Stuck(r, tau), start) == Stuck(r, tau + 1) && !Stuck(r, tau).cc.finish
  {
    StuckControl(r, tau, start);
    StuckScatter(r, tau);
    FirstVisitGoesOn(r, tau, false);
    StuckParts(r, tau);
    StuckParts(r, tau + 1);
    hide *;
  }

  lemma StuckParts(r: nat, tau: nat)
    ensures Stuck(r, tau).sa == ScatterAAt(r, InTile(0, 0, tau)) && Stuck(r, tau).gc == FirstGather(r, tau)
  {
  }

  lemma StuckControl(r: nat, tau: nat, start: bool)
    requires r == 3 && tau >= 15
    ensures
      CC.Next(r, Stuck(r, tau).cc, false, start, Stuck(r, tau).sb.loadDone, GC.GatherDone(Stuck(r, tau).gc)) ==
      Stuck(r, tau + 1).cc
    ensures Stuck(r, tau).cc.startCal == (tau == 17) && !Stuck(r, tau).cc.finish
  {
  }

  /** The request to load comes at the 13th cycle of the fetch. */
  lemma StuckScatter(r: nat, tau: nat)
    requires r == 3 && tau >= 15
    ensures SB.NextControl(r, Stuck(r, tau).sb, false, Stuck(r, tau).cc.bLoad) == Stuck(r, tau + 1).sb
  {
  }

  // ---------- with Final up as well: the tile it has to fetch again comes too late ----------

  function TwiceScatter(r: nat, tau: nat): SB.Control
    requires r >= 3
  {
    if tau == 15 then SB.Control(SB.Loading, 0, 1, 0, 15, true, false, true, false)
    else if tau == 16 then SB.Control(SB.Idle, 0, 1, 0, 0, false, false, true, true)
    else if tau <= 16 * r - 20 then SB.Control(SB.Idle, 0, 0, 0, 0, false, true, false, false)
    else if tau <= 16 * r - 2 then SB.Control(SB.Preparing, tau - (16 * r - 19), 0, 0, 0, false, true, false, false)
    else if tau == 16 * r - 1 then SB.Control(SB.Waiting, 0, 1, 0, 0, false, true, false, false)
    else if tau <= 16 * r + 15 then SB.Control(SB.Loading, 0, 1, 0, tau - 16 * r, false, false, true, false)
    else if tau <= 16 * r + 33 then
      SB.Control(SB.Preparing, tau - (16 * r + 16), 1, 0, 0, false, false, tau == 16 * r + 16, tau == 16 * r + 16)
    else SB.Control(SB.Waiting, 0, 2, 0, 0, false, false, false, false)
  }

  function TwiceControl(r: nat, tau: nat): CC.Registers
    requires r >= 3
  {
    if tau <= 16 * r - 21 then ControlAt(r, InTile(0, 0, tau), false)
    else if tau <= 16 * r + 16 then Waits(1, tau == 16 * r - 20)
    else if tau <= 16 * r + 20 then Computes(1, tau == 16 * r + 17)
    else Waits(2, tau == 16 * r + 21)
  }

  function TwiceStuck(r: nat, tau: nat): Controllers
    requires r >= 3
  {
    Controllers(TwiceControl(r, tau), ScatterAAt(r, InTile(0, 0, tau)), TwiceScatter(r, tau), FirstGather(r, tau))
  }

  lemma TwiceStuckFollows(r: nat, tau: nat, start: bool)
    requires r >= 3 && tau >= 15
    ensures StepOutline(r, TwiceStuck(r, tau), start) == TwiceStuck(r, tau + 1) && !TwiceStuck(r, tau).cc.finish
  {
    TwiceControlFollows(r, tau, start);
    TwiceScatterFollows(r, tau);
    FirstVisitGoesOn(r, tau, tau == 16 * r + 17);
    hide *;
  }

  lemma TwiceControlFollows(r: nat, tau: nat, start: bool)
    requires r >= 3 && tau >= 15
    ensures
      CC.Next(r, TwiceControl(r, tau), false, start, TwiceScatter(r, tau).loadDone, GC.GatherDone(FirstGather(r, tau))) ==
      TwiceControl(r, tau + 1)
    ensures !TwiceControl(r, tau).finish && TwiceControl(r, tau).bLoad == (tau == 16 * r - 20 || tau == 16 * r + 21)
    ensures TwiceControl(r, tau).startCal == (tau == 17 || tau == 16 * r + 17)
  {
  }

  lemma TwiceScatterFollows(r: nat, tau: nat)
    requires r >= 3 && tau >= 15
    ensures
      SB.NextControl(r, TwiceScatter(r, tau), false, tau == 16 * r - 20 || tau == 16 * r + 21) == TwiceScatter(r, tau + 1)
  {
  }

  /** scatter_a and gather_c go through the first visit as ever, and then wait; a start_cal pulse that comes
      before they are through is lost. */
  lemma FirstVisitGoesOn(r: nat, tau: nat, early: bool)
    requires r >= 3 && tau >= 15 && (early ==> 18 < tau <= 16 * r + 17)
    ensures SA.Next(r, ScatterAAt(r, InTile(0, 0, tau)), false, tau == 17 || early) == ScatterAAt(r, InTile(0, 0, tau + 1))
    ensures GC.NextControl(r, FirstGather(r, tau), false, tau == 17 || early) == FirstGather(r, tau + 1)
  {
  }

  // ---------- four tiles a side or more: the next tile is loaded under the gathering of the first ----------

  function Opening(r: nat, tau: nat): Controllers
    requires r >= 4
  {
    Controllers(
      if tau <= 16 * r - 21 then ControlAt(r, InTile(0, 0, tau), false)
      else if tau <= 16 * r - 3 then Waits(1, tau == 16 * r - 20)
      else if tau <= 16 * r + 20 then Computes(1, tau == 16 * r - 2)
      else Waits(2, true),
      ScatterAAt(r, InTile(0, 0, tau)),
      if tau <= 16 * r - 20 then ScatterBAt(r, InTile(0, 0, tau)) else ScatterBAt(r, InTile(0, 1, tau - (16 * r - 19))),
      FirstGather(r, tau))
  }

  /** From then on compute_control and scatter_b are one tile ahead of scatter_a and gather_c, whose phase p is. */
  function Ahead(r: nat, p: Phase): Controllers
    requires p.InTile?
  {
    var tc, tr, d := NextCol(r, p.col, p.row), NextRow(r, p.row), DoneTau(r, p.row);
    Controllers(
      if p.tau <= 16 then CC.Registers(CC.Preparing, tr, tc, false, false, false)
      else if p.tau <= d then CC.Registers(CC.Computing, tr, tc, p.tau == 17, false, false)
      else if IsLast(r, tc, tr) then CC.Registers(CC.Idle, 0, 0, false, false, true)
      else CC.Registers(CC.Preparing, NextRow(r, tr), NextCol(r, tc, tr), false, true, false),
      ScatterAAt(r, p), ScatterBAt(r, InTile(tc, tr, p.tau)), GatherAt(r, p))
  }

  /** Finish is up: the tile compute_control took for the last but one was the last but two. */
  ghost predicate EndsAhead(r: nat, p: Phase) {
    p.InTile? && p.tau == DoneTau(r, p.row) + 1 && IsLast(r, NextCol(r, p.col, p.row), NextRow(r, p.row))
  }

  ghost predicate ValidAhead(r: nat, p: Phase) {
    Valid(r, p) && p.InTile? && !IsLast(r, p.col, p.row)
  }

  lemma OpeningControl(r: nat, tau: nat, start: bool)
    requires r >= 4 && 15 <= tau <= 16 * r + 20
    ensures
      CC.Next(r, Opening(r, tau).cc, false, start, Opening(r, tau).sb.loadDone, GC.GatherDone(Opening(r, tau).gc)) ==
      Opening(r, tau + 1).cc
    ensures Opening(r, tau).cc.startCal == (tau == 17 || tau == 16 * r - 2) && !Opening(r, tau).cc.finish
    ensures Opening(r, tau).cc.bLoad == (tau == 16 * r - 20)
  {
  }

  lemma OpeningScatter(r: nat, tau: nat)
    requires r >= 4 && 15 <= tau <= 16 * r + 20
    ensures SB.NextControl(r, Opening(r, tau).sb, false, tau == 16 * r - 20) == Opening(r, tau + 1).sb
  {
  }

  lemma OpeningFollows(r: nat, tau: nat, start: bool)
    requires r >= 4 && 15 <= tau <= 16 * r + 20
    ensures StepOutline(r, Opening(r, tau), start) == Opening(r, tau + 1) && !Opening(r, tau).cc.finish
  {
    OpeningControl(r, tau, start);
    OpeningScatter(r, tau);
    FirstVisitGoesOn(r, tau, tau == 16 * r - 2);
    OpeningParts(r, tau);
    OpeningParts(r, tau + 1);
    hide *;
  }

  lemma OpeningParts(r: nat, tau: nat)
    requires r >= 4
    ensures Opening(r, tau).sa == ScatterAAt(r, InTile(0, 0, tau)) && Opening(r, tau).gc == FirstGather(r, tau)
  {
  }

  lemma OpeningEnds(r: nat, start: bool)
    requires r >= 4
    ensures StepOutline(r, Opening(r, 16 * r + 21), start) == Ahead(r, InTile(0, 1, 0)) && !Opening(r, 16 * r + 21).cc.finish
  {
  }

  lemma AheadFollows(r: nat, p: Phase, start: bool)
    requires r > 1 && ValidAhead(r, p) && !EndsAhead(r, p)
    ensures ValidAhead(r, After(r, p))
    ensures StepOutline(r, Ahead(r, p), start) == Ahead(r, After(r, p)) && !Ahead(r, p).cc.finish
  {
    AheadScatter(r, p);
    AheadControl(r, p, start);
    AheadOthers(r, p);
    hide *;
  }

  lemma AheadScatter(r: nat, p: Phase)
    requires r > 1 && ValidAhead(r, p) && !EndsAhead(r, p)
    ensures SB.NextControl(r, Ahead(r, p).sb, false, Ahead(r, p).cc.bLoad) == Ahead(r, After(r, p)).sb
  {
    hide ScatterAAt, GatherAt;
  }

  lemma AheadControl(r: nat, p: Phase, start: bool)
    requires r > 1 && ValidAhead(r, p) && !EndsAhead(r, p)
    ensures ValidAhead(r, After(r, p)) && !Ahead(r, p).cc.finish
    ensures
      CC.Next(r, Ahead(r, p).cc, false, start, Ahead(r, p).sb.loadDone, GC.GatherDone(Ahead(r, p).gc)) == Ahead(r, After(r, p)).cc
  {
    WiresAgree(r, p, false);
    hide ScatterAAt, GatherAt, GC.GatherDone;
  }

  lemma AheadOthers(r: nat, p: Phase)
    requires r > 1 && ValidAhead(r, p) && !EndsAhead(r, p)
    ensures SA.Next(r, Ahead(r, p).sa, false, Ahead(r, p).cc.startCal) == Ahead(r, After(r, p)).sa
    ensures GC.NextControl(r, Ahead(r, p).gc, false, Ahead(r, p).cc.startCal) == Ahead(r, After(r, p)).gc
  {
    ScatterAFollows(r, p);
    GatherFollows(r, p);
    hide ScatterAAt, ScatterBAt, GatherAt, SA.Next, GC.NextControl;
  }

  // ---------- whole runs ----------

  ghost predicate DeadlockSize(r: nat, final: bool) {
    if final then r >= 3 else r == 3
  }

  function Deadlocked(r: nat, final: bool, tau: nat): Controllers
    requires r >= 3
  {
    if final then TwiceStuck(r, tau) else Stuck(r, tau)
  }

  lemma DeadlockedFollows(r: nat, final: bool, tau: nat, start: bool)
    requires DeadlockSize(r, final) && tau >= 15
    ensures StepOutline(r, Deadlocked(r, final, tau), start) == Deadlocked(r, final, tau + 1)
    ensures !Deadlocked(r, final, tau).cc.finish
  {
    hide StepOutline, Stuck, TwiceStuck;
    if final {
      TwiceStuckFollows(r, tau, start);
    } else {
      StuckFollows(r, tau, start);
    }
  }

  lemma StartsDeadlocked(r: nat, final: bool, s: Machine)
    requires DeadlockSize(r, final) && Nearly(r, final, true, 36, s)
    ensures Outline(s) == Deadlocked(r, final, 15)
  {
    EarlyPhase(r, 36);
    hide PhaseAt, DataOnSchedule;
  }

  lemma {:induction false} RunDeadlocks(r: nat, final: bool, m: Machine, start: nat -> bool, k: nat)
    requires DeadlockSize(r, final) && AfterReset(r, final, true, m) && start(0)
    ensures Outline(StateAt(r, m, start, 36 + k)) == Deadlocked(r, final, 15 + k)
    decreases k
  {
    hide AfterReset, StepOutline, Outline, Deadlocked, Step, StateAt, Nearly;
    if k == 0 {
      NearlyAt(r, final, true, m, start, 36);
      StartsDeadlocked(r, final, StateAt(r, m, start, 36));
    } else {
      var s := StateAt(r, m, start, 36 + (k - 1));
      RunDeadlocks(r, final, m, start, k - 1);
      StateUnfolds(r, m, start, 36 + (k - 1));
      OutlineSteps(r, s, start(36 + (k - 1)));
      DeadlockedFollows(r, final, 15 + (k - 1), start(36 + (k - 1)));
    }
  }

  /** With three tiles a side, and with more if Final is up as well, a spurious write-back stops the run
      for good: Finish never rises. */
  lemma NeverFinishes(r: nat, final: bool, m: Machine, start: nat -> bool, n: nat)
    requires DeadlockSize(r, final) && AfterReset(r, final, true, m) && start(0)
    ensures !StateAt(r, m, start, n).cc.finish
  {
    hide AfterReset, StepOutline, Deadlocked, Step, StateAt, Nearly;
    if n <= 36 {
      NearlyAt(r, final, true, m, start, n);
      NearlyNoFinish(r, final, true, n, StateAt(r, m, start, n));
    } else {
      RunDeadlocks(r, final, m, start, n - 36);
      DeadlockedFollows(r, final, 15 + (n - 36), false);
    }
  }

  /** The phase at which a run that is one tile ahead ends. */
  function EarlyEnd(r: nat): Phase
    requires r > 1
  {
    InTile(r - 1, r - 2, 16 * r + 21)
  }

  ghost predicate IsAhead(r: nat, n: nat, c: Controllers)
    requires r >= 4 && n >= 21
  {
    if n <= 16 * r + 42 then c == Opening(r, n - 21) else PhaseAt(r, n).InTile? && c == Ahead(r, PhaseAt(r, n))
  }

  lemma EndsAheadIff(r: nat, p: Phase)
    requires r > 1 && ValidAhead(r, p)
    ensures EndsAhead(r, p) <==> p == EarlyEnd(r)
    ensures EndsAhead(r, p) ==> Ahead(r, p).cc.finish
  {
  }

  lemma EarlyEndIsValid(r: nat)
    requires r > 1
    ensures Valid(r, EarlyEnd(r)) && EarlyEnd(r).InTile?
  {
  }

  lemma StillAhead(r: nat, n: nat)
    requires r >= 4 && 16 * r + 43 <= n <= TimeOf(r, EarlyEnd(r))
    ensures ValidAhead(r, PhaseAt(r, n)) && (EndsAhead(r, PhaseAt(r, n)) <==> n == TimeOf(r, EarlyEnd(r)))
    decreases n
  {
    hide *;
    EarlyEndIsValid(r);
    PhaseAtItsTime(r, EarlyEnd(r));
    PhaseKeepsTime(r, n);
    if n == 16 * r + 43 {
      SecondVisit(r);
      SecondIsAhead(r);
    } else {
      StillAhead(r, n - 1);
      PhaseFollows(r, n - 1);
      AheadFollows(r, PhaseAt(r, n - 1), false);
    }
    EndsAheadIff(r, PhaseAt(r, n));
  }

  lemma SecondIsAhead(r: nat)
    requires r > 1
    ensures ValidAhead(r, InTile(0, 1, 0))
  {
  }

  lemma IsAheadFollows(r: nat, n: nat, c: Controllers, start: bool)
    requires r >= 4 && 36 <= n < TimeOf(r, EarlyEnd(r)) && IsAhead(r, n, c)
    ensures IsAhead(r, n + 1, StepOutline(r, c, start)) && !c.cc.finish && SparesLast(r, c.gc)
  {
    hide TimeOf, PhaseAt, Opening, Ahead, StepOutline, After, ValidAhead, SparesLast;
    if n <= 16 * r + 42 {
      OpeningSparesLast(r, n - 21);
      if n < 16 * r + 42 {
        OpeningFollows(r, n - 21, start);
      } else {
        OpeningEnds(r, start);
        SecondVisit(r);
      }
    } else {
      StillAhead(r, n);
      StillAhead(r, n + 1);
      InTileAhead(r, PhaseAt(r, n + 1));
      PhaseFollows(r, n);
      AheadFollows(r, PhaseAt(r, n), start);
      AheadSparesLast(r, PhaseAt(r, n));
    }
  }

  lemma InTileAhead(r: nat, p: Phase)
    requires ValidAhead(r, p)
    ensures p.InTile?
  {
  }

  /** gather_c does not write the last column block. */
  ghost predicate SparesLast(r: nat, c: GC.Control) {
    c.bramState == GC.Writing ==> c.writeBackCnt < 16 * r && c.colCnt + 1 < r
  }

  lemma OpeningSparesLast(r: nat, tau: nat)
    requires r >= 4 && 15 <= tau <= 16 * r + 21
    ensures SparesLast(r, Opening(r, tau).gc)
  {
  }

  lemma AheadSparesLast(r: nat, p: Phase)
    requires r > 1 && ValidAhead(r, p)
    ensures SparesLast(r, Ahead(r, p).gc)
  {
  }

  lemma NearlySparesLast(r: nat, n: nat, s: Machine)
    requires r > 1 && n < 36 && Nearly(r, false, true, n, s)
    ensures SparesLast(r, s.gc.ctl)
  {
    EarlyPhase(r, n);
    hide PhaseAt, DataOnSchedule;
  }

  ghost predicate SameLast(r: nat, mem: ResultBram, mem': ResultBram) {
    forall i: nat | i < 16 * r && i * r + (r - 1) < 256 :: mem'[i * r + (r - 1)] == mem[i * r + (r - 1)]
  }

  lemma WriteSparesLast(r: nat, s: Machine, start: bool)
    requires Fits(r) && SparesLast(r, s.gc.ctl)
    ensures SameLast(r, s.bramC, Step(r, s, false, start).bramC)
  {
    hide Step, GC.WordAddress;
    StepFields(r, s, start);
    var c := s.gc.ctl;
    if c.bramState == GC.Writing {
      ResultAddress(r, c.writeBackCnt, c.colCnt);
      forall i: nat | i < 16 * r && i * r + (r - 1) == c.writeBackCnt * r + c.colCnt ensures false {
        WordIndexInjective(r, i, r - 1, c.writeBackCnt, c.colCnt);
      }
    }
  }

  lemma {:induction false} RunsAhead(r: nat, m: Machine, start: nat -> bool, n: nat)
    requires r >= 4 && AfterReset(r, false, true, m) && start(0) && 36 <= n <= TimeOf(r, EarlyEnd(r))
    ensures IsAhead(r, n, Outline(StateAt(r, m, start, n)))
    decreases n
  {
    hide AfterReset, StepOutline, Outline, IsAhead, Step, StateAt, Nearly, TimeOf, SparesLast;
    if n == 36 {
      NearlyAt(r, false, true, m, start, 36);
      StartsAhead(r, StateAt(r, m, start, 36));
    } else {
      RunsAhead(r, m, start, n - 1);
      StateUnfolds(r, m, start, n - 1);
      OutlineSteps(r, StateAt(r, m, start, n - 1), start(n - 1));
      IsAheadFollows(r, n - 1, Outline(StateAt(r, m, start, n - 1)), start(n - 1));
    }
  }

  lemma StartsAhead(r: nat, s: Machine)
    requires r >= 4 && Nearly(r, false, true, 36, s)
    ensures IsAhead(r, 36, Outline(s))
  {
    EarlyPhase(r, 36);
    hide PhaseAt, DataOnSchedule;
  }

  lemma EndIsLater(r: nat)
    requires r >= 4
    ensures 16 * r + 43 <= TimeOf(r, EarlyEnd(r)) == RunLength(r) - (32 * r + 23)
  {
    var width, length := 16 * r + 22, ColumnLength(r);
    MulSucc(r - 1, length);
    MulSucc(r - 2, width);
    MulSucc(r - 1, width);
    MulMonotone(1, r - 1, length);
    hide ColumnLength;
    assert (r - 2) * width == r * width - 2 * width;
    assert length == r * width + 16 * r + 1 by {
      LengthOfColumn(r);
    }
  }

  lemma LengthOfColumn(r: nat)
    ensures ColumnLength(r) == r * (16 * r + 22) + 16 * r + 1
  {
  }

  /** Until its Finish, gather_c does not write the last column block. */
  lemma AheadSpares(r: nat, m: Machine, start: nat -> bool, n: nat)
    requires r >= 4 && AfterReset(r, false, true, m) && start(0) && n < TimeOf(r, EarlyEnd(r))
    ensures !StateAt(r, m, start, n).cc.finish && SparesLast(r, StateAt(r, m, start, n).gc.ctl)
  {
    hide AfterReset, StepOutline, IsAhead, Step, StateAt, Nearly, TimeOf, SparesLast;
    if n < 36 {
      NearlyAt(r, false, true, m, start, n);
      NearlyNoFinish(r, false, true, n, StateAt(r, m, start, n));
      NearlySparesLast(r, n, StateAt(r, m, start, n));
    } else {
      RunsAhead(r, m, start, n);
      IsAheadFollows(r, n, Outline(StateAt(r, m, start, n)), false);
    }
  }

  lemma {:induction false} LastColumnStays(r: nat, m: Machine, start: nat -> bool, n: nat)
    requires Fits(r) && r >= 4 && AfterReset(r, false, true, m) && start(0) && n <= TimeOf(r, EarlyEnd(r))
    ensures SameLast(r, m.bramC, StateAt(r, m, start, n).bramC)
    decreases n
  {
    hide *;
    StateBegins(r, m, start);
    if n > 0 {
      LastColumnStays(r, m, start, n - 1);
      AheadSpares(r, m, start, n - 1);
      StateUnfolds(r, m, start, n - 1);
      WriteSparesLast(r, StateAt(r, m, start, n - 1), start(n - 1));
      SameLastChains(r, m.bramC, StateAt(r, m, start, n - 1).bramC, StateAt(r, m, start, n).bramC);
    } else {
      SameLastChains(r, m.bramC, m.bramC, m.bramC);
    }
  }

  lemma SameLastChains(r: nat, mem: ResultBram, mem': ResultBram, mem'': ResultBram)
    ensures SameLast(r, mem, mem') && SameLast(r, mem', mem'') ==> SameLast(r, mem, mem'')
    ensures mem == mem' ==> SameLast(r, mem, mem')
  {
  }

  lemma AheadFinishes(r: nat, m: Machine, start: nat -> bool)
    requires r >= 4 && AfterReset(r, false, true, m) && start(0)
    ensures StateAt(r, m, start, TimeOf(r, EarlyEnd(r))).cc.finish
  {
    var n := TimeOf(r, EarlyEnd(r));
    EndIsLater(r);
    hide AfterReset, Ahead, StateAt, TimeOf, RunLength, ValidAhead, EarlyEnd, EndsAhead, PhaseAt;
    RunsAhead(r, m, start, n);
    StillAhead(r, n);
    EndsAheadIff(r, PhaseAt(r, n));
  }

  /** With four tiles a side or more, and Final down, a spurious write-back makes Finish rise 32r + 23 cycles
      early, when the last column block of C still is what it was before the run. */
  lemma FinishesEarly(r: nat, m: Machine, start: nat -> bool)
    requires r >= 4 && AfterReset(r, false, true, m) && start(0)
    ensures FirstFinish(r, m, start, RunLength(r) - (32 * r + 23))
    ensures Fits(r) ==> SameLast(r, m.bramC, StateAt(r, m, start, RunLength(r) - (32 * r + 23)).bramC)
  {
    EndIsLater(r);
    var n := TimeOf(r, EarlyEnd(r));
    hide AfterReset, StateAt, TimeOf, RunLength, SameLast, EarlyEnd, Fits, SparesLast;
    AheadFinishes(r, m, start);
    forall k: nat | k < n ensures !StateAt(r, m, start, k).cc.finish {
      AheadSpares(r, m, start, k);
    }
    if Fits(r) {
      LastColumnStays(r, m, start, n);
    }
  }
}
