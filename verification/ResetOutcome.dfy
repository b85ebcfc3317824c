/** What a reset is worth: exactly when the run that is started one idle clock after it comes out right. */
module ResetOutcome {
  import opened Words
  import opened ProcessingArray
  import opened Timeline
  import opened DataFlow
  import opened MatrixMultiply
  import opened AcceleratorRun
  import opened HostReference
  import opened StaleReset
  import opened LateRun
  import opened Desync
  import CC = ComputeControl
  import SA = ScatterA
  import SB = ScatterB
  import GC = GatherC

  /** Final up does no harm with a single tile, write_back with at most two tiles a side. */
  ghost predicate Harmless(r: nat, final: bool, writeBack: bool) {
    (final ==> r == 1) && (writeBack ==> r <= 2)
  }

  // ---------- Final up ----------

  /** Two pairs of operands have the same product as far as 16 bits tell. */
  ghost predicate SameProduct(r: nat, a: Matrix, b: Matrix, b': Matrix) {
    forall i: nat, j: nat | i < 16 * r && j < 16 * r :: Wrap16(Dot(a, b, i, j, 16 * r)) == Wrap16(Dot(a, b', i, j, 16 * r))
  }

  lemma MirrorTwice(r: nat, j: nat)
    requires j < 16 * r
    ensures Mirror(Mirror(j)) == j && Mirror(j) < 16 * r
  {
  }

  lemma MirroredElement(r: nat, a: Matrix, b: Matrix, mem: ResultBram, i: nat, j: nat)
    requires HoldsMirroredProduct(r, a, b, mem) && i < 16 * r && j < 16 * r
    ensures ResultAt(r, mem, i, Mirror(j)) == Wrap16(Dot(a, b, i, j, 16 * r))
  {
    hide Wrap16, Dot, ResultAt, Mirror;
    MirrorTwice(r, j);
  }

  lemma SameProductIff(r: nat, a: Matrix, b: Matrix, b': Matrix, mem: ResultBram)
    requires HoldsMirroredProduct(r, a, b', mem)
    ensures HoldsMirroredProduct(r, a, b, mem) <==> SameProduct(r, a, b, b')
  {
    hide Wrap16, Dot, ResultAt, Mirror;
    if HoldsMirroredProduct(r, a, b, mem) {
      forall i: nat, j: nat | i < 16 * r && j < 16 * r
        ensures Wrap16(Dot(a, b, i, j, 16 * r)) == Wrap16(Dot(a, b', i, j, 16 * r))
      {
        MirroredElement(r, a, b, mem, i, j);
        MirroredElement(r, a, b', mem, i, j);
      }
    }
    if SameProduct(r, a, b, b') {
      forall i: nat, j: nat | i < 16 * r && j < 16 * r
        ensures ResultAt(r, mem, i, j) == Wrap16(Dot(a, b, i, Mirror(j), 16 * r))
      {
        MirrorTwice(r, j);
      }
    }
  }

  lemma FirstFinishUnique(r: nat, m: Machine, start: nat -> bool, n: nat, k: nat)
    requires FirstFinish(r, m, start, n) && FirstFinish(r, m, start, k)
    ensures n == k
  {
    hide StateAt;
  }

  /** Whether a run comes out right shows at its first Finish. */
  lemma RightAtFinish(r: nat, m: Machine, start: nat -> bool, n: nat)
    requires FirstFinish(r, m, start, n)
    ensures ComesOutRight(r, m, start) <==> HoldsMirroredProduct(r, A(r, m), B(r, m), StateAt(r, m, start, n).bramC)
  {
    hide HoldsMirroredProduct, StateAt, FirstFinish;
    forall k: nat | FirstFinish(r, m, start, k) ensures k == n {
      FirstFinishUnique(r, m, start, n, k);
    }
  }

  /** A run of more than one tile with Final up too early comes out right if and only if B moved by one tile
      has the same product. */
  lemma LateRightIff(r: nat, writeBack: bool, m: Machine, start: nat -> bool)
    requires Fits(r) && r > 1 && AfterReset(r, true, writeBack, m) && start(0) && (writeBack ==> r <= 2)
    ensures ComesOutRight(r, m, start) <==> SameProduct(r, A(r, m), B(r, m), Behind(r, B(r, m)))
  {
    hide *;
    LateRunFinishes(r, writeBack, m, start);
    LateRunComputes(r, writeBack, m, start, RunLength(r) + 19);
    RightAtFinish(r, m, start, RunLength(r) + 19);
    SameProductIff(r, A(r, m), B(r, m), Behind(r, B(r, m)), StateAt(r, m, start, RunLength(r) + 19).bramC);
  }

  /** Operands that show it: A selects row 16 of B, whose only element is in its corner. */
  ghost predicate Shows(r: nat, m: Machine)
    requires r > 0
  {
    m.bramA == Store(r, Selector(16 * r, 16)) && m.bramB == Store(r, Corner(16 * r))
  }

  lemma SelectorIsSquare(n: nat, t: nat)
    ensures Square(Selector(n, t), n) && Square(Corner(n), n)
  {
  }

  lemma OperandsOfShows(r: nat, m: Machine, k: nat)
    requires Fits(r) && r > 1 && Shows(r, m) && k < 16 * r
    ensures A(r, m)(0, k) == (if k == 16 then 1 else 0) && B(r, m)(k, 0) == if k == 0 then 1 else 0
  {
    SelectorIsSquare(16 * r, 16);
    StoredIsHeld(r, Selector(16 * r, 16));
    StoredIsHeld(r, Corner(16 * r));
    hide Store, OperandMatrix;
    assert Selector(16 * r, 16)[0][k] == A(r, m)(0, k);
    assert Corner(16 * r)[k][0] == B(r, m)(k, 0);
  }

  lemma LateShows(r: nat, m: Machine)
    requires Fits(r) && r > 1 && Shows(r, m)
    ensures !SameProduct(r, A(r, m), B(r, m), Behind(r, B(r, m)))
  {
    var a, b := A(r, m), B(r, m);
    hide Store, OperandMatrix, A, B, Shows;
    forall k: nat | k < 16 * r ensures a(0, k) == if k == 16 then 1 else 0 {
      OperandsOfShows(r, m, k);
    }
    OperandsOfShows(r, m, 0);
    OperandsOfShows(r, m, 16);
    SelectorDot(a, 16, b, 0, 0, 16 * r);
    SelectorDot(a, 16, Behind(r, b), 0, 0, 16 * r);
    hide Dot;
  }

  // ---------- write_back up ----------

  /** A run that never raises Finish does not come out right. */
  lemma DeadlockIsWrong(r: nat, final: bool, m: Machine, start: nat -> bool)
    requires DeadlockSize(r, final) && AfterReset(r, final, true, m) && start(0)
    ensures !ComesOutRight(r, m, start)
  {
    hide StateAt, AfterReset, HoldsMirroredProduct;
    forall n: nat ensures !FirstFinish(r, m, start, n) {
      NeverFinishes(r, final, m, start, n);
    }
  }

  /** Element (i, j) of C as the run should leave it. */
  function Due(r: nat, m: Machine, i: nat, j: nat): int {
    Wrap16(Dot(A(r, m), B(r, m), i, Mirror(j), 16 * r))
  }

  lemma SameLastElement(r: nat, mem: ResultBram, mem': ResultBram, i: nat)
    requires Fits(r) && SameLast(r, mem, mem') && i < 16 * r
    ensures ResultAt(r, mem', i, 16 * r - 1) == ResultAt(r, mem, i, 16 * r - 1)
  {
    WordIndexBound(r, i, r - 1);
    assert (16 * r - 1) / 16 == r - 1;
  }

  /** With four tiles a side the last column must already have been right. */
  lemma AheadNeeds(r: nat, m: Machine, start: nat -> bool, i: nat)
    requires Fits(r) && r >= 4 && AfterReset(r, false, true, m) && start(0) && i < 16 * r
    ensures ComesOutRight(r, m, start) ==> ResultAt(r, m.bramC, i, 16 * r - 1) == Due(r, m, i, 16 * r - 1)
  {
    hide StateAt, AfterReset, RunLength, FirstFinish, ResultAt, SameLast, ComesOutRight, Wrap16, Dot, Mirror;
    FinishesEarly(r, m, start);
    EndIsLater(r);
    var n := RunLength(r) - (32 * r + 23);
    RightAtFinish(r, m, start, n);
    SameLastElement(r, m.bramC, StateAt(r, m, start, n).bramC, i);
  }

  /** Operands that show it: A selects row 0 of B, which has a 1 in the first column of the last column block;
      BRAM C does not have it yet. */
  ghost predicate ShowsLast(r: nat, m: Machine)
    requires r > 0
  {
    && m.bramA == Store(r, Selector(16 * r, 0)) && m.bramB == Store(r, Selector(16 * r, 16 * r - 16))
    && ResultAt(r, m.bramC, 0, 16 * r - 1) == 0
  }

  lemma OperandsOfShowsLast(r: nat, m: Machine, k: nat)
    requires Fits(r) && ShowsLast(r, m) && k < 16 * r
    ensures A(r, m)(0, k) == (if k == 0 then 1 else 0) && B(r, m)(0, 16 * r - 16) == 1
  {
    SelectorIsSquare(16 * r, 0);
    SelectorIsSquare(16 * r, 16 * r - 16);
    StoredIsHeld(r, Selector(16 * r, 0));
    StoredIsHeld(r, Selector(16 * r, 16 * r - 16));
    hide Store, OperandMatrix;
    assert Selector(16 * r, 0)[0][k] == A(r, m)(0, k);
    assert Selector(16 * r, 16 * r - 16)[0][16 * r - 16] == B(r, m)(0, 16 * r - 16);
  }

  lemma DueOfLast(r: nat, m: Machine)
    requires Fits(r) && ShowsLast(r, m)
    ensures Due(r, m, 0, 16 * r - 1) == 1
  {
    var a, b := A(r, m), B(r, m);
    assert Mirror(16 * r - 1) == 16 * r - 16;
    hide Store, OperandMatrix, A, B, ShowsLast, Mirror;
    forall k: nat | k < 16 * r ensures a(0, k) == if k == 0 then 1 else 0 {
      OperandsOfShowsLast(r, m, k);
    }
    OperandsOfShowsLast(r, m, 0);
    SelectorDot(a, 0, b, 0, 16 * r - 16, 16 * r);
    hide Dot;
  }

  lemma AheadIsWrong(r: nat, m: Machine, start: nat -> bool)
    requires Fits(r) && r >= 4 && AfterReset(r, false, true, m) && start(0) && ShowsLast(r, m)
    ensures !ComesOutRight(r, m, start)
  {
    hide ComesOutRight, ShowsLast, AfterReset, Due, ResultAt;
    AheadNeeds(r, m, start, 0);
    DueOfLast(r, m);
    hide *;
    ZeroInLast(r, m);
  }

  lemma ZeroInLast(r: nat, m: Machine)
    requires r > 0 && ShowsLast(r, m)
    ensures ResultAt(r, m.bramC, 0, 16 * r - 1) == 0
  {
  }

  // ---------- both ----------

  /** Operands on which a run after a reset that was not harmless goes wrong. */
  ghost predicate Spoiling(r: nat, final: bool, m: Machine)
    requires r > 0
  {
    if final then Shows(r, m) else ShowsLast(r, m)
  }

  lemma SpoiledRun(r: nat, final: bool, writeBack: bool, m: Machine, start: nat -> bool)
    requires Fits(r) && AfterReset(r, final, writeBack, m) && start(0) && !Harmless(r, final, writeBack) && Spoiling(r, final, m)
    ensures !ComesOutRight(r, m, start)
  {
    hide AfterReset, ComesOutRight, Shows, ShowsLast, SameProduct;
    if writeBack && r >= 3 && (final || r == 3) {
      DeadlockIsWrong(r, final, m, start);
    } else if final {
      LateRightIff(r, writeBack, m, start);
      LateShows(r, m);
    } else {
      AheadIsWrong(r, m, start);
    }
  }

  lemma ResetKeepsMemories(r: nat, m: Machine, start: bool)
    ensures ResetThenIdle(r, m, start).bramA == m.bramA && ResetThenIdle(r, m, start).bramB == m.bramB
    ensures !Writes(m) ==> ResetThenIdle(r, m, start).bramC == m.bramC
  {
    hide ArrayNext;
  }

  /** The design at rest but for the two registers. */
  function AtRest(r: nat, final: bool, writeBack: bool, bramA: OperandBram, bramB: OperandBram): Machine {
    Machine(
      CC.Registers(CC.Idle, 0, 0, false, false, false), SA.Registers(SA.Idle, 0, 0, false, false),
      SB.Registers(SB.Control(SB.Idle, 0, 0, 0, 0, final, true, false, false), ZeroRows(16), ZERO_LANES),
      GC.Registers(GC.Control(GC.Idle, 0, 0, 0, writeBack, false, GC.BramIdle, 0, true), ZeroRows(16 * r)),
      ZeroRows(16), bramA, bramB, ZeroRows(256), ZERO_LANES, ZERO_LANES)
  }

  function SpoilingA(r: nat, final: bool): OperandBram
    requires r > 0
  {
    Store(r, Selector(16 * r, if final then 16 else 0))
  }

  function SpoilingB(r: nat, final: bool): OperandBram
    requires r > 0
  {
    Store(r, if final then Corner(16 * r) else Selector(16 * r, 16 * r - 16))
  }

  /** The reset came while Final and write_back had the given values. */
  ghost predicate FoundBy(r: nat, final: bool, writeBack: bool, m: Machine) {
    |m.gc.buffer| == 16 * r && m.sb.ctl.final == final && m.gc.ctl.writeBack == writeBack
  }

  lemma SpoilsOne(r: nat, final: bool, writeBack: bool)
    requires Fits(r) && !Harmless(r, final, writeBack)
    ensures
      exists m: Machine, st: bool, start: nat -> bool ::
        FoundBy(r, final, writeBack, m) && start(0) && !ComesOutRight(r, ResetThenIdle(r, m, st), start)
  {
    SomeSize(r);
    var m, start := AtRest(r, final, writeBack, SpoilingA(r, final), SpoilingB(r, final)), (n: nat) => true;
    assert FoundBy(r, final, writeBack, m) && !Writes(m) && start(0);
    var m' := ResetThenIdle(r, m, false);
    ResetLeaves(r, m, false);
    ResetKeepsMemories(r, m, false);
    ZeroResult(r, m'.bramC);
    assert Spoiling(r, final, m') by {
      hide ResetThenIdle, Store, Selector, Corner, ResultAt;
    }
    hide ResetThenIdle, AfterReset, ComesOutRight, Spoiling, Harmless, AtRest, Fits;
    SpoiledRun(r, final, writeBack, m', start);
    assert FoundBy(r, final, writeBack, m) && start(0) && !ComesOutRight(r, ResetThenIdle(r, m, false), start);
  }

  lemma ZeroResult(r: nat, mem: ResultBram)
    requires r > 0
    ensures mem == ZeroRows(256) ==> ResultAt(r, mem, 0, 16 * r - 1) == 0
  {
  }

  /** Every run started one idle clock after a reset that finds Final and write_back at the given values comes
      out right if and only if a Final that is up meets a single tile and a write_back that is up at most two
      tiles a side. */
  lemma ResetOutcomeIff(r: nat, final: bool, writeBack: bool)
    requires Fits(r)
    ensures
      (forall m: Machine, st: bool, start: nat -> bool | FoundBy(r, final, writeBack, m) && start(0) ::
        ComesOutRight(r, ResetThenIdle(r, m, st), start)) <==>
      (final ==> r == 1) && (writeBack ==> r <= 2)
  {
    hide ResetThenIdle, AfterReset, ComesOutRight, Fits;
    if Harmless(r, final, writeBack) {
      forall m: Machine, st: bool, start: nat -> bool | FoundBy(r, final, writeBack, m) && start(0)
        ensures ComesOutRight(r, ResetThenIdle(r, m, st), start)
      {
        ResetLeaves(r, m, st);
        HarmlessReset(r, final, writeBack, ResetThenIdle(r, m, st), start);
      }
    } else {
      SpoilsOne(r, final, writeBack);
    }
  }

  // ---------- resets during a run ----------

  /** The phase in which write_back is up for the last column block. */
  function LastWriteBack(r: nat): Phase
    requires r > 0
  {
    InTile(r - 1, r - 1, 16 * r + 20)
  }

  lemma LastWriteBackIsValid(r: nat)
    requires r > 0
    ensures Valid(r, LastWriteBack(r)) && LastWriteBack(r).InTile?
  {
  }

  /** Up to the last column block's write-back nothing is written there. */
  lemma ScheduledSparesLast(r: nat, p: Phase)
    requires r > 0 && Valid(r, p) && TimeOf(r, p) <= TimeOf(r, LastWriteBack(r))
    ensures SparesLast(r, GatherAt(r, p))
  {
    hide TimeOf;
    if p.InTile? && p.col == r - 1 && p.row == r - 1 {
      WrittenLate(r, p);
    }
  }

  lemma WrittenLate(r: nat, p: Phase)
    requires r > 0 && p.InTile? && p.col == r - 1 && p.row == r - 1
    ensures TimeOf(r, p) == TimeOf(r, LastWriteBack(r)) + p.tau - (16 * r + 20)
  {
    hide ColumnLength;
  }

  lemma {:induction false} RunSparesLast(r: nat, m: Machine, start: nat -> bool, n: nat)
    requires Fits(r) && r > 0 && Ready(r, m) && start(0)
    requires n <= TimeOf(r, LastWriteBack(r))
    ensures SameLast(r, m.bramC, StateAt(r, m, start, n).bramC)
    decreases n
  {
    hide *;
    SomeSize(r);
    LastWriteBackIsValid(r);
    PhaseAtItsTime(r, LastWriteBack(r));
    StateBegins(r, m, start);
    SameLastChains(r, m.bramC, m.bramC, StateAt(r, m, start, 0).bramC);
    if n > 0 {
      RunSparesLast(r, m, start, n - 1);
      RunFollows(r, m, start, n - 1);
      PhaseKeepsTime(r, n - 1);
      GatherOnSchedule(r, m.cc.finish, PhaseAt(r, n - 1), StateAt(r, m, start, n - 1));
      ScheduledSparesLast(r, PhaseAt(r, n - 1));
      StateUnfolds(r, m, start, n - 1);
      WriteSparesLast(r, StateAt(r, m, start, n - 1), start(n - 1));
      SameLastChains(r, m.bramC, StateAt(r, m, start, n - 1).bramC, StateAt(r, m, start, n).bramC);
    }
  }

  lemma GatherOnSchedule(r: nat, f0: bool, p: Phase, s: Machine)
    requires r > 0 && OnSchedule(r, f0, p, s)
    ensures s.gc.ctl == GatherAt(r, p) && s.sb.ctl == ScatterBAt(r, p) && |s.gc.buffer| == 16 * r && Valid(r, p)
  {
    hide DataOnSchedule;
  }

  /** write_back comes up in the cycle before a column block is written, and not later than for the last. */
  lemma WriteBackComes(r: nat, p: Phase)
    requires r > 0 && Valid(r, p) && WriteBackUp(r, p)
    ensures TimeOf(r, p) <= TimeOf(r, LastWriteBack(r)) && GatherAt(r, p).bramState != GC.Writing
    ensures !FinalUp(r, p)
  {
    MulMonotone(p.col, r - 1, ColumnLength(r));
    hide ColumnLength;
  }

  /** What a reset in cycle n of a run leaves. */
  lemma ResetInRun(r: nat, m: Machine, start: nat -> bool, n: nat)
    requires Fits(r) && Ready(r, m) && start(0) && n <= RunLength(r)
    ensures
      var p, s := PhaseAt(r, n), StateAt(r, m, start, n);
      var m' := ResetThenIdle(r, s, start(n));
      && AfterReset(r, FinalUp(r, p), WriteBackUp(r, p), m') && m'.bramA == m.bramA && m'.bramB == m.bramB
      && (WriteBackUp(r, p) ==> !FinalUp(r, p) && SameLast(r, m.bramC, m'.bramC))
  {
    var p, s := PhaseAt(r, n), StateAt(r, m, start, n);
    SomeSize(r);
    hide *;
    RunFollows(r, m, start, n);
    PhaseKeepsTime(r, n);
    GatherOnSchedule(r, m.cc.finish, p, s);
    UpInSchedule(r, p);
    ResetLeaves(r, s, start(n));
    ResetKeepsMemories(r, s, start(n));
    if WriteBackUp(r, p) {
      WriteBackComes(r, p);
      NotWriting(s);
      RunSparesLast(r, m, start, n);
    }
  }

  lemma NotWriting(s: Machine)
    requires s.gc.ctl.bramState != GC.Writing
    ensures !Writes(s)
  {
  }

  /** The design at rest with the operands that show it. */
  function Showing(r: nat, final: bool): Machine
    requires r > 0
  {
    AtRest(r, false, false, SpoilingA(r, final), SpoilingB(r, final))
  }

  lemma ShowingIsReady(r: nat, final: bool)
    requires r > 0
    ensures Ready(r, Showing(r, final))
  {
  }

  lemma StaysSpoiling(r: nat, final: bool, m: Machine)
    requires Fits(r) && m.bramA == SpoilingA(r, final) && m.bramB == SpoilingB(r, final)
    requires !final ==> SameLast(r, ZeroRows(256), m.bramC)
    ensures Spoiling(r, final, m)
  {
    if !final {
      ZeroResult(r, ZeroRows(256));
      SameLastElement(r, ZeroRows(256), m.bramC, 0);
    }
    hide Store, Selector, Corner, ResultAt;
  }

  lemma SpoilsRun(r: nat, n: nat, start: nat -> bool)
    requires Fits(r) && n <= RunLength(r) && start(0)
    requires !Harmless(r, FinalUp(r, PhaseAt(r, n)), WriteBackUp(r, PhaseAt(r, n)))
    ensures
      var m := Showing(r, FinalUp(r, PhaseAt(r, n)));
      Ready(r, m) && !ComesOutRight(r, ResetThenIdle(r, StateAt(r, m, start, n), start(n)), start)
  {
    SomeSize(r);
    var final, writeBack := FinalUp(r, PhaseAt(r, n)), WriteBackUp(r, PhaseAt(r, n));
    var m := Showing(r, final);
    assert final || writeBack;
    assert m.bramA == SpoilingA(r, final) && m.bramB == SpoilingB(r, final) && m.bramC == ZeroRows(256);
    hide *;
    ShowingIsReady(r, final);
    ResetInRun(r, m, start, n);
    var m' := ResetThenIdle(r, StateAt(r, m, start, n), start(n));
    StaysSpoiling(r, final, m');
    SpoiledRun(r, final, writeBack, m', start);
  }

  /** A reset in cycle n of a run, one idle clock, and start: that comes out right whatever the operands are, if
      and only if Final is not up in that cycle or there is one tile, and write_back is not up or there are at
      most two tiles a side. */
  lemma ResetInRunIff(r: nat, n: nat)
    requires Fits(r) && n <= RunLength(r)
    ensures
      (forall m: Machine, start: nat -> bool, start': nat -> bool | Ready(r, m) && start(0) && start'(0) ::
        ComesOutRight(r, ResetThenIdle(r, StateAt(r, m, start, n), start(n)), start')) <==>
      (FinalUp(r, PhaseAt(r, n)) ==> r == 1) && (WriteBackUp(r, PhaseAt(r, n)) ==> r <= 2)
  {
    var final, writeBack := FinalUp(r, PhaseAt(r, n)), WriteBackUp(r, PhaseAt(r, n));
    hide ResetThenIdle, AfterReset, ComesOutRight, Fits, Ready, FinalUp, WriteBackUp, PhaseAt, StateAt, RunLength, Showing;
    if Harmless(r, final, writeBack) {
      forall m: Machine, start: nat -> bool, start': nat -> bool | Ready(r, m) && start(0) && start'(0)
        ensures ComesOutRight(r, ResetThenIdle(r, StateAt(r, m, start, n), start(n)), start')
      {
        ResetInRun(r, m, start, n);
        HarmlessReset(r, final, writeBack, ResetThenIdle(r, StateAt(r, m, start, n), start(n)), start');
      }
    } else {
      SomeSize(r);
      var start := (k: nat) => true;
      assert start(0);
      SpoilsRun(r, n, start);
    }
  }

  /** From two tiles a side on every run has a cycle in which a reset spoils the next run of some operands. */
  lemma SomeResetSpoils(r: nat)
    requires Fits(r) && r >= 2
    ensures
      exists n: nat, m: Machine, start: nat -> bool ::
        n < RunLength(r) && Ready(r, m) && start(0) &&
        !ComesOutRight(r, ResetThenIdle(r, StateAt(r, m, start, n), start(n)), start)
  {
    var p := InTile(r - 1, r - 1, 0);
    var n := TimeOf(r, p);
    var start := (k: nat) => true;
    assert Valid(r, p) && FinalUp(r, p) && start(0);
    PhaseAtItsTime(r, p);
    hide ResetThenIdle, ComesOutRight, Fits, Ready, FinalUp, WriteBackUp, PhaseAt, StateAt, RunLength, Showing, TimeOf;
    SpoilsRun(r, n, start);
    var m := Showing(r, true);
    assert n < RunLength(r) && Ready(r, m) && !ComesOutRight(r, ResetThenIdle(r, StateAt(r, m, start, n), start(n)), start);
  }
}
