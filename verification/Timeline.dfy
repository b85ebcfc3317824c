/** The schedule of a run: which register values each controller holds at each cycle.

    A run is R x R tile visits, tile (col, row) in column-major order of the tile grid. tau counts the
    cycles of a visit from the first shift of the tile into the PE array. */
module Timeline {
  import CC = ComputeControl
  import SA = ScatterA
  import SB = ScatterB
  import GC = GatherC

  datatype Phase =
    | Launch(t: nat)                             // t cycles after start was seen
    | InTile(col: nat, row: nat, tau: nat)
    | Finished                                   // the cycle at which Finish is up

  predicate IsLast(r: nat, col: nat, row: nat) {
    col + 1 == r && row + 1 == r
  }

  function NextRow(r: nat, row: nat): nat {
    if row + 1 == r then 0 else row + 1
  }

  function NextCol(r: nat, col: nat, row: nat): nat {
    if row + 1 != r then col else if col + 1 == r then 0 else col + 1
  }

  /** The cycle of a visit in which gather_done is up. */
  function DoneTau(r: nat, row: nat): nat {
    if row + 1 == r then 32 * r + 21 else 16 * r + 20
  }

  ghost predicate Valid(r: nat, p: Phase) {
    match p
    case Launch(t) => t <= 20
    case InTile(col, row, tau) =>
      col < r && row < r && tau <= DoneTau(r, row) + if IsLast(r, col, row) then 0 else 1
    case Finished => true
  }

  function After(r: nat, p: Phase): Phase {
    match p
    case Launch(t) => if t == 20 then InTile(0, 0, 0) else Launch(t + 1)
    case InTile(col, row, tau) =>
      if tau < DoneTau(r, row) then InTile(col, row, tau + 1)
      else if tau > DoneTau(r, row) then InTile(NextCol(r, col, row), NextRow(r, row), 0)
      else if IsLast(r, col, row) then Finished
      else InTile(col, row, tau + 1)
    case Finished => Finished
  }

  // The four handshake wires as functions of the phase.

  predicate BLoadAt(r: nat, p: Phase) {
    match p
    case Launch(t) => t == 1
    case InTile(col, row, tau) => tau == DoneTau(r, row) + 1
    case Finished => false
  }

  predicate LoadDoneAt(p: Phase) {
    p.InTile? && p.tau == 16
  }

  predicate StartCalAt(p: Phase) {
    p.InTile? && p.tau == 17
  }

  predicate GatherDoneAt(r: nat, p: Phase) {
    p.InTile? && p.tau == DoneTau(r, p.row)
  }

  /** compute_control; f0 is the value of Finish when the run was started. */
  function ControlAt(r: nat, p: Phase, f0: bool): CC.Registers {
    match p
    case Launch(t) =>
      CC.Registers(if t == 0 then CC.Idle else CC.Preparing, 0, 0, false, t == 1, f0)
    case InTile(col, row, tau) =>
      var fin := f0 && col == 0 && row == 0;
      if tau <= 16 then CC.Registers(CC.Preparing, row, col, false, false, fin)
      else if tau == 17 then CC.Registers(CC.Computing, row, col, true, false, fin)
      else if tau <= DoneTau(r, row) then CC.Registers(CC.Computing, row, col, false, false, false)
      else CC.Registers(CC.Preparing, NextRow(r, row), NextCol(r, col, row), false, true, false)
    case Finished => CC.Registers(CC.Idle, 0, 0, false, false, true)
  }

  function ScatterAAt(r: nat, p: Phase): SA.Registers {
    match p
    case Launch(_) => SA.Registers(SA.Idle, 0, 0, false, false)
    case InTile(_, row, tau) =>
      var next := NextRow(r, row);
      var rest := (strip: nat) => if strip == 0 then SA.Idle else SA.Waiting;
      if tau <= 17 then SA.Registers(rest(row), 0, row, false, false)
      else if tau < 16 * r + 18 then SA.Registers(SA.Calculate, tau - 18, row, tau > 18, false)
      else if tau == 16 * r + 18 then
        SA.Registers(rest(next), if next == 0 then 16 * r - 1 else 0, next, true, next == 0)
      else SA.Registers(rest(next), 0, next, false, false)
    case Finished => SA.Registers(SA.Idle, 0, 0, false, false)
  }

  function ScatterBAt(r: nat, p: Phase): SB.Control {
    var idle := SB.Control(SB.Idle, 0, 0, 0, 0, false, true, false, false);
    match p
    case Launch(t) =>
      if t <= 1 then idle
      else if t <= 19 then SB.Control(SB.Preparing, t - 2, 0, 0, 0, false, true, false, false)
      else SB.Control(SB.Waiting, 0, NextRow(r, 0), NextCol(r, 0, 0), 0, IsLast(r, 0, 0), true, false, false)
    case InTile(col, row, tau) =>
      var nr, nc := NextRow(r, row), NextCol(r, col, row);
      var last := IsLast(r, col, row);
      if tau <= 15 then SB.Control(SB.Loading, 0, nr, nc, tau, last, false, true, false)
      else if last then if tau == 16 then idle.(first := false, stationaryCtrl := true, loadDone := true) else idle
      else if tau <= 33 then SB.Control(SB.Preparing, tau - 16, nr, nc, 0, false, false, tau == 16, tau == 16)
      else SB.Control(SB.Waiting, 0, NextRow(r, nr), NextCol(r, nc, nr), 0, IsLast(r, nc, nr), false, false, false)
    case Finished => idle
  }

  function GatherAt(r: nat, p: Phase): GC.Control {
    var idle := GC.Control(GC.Idle, 0, 0, 0, false, false, GC.BramIdle, 0, true);
    match p
    case Launch(_) => idle
    case InTile(col, row, tau) =>
      var here := idle.(rowCnt := row, colCnt := col);
      var lastRow := row + 1 == r;
      if tau <= 17 then here.(state := if row == 0 && col == 0 then GC.Idle else GC.Waiting)
      else if tau <= 16 * r + 19 then here.(state := GC.Gathering, inBlockCnt := tau - 18)
      else if tau == 16 * r + 20 then here.(state := GC.Waiting, recieveDone := true, writeBack := lastRow)
      else if tau > DoneTau(r, row) then
        here.(state := GC.Waiting, rowCnt := NextRow(r, row), colCnt := NextCol(r, col, row))
      else if tau < 32 * r + 21 then
        here.(state := GC.Waiting, bramState := GC.Writing, writeBackCnt := tau - (16 * r + 21), writeBackDone := false)
      else here.(state := GC.Waiting, bramState := GC.Cleaning)
    case Finished => idle
  }

  /** The wires of the schedule are the outputs of the scheduled registers. */
  lemma WiresAgree(r: nat, p: Phase, f0: bool)
    requires r > 0 && Valid(r, p)
    ensures ControlAt(r, p, f0).bLoad == BLoadAt(r, p) && ControlAt(r, p, f0).startCal == StartCalAt(p)
    ensures ScatterBAt(r, p).loadDone == LoadDoneAt(p)
    ensures GC.GatherDone(GatherAt(r, p)) == GatherDoneAt(r, p)
  {
  }

  // Each controller, driven by the wires of the schedule, follows the schedule.

  lemma AfterIsValid(r: nat, p: Phase)
    requires r > 0 && Valid(r, p)
    ensures Valid(r, After(r, p))
  {
  }

  lemma ControlFollows(r: nat, p: Phase, f0: bool, start: bool)
    requires r > 0 && Valid(r, p) && p != Finished && (p == Launch(0) ==> start)
    ensures CC.Next(r, ControlAt(r, p, f0), false, start, LoadDoneAt(p), GatherDoneAt(r, p)) == ControlAt(r, After(r, p), f0)
  {
  }

  lemma ScatterAFollows(r: nat, p: Phase)
    requires r > 0 && Valid(r, p) && p != Finished
    ensures SA.Next(r, ScatterAAt(r, p), false, StartCalAt(p)) == ScatterAAt(r, After(r, p))
  {
  }

  lemma ScatterBFollows(r: nat, p: Phase)
    requires r > 0 && Valid(r, p) && p != Finished
    ensures SB.NextControl(r, ScatterBAt(r, p), false, BLoadAt(r, p)) == ScatterBAt(r, After(r, p))
  {
  }

  lemma GatherFollows(r: nat, p: Phase)
    requires r > 0 && Valid(r, p) && p != Finished
    ensures GC.NextControl(r, GatherAt(r, p), false, StartCalAt(p)) == GatherAt(r, After(r, p))
  {
    GatherStateFollows(r, p);
    BramStateFollows(r, p);
    hide GatherAt, After, GC.NextGather, GC.NextBram, StartCalAt, Valid;
  }

  lemma GatherStateFollows(r: nat, p: Phase)
    requires r > 0 && Valid(r, p) && p != Finished
    ensures
      var next, want := GC.NextGather(r, GatherAt(r, p), false, StartCalAt(p)), GatherAt(r, After(r, p));
      next.(bramState := want.bramState, writeBackCnt := want.writeBackCnt, writeBackDone := want.writeBackDone) == want
  {
  }

  lemma BramStateFollows(r: nat, p: Phase)
    requires r > 0 && Valid(r, p) && p != Finished
    ensures
      var next, want := GC.NextBram(r, GatherAt(r, p), false), GatherAt(r, After(r, p));
      next.bramState == want.bramState && next.writeBackCnt == want.writeBackCnt && next.writeBackDone == want.writeBackDone
  {
  }

  // ---------- elapsed time ----------

  /** Cycles spent on one column of tiles. */
  function ColumnLength(r: nat): nat {
    r * (16 * r + 22) + 16 * r + 1
  }

  /** Cycles from the one that sees start to the one that shows Finish. */
  function RunLength(r: nat): nat {
    20 + r * ColumnLength(r)
  }

  function TimeOf(r: nat, p: Phase): nat {
    match p
    case Launch(t) => t
    case InTile(col, row, tau) => 21 + col * ColumnLength(r) + row * (16 * r + 22) + tau
    case Finished => RunLength(r)
  }

  /** The phase n cycles after start was seen. */
  function PhaseAt(r: nat, n: nat): Phase {
    if n == 0 then Launch(0) else After(r, PhaseAt(r, n - 1))
  }

  lemma MulSucc(x: nat, y: nat)
    ensures (x + 1) * y == x * y + y
  {
  }

  lemma MulMonotone(x: nat, y: nat, z: nat)
    requires x <= y
    ensures x * z <= y * z
  {
  }

  /** A column takes r row visits, the last of which is longer by the write-back. */
  lemma ColumnFits(r: nat, row: nat, tau: nat)
    requires r > 0 && row < r && tau <= DoneTau(r, row) + 1
    ensures row * (16 * r + 22) + tau < ColumnLength(r)
    ensures row + 1 < r ==> row * (16 * r + 22) + tau + 1 < ColumnLength(r)
    ensures row + 1 == r ==> row * (16 * r + 22) + DoneTau(r, row) + 2 == ColumnLength(r)
  {
    MulSucc(r - 1, 16 * r + 22);
    MulMonotone(row, r - 1, 16 * r + 22);
    if row + 1 < r {
      MulSucc(row, 16 * r + 22);
      MulMonotone(row + 1, r - 1, 16 * r + 22);
    }
  }

  lemma TimeAdvances(r: nat, p: Phase)
    requires r > 0 && Valid(r, p) && p != Finished
    ensures TimeOf(r, After(r, p)) == TimeOf(r, p) + 1
    ensures TimeOf(r, p) < RunLength(r)
  {
    if p.InTile? {
      var length := ColumnLength(r);
      ColumnFits(r, p.row, p.tau);
      ColumnsFit(r, p.col, length);
      MulSucc(p.row, 16 * r + 22);
      hide ColumnLength;
      TileTimeAdvances(r, p, length, p.col * length, p.row * (16 * r + 22), r * length);
    } else {
      LaunchTimeAdvances(r, p);
    }
  }

  /** The columns of tiles, each of the same length. */
  lemma ColumnsFit(r: nat, col: nat, length: nat)
    requires col < r
    ensures (col + 1) * length == col * length + length
    ensures if col + 1 == r then col * length + length == r * length else col * length + 2 * length <= r * length
  {
    MulSucc(col, length);
    if col + 1 < r {
      MulSucc(col + 1, length);
      MulMonotone(col + 2, r, length);
    }
  }

  lemma LaunchTimeAdvances(r: nat, p: Phase)
    requires r > 0 && Valid(r, p) && p.Launch?
    ensures TimeOf(r, After(r, p)) == TimeOf(r, p) + 1
    ensures TimeOf(r, p) < RunLength(r)
  {
    MulMonotone(1, r, ColumnLength(r));
  }

  /** The same for a tile visit, with the products named. */
  lemma TileTimeAdvances(r: nat, p: Phase, length: nat, columns: nat, rows: nat, all: nat)
    requires r > 0 && Valid(r, p) && p.InTile?
    requires length == ColumnLength(r) && columns == p.col * length && rows == p.row * (16 * r + 22) && all == r * length
    requires (p.col + 1) * length == columns + length
    requires (p.row + 1) * (16 * r + 22) == rows + 16 * r + 22
    requires rows + p.tau < length
    requires p.row + 1 == r ==> rows + DoneTau(r, p.row) + 2 == length
    requires p.row + 1 < r ==> rows + p.tau + 1 < length
    requires if p.col + 1 == r then columns + length == all else columns + 2 * length <= all
    ensures TimeOf(r, After(r, p)) == TimeOf(r, p) + 1
    ensures TimeOf(r, p) < RunLength(r)
  {
    hide ColumnLength;
    var q := After(r, p);
    if q == Finished || (q.InTile? && q.row == p.row && q.col == p.col) {
      assert q.InTile? ==> q.tau == p.tau + 1;
    } else if p.row + 1 < r {
      assert q == InTile(p.col, p.row + 1, 0) && p.tau == 16 * r + 21;
      assert TimeOf(r, q) == 21 + p.col * ColumnLength(r) + (p.row + 1) * (16 * r + 22);
    } else {
      assert q == InTile(p.col + 1, 0, 0);
    }
  }

  /** The schedule counts real time, and is over exactly RunLength cycles after it began. */
  lemma {:induction false} PhaseKeepsTime(r: nat, n: nat)
    requires r > 0 && n <= RunLength(r)
    ensures Valid(r, PhaseAt(r, n)) && TimeOf(r, PhaseAt(r, n)) == n
    ensures PhaseAt(r, n) == Finished <==> n == RunLength(r)
    ensures PhaseAt(r, n) == Launch(0) ==> n == 0
  {
    if n > 0 {
      PhaseKeepsTime(r, n - 1);
      AfterIsValid(r, PhaseAt(r, n - 1));
      TimeAdvances(r, PhaseAt(r, n - 1));
    }
    if PhaseAt(r, n) != Finished {
      TimeAdvances(r, PhaseAt(r, n));
    }
  }

  /** A place in an earlier row of the given width comes earlier. */
  lemma EarlierPlace(width: nat, i: nat, x: nat, j: nat, y: nat)
    requires i < j && x < width
    ensures i * width + x < j * width + y
  {
    MulSucc(i, width);
    MulMonotone(i + 1, j, width);
  }

  /** Within a visited column an earlier row has earlier cycles. */
  lemma EarlierRow(r: nat, row: nat, tau: nat, row': nat, tau': nat)
    requires r > 0 && row < row' < r && tau <= DoneTau(r, row) + 1
    ensures row * (16 * r + 22) + tau < row' * (16 * r + 22) + tau'
  {
    EarlierPlace(16 * r + 22, row, tau, row', tau');
  }

  /** No two tile phases share a cycle. */
  lemma TimeInjective(r: nat, p: Phase, q: Phase)
    requires r > 0 && Valid(r, p) && Valid(r, q) && p.InTile? && q.InTile? && TimeOf(r, p) == TimeOf(r, q)
    ensures p == q
  {
    if p.col != q.col {
      EarlierPhase(r, if p.col < q.col then p else q, if p.col < q.col then q else p);
    } else if p.row != q.row {
      EarlierPhase(r, if p.row < q.row then p else q, if p.row < q.row then q else p);
    }
  }

  lemma EarlierPhase(r: nat, p: Phase, q: Phase)
    requires r > 0 && Valid(r, p) && Valid(r, q) && p.InTile? && q.InTile?
    requires p.col < q.col || (p.col == q.col && p.row < q.row)
    ensures TimeOf(r, p) < TimeOf(r, q)
  {
    if p.col < q.col {
      ColumnFits(r, p.row, p.tau);
      hide ColumnLength;
      EarlierPlace(ColumnLength(r), p.col, p.row * (16 * r + 22) + p.tau, q.col, q.row * (16 * r + 22) + q.tau);
    } else {
      hide ColumnLength;
      EarlierRow(r, p.row, p.tau, q.row, q.tau);
    }
  }

  /** The schedule reaches every tile phase at its time. */
  lemma PhaseAtItsTime(r: nat, p: Phase)
    requires r > 0 && Valid(r, p) && p.InTile?
    ensures TimeOf(r, p) < RunLength(r) && PhaseAt(r, TimeOf(r, p)) == p
  {
    hide *;
    TimeAdvances(r, p);
    PhaseKeepsTime(r, TimeOf(r, p));
    TileTime(r, p, PhaseAt(r, TimeOf(r, p)));
    TimeInjective(r, p, PhaseAt(r, TimeOf(r, p)));
  }

  /** Only tile phases fall between launch and end. */
  lemma TileTime(r: nat, p: Phase, q: Phase)
    requires p.InTile? && Valid(r, q) && TimeOf(r, q) == TimeOf(r, p) < RunLength(r)
    ensures q.InTile?
  {
    hide ColumnLength, RunLength;
  }
}
