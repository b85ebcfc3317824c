/** scatter_b: prefetches the next B tile while the current one is in use, then shift-loads it. */
module ScatterB {
  import opened Words

  datatype State = Idle | Preparing | Loading | Waiting | Done

  /** The registers of the control block. r is DATA_SIZE / N throughout. */
  datatype Control = Control(
    state: State, inBlockCnt: nat, rowCnt: nat, colCnt: nat, loadCnt: nat,
    final: bool, first: bool, stationaryCtrl: bool, loadDone: bool)

  /** Control block, tile buffer and output register. */
  datatype Registers = Registers(ctl: Control, buffer: Tile, bIns: Lanes)

  /** The 9-bit BRAM word address: bits 12..4 of the 13-bit byte pointer. */
  function Address(r: nat, c: Control): (w: nat)
    ensures w < 512
  {
    (c.rowCnt * 16 * (16 * r) + c.colCnt * 16 + c.inBlockCnt * (16 * r)) % 8192 / 16
  }

  function NextControl(r: nat, c: Control, rst: bool, load: bool): Control {
    if rst then c.(colCnt := 0, state := Idle, loadCnt := 0)
    else match c.state
      case Idle =>
        if load then c.(state := Preparing)
        else Control(Idle, 0, 0, 0, 0, c.final, true, false, false)
      case Preparing =>
        var q := c.(loadDone := false, stationaryCtrl := false);
        if c.inBlockCnt != 17 then q.(inBlockCnt := c.inBlockCnt + 1)
        else if c.rowCnt != r - 1 then q.(inBlockCnt := 0, rowCnt := c.rowCnt + 1, state := Waiting)
        else if c.colCnt != r - 1 then q.(inBlockCnt := 0, rowCnt := 0, colCnt := c.colCnt + 1, state := Waiting)
        else q.(inBlockCnt := 0, rowCnt := 0, colCnt := 0, final := true, state := Waiting)
      case Waiting =>
        var q := c.(loadDone := false);
        if load || c.first then q.(state := Loading, stationaryCtrl := true, first := false) else q
      case Loading =>
        if c.loadCnt != 15 then c.(loadCnt := c.loadCnt + 1)
        else c.(loadDone := true, stationaryCtrl := true, loadCnt := 0, final := false,
                state := if c.final then Idle else Preparing)
      case Done => c
  }

  /** A reset leaves everything but the state, the column and the load count; load_done never rises without
      stationaryCtrl. */
  lemma ResetLeaves(r: nat, c: Control, load: bool)
    ensures NextControl(r, c, true, load) ==
      Control(Idle, c.inBlockCnt, c.rowCnt, 0, 0, c.final, c.first, c.stationaryCtrl, c.loadDone)
    ensures var n := NextControl(r, c, false, load); n.loadDone && !c.loadDone ==> n.stationaryCtrl
  {
  }

  /** The tile buffer takes the word read for the previous count; a write outside it has no effect. */
  function NextBuffer(c: Control, buffer: Tile, rst: bool, rdData: Lanes): Tile {
    if rst then ZeroRows(16)
    else if c.state == Preparing && 1 <= c.inBlockCnt <= 16 then buffer[c.inBlockCnt - 1 := rdData]
    else buffer
  }

  /** Column k of a tile, one element per buffered row. */
  function Column(t: Tile, k: nat): Lanes {
    seq(16, i requires 0 <= i < 16 => if k < 16 then t[i][k] else 0)
  }

  function Next(r: nat, b: Registers, rst: bool, load: bool, rdData: Lanes): Registers {
    Registers(
      NextControl(r, b.ctl, rst, load),
      NextBuffer(b.ctl, b.buffer, rst, rdData),
      if !rst && b.ctl.state == Loading then Column(b.buffer, b.ctl.loadCnt) else ZERO_LANES)
  }

  class Scatter {
    const r: nat
    const buffer: array<Lanes>
    var state: State
    var inBlockCnt: nat
    var rowCnt: nat
    var colCnt: nat
    var loadCnt: nat
    var final: bool
    var first: bool
    var stationaryCtrl: bool
    var loadDone: bool
    var bIns: Lanes

    constructor (r: nat)
      ensures this.r == r && Valid() && fresh(buffer)
    {
      this.r := r;
      buffer := new Lanes[16](_ => ZERO_LANES);
      state := Idle;
      bIns := ZERO_LANES;
    }

    ghost predicate Valid()
      reads this
    {
      buffer.Length == 16
    }

    ghost function View(): Registers
      requires Valid()
      reads this, buffer
    {
      Registers(
        Control(state, inBlockCnt, rowCnt, colCnt, loadCnt, final, first, stationaryCtrl, loadDone),
        buffer[..], bIns)
    }

    method Clock(rst: bool, load: bool, rdData: Lanes)
      requires Valid()
      modifies this, buffer
      ensures Valid()
      ensures View() == Next(r, old(View()), rst, load, rdData)
    {
      ClockData(rst, rdData);
      ClockControl(rst, load);
    }

    // The generated always_ff blocks; all of them read the control registers before the edge.
    method ClockData(rst: bool, rdData: Lanes)
      requires Valid()
      modifies this`bIns, buffer
      ensures View().ctl == old(View().ctl)
      ensures View().buffer == NextBuffer(old(View().ctl), old(View().buffer), rst, rdData)
      ensures bIns == if !rst && state == Loading then Column(old(View().buffer), loadCnt) else ZERO_LANES
    {
      if rst {
        bIns := ZERO_LANES;
        forall m | 0 <= m < 16 {
          buffer[m] := ZERO_LANES;
        }
      } else {
        bIns := if state == Loading then Column(buffer[..], loadCnt) else ZERO_LANES;
        if state == Preparing && 1 <= inBlockCnt <= 16 {
          buffer[inBlockCnt - 1] := rdData;
        }
      }
    }

    method ClockControl(rst: bool, load: bool)
      requires Valid()
      modifies this
      ensures View() == old(View()).(ctl := NextControl(r, old(View().ctl), rst, load))
    {
      if rst {
        colCnt, state, loadCnt := 0, Idle, 0;
        return;
      }
      match state {
        case Idle =>
          if load {
            state := Preparing;
          } else {
            first, stationaryCtrl, loadDone := true, false, false;
            inBlockCnt, colCnt, rowCnt, loadCnt := 0, 0, 0, 0;
          }
        case Preparing =>
          loadDone, stationaryCtrl := false, false;
          if inBlockCnt == 17 {
            inBlockCnt, state := 0, Waiting;
            if rowCnt == r - 1 {
              rowCnt := 0;
              if colCnt == r - 1 {
                colCnt, final := 0, true;
              } else {
                colCnt := colCnt + 1;
              }
            } else {
              rowCnt := rowCnt + 1;
            }
          } else {
            inBlockCnt := inBlockCnt + 1;
          }
        case Waiting =>
          loadDone := false;
          if load || first {
            state, stationaryCtrl, first := Loading, true, false;
          }
        case Loading =>
          if loadCnt == 15 {
            loadDone, stationaryCtrl, loadCnt := true, true, 0;
            if final {
              state, final := Idle, false;
            } else {
              state := Preparing;
            }
          } else {
            loadCnt := loadCnt + 1;
          }
        case Done =>
      }
    }
  }
}
