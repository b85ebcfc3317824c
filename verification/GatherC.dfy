/** gather_c: accumulates partial tiles in a buffer and writes finished column blocks to BRAM C. */
module GatherC {
  import opened Words

  datatype State = Idle | Gathering | Waiting
  datatype BramState = BramIdle | Writing | Cleaning

  /** The registers of the two coupled state machines. r is DATA_SIZE / N throughout. */
  datatype Control = Control(
    state: State, inBlockCnt: nat, rowCnt: nat, colCnt: nat, writeBack: bool, recieveDone: bool,
    bramState: BramState, writeBackCnt: nat, writeBackDone: bool)

  datatype Registers = Registers(ctl: Control, buffer: seq<Lanes>)

  /** The combinational done pulse seen by compute_control. */
  function GatherDone(c: Control): bool {
    if c.bramState == Cleaning then c.writeBackDone else c.recieveDone && !c.writeBack
  }

  /** The 8-bit BRAM word address of a row and column block: bits 12..5 of the 13-bit byte pointer. */
  function WordAddress(r: nat, row: nat, col: nat): (w: nat)
    ensures w < 256
  {
    (row * 2 * (16 * r) + col * 2 * 16) % 8192 / 32
  }

  function Address(r: nat, c: Control): (w: nat)
    ensures w < 256
  {
    WordAddress(r, c.writeBackCnt, c.colCnt)
  }

  /** A row of the accumulation buffer; rows that do not exist read as zero. */
  function Row(buffer: seq<Lanes>, i: nat): Lanes {
    if i < |buffer| then buffer[i] else ZERO_LANES
  }

  function NextBram(r: nat, c: Control, rst: bool): Control {
    if rst then c.(writeBackCnt := 0, bramState := BramIdle, writeBackDone := true)
    else match c.bramState
      case BramIdle =>
        if c.writeBack then c.(bramState := Writing, writeBackDone := false)
        else c.(writeBackCnt := 0, writeBackDone := true)
      case Writing =>
        if c.writeBackCnt == 16 * r - 1 then c.(bramState := Cleaning, writeBackDone := true, writeBackCnt := 0)
        else c.(writeBackCnt := c.writeBackCnt + 1, writeBackDone := false)
      case Cleaning => c.(bramState := BramIdle)
  }

  function NextGather(r: nat, c: Control, rst: bool, startCal: bool): Control {
    if rst then c.(state := Idle, recieveDone := false, inBlockCnt := 0, rowCnt := 0, colCnt := 0)
    else match c.state
      case Idle =>
        c.(recieveDone := false, writeBack := false, state := if startCal then Gathering else Idle)
      case Gathering =>
        if c.inBlockCnt != 16 * r + 1 then c.(inBlockCnt := c.inBlockCnt + 1, recieveDone := false)
        else c.(state := Waiting, inBlockCnt := 0, recieveDone := true,
                writeBack := if c.rowCnt == r - 1 then true else c.writeBack)
      case Waiting =>
        var q := c.(writeBack := false, recieveDone := false, state := if startCal then Gathering else Waiting);
        if !GatherDone(c) then q
        else if c.rowCnt != r - 1 then q.(state := Waiting, rowCnt := c.rowCnt + 1)
        else if c.colCnt != r - 1 then q.(rowCnt := 0, colCnt := c.colCnt + 1, state := Waiting)
        else q.(rowCnt := 0, colCnt := 0, state := Idle)
  }

  /** Both always blocks read the registers before the edge and write disjoint registers. */
  function NextControl(r: nat, c: Control, rst: bool, startCal: bool): Control {
    var b := NextBram(r, c, rst);
    NextGather(r, c, rst, startCal)
      .(bramState := b.bramState, writeBackCnt := b.writeBackCnt, writeBackDone := b.writeBackDone)
  }

  /** A reset leaves write_back. */
  lemma ResetLeaves(r: nat, c: Control, startCal: bool)
    ensures NextControl(r, c, true, startCal) == Control(Idle, 0, 0, 0, c.writeBack, false, BramIdle, 0, true)
  {
  }

  /** The flags after an edge, from any state: recieve_done is up for one cycle after the last row of a tile,
      write_back from the last tile of a column block on, write_back_done unless rows are being written. An
      accepted gather_done moves on to the next tile whatever start_cal says. */
  lemma FlagsAfter(r: nat, c: Control, startCal: bool)
    ensures
      var n := NextControl(r, c, false, startCal);
      var received := c.state == Gathering && c.inBlockCnt == 16 * r + 1;
      && (n.recieveDone <==> received)
      && (n.writeBack <==> (received && c.rowCnt == r - 1) || (c.writeBack && c.state == Gathering))
      && (c.bramState == BramIdle && !c.writeBack ==> n.bramState == BramIdle && n.writeBackCnt == 0 && n.writeBackDone)
      && (n.bramState == Writing ==> !n.writeBackDone) && (n.bramState == Cleaning ==> n.writeBackDone && n.writeBackCnt == 0)
      && (c.state == Waiting && GatherDone(c) ==> n.state == if c.rowCnt == r - 1 && c.colCnt == r - 1 then Idle else Waiting)
  {
  }

  /** Lane-wise 16-bit addition. */
  function AddLanes(x: Lanes, y: Lanes): Lanes {
    seq(16, m requires 0 <= m < 16 => Wrap16(x[m] + y[m]))
  }

  function NextBuffer(r: nat, c: Control, buffer: seq<Lanes>, rst: bool, cOuts: Lanes): seq<Lanes> {
    if rst || c.state == Idle || c.bramState == Cleaning then ZeroRows(|buffer|)
    else if c.state == Gathering && 1 <= c.inBlockCnt <= |buffer| then
      buffer[c.inBlockCnt - 1 := AddLanes(buffer[c.inBlockCnt - 1], cOuts)]
    else buffer
  }

  function Next(r: nat, g: Registers, rst: bool, startCal: bool, cOuts: Lanes): Registers {
    Registers(NextControl(r, g.ctl, rst, startCal), NextBuffer(r, g.ctl, g.buffer, rst, cOuts))
  }

  /** The write-back machine reads only its own registers and write_back. */
  lemma BramReads(r: nat, c: Control, c': Control, rst: bool)
    requires c'.bramState == c.bramState && c'.writeBackCnt == c.writeBackCnt
    requires c'.writeBackDone == c.writeBackDone && c'.writeBack == c.writeBack
    ensures
      var b := NextBram(r, c, rst);
      NextBram(r, c', rst) == c'.(bramState := b.bramState, writeBackCnt := b.writeBackCnt, writeBackDone := b.writeBackDone)
  {
  }

  /** The receiving machine leaves the write-back registers alone. */
  lemma GatherKeeps(r: nat, c: Control, rst: bool, startCal: bool)
    ensures
      var g := NextGather(r, c, rst, startCal);
      g.bramState == c.bramState && g.writeBackCnt == c.writeBackCnt && g.writeBackDone == c.writeBackDone
  {
  }

  class Gather {
    const r: nat
    const buffer: array<Lanes>
    var state: State
    var inBlockCnt: nat
    var rowCnt: nat
    var colCnt: nat
    var writeBack: bool
    var recieveDone: bool
    var bramState: BramState
    var writeBackCnt: nat
    var writeBackDone: bool

    constructor (r: nat)
      ensures this.r == r && buffer.Length == 16 * r && fresh(buffer)
    {
      this.r := r;
      buffer := new Lanes[16 * r](_ => ZERO_LANES);
      state, bramState := Idle, BramIdle;
    }

    ghost function View(): Registers
      reads this, buffer
    {
      Registers(
        Control(state, inBlockCnt, rowCnt, colCnt, writeBack, recieveDone, bramState, writeBackCnt, writeBackDone),
        buffer[..])
    }

    method Clock(rst: bool, startCal: bool, cOuts: Lanes)
      modifies this, buffer
      ensures View() == Next(r, old(View()), rst, startCal, cOuts)
    {
      ghost var before := View().ctl;
      ClockBuffer(rst, cOuts);
      var done := if bramState == Cleaning then writeBackDone else recieveDone && !writeBack;
      var wb := writeBack;
      ClockGather(rst, startCal, done);
      GatherKeeps(r, before, rst, startCal);
      BramReads(r, before, View().ctl.(writeBack := wb), rst);
      hide NextGather, NextBram, NextBuffer;
      ClockBram(rst, wb);
    }

    method ClockBuffer(rst: bool, cOuts: Lanes)
      modifies buffer
      ensures View().ctl == old(View().ctl)
      ensures View().buffer == NextBuffer(r, old(View().ctl), old(View().buffer), rst, cOuts)
    {
      if rst || state == Idle || bramState == Cleaning {
        forall m | 0 <= m < buffer.Length {
          buffer[m] := ZERO_LANES;
        }
      } else if state == Gathering && 1 <= inBlockCnt <= buffer.Length {
        buffer[inBlockCnt - 1] := AddLanes(buffer[inBlockCnt - 1], cOuts);
      }
    }

    method ClockGather(rst: bool, startCal: bool, done: bool)
      requires done == GatherDone(View().ctl)
      modifies this`state, this`inBlockCnt, this`rowCnt, this`colCnt, this`writeBack, this`recieveDone
      ensures View() == old(View()).(ctl := NextGather(r, old(View().ctl), rst, startCal))
    {
      if rst {
        state, recieveDone, inBlockCnt, rowCnt, colCnt := Idle, false, 0, 0, 0;
        return;
      }
      match state {
        case Idle =>
          recieveDone, writeBack := false, false;
          if startCal {
            state := Gathering;
          }
        case Gathering =>
          if inBlockCnt == 16 * r + 1 {
            state, inBlockCnt, recieveDone := Waiting, 0, true;
            if rowCnt == r - 1 {
              writeBack := true;
            }
          } else {
            inBlockCnt, recieveDone := inBlockCnt + 1, false;
          }
        case Waiting =>
          writeBack, recieveDone := false, false;
          if startCal {
            state := Gathering;
          }
          if done {
            if rowCnt == r - 1 {
              rowCnt := 0;
              if colCnt == r - 1 {
                colCnt, state := 0, Idle;
              } else {
                colCnt, state := colCnt + 1, Waiting;
              }
            } else {
              state, rowCnt := Waiting, rowCnt + 1;
            }
          }
      }
    }

    // wb is the value of write_back before the edge.
    method ClockBram(rst: bool, wb: bool)
      modifies this`bramState, this`writeBackCnt, this`writeBackDone
      ensures
        var c := NextBram(r, old(View().ctl).(writeBack := wb), rst);
        View() == old(View()).(ctl := c.(writeBack := old(writeBack)))
    {
      if rst {
        writeBackCnt, bramState, writeBackDone := 0, BramIdle, true;
        return;
      }
      match bramState {
        case BramIdle =>
          if wb {
            bramState, writeBackDone := Writing, false;
          } else {
            writeBackCnt, writeBackDone := 0, true;
          }
        case Writing =>
          if writeBackCnt == 16 * r - 1 {
            bramState, writeBackDone, writeBackCnt := Cleaning, true, 0;
          } else {
            writeBackCnt, writeBackDone := writeBackCnt + 1, false;
          }
        case Cleaning =>
          bramState := BramIdle;
      }
    }
  }
}
