/** scatter_a: streams one 16-wide column strip of A per start pulse. r is DATA_SIZE / N. */
module ScatterA {

  datatype State = Idle | Calculate | Waiting | Done

  datatype Registers = Registers(
    state: State, inBlockCnt: nat, colCnt: nat, outputEnable: bool, colCalDone: bool)

  /** The 9-bit BRAM word address: bits 12..4 of the 13-bit byte pointer. */
  function Address(r: nat, a: Registers): (w: nat)
    ensures w < 512
  {
    (a.inBlockCnt * (16 * r) + a.colCnt * 16) % 8192 / 16
  }

  /** Register values after a clock edge that sees the given inputs. */
  function Next(r: nat, a: Registers, rst: bool, startCal: bool): Registers {
    if rst then a.(colCnt := 0, state := Idle)
    else match a.state
      case Idle =>
        if startCal then a.(state := Calculate, inBlockCnt := 0)
        else a.(outputEnable := false, colCalDone := false, inBlockCnt := 0)
      case Calculate =>
        if a.inBlockCnt != 16 * r - 1 then a.(outputEnable := true, inBlockCnt := a.inBlockCnt + 1)
        else if a.colCnt == r - 1 then a.(colCnt := 0, colCalDone := true, state := Idle)
        else a.(inBlockCnt := 0, colCnt := a.colCnt + 1, state := Waiting)
      case Waiting =>
        if startCal then a.(state := Calculate) else a.(outputEnable := false)
      case Done => a
  }

  /** A reset leaves the count and the two flags; an idle clock rewinds the count even if it sees start_cal. */
  lemma ResetLeaves(r: nat, a: Registers, startCal: bool)
    ensures Next(r, a, true, startCal) == Registers(Idle, a.inBlockCnt, 0, a.outputEnable, a.colCalDone)
    ensures a.state == Idle ==> Next(r, a, false, startCal).inBlockCnt == 0
  {
  }

  class Scatter {
    const r: nat
    var state: State
    var inBlockCnt: nat
    var colCnt: nat
    var outputEnable: bool
    var colCalDone: bool

    constructor (r: nat)
      ensures this.r == r
    {
      this.r := r;
      state := Idle;
    }

    ghost function View(): Registers
      reads this
    {
      Registers(state, inBlockCnt, colCnt, outputEnable, colCalDone)
    }

    method Clock(rst: bool, startCal: bool)
      modifies this
      ensures View() == Next(r, old(View()), rst, startCal)
    {
      if rst {
        colCnt, state := 0, Idle;
      } else {
        match state {
          case Idle =>
            if startCal {
              state, inBlockCnt := Calculate, 0;
            } else {
              outputEnable, colCalDone, inBlockCnt := false, false, 0;
            }
          case Calculate =>
            if inBlockCnt == 16 * r - 1 {
              if colCnt == r - 1 {
                colCnt, colCalDone, state := 0, true, Idle;
              } else {
                inBlockCnt, colCnt, state := 0, colCnt + 1, Waiting;
              }
            } else {
              outputEnable, inBlockCnt := true, inBlockCnt + 1;
            }
          case Waiting =>
            if startCal {
              state := Calculate;
            } else {
              outputEnable := false;
            }
          case Done =>
        }
      }
    }
  }
}
