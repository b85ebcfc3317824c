/** compute_control: sequences the tiles of a run and raises Finish. r is DATA_SIZE / N throughout. */
module ComputeControl {

  datatype State = Idle | Preparing | Computing | Waiting

  datatype Registers = Registers(
    state: State, rowCnt: nat, colCnt: nat, startCal: bool, bLoad: bool, finish: bool)

  /** Register values after a clock edge that sees the given inputs. */
  function Next(r: nat, c: Registers, rst: bool, start: bool, bLoadDone: bool, cGatherDone: bool): Registers {
    if rst then Registers(Idle, 0, 0, false, false, false)
    else match c.state
      case Idle =>
        if start then c.(state := Preparing, bLoad := true)
        else c.(bLoad := false, startCal := false, finish := false)
      case Preparing =>
        if bLoadDone then c.(state := Computing, startCal := true, bLoad := false)
        else c.(startCal := false, bLoad := false)
      case Computing =>
        if !cGatherDone then c.(finish := false, startCal := false)
        else if c.rowCnt != r - 1 then c.(rowCnt := c.rowCnt + 1, finish := false, state := Preparing, bLoad := true)
        else if c.colCnt != r - 1 then
          c.(rowCnt := 0, colCnt := c.colCnt + 1, finish := false, state := Preparing, bLoad := true)
        else c.(rowCnt := 0, colCnt := 0, finish := true, state := Idle)
      case Waiting => c.(state := Idle, finish := false, startCal := false, bLoad := false)
  }

  lemma ResetRests(r: nat, c: Registers, start: bool, bLoadDone: bool, cGatherDone: bool)
    ensures Next(r, c, true, start, bLoadDone, cGatherDone) == Registers(Idle, 0, 0, false, false, false)
  {
  }

  /** When each pulse is up after an edge, and where the controller stands, from any state it can be in. */
  lemma PulsesAfter(r: nat, c: Registers, start: bool, bLoadDone: bool, cGatherDone: bool)
    ensures
      var n := Next(r, c, false, start, bLoadDone, cGatherDone);
      var accepted, loaded := c.state == Idle && start, c.state == Preparing && bLoadDone;
      var gathered, last := c.state == Computing && cGatherDone, c.rowCnt == r - 1 && c.colCnt == r - 1;
      && (n.bLoad <==> accepted || (gathered && !last) || (c.bLoad && c.state == Computing))
      && (n.startCal <==> loaded || (c.startCal && (accepted || gathered)))
      && (n.finish <==> (gathered && last) || (c.finish && (accepted || c.state == Preparing)))
      && (n.state == Preparing <==> accepted || (gathered && !last) || (c.state == Preparing && !bLoadDone))
      && (n.state == Computing <==> loaded || (c.state == Computing && !cGatherDone)) && n.state != Waiting
  {
  }

  class Controller {
    const r: nat
    var state: State
    var rowCnt: nat
    var colCnt: nat
    var startCal: bool
    var bLoad: bool
    var finish: bool

    constructor (r: nat)
      ensures this.r == r
    {
      this.r := r;
      state := Idle;
    }

    ghost function View(): Registers
      reads this
    {
      Registers(state, rowCnt, colCnt, startCal, bLoad, finish)
    }

    method Clock(rst: bool, start: bool, bLoadDone: bool, cGatherDone: bool)
      modifies this
      ensures View() == Next(r, old(View()), rst, start, bLoadDone, cGatherDone)
    {
      if rst {
        state, startCal, bLoad, finish, rowCnt, colCnt := Idle, false, false, false, 0, 0;
      } else {
        match state {
          case Idle =>
            if start {
              state, bLoad := Preparing, true;
            } else {
              bLoad, startCal, finish := false, false, false;
            }
          case Preparing =>
            if bLoadDone {
              state, startCal, bLoad := Computing, true, false;
            } else {
              startCal, bLoad := false, false;
            }
          case Computing =>
            if cGatherDone {
              if rowCnt == r - 1 {
                rowCnt := 0;
                if colCnt == r - 1 {
                  colCnt, finish, state := 0, true, Idle;
                } else {
                  finish, colCnt, state, bLoad := false, colCnt + 1, Preparing, true;
                }
              } else {
                rowCnt, finish, state, bLoad := rowCnt + 1, false, Preparing, true;
              }
            } else {
              finish, startCal := false, false;
            }
          case Waiting =>
            state, finish, startCal, bLoad := Idle, false, false, false;
        }
      }
    }
  }
}
