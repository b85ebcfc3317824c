/** Matrix_Multiply: the five blocks and three BRAMs wired together, one clock at a time. */
module MatrixMultiply {
  import opened Words
  import opened ProcessingArray
  import CC = ComputeControl
  import SA = ScatterA
  import SB = ScatterB
  import GC = GatherC

  /** 512 words of 16 bytes, as scatter_a and scatter_b address them. */
  type OperandBram = m: seq<Lanes> | |m| == 512 witness ZeroRows(512)
  /** 256 words of 16 int16 values, as gather_c addresses them. */
  type ResultBram = m: seq<Lanes> | |m| == 256 witness ZeroRows(256)

  /** Every register of the design; rdA and rdB are the output registers of the operand BRAMs. */
  datatype Machine = Machine(
    cc: CC.Registers, sa: SA.Registers, sb: SB.Registers, gc: GC.Registers, pe: Tile,
    bramA: OperandBram, bramB: OperandBram, bramC: ResultBram, rdA: Lanes, rdB: Lanes)

  /** The slice of A broadcast to the array. */
  function AIns(m: Machine): Lanes {
    if m.sa.outputEnable then m.rdA else ZERO_LANES
  }

  function COuts(m: Machine): Lanes {
    ArrayOut(m.pe, AIns(m))
  }

  /** BRAM C takes a word on every edge at which gather_c is writing. */
  function Writes(m: Machine): bool {
    m.gc.ctl.bramState == GC.Writing
  }

  function NextBramC(r: nat, m: Machine): ResultBram {
    if Writes(m) then m.bramC[GC.Address(r, m.gc.ctl) := GC.Row(m.gc.buffer, m.gc.ctl.writeBackCnt)] else m.bramC
  }

  /** One clock edge: every block sees the registers of the others before the edge. The chain of
      PE registers is fed by scatter_b and the broadcast operand by scatter_a. */
  function Step(r: nat, m: Machine, rst: bool, start: bool): Machine {
    Machine(
      CC.Next(r, m.cc, rst, start, m.sb.ctl.loadDone, GC.GatherDone(m.gc.ctl)),
      SA.Next(r, m.sa, rst, m.cc.startCal),
      SB.Next(r, m.sb, rst, m.cc.bLoad, m.rdB),
      GC.Next(r, m.gc, rst, m.cc.startCal, COuts(m)),
      ArrayNext(m.pe, rst, m.sb.ctl.stationaryCtrl, m.sb.bIns),
      m.bramA, m.bramB, NextBramC(r, m),
      m.bramA[SA.Address(r, m.sa)], m.bramB[SB.Address(r, m.sb.ctl)])
  }

  /** Waiting for start, with every register that a run does not itself initialise at its resting value. That is
      enough for a run; what less would do is in ResetOutcome. */
  ghost predicate Ready(r: nat, m: Machine) {
    && m.cc.(finish := false) == CC.Registers(CC.Idle, 0, 0, false, false, false)
    && m.sa == SA.Registers(SA.Idle, 0, 0, false, false)
    && m.sb.ctl == SB.Control(SB.Idle, 0, 0, 0, 0, false, true, false, false)
    && m.gc.ctl == GC.Control(GC.Idle, 0, 0, 0, false, false, GC.BramIdle, 0, true)
    && m.gc.buffer == ZeroRows(16 * r)
  }

  /** Reset followed by one idle clock, whatever the registers and start held before. */
  function ResetThenIdle(r: nat, m: Machine, start: bool): Machine {
    Step(r, Step(r, m, true, start), false, false)
  }

  /** rst clears neither Final of scatter_b nor write_back of gather_c: one idle clock after a reset
      the design is at rest exactly if both were clear when the reset came. */
  lemma ResetReady(r: nat, m: Machine, start: bool)
    requires |m.gc.buffer| == 16 * r
    ensures Ready(r, ResetThenIdle(r, m, start)) <==> !m.sb.ctl.final && !m.gc.ctl.writeBack
    ensures !Step(r, m, true, start).cc.finish && !ResetThenIdle(r, m, start).cc.finish
  {
    var m1 := Step(r, m, true, start);
    var m2 := Step(r, m1, false, false);
    assert m1.gc.buffer == ZeroRows(16 * r) && m2.gc.buffer == ZeroRows(16 * r);
    assert m2.sb.ctl == SB.Control(SB.Idle, 0, 0, 0, 0, m.sb.ctl.final, true, false, false);
    assert m2.gc.ctl == if m.gc.ctl.writeBack
      then GC.Control(GC.Idle, 0, 0, 0, false, false, GC.Writing, 0, false)
      else GC.Control(GC.Idle, 0, 0, 0, false, false, GC.BramIdle, 0, true);
  }

  /** Idle clocks keep the design ready, keep the BRAMs, and drop Finish. */
  lemma IdleKeepsReady(r: nat, m: Machine)
    requires Ready(r, m)
    ensures
      var m' := Step(r, m, false, false);
      Ready(r, m') && !m'.cc.finish && m'.bramA == m.bramA && m'.bramB == m.bramB && m'.bramC == m.bramC
  {
    var m' := Step(r, m, false, false);
    assert m'.gc.buffer == ZeroRows(16 * r);
  }

  /** The matrix the host stored row by row in an operand BRAM. */
  function OperandMatrix(r: nat, mem: OperandBram): Matrix {
    (i: nat, k: nat) => if i * r + k / 16 < 512 then mem[i * r + k / 16][k % 16] else 0
  }

  /** The 16-bit value of row i, column j in the result BRAM. */
  function ResultAt(r: nat, mem: ResultBram, i: nat, j: nat): int {
    if i * r + j / 16 < 256 then mem[i * r + j / 16][j % 16] else 0
  }
}
