/** Usr_control in front of the accelerator: what every sequence of host reads can bring about, when the
    host writes the operands between runs. */
module HostRuns {
  import opened Words
  import opened ProcessingArray
  import opened Timeline
  import opened DataFlow
  import opened MatrixMultiply
  import opened AcceleratorRun
  import CC = ComputeControl
  import UC = UsrControl

  datatype System = System(u: UC.Registers, m: Machine)

  /** The host's own ports of the operand BRAMs. */
  datatype HostWrite = NoWrite | WriteA(addr: nat, word: Lanes) | WriteB(addr: nat, word: Lanes)

  /** What the host does in one cycle. */
  datatype HostCycle = HostCycle(bus: UC.ReadBus, write: HostWrite)

  function Written(m: Machine, w: HostWrite): Machine {
    match w
    case NoWrite => m
    case WriteA(addr, word) => if addr < 512 then m.(bramA := m.bramA[addr := word]) else m
    case WriteB(addr, word) => if addr < 512 then m.(bramB := m.bramB[addr := word]) else m
  }

  /** One clock of both, out of reset. */
  function Next(r: nat, s: System, c: HostCycle): System {
    System(UC.Next(s.u, true, s.m.cc.finish, c.bus), Written(Step(r, s.m, false, s.u.start), c.write))
  }

  /** One clock of both in reset; the power-up values of the registers may be anything. */
  function Reset(r: nat, s: System, c: HostCycle): System {
    System(UC.Next(s.u, false, s.m.cc.finish, c.bus), Written(Step(r, s.m, true, s.u.start), c.write))
  }

  /** Where the host and the accelerator stand with each other. */
  datatype Stage =
    | JustReset
    | Resting          // the last run, if any, was acknowledged by a status read
    | Running(n: nat)  // n cycles after compute_control could first see start
    | Complete         // Finish was latched, the host has not yet read it

  function NextStage(r: nat, h: Stage, u: UC.Registers, bus: UC.ReadBus): Stage {
    match h
    case Running(n) => if n == RunLength(r) then Complete else Running(n + 1)
    case Complete => if UC.StatusDone(u, bus) then Resting else Complete
    case _ => if UC.StartAccepted(u, bus) then Running(0) else Resting
  }

  /** The operand BRAMs, as they were when the last run began. */
  datatype Operands = Operands(a: OperandBram, b: OperandBram)

  function OperandsOf(m: Machine): Operands {
    Operands(m.bramA, m.bramB)
  }

  function NextOperands(h': Stage, m': Machine, o: Operands): Operands {
    if h' == Running(0) then OperandsOf(m') else o
  }

  /** BRAM C holds the mirrored product of the operands, for the sizes whose addresses fit. */
  ghost predicate ProductOf(r: nat, o: Operands, mem: ResultBram) {
    Fits(r) ==> HoldsMirroredProduct(r, OperandMatrix(r, o.a), OperandMatrix(r, o.b), mem)
  }

  /** The registers of Usr_control in each stage. */
  ghost predicate HostRegs(h: Stage, u: UC.Registers) {
    match h
    case Running(n) => u.process && u.start == (n <= 1) && u.start2 == (n == 1) && !u.finishReg && !u.finish2
    case Complete => u.process && !u.start && !u.start2 && u.finishReg
    case _ => !u.process && !u.start && !u.start2 && !u.finish2 && (h == JustReset ==> !u.finishReg)
  }

  /** The accelerator in each stage. */
  ghost predicate MachineStage(r: nat, h: Stage, m: Machine) {
    match h
    case JustReset => !m.cc.finish && Ready(r, Step(r, m, false, false)) && !Step(r, m, false, false).cc.finish
    case Running(n) => n <= RunLength(r) && OnSchedule(r, false, PhaseAt(r, n), m)
    case _ => Ready(r, m) && !m.cc.finish
  }

  ghost predicate Inv(r: nat, h: Stage, s: System, o: Operands) {
    && HostRegs(h, s.u)
    && MachineStage(r, h, s.m)
    && (h.Running? ==> OperandsOf(s.m) == o)
    && (s.u.finishReg ==> ProductOf(r, o, s.m.bramC))
  }

  lemma WriteKeepsReady(r: nat, m: Machine, w: HostWrite)
    ensures
      var m' := Written(m, w);
      && (Ready(r, m') <==> Ready(r, m)) && m'.cc == m.cc && m'.bramC == m.bramC && |m'.gc.buffer| == |m.gc.buffer|
      && Step(r, m', false, false).cc == Step(r, m, false, false).cc
      && (Ready(r, Step(r, m', false, false)) <==> Ready(r, Step(r, m, false, false)))
  {
    hide ArrayNext;
    assert Step(r, Written(m, w), false, false).gc == Step(r, m, false, false).gc;
    assert Step(r, Written(m, w), false, false).sa == Step(r, m, false, false).sa;
    assert Step(r, Written(m, w), false, false).sb.ctl == Step(r, m, false, false).sb.ctl;
  }

  /** A reset with Final and write_back clear establishes the invariant. */
  lemma ResetEstablishes(r: nat, s: System, c: HostCycle)
    requires r > 0 && |s.m.gc.buffer| == 16 * r && !s.m.sb.ctl.final && !s.m.gc.ctl.writeBack
    ensures Inv(r, JustReset, Reset(r, s, c), OperandsOf(Reset(r, s, c).m))
  {
    ResetReady(r, s.m, s.u.start);
    WriteKeepsReady(r, Step(r, s.m, true, s.u.start), c.write);
    hide Step, Ready, ProductOf;
  }

  /** Finish is up in the last cycle of a run and in no other cycle of any stage. */
  lemma FinishInStage(r: nat, h: Stage, m: Machine)
    requires r > 0 && MachineStage(r, h, m)
    ensures m.cc.finish <==> h == Running(RunLength(r))
  {
    if h.Running? {
      PhaseKeepsTime(r, h.n);
    }
  }

  lemma HostRegsKeep(r: nat, h: Stage, u: UC.Registers, finish: bool, bus: UC.ReadBus)
    requires r > 0 && HostRegs(h, u) && (finish <==> h == Running(RunLength(r)))
    ensures HostRegs(NextStage(r, h, u, bus), UC.Next(u, true, finish, bus))
    ensures UC.Next(u, true, finish, bus).finishReg ==> u.finishReg || h == Running(RunLength(r))
  {
    UC.SelectIsPage(bus);
    RunIsLong(r);
    hide RunLength, UC.Select;
  }

  /** The next stage, as far as the accelerator is concerned. */
  predicate Succeeds(r: nat, h: Stage, h': Stage) {
    match h
    case Running(n) => h' == if n == RunLength(r) then Complete else Running(n + 1)
    case Complete => h' in {Complete, Resting}
    case _ => h' in {Running(0), Resting}
  }

  /** Only outside of runs does the host write. */
  predicate Disciplined(h: Stage, c: HostCycle) {
    h.Running? ==> c.write == NoWrite
  }

  lemma MachineKeeps(r: nat, h: Stage, m: Machine, start: bool, h': Stage, w: HostWrite)
    requires r > 0 && MachineStage(r, h, m) && start == (h.Running? && h.n <= 1) && Succeeds(r, h, h')
    requires h.Running? ==> w == NoWrite
    ensures MachineStage(r, h', Written(Step(r, m, false, start), w))
    ensures h.Running? && h'.Running? ==> OperandsOf(Step(r, m, false, start)) == OperandsOf(m)
  {
    hide OnSchedule, Step, RunLength, Ready, PhaseAt;
    match h
    case Running(n) => RunningMachineKeeps(r, n, m, start);
    case _ => RestingMachineKeeps(r, h == JustReset, m, w);
  }

  lemma RunningMachineKeeps(r: nat, n: nat, m: Machine, start: bool)
    requires r > 0 && n <= RunLength(r) && OnSchedule(r, false, PhaseAt(r, n), m) && start == (n <= 1)
    ensures
      var m' := Step(r, m, false, start);
      if n < RunLength(r) then OnSchedule(r, false, PhaseAt(r, n + 1), m') && m'.bramA == m.bramA && m'.bramB == m.bramB
      else Ready(r, m') && !m'.cc.finish
  {
    hide *;
    PhaseKeepsTime(r, n);
    NextPhase(r, n);
    RunIsLong(r);
    if n == RunLength(r) {
      FinishedIsReady(r, false, m);
      IdleKeepsReady(r, m);
    } else {
      StepFollows(r, false, PhaseAt(r, n), m, start);
    }
  }

  /** From rest the design either rests on or stands at the start of a run, whatever the host writes. */
  lemma RestingMachineKeeps(r: nat, justReset: bool, m: Machine, w: HostWrite)
    requires r > 0
    requires if justReset then Ready(r, Step(r, m, false, false)) && !Step(r, m, false, false).cc.finish else Ready(r, m)
    ensures
      var m' := Written(Step(r, m, false, false), w);
      Ready(r, m') && !m'.cc.finish && OnSchedule(r, false, PhaseAt(r, 0), m')
  {
    hide *;
    NextPhase(r, 0);
    if !justReset {
      IdleKeepsReady(r, m);
    }
    WriteKeepsReady(r, Step(r, m, false, false), w);
    ReadyIsOnSchedule(r, Written(Step(r, m, false, false), w));
  }

  /** A product that has been announced stays in BRAM C until the next run starts. */
  lemma ProductStays(r: nat, h: Stage, s: System, o: Operands, c: HostCycle)
    requires r > 0 && Inv(r, h, s, o)
    ensures
      var s' := Next(r, s, c);
      s'.u.finishReg ==> ProductOf(r, o, s'.m.bramC)
  {
    RunIsLong(r);
    FinishInStage(r, h, s.m);
    HostRegsKeep(r, h, s.u, s.m.cc.finish, c.bus);
    WriteKeepsReady(r, Step(r, s.m, false, s.u.start), c.write);
    hide OnSchedule, Step, RunLength, UC.Next, HoldsMirroredProduct, TimeOf, Written;
    if h == Running(RunLength(r)) {
      PhaseKeepsTime(r, RunLength(r));
      FinishedIsReady(r, false, s.m);
      FinishedHoldsProduct(r, s.m);
      IdleKeepsReady(r, s.m);
    } else if s.u.finishReg {
      IdleKeepsReady(r, s.m);
    }
  }

  lemma FinishedHoldsProduct(r: nat, m: Machine)
    requires OnSchedule(r, false, Finished, m)
    ensures ProductOf(r, OperandsOf(m), m.bramC)
  {
    if Fits(r) {
      AllWrittenIsProduct(r, A(r, m), B(r, m), m.bramC);
    }
  }

  /** Every host read in every stage, and every write outside of runs, keeps the invariant. */
  lemma NextKeeps(r: nat, h: Stage, s: System, o: Operands, c: HostCycle)
    requires r > 0 && Inv(r, h, s, o) && Disciplined(h, c)
    ensures
      var h', s' := NextStage(r, h, s.u, c.bus), Next(r, s, c);
      Inv(r, h', s', NextOperands(h', s'.m, o))
  {
    FinishInStage(r, h, s.m);
    HostRegsKeep(r, h, s.u, s.m.cc.finish, c.bus);
    ProductStays(r, h, s, o, c);
    hide MachineStage, Step, RunLength, UC.Next, ProductOf, UC.StatusDone, UC.StartAccepted;
    MachineKeeps(r, h, s.m, s.u.start, NextStage(r, h, s.u, c.bus), c.write);
  }

  lemma NextPhase(r: nat, n: nat)
    ensures PhaseAt(r, n + 1) == After(r, PhaseAt(r, n))
    ensures PhaseAt(r, 0) == Launch(0)
  {
  }

  lemma RunIsLong(r: nat)
    requires r > 0
    ensures RunLength(r) > 20
  {
    MulMonotone(1, r, ColumnLength(r));
  }

  // ---------- every sequence of host cycles ----------

  function SystemAt(r: nat, s: System, host: nat -> HostCycle, k: nat): System
    decreases k
  {
    if k == 0 then s else Next(r, SystemAt(r, s, host, k - 1), host(k - 1))
  }

  function StageAt(r: nat, s: System, host: nat -> HostCycle, k: nat): Stage
    decreases k
  {
    if k == 0 then JustReset else NextStage(r, StageAt(r, s, host, k - 1), SystemAt(r, s, host, k - 1).u, host(k - 1).bus)
  }

  /** The operands at the beginning of the last run, if any. */
  function OperandsAt(r: nat, s: System, host: nat -> HostCycle, k: nat): Operands
    decreases k
  {
    if k == 0 then OperandsOf(s.m)
    else NextOperands(StageAt(r, s, host, k), SystemAt(r, s, host, k).m, OperandsAt(r, s, host, k - 1))
  }

  /** Cycle 0 comes right after a reset, and in cycle k the host writes no operand if a run is under way. */
  ghost predicate Orderly(r: nat, s: System, host: nat -> HostCycle, k: nat)
    requires r > 0
  {
    (k == 0 ==> Inv(r, JustReset, s, OperandsOf(s.m))) && Disciplined(StageAt(r, s, host, k), host(k))
  }

  /** From a reset on, the host writes no operand during a run. */
  ghost predicate Session(r: nat, s: System, host: nat -> HostCycle) {
    r > 0 && forall k: nat :: Orderly(r, s, host, k)
  }

  /** The read taken in cycle k begins a run. */
  predicate Accepted(r: nat, s: System, host: nat -> HostCycle, k: nat) {
    UC.StartAccepted(SystemAt(r, s, host, k).u, host(k).bus)
  }

  /** compute_control leaves IDLE at the end of cycle k. */
  predicate Launches(r: nat, s: System, host: nat -> HostCycle, k: nat) {
    SystemAt(r, s, host, k).m.cc.state == CC.Idle && SystemAt(r, s, host, k).u.start
  }

  /** What a session says of one cycle. */
  lemma SessionCycle(r: nat, s: System, host: nat -> HostCycle, k: nat)
    requires Session(r, s, host)
    ensures r > 0 && Inv(r, StageAt(r, s, host, 0), SystemAt(r, s, host, 0), OperandsAt(r, s, host, 0))
    ensures Disciplined(StageAt(r, s, host, k), host(k))
    ensures StageAt(r, s, host, k + 1) == NextStage(r, StageAt(r, s, host, k), SystemAt(r, s, host, k).u, host(k).bus)
    ensures SystemAt(r, s, host, k + 1) == Next(r, SystemAt(r, s, host, k), host(k))
    ensures OperandsAt(r, s, host, k + 1) ==
      NextOperands(StageAt(r, s, host, k + 1), SystemAt(r, s, host, k + 1).m, OperandsAt(r, s, host, k))
  {
    assert Orderly(r, s, host, 0) && Orderly(r, s, host, k);
    hide Inv, Next, NextStage, NextOperands;
  }

  lemma {:induction false} InvAlways(r: nat, s: System, host: nat -> HostCycle, k: nat)
    requires Session(r, s, host)
    ensures Inv(r, StageAt(r, s, host, k), SystemAt(r, s, host, k), OperandsAt(r, s, host, k))
    decreases k
  {
    hide *;
    SessionCycle(r, s, host, if k > 0 then k - 1 else 0);
    if k > 0 {
      InvAlways(r, s, host, k - 1);
      NextKeeps(r, StageAt(r, s, host, k - 1), SystemAt(r, s, host, k - 1), OperandsAt(r, s, host, k - 1), host(k - 1));
    }
  }

  /** What the stage decides: whether compute_control leaves IDLE, whether a read can begin a run, and
      when the end of a run is latched. */
  lemma StageDecides(r: nat, h: Stage, s: System, o: Operands, c: HostCycle)
    requires r > 0 && Inv(r, h, s, o)
    ensures s.m.cc.state == CC.Idle && s.u.start <==> h == Running(0)
    ensures UC.StartAccepted(s.u, c.bus) <==> NextStage(r, h, s.u, c.bus) == Running(0)
    ensures h.Running? ==> h.n <= RunLength(r) && s.m.cc.finish == (h.n == RunLength(r)) && !s.u.finishReg
    ensures Next(r, s, c).u.finishReg ==> h == Running(RunLength(r)) || (s.u.finishReg && !UC.StartAccepted(s.u, c.bus))
    ensures s.u.finishReg ==> ProductOf(r, o, s.m.bramC)
  {
    UC.SelectIsPage(c.bus);
    FinishInStage(r, h, s.m);
    HostRegsKeep(r, h, s.u, s.m.cc.finish, c.bus);
    if h.Running? {
      PhaseKeepsTime(r, h.n);
      RunIsLong(r);
      if h.n <= 1 {
        assert PhaseAt(r, h.n) == Launch(h.n);
      }
    }
    hide RunLength, Step, ProductOf, UC.Select;
  }

  /** The same in cycle k of a session. */
  lemma CycleDecides(r: nat, s: System, host: nat -> HostCycle, k: nat)
    requires Session(r, s, host)
    ensures
      var h, t := StageAt(r, s, host, k), SystemAt(r, s, host, k);
      && (Launches(r, s, host, k) <==> h == Running(0))
      && (Accepted(r, s, host, k) <==> StageAt(r, s, host, k + 1) == Running(0))
      && (h.Running? ==> h.n <= RunLength(r) && t.m.cc.finish == (h.n == RunLength(r)) && !t.u.finishReg)
      && (SystemAt(r, s, host, k + 1).u.finishReg ==>
            h == Running(RunLength(r)) || (t.u.finishReg && !Accepted(r, s, host, k)))
      && (t.u.finishReg ==> ProductOf(r, OperandsAt(r, s, host, k), t.m.bramC))
      && (h.Running? ==> OperandsOf(t.m) == OperandsAt(r, s, host, k))
  {
    InvAlways(r, s, host, k);
    InvOperands(r, StageAt(r, s, host, k), SystemAt(r, s, host, k), OperandsAt(r, s, host, k));
    hide Inv, Next, NextStage, NextOperands, RunLength, ProductOf, UC.StartAccepted;
    StageDecides(r, StageAt(r, s, host, k), SystemAt(r, s, host, k), OperandsAt(r, s, host, k), host(k));
  }

  lemma InvOperands(r: nat, h: Stage, s: System, o: Operands)
    requires Inv(r, h, s, o)
    ensures h.Running? ==> OperandsOf(s.m) == o
  {
  }

  /** One run per accepted start, although the start pulse lasts two cycles: compute_control leaves
      IDLE exactly one cycle after each read of 0x1000 .. 0x1FFF that is taken while no run is in progress,
      and never otherwise. */
  lemma LaunchIffAccepted(r: nat, s: System, host: nat -> HostCycle, k: nat)
    requires Session(r, s, host)
    ensures !Launches(r, s, host, 0)
    ensures
      var u, bus := SystemAt(r, s, host, k).u, host(k).bus;
      Launches(r, s, host, k + 1) <==> bus.arvalid && !u.arready && 0x1000 <= bus.araddr % 0x4000 < 0x2000 && !u.process
  {
    AcceptedIs(r, s, host, k);
    hide Session, NextStage, Accepted, Launches, ProductOf, RunLength;
    CycleDecides(r, s, host, 0);
    CycleDecides(r, s, host, k);
    CycleDecides(r, s, host, k + 1);
  }

  lemma AcceptedIs(r: nat, s: System, host: nat -> HostCycle, k: nat)
    ensures
      var u, bus := SystemAt(r, s, host, k).u, host(k).bus;
      Accepted(r, s, host, k) <==> bus.arvalid && !u.arready && 0x1000 <= bus.araddr % 0x4000 < 0x2000 && !u.process
  {
    hide SystemAt;
  }

  lemma StageAdvances(r: nat, h: Stage, u: UC.Registers, bus: UC.ReadBus)
    ensures h.Running? && h.n < RunLength(r) ==> NextStage(r, h, u, bus) == Running(h.n + 1)
    ensures h == Running(RunLength(r)) ==> NextStage(r, h, u, bus) == Complete
    ensures NextStage(r, h, u, bus).Running? ==>
      NextStage(r, h, u, bus) == Running(0) || (h.Running? && NextStage(r, h, u, bus) == Running(h.n + 1))
  {
  }

  /** A run goes on, with the operands it began with. */
  lemma {:induction false} RunsOn(r: nat, s: System, host: nat -> HostCycle, k: nat, n: nat)
    requires Session(r, s, host) && Accepted(r, s, host, k) && n <= RunLength(r)
    ensures StageAt(r, s, host, k + 1 + n) == Running(n)
    ensures OperandsAt(r, s, host, k + 1 + n) == OperandsOf(SystemAt(r, s, host, k + 1).m)
    decreases n
  {
    hide Session, Inv, Next, NextStage, UC.StartAccepted, ProductOf, RunLength;
    if n == 0 {
      CycleDecides(r, s, host, k);
    } else {
      RunsOn(r, s, host, k, n - 1);
      StageAdvances(r, Running(n - 1), SystemAt(r, s, host, k + n).u, host(k + n).bus);
    }
  }

  /** In the last cycle of a run BRAM C is complete. */
  lemma LastCycleHoldsProduct(r: nat, t: System, o: Operands)
    requires r > 0 && Inv(r, Running(RunLength(r)), t, o)
    ensures ProductOf(r, o, t.m.bramC)
  {
    PhaseKeepsTime(r, RunLength(r));
    FinishedHoldsProduct(r, t.m);
  }

  /** After an accepted start no read begins another run, and Finish is down, until Finish comes up
      exactly 1 + RunLength(r) cycles later, with the mirrored product in BRAM C of what the operand BRAMs
      held when the run began. */
  lemma AcceptedRunFinishes(r: nat, s: System, host: nat -> HostCycle, k: nat, n: nat)
    requires Session(r, s, host) && Accepted(r, s, host, k) && n <= RunLength(r)
    ensures
      var t := SystemAt(r, s, host, k + 1 + n);
      && !Accepted(r, s, host, k + 1 + n)
      && (t.m.cc.finish <==> n == RunLength(r))
      && (n == RunLength(r) ==> ProductOf(r, OperandsOf(SystemAt(r, s, host, k + 1).m), t.m.bramC))
  {
    hide *;
    RunsOn(r, s, host, k, n);
    CycleDecides(r, s, host, k + 1 + n);
    SessionCycle(r, s, host, k + 1 + n);
    StageAdvances(r, Running(n), SystemAt(r, s, host, k + 1 + n).u, host(k + 1 + n).bus);
    if n == RunLength(r) {
      EndHoldsProduct(r, s, host, k);
    }
  }

  lemma EndHoldsProduct(r: nat, s: System, host: nat -> HostCycle, k: nat)
    requires Session(r, s, host) && Accepted(r, s, host, k)
    ensures ProductOf(r, OperandsOf(SystemAt(r, s, host, k + 1).m), SystemAt(r, s, host, k + 1 + RunLength(r)).m.bramC)
  {
    hide *;
    SessionCycle(r, s, host, k);
    RunsOn(r, s, host, k, RunLength(r));
    InvAlways(r, s, host, k + 1 + RunLength(r));
    LastCycleHoldsProduct(r, SystemAt(r, s, host, k + 1 + RunLength(r)), OperandsAt(r, s, host, k + 1 + RunLength(r)));
  }

  /** The start accepted in cycle j ran to its end before cycle k, and none was accepted since. */
  ghost predicate RanToEnd(r: nat, s: System, host: nat -> HostCycle, j: nat, k: nat) {
    && j + 1 + RunLength(r) < k && Accepted(r, s, host, j)
    && forall i: nat | j < i < k :: !Accepted(r, s, host, i)
  }

  /** What a stage says about the past. */
  ghost predicate Remembers(r: nat, s: System, host: nat -> HostCycle, k: nat) {
    match StageAt(r, s, host, k)
    case Running(n) =>
      n < k && Accepted(r, s, host, k - 1 - n) && forall i: nat | k - 1 - n < i < k :: !Accepted(r, s, host, i)
    case _ => SystemAt(r, s, host, k).u.finishReg ==> exists j: nat :: RanToEnd(r, s, host, j, k)
  }

  lemma {:induction false} AlwaysRemembers(r: nat, s: System, host: nat -> HostCycle, k: nat)
    requires Session(r, s, host)
    ensures Remembers(r, s, host, k)
    decreases k
  {
    hide *;
    if k == 0 {
      RemembersNothing(r, s, host);
    } else {
      AlwaysRemembers(r, s, host, k - 1);
      RemembersNext(r, s, host, k - 1);
    }
  }

  lemma RemembersNothing(r: nat, s: System, host: nat -> HostCycle)
    requires Session(r, s, host)
    ensures Remembers(r, s, host, 0)
  {
    NothingLatched(r, s, host);
    hide RunLength, Accepted, Session;
  }

  lemma RemembersNext(r: nat, s: System, host: nat -> HostCycle, k: nat)
    requires Session(r, s, host) && Remembers(r, s, host, k)
    ensures Remembers(r, s, host, k + 1)
  {
    hide *;
    CycleDecides(r, s, host, k);
    SessionCycle(r, s, host, k);
    StageAdvances(r, StageAt(r, s, host, k), SystemAt(r, s, host, k).u, host(k).bus);
    RemembersOn(r, s, host, k);
  }

  lemma {:induction false} RemembersOn(r: nat, s: System, host: nat -> HostCycle, k: nat)
    requires Remembers(r, s, host, k)
    requires Accepted(r, s, host, k) <==> StageAt(r, s, host, k + 1) == Running(0)
    requires
      var h, h' := StageAt(r, s, host, k), StageAt(r, s, host, k + 1);
      && (h.Running? && h.n < RunLength(r) ==> h' == Running(h.n + 1))
      && (h == Running(RunLength(r)) ==> h' == Complete)
      && (h'.Running? ==> h' == Running(0) || (h.Running? && h' == Running(h.n + 1)))
      && (SystemAt(r, s, host, k + 1).u.finishReg ==>
            h == Running(RunLength(r)) || (SystemAt(r, s, host, k).u.finishReg && !Accepted(r, s, host, k)))
      && (h.Running? ==> h.n <= RunLength(r) && !SystemAt(r, s, host, k).u.finishReg)
    ensures Remembers(r, s, host, k + 1)
  {
    hide Accepted, RunLength, SystemAt, StageAt;
    var h := StageAt(r, s, host, k);
    if StageAt(r, s, host, k + 1).Running? {
    } else if h == Running(RunLength(r)) {
      assert RanToEnd(r, s, host, k - 1 - h.n, k + 1);
    } else if SystemAt(r, s, host, k + 1).u.finishReg {
      var j: nat :| RanToEnd(r, s, host, j, k);
      assert RanToEnd(r, s, host, j, k + 1);
    }
  }

  /** Once a run has ended its Finish is latched, and stays so while no start is accepted. */
  lemma {:induction false} EndIsLatched(r: nat, s: System, host: nat -> HostCycle, j: nat, k: nat)
    requires Session(r, s, host) && RanToEnd(r, s, host, j, k)
    ensures SystemAt(r, s, host, k).u.finishReg
    decreases k
  {
    hide Session, Inv, Next, NextStage, UC.StartAccepted, RunLength;
    if k == j + 2 + RunLength(r) {
      RunsOn(r, s, host, j, RunLength(r));
      StageAdvances(r, Running(RunLength(r)), SystemAt(r, s, host, k - 1).u, host(k - 1).bus);
      InvAlways(r, s, host, k);
      CompleteIsLatched(r, SystemAt(r, s, host, k), OperandsAt(r, s, host, k));
    } else {
      EndIsLatched(r, s, host, j, k - 1);
      assert !Accepted(r, s, host, k - 1);
      LatchStays(r, SystemAt(r, s, host, k - 1), host(k - 1));
    }
  }

  lemma CompleteIsLatched(r: nat, s: System, o: Operands)
    requires Inv(r, Complete, s, o)
    ensures s.u.finishReg
  {
  }

  lemma LatchStays(r: nat, s: System, c: HostCycle)
    requires s.u.finishReg && !UC.StartAccepted(s.u, c.bus)
    ensures Next(r, s, c).u.finishReg
  {
    UC.LatchKeeps(s.u, s.m.cc.finish, c.bus);
  }

  /** The operands of the last run are those of its beginning, whatever the host wrote since. */
  lemma {:induction false} OperandsSince(r: nat, s: System, host: nat -> HostCycle, j: nat, k: nat)
    requires Session(r, s, host) && Accepted(r, s, host, j) && j < k && forall i: nat | j < i < k :: !Accepted(r, s, host, i)
    ensures OperandsAt(r, s, host, k) == OperandsOf(SystemAt(r, s, host, j + 1).m)
    decreases k
  {
    hide Session, Inv, Next, NextStage, ProductOf, RunLength, UC.StartAccepted;
    CycleDecides(r, s, host, k - 1);
    if k > j + 1 {
      OperandsSince(r, s, host, j, k - 1);
    }
  }

  /** A read of 0x2000 .. 0x2FFF is answered with 2 if and only if the last accepted start has run to Finish
      and nothing was started since, and otherwise with 0. The mirrored product of what the operand BRAMs held when that run began
      is then in BRAM C, even if the host has written new operands already. */
  lemma StatusTwoIff(r: nat, s: System, host: nat -> HostCycle, k: nat)
    requires Session(r, s, host)
    requires host(k).bus.arvalid && !SystemAt(r, s, host, k).u.arready && 0x2000 <= host(k).bus.araddr % 0x4000 < 0x3000
    ensures SystemAt(r, s, host, k + 1).u.rdata == 2 || SystemAt(r, s, host, k + 1).u.rdata == 0
    ensures SystemAt(r, s, host, k + 1).u.rdata == 2 <==> exists j: nat :: RanToEnd(r, s, host, j, k)
    ensures forall j: nat | RanToEnd(r, s, host, j, k) ::
      ProductOf(r, OperandsOf(SystemAt(r, s, host, j + 1).m), SystemAt(r, s, host, k).m.bramC)
  {
    AnswerIs(r, SystemAt(r, s, host, k), host(k));
    hide *;
    NextSystem(r, s, host, k);
    CycleDecides(r, s, host, k);
    forall j: nat | RanToEnd(r, s, host, j, k)
      ensures SystemAt(r, s, host, k).u.finishReg
      ensures ProductOf(r, OperandsOf(SystemAt(r, s, host, j + 1).m), SystemAt(r, s, host, k).m.bramC)
    {
      EndIsLatched(r, s, host, j, k);
      RanFacts(r, s, host, j, k);
      OperandsSince(r, s, host, j, k);
    }
    if SystemAt(r, s, host, k).u.finishReg {
      AlwaysRemembers(r, s, host, k);
      var j := LastRun(r, s, host, k);
    }
  }

  lemma RanFacts(r: nat, s: System, host: nat -> HostCycle, j: nat, k: nat)
    requires RanToEnd(r, s, host, j, k)
    ensures j < k && Accepted(r, s, host, j) && forall i: nat | j < i < k :: !Accepted(r, s, host, i)
  {
    hide Accepted;
  }

  lemma NextSystem(r: nat, s: System, host: nat -> HostCycle, k: nat)
    ensures SystemAt(r, s, host, k + 1) == Next(r, SystemAt(r, s, host, k), host(k))
  {
  }

  lemma AnswerIs(r: nat, s: System, c: HostCycle)
    requires c.bus.arvalid && !s.u.arready && 0x2000 <= c.bus.araddr % 0x4000 < 0x3000
    ensures Next(r, s, c).u.rdata == if s.u.finishReg then 2 else 0
  {
    UC.ReadByAddress(s.u, s.m.cc.finish, c.bus);
    hide UC.Next, Step, Written;
  }

  lemma NothingLatched(r: nat, s: System, host: nat -> HostCycle)
    requires Session(r, s, host)
    ensures !s.u.finishReg
  {
    assert Orderly(r, s, host, 0);
  }

  lemma LastRun(r: nat, s: System, host: nat -> HostCycle, k: nat) returns (j: nat)
    requires Remembers(r, s, host, k) && !StageAt(r, s, host, k).Running? && SystemAt(r, s, host, k).u.finishReg
    ensures RanToEnd(r, s, host, j, k) && Accepted(r, s, host, j)
  {
    hide Next, NextStage, UC.StartAccepted, RunLength;
    j :| RanToEnd(r, s, host, j, k);
  }
}
