/** Usr_control: the read channel through which the host starts runs and polls for their end. */
module UsrControl {

  datatype Registers = Registers(
    arready: bool, rvalid: bool, rdata: nat, finishReg: bool, finish2: bool,
    start: bool, start2: bool, process: bool)

  /** What the host drives on the read channel in one cycle. */
  datatype ReadBus = ReadBus(arvalid: bool, araddr: nat, rready: bool)

  /** Bits 13..12 of the read address: 1 is the start register, 2 the status register. */
  function Select(bus: ReadBus): nat {
    bus.araddr / 4096 % 4
  }

  /** A read address is taken in this cycle. */
  predicate Taken(u: Registers, bus: ReadBus) {
    bus.arvalid && !u.arready
  }

  /** A read of the start register, at 0x1000 in every 16 KB, that begins a run. */
  predicate StartAccepted(u: Registers, bus: ReadBus) {
    Taken(u, bus) && 0x1000 <= bus.araddr % 0x4000 < 0x2000 && !u.process
  }

  /** A read of the status register, at 0x2000, that answers 2. */
  predicate StatusDone(u: Registers, bus: ReadBus) {
    Taken(u, bus) && 0x2000 <= bus.araddr % 0x4000 < 0x3000 && u.finishReg
  }

  /** One clock out of reset; taken says whether a read address is accepted. */
  function NextRunning(u: Registers, finish: bool, taken: bool, select: nat, rready: bool): Registers {
    var pulseOver := u.start && u.start2;
    var launch := taken && select == 1 && !u.process;
    var answer2 := select == 2 && u.finishReg;
    Registers(
      taken,
      if u.arready && !u.rvalid then true else if u.rvalid && rready then false else u.rvalid,
      if !taken then u.rdata else if answer2 then 2 else if select == 1 then 1 else 0,
      !launch && (u.finishReg || (finish && !u.finish2)),
      finish,
      launch || (u.start && !pulseOver),
      !pulseOver && (u.start2 || u.start),
      launch || (u.process && !(taken && answer2)))
  }

  function Next(u: Registers, aresetn: bool, finish: bool, bus: ReadBus): Registers {
    if !aresetn then Registers(false, false, u.rdata, false, false, false, false, false)
    else NextRunning(u, finish, Taken(u, bus), Select(bus), bus.rready)
  }

  /** The two bits name a 4 KB page of each 16 KB of addresses. */
  lemma SelectIsPage(bus: ReadBus)
    ensures Select(bus) == bus.araddr % 0x4000 / 0x1000
  {
    var q, o := bus.araddr / 0x4000, bus.araddr % 0x4000;
    assert bus.araddr == 0x1000 * (4 * q + o / 0x1000) + o % 0x1000;
    assert bus.araddr / 0x1000 == 4 * q + o / 0x1000;
  }

  /** What a taken read does beyond what the same cycle does without one, by its address. A read of
      0x1000 .. 0x1FFF answers 1, and begins a run if and only if none is in progress; one of
      0x2000 .. 0x2FFF answers 2 and acknowledges the run if Finish is latched, and 0 otherwise; any other
      answers 0. */
  lemma ReadByAddress(u: Registers, finish: bool, bus: ReadBus)
    requires bus.arvalid && !u.arready
    ensures
      var a, u1, quiet := bus.araddr % 0x4000, Next(u, true, finish, bus), Next(u, true, finish, bus.(arvalid := false));
      && (0x1000 <= a < 0x2000 ==>
            u1 == if u.process then quiet.(arready := true, rdata := 1)
                  else quiet.(arready := true, rdata := 1, start := true, process := true, finishReg := false))
      && (0x2000 <= a < 0x3000 ==>
            u1 == if u.finishReg then quiet.(arready := true, rdata := 2, process := false)
                  else quiet.(arready := true, rdata := 0))
      && (a < 0x1000 || 0x3000 <= a ==> u1 == quiet.(arready := true, rdata := 0))
  {
    SelectIsPage(bus);
    hide Select;
  }

  /** A cycle without a read keeps the data and the run in progress; a rising Finish is latched, and a start
      that is up goes on to its second cycle or ends with it. */
  lemma QuietCycle(u: Registers, finish: bool, bus: ReadBus)
    requires !bus.arvalid || u.arready
    ensures
      var u1 := Next(u, true, finish, bus);
      && !u1.arready && u1.rdata == u.rdata && u1.process == u.process && u1.finish2 == finish
      && (u1.finishReg <==> u.finishReg || (finish && !u.finish2))
      && (u.start && !u.start2 ==> u1.start && u1.start2) && (u.start && u.start2 ==> !u1.start && !u1.start2)
      && (!u.start ==> !u1.start && u1.start2 == u.start2)
  {
  }

  /** A response is raised by an acknowledged address and stands until the host takes it, whatever else is read. */
  lemma ResponseStands(u: Registers, finish: bool, bus: ReadBus)
    ensures
      var u1 := Next(u, true, finish, bus);
      && (u.rvalid && !bus.rready ==> u1.rvalid) && (u.rvalid && bus.rready ==> !u1.rvalid)
      && (!u.rvalid ==> u1.rvalid == u.arready)
  {
  }

  /** Every taken read is acknowledged in the next cycle with the data of its register: 2 exactly for a
      status read after Finish was latched, 1 exactly for a read of the start register, and otherwise 0.
      The data stand until the response is valid; the response is raised anew exactly if no earlier one is
      left waiting. */
  lemma ReadIsAnswered(u: Registers, finish: bool, bus: ReadBus, finish1: bool, bus1: ReadBus)
    requires Taken(u, bus)
    ensures
      var u1 := Next(u, true, finish, bus);
      var u2 := Next(u1, true, finish1, bus1);
      && u1.arready && !u2.arready && u2.rdata == u1.rdata <= 2
      && (u1.rdata == 2 <==> StatusDone(u, bus)) && (u1.rdata == 1 <==> 0x1000 <= bus.araddr % 0x4000 < 0x2000)
      && (!u1.rvalid && u2.rvalid <==> !u.rvalid || bus.rready)
  {
    SelectIsPage(bus);
    hide Select;
  }

  /** Such a read can come: two reads of the status register after a reset, with rready low. The second
      one is taken while the response of the first is waiting and gets none of its own. */
  lemma ResponseIsLost(u: Registers, any: ReadBus)
    ensures
      var bus := ReadBus(true, 0x2000, false);
      var u0 := Next(u, false, false, any);
      var u2 := Next(Next(u0, true, false, bus), true, false, bus);
      var u3 := Next(u2, true, false, bus);
      var u4 := Next(u3, true, false, bus);
      && Taken(u0, bus) && !u0.rvalid && u2.rvalid && Taken(u2, bus) && u3.arready && u3.rvalid && u4.rvalid
  {
  }

  /** A latched Finish stays latched until a start is accepted. */
  lemma LatchKeeps(u: Registers, finish: bool, bus: ReadBus)
    requires u.finishReg
    ensures Next(u, true, finish, bus).finishReg <==> !StartAccepted(u, bus)
  {
    SelectIsPage(bus);
    hide Select;
  }

  class Control {
    var arready: bool
    var rvalid: bool
    var rdata: nat
    var finishReg: bool
    var finish2: bool
    var start: bool
    var start2: bool
    var process: bool

    ghost function View(): Registers
      reads this
    {
      Registers(arready, rvalid, rdata, finishReg, finish2, start, start2, process)
    }

    method Clock(aresetn: bool, finish: bool, bus: ReadBus)
      modifies this
      ensures View() == Next(old(View()), aresetn, finish, bus)
    {
      if !aresetn {
        arready, rvalid, finishReg, finish2 := false, false, false, false;
        start, start2, process := false, false, false;
      } else {
        ClockRunning(finish, bus.arvalid && !arready, Select(bus), bus.rready);
      }
    }

    // Later nonblocking assignments win; every right-hand side is a value before the edge.
    method ClockRunning(finish: bool, taken: bool, select: nat, rready: bool)
      modifies this
      ensures View() == NextRunning(old(View()), finish, taken, select, rready)
    {
      ghost var u := View();
      ghost var next := NextRunning(u, finish, taken, select, rready);
      ClockResponse(rready);
      var finishRegQ := finishReg;
      arready := taken;
      ClockPulses(finish);
      if taken {
        ClockRead(finishRegQ, select);
      }
      assert start == next.start && start2 == next.start2 && finish2 == next.finish2;
      assert finishReg == next.finishReg;
      assert process == next.process;
      assert rdata == next.rdata;
    }

    method ClockResponse(rready: bool)
      modifies this`rvalid
      ensures rvalid == if arready && !old(rvalid) then true else if old(rvalid) && rready then false else old(rvalid)
    {
      if arready && !rvalid {
        rvalid := true;
      } else if rvalid && rready {
        rvalid := false;
      }
    }

    // Edge detection of Finish and the two-cycle start pulse.
    method ClockPulses(finish: bool)
      modifies this`finish2, this`finishReg, this`start, this`start2
      ensures finish2 == finish && finishReg == (old(finishReg) || (finish && !old(finish2)))
      ensures start == (old(start) && !old(start2))
      ensures start2 == if old(start) && old(start2) then false else old(start2) || old(start)
    {
      if finish && !finish2 {
        finishReg := true;
      }
      finish2 := finish;
      var both := start && start2;
      if start {
        start2 := true;
      }
      if both {
        start, start2 := false, false;
      }
    }

    // A read address is taken; finishRegQ is the value of finish_reg before the edge.
    method ClockRead(finishRegQ: bool, select: nat)
      modifies this`rdata, this`process, this`start, this`finishReg
      ensures rdata == if select == 2 then (if finishRegQ then 2 else 0) else if select == 1 then 1 else 0
      ensures
        if select == 1 && !old(process) then start && !finishReg && process
        else start == old(start) && finishReg == old(finishReg) && process == (old(process) && !(select == 2 && finishRegQ))
    {
      if select == 2 {
        if finishRegQ {
          rdata, process := 2, false;
        } else {
          rdata := 0;
        }
      } else if select == 1 {
        rdata := 1;
        if !process {
          start, finishReg, process := true, false, true;
        }
      } else {
        rdata := 0;
      }
    }
  }
}
