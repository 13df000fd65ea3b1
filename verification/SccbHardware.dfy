/** The register writer's registers, clocked in place. */
module SccbHardware {
  import opened SccbMaster
  import opened SccbRuns

  class Master {
    var phase: Phase
    var ipWrite: Byte
    var ipRead: Byte
    var subAddress: Byte
    var writeData: Byte
    var counter: nat
    var bits: nat
    var prep1: bool
    var prep2: bool
    var camClk: bool
    var current: bool
    var waited: nat
    var pause: nat
    var sdioc: bool
    var sdiod: Wire

    function Snapshot(): State
      reads this
    {
      State(phase, ipWrite, ipRead, subAddress, writeData, counter, bits, prep1, prep2, camClk, current,
            waited, pause, sdioc, sdiod)
    }

    constructor ()
      ensures phase == HALT
    {
      phase := HALT;
    }

    /** One rising edge of the clock. */
    method Clock(run: bool)
      modifies this
      ensures Snapshot() == Step(old(Snapshot()), run)
    {
      hide Datapath, NextPhase;
      var next := NextPhase(Snapshot(), run);
      Act();
      phase := next;
    }

    /** What the data registers do at the edge. */
    method Act()
      modifies this
      ensures Snapshot() == Datapath(old(Snapshot()))
    {
      hide ShiftByte, ShiftData, ShiftNothing, LoadNext;
      match phase {
        case HALT => Halt();
        case STOP => Idle();
        case PREP => Idle();
        case Phase1 => Shift(ipWrite);
        case Phase2 => Shift(subAddress);
        case INPUT => ShiftLast();
        case BREAK => Pause();
        case Phase3 => Shift(ipRead);
        case Phase4 => ClockOnly();
        case FIN => Load();
      }
    }

    method Halt()
      requires phase == HALT
      modifies this
      ensures Snapshot() == Datapath(old(Snapshot()))
    {
      subAddress, writeData := 0x12, 0x80;
      ipWrite, ipRead := 0x42, 0x43;
      sdioc, sdiod := true, Released;
      counter := 0;
    }

    /** The phases before the first byte. */
    method Idle()
      requires phase == STOP || phase == PREP
      modifies this
      ensures Snapshot() == Datapath(old(Snapshot()))
    {
      if phase == STOP {
        counter := (counter + 1) % 256;
        bits := 0;
        sdioc, sdiod := true, Released;
        camClk, prep1, prep2 := false, false, false;
        waited, pause := 0, 0;
      } else if !prep1 {
        sdioc, sdiod, prep1 := true, Driven(true), true;
      } else {
        sdioc, sdiod, prep2 := true, Driven(false), true;
      }
    }

    method Pause()
      requires phase == BREAK
      modifies this
      ensures Snapshot() == Datapath(old(Snapshot()))
    {
      sdioc := true;
      if pause > 6 && pause < 12 {
        sdiod := Driven(true);
      } else {
        sdiod := Driven(false);
      }
      pause := (pause + 1) % 256;
    }

    method Shift(b: Byte)
      modifies this
      ensures Snapshot() == ShiftByte(old(Snapshot()), b)
    {
      hide Bit;
      if !camClk {
        if bits < 8 {
          sdiod := Driven(Bit(b, 7 - bits));
          current := Bit(b, 7 - bits);
        }
        sdioc := false;
        bits := bits + 1;
      } else {
        sdioc := true;
        if bits != 9 {
          sdiod := Driven(current);
        }
        if bits == 9 {
          bits := 0;
        }
      }
      camClk := !camClk;
    }

    method ShiftLast()
      modifies this
      ensures Snapshot() == ShiftData(old(Snapshot()))
    {
      hide Bit;
      if !camClk {
        sdioc := false;
        if bits < 8 {
          sdiod := Driven(Bit(writeData, 7 - bits));
          current := Bit(writeData, 7 - bits);
        } else if bits == 9 {
          sdiod := Driven(false);
          current := false;
        }
        bits := bits + 1;
      } else {
        sdioc := true;
        if bits != 9 {
          sdiod := Driven(current);
        }
        if bits == 10 {
          bits := 0;
        }
      }
      camClk := !camClk;
    }

    method ClockOnly()
      modifies this
      ensures Snapshot() == ShiftNothing(old(Snapshot()))
    {
      if !camClk {
        if bits == 8 {
          current, sdiod := true, Driven(true);
        } else if bits == 9 {
          current, sdiod := false, Driven(false);
        }
        sdioc := false;
        bits := bits + 1;
      } else {
        sdioc := true;
        if bits == 9 || bits == 10 {
          sdiod := Driven(current);
        }
        if bits == 10 {
          bits := 0;
        }
      }
      camClk := !camClk;
    }

    method Load()
      modifies this
      ensures Snapshot() == LoadNext(old(Snapshot()))
    {
      hide Entry;
      sdioc, sdiod := true, Driven(false);
      if counter <= LAST {
        subAddress, writeData := Entry(counter).0, Entry(counter).1;
      }
      if counter != LAST {
        waited := (waited + 1) % 0x1_0000;
      }
    }

    /** `n` edges, with the run command from time `t` on.  The master does not
        look at the wires, so it goes through the states of every bus it is on. */
    method ClockFor(ghost y: Bus, run: nat -> bool, ghost idle: nat -> bool, t: nat, n: nat)
      requires Snapshot() == y.s
      modifies this
      ensures Snapshot() == Run(y, run, idle, t, n).s
    {
      hide Step, Snapshot, Seen, HearAll;
      ghost var now := y;
      for k := 0 to n
        invariant Snapshot() == now.s && Run(now, run, idle, t + k, n - k) == Run(y, run, idle, t, n)
      {
        assert t + k + 1 == t + (k + 1) && n - k - 1 == n - (k + 1);
        Clock(run(t + k));
        now := BusStep(now, run(t + k), idle(t + k));
      }
    }

    /** The circuit itself: 8,240 clocks after the run command, or later, a slave
        on its wires has heard the table. */
    method TellTable(ghost y: Bus, run: nat -> bool, ghost idle: nat -> bool, t: nat, n: nat)
      requires Snapshot() == y.s && Inv(y) && phase == HALT && run(t) && n >= 8240
      modifies this
      ensures Finished(Snapshot()) && Run(y, run, idle, t, n).v.writes == Entries(LAST)
    {
      RunCommandTellsTable(y, run, idle, t, n);
      hide Finished, Run, Inv;
      ClockFor(y, run, idle, t, n);
    }
  }
}
