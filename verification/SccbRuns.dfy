/** Whole runs of the register writer: which registers the camera is told,
    in which order, and how the run ends. */
module SccbRuns {
  import opened SccbMaster

  /** Before the run command: nothing has been sent. */
  predicate Halted(y: Bus) {
    && y.v.writes == [] && (y.v.listening ==> y.v.bits == [] && y.s.sdioc)
    && y.lines.clock == y.s.sdioc
  }

  predicate PowerUp(y: Bus) {
    y.s.phase == HALT && y.v == Slave(false, [], []) && y.lines.clock == y.s.sdioc
  }

  /** The rows of the table behind the registers.  Transaction `c` sends row
      `c - 1`; its end loads row `c`. */
  predicate Loaded(s: State) {
    var loaded := (s.subAddress, s.writeData);
    match s.phase
    case HALT => false
    case STOP => s.counter < LAST && loaded == Entry(s.counter)
    case FIN =>
      && 1 <= s.counter <= LAST && s.waited <= 20
      && (s.waited > 0 ==> s.counter < LAST && loaded == Entry(s.counter))
    case _ => 1 <= s.counter <= LAST && s.waited == 0 && loaded == Entry(s.counter - 1)
  }

  function Sent(s: State): nat
    requires Loaded(s)
  {
    if s.phase == STOP || s.phase == FIN then s.counter else s.counter - 1
  }

  predicate Inv(y: Bus) {
    if y.s.phase == HALT then Halted(y)
    else Loaded(y.s) && Wires(y, Entries(Sent(y.s)))
  }

  lemma LoadedStep(y: Bus, w: seq<(Byte, Byte)>, run: bool, idle: bool)
    requires Loaded(y.s) && Wires(y, w)
    ensures var s' := BusStep(y, run, idle).s;
            && Loaded(s')
            && Sent(s') == Sent(y.s) + (if y.s.phase == Phase4 && s'.phase == FIN then 1 else 0)
            && (y.s.phase != FIN ==> (y.s.subAddress, y.s.writeData) == Entry(Sent(y.s)))
  {
    hide Entry;
    if y.s.phase == FIN {
      FinStep(y.s, run);
    } else {
      CounterStep(y, w, run, idle);
      PhaseAfter(y, run, idle);
      hide Wires, BusStep;
    }
  }

  lemma FinStep(s: State, run: bool)
    requires Loaded(s) && s.phase == FIN
    ensures var s' := Step(s, run);
            Loaded(s') && Sent(s') == Sent(s)
  {
    hide Entry;
  }

  lemma CounterStep(y: Bus, w: seq<(Byte, Byte)>, run: bool, idle: bool)
    requires Wires(y, w) && Loaded(y.s) && y.s.phase != FIN
    ensures var s' := BusStep(y, run, idle).s;
            && s'.counter == y.s.counter + (if y.s.phase == STOP then 1 else 0)
            && s'.waited == 0 && s'.phase != STOP && s'.phase != HALT
            && (s'.phase == FIN ==> Left(s') == 0)
  {
    CounterMoves(y.s, run);
    BeforeFin(y, w, run);
    hide Step, Wires, Loaded, Seen, HearAll, LinesOf;
  }

  lemma CounterMoves(s: State, run: bool)
    requires Loaded(s) && s.phase != FIN
    ensures var s' := Step(s, run);
            && s'.counter == s.counter + (if s.phase == STOP then 1 else 0)
            && s'.waited == 0 && s'.phase != STOP && s'.phase != HALT
  {
    hide Bit, Entry, ShiftByte, ShiftData, ShiftNothing;
    GoesOn(s, run);
    hide NextPhase;
  }

  lemma GoesOn(s: State, run: bool)
    requires s.phase !in {HALT, FIN}
    ensures NextPhase(s, run) !in {HALT, STOP}
  {
  }

  lemma BeforeFin(y: Bus, w: seq<(Byte, Byte)>, run: bool)
    requires Wires(y, w) && y.s.phase != FIN
    ensures Step(y.s, run).phase == FIN ==> Left(Step(y.s, run)) == 0
  {
    hide Sending, Between, Bit, Seen, HearAll, Entry, IsFrame, FrameAt;
  }

  lemma FirstEntry()
    ensures Entry(0) == (0x12, 0x80)
  {
  }

  lemma HaltedStep(y: Bus, run: bool, idle: bool)
    requires y.s.phase == HALT && Halted(y)
    ensures Inv(BusStep(y, run, idle))
  {
    FirstEntry();
    hide IsFrame, FrameAt, Entry;
    NoWrite([]);
    var y' := BusStep(y, run, idle);
    assert y'.v.writes == [];
    assert y'.v.listening ==> y'.v.bits == [];
    assert y'.s.phase == HALT ==> Halted(y');
    assert y'.s.phase == STOP ==> Loaded(y'.s);
    assert y'.s.phase == STOP ==> Wires(y', Entries(0));
  }

  lemma Running(y: Bus)
    requires Loaded(y.s) || (Inv(y) && y.s.phase != HALT)
    ensures Loaded(y.s) && Sent(y.s) <= LAST && (Wires(y, Entries(Sent(y.s))) <==> Inv(y))
  {
  }

  lemma StepKeeps(y: Bus, run: bool, idle: bool)
    requires Inv(y)
    ensures Inv(BusStep(y, run, idle))
  {
    if y.s.phase == HALT {
      HaltedStep(y, run, idle);
    } else {
      RunningStep(y, run, idle);
    }
  }

  lemma RunningStep(y: Bus, run: bool, idle: bool)
    requires Inv(y) && y.s.phase != HALT
    ensures Inv(BusStep(y, run, idle))
  {
    Running(y);
    hide *;
    var n := Sent(y.s);
    LoadedStep(y, Entries(n), run, idle);
    WiresStep(y, Entries(n), run, idle);
    EntriesGrow(n);
    Running(BusStep(y, run, idle));
  }

  lemma EntriesGrow(n: nat)
    requires n <= LAST
    ensures Entries(n + 1) == Entries(n) + [Entry(n)]
  {
    hide Entry;
  }

  lemma {:induction false} RunKeeps(y: Bus, run: nat -> bool, idle: nat -> bool, t: nat, n: nat)
    requires Inv(y)
    ensures Inv(Run(y, run, idle, t, n))
    decreases n
  {
    hide Inv, BusStep;
    if n > 0 {
      StepKeeps(y, run(t), idle(t));
      RunKeeps(BusStep(y, run(t), idle(t)), run, idle, t + 1, n - 1);
    }
  }

  /** At every moment of every run the camera has heard the first rows of the
      table, in order and once each; the last row is never among them. */
  lemma HearsTableInOrder(y: Bus, run: nat -> bool, idle: nat -> bool, n: nat)
    requires PowerUp(y)
    ensures var heard := Run(y, run, idle, 0, n).v.writes;
            |heard| <= LAST && heard == Entries(|heard|)
  {
    RunKeeps(y, run, idle, 0, n);
    HeardSoFar(Run(y, run, idle, 0, n));
  }

  lemma HeardSoFar(y: Bus)
    requires Inv(y)
    ensures |y.v.writes| <= LAST && y.v.writes == Entries(|y.v.writes|)
  {
    hide IsFrame, FrameAt, Entry;
    if y.s.phase != HALT {
      var n := Sent(y.s);
      if y.s.phase == BREAK || y.s.phase == Phase3 || y.s.phase == Phase4 {
        Grown(y, n);
      }
    }
  }

  lemma Grown(y: Bus, n: nat)
    requires Loaded(y.s) && n == Sent(y.s) && y.s.phase != STOP && y.s.phase != FIN
    ensures Entries(n) + [(y.s.subAddress, y.s.writeData)] == Entries(n + 1)
  {
  }

  // ------------------------------------------------------------------
  // The end of the run
  // ------------------------------------------------------------------

  predicate Finished(s: State) {
    s.phase == FIN && s.counter == LAST
  }

  /** The clocks left until the last transaction is over. */
  function Clocks(s: State): int {
    if s.phase == FIN then if s.counter == LAST then 0 else 21 - s.waited + 119 + 140 * (LAST - s.counter - 1)
    else if s.phase == STOP then 119 + 140 * (LAST - s.counter - 1)
    else Left(s) + 140 * (LAST - s.counter)
  }

  lemma ClocksStep(y: Bus, run: bool, idle: bool)
    requires Inv(y) && y.s.phase != HALT && !Finished(y.s)
    ensures Clocks(y.s) > 0 && Clocks(BusStep(y, run, idle).s) == Clocks(y.s) - 1
    ensures BusStep(y, run, idle).s.phase != HALT
  {
    var w := Entries(Sent(y.s));
    if y.s.phase == FIN {
      hide Entry, Wires, Seen, HearAll;
    } else {
      LeftStep(y, w, run, idle);
      CounterStep(y, w, run, idle);
      hide BusStep, Entry, Left, Wires;
    }
  }

  lemma FinishedStays(y: Bus, run: bool, idle: bool)
    requires Inv(y) && Finished(y.s)
    ensures Finished(BusStep(y, run, idle).s)
  {
  }

  lemma ClockCounts(y: Bus, run: bool, idle: bool)
    requires Inv(y) && y.s.phase != HALT
    ensures var y' := BusStep(y, run, idle);
            y'.s.phase != HALT && (Clocks(y'.s) < Clocks(y.s) || (Finished(y.s) && Clocks(y'.s) == Clocks(y.s) == 0))
  {
    if Finished(y.s) {
      FinishedStays(y, run, idle);
    } else {
      ClocksStep(y, run, idle);
    }
    hide Inv, BusStep;
  }

  /** Once running, the master finishes after exactly so many clocks, and from
      then on has told every row but the last, whatever happens. */
  lemma {:induction false} Finishes(y: Bus, run: nat -> bool, idle: nat -> bool, t: nat, n: nat)
    requires Inv(y) && y.s.phase != HALT && n >= Clocks(y.s)
    ensures Finished(Run(y, run, idle, t, n).s)
    ensures Run(y, run, idle, t, n).v.writes == Entries(LAST)
    decreases n
  {
    if n == 0 {
      AtEnd(y);
    } else {
      hide Inv, BusStep, Clocks;
      StepKeeps(y, run(t), idle(t));
      ClockCounts(y, run(t), idle(t));
      Finishes(BusStep(y, run(t), idle(t)), run, idle, t + 1, n - 1);
    }
  }

  lemma AtEnd(y: Bus)
    requires Inv(y) && y.s.phase != HALT && Clocks(y.s) <= 0
    ensures Finished(y.s) && y.v.writes == Entries(LAST)
  {
    if !Finished(y.s) {
      ClocksStep(y, false, false);
    }
  }

  /** Within 8,240 clocks of the run command the camera has heard the table. */
  lemma RunCommandTellsTable(y: Bus, run: nat -> bool, idle: nat -> bool, t: nat, n: nat)
    requires Inv(y) && y.s.phase == HALT && run(t) && n >= 8240
    ensures var y' := Run(y, run, idle, t, n);
            Finished(y'.s) && y'.v.writes == Entries(LAST)
  {
    StepKeeps(y, run(t), idle(t));
    var y' := BusStep(y, run(t), idle(t));
    assert y'.s.phase == STOP && y'.s.counter == 0;
    Finishes(y', run, idle, t + 1, n - 1);
  }
}
