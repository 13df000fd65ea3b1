/** The key handshake: a processor passes keys byte by byte to the hardware
    through two ports, each side signalling the other by numbers. */
module KeyHandshake {

  type Byte = x: nat | x < 256

  /** The hardware's registers.  The counter has five bits. */
  datatype Hw = Hw(toSw: Byte, counter: nat, row: seq<Byte>, column: seq<Byte>, diagonal: seq<Byte>, command: bool)

  predicate Sized(h: Hw) {
    |h.row| == 8 && |h.column| == 10 && |h.diagonal| == 3 && h.counter < 32
  }

  function Store(bytes: seq<Byte>, i: nat, b: Byte): (r: seq<Byte>)
    ensures |r| == |bytes|
  {
    if i < |bytes| then bytes[i := b] else bytes
  }

  /** One clock of the hardware. */
  function HwStep(h: Hw, sig: Byte, port: Byte): (h': Hw)
    requires Sized(h)
    ensures Sized(h')
  {
    match sig
    case 0 => h.(toSw := 0, counter := 0)
    case 1 => h.(toSw := 1)
    case 2 => h.(row := Store(h.row, h.counter, port), toSw := 2)
    case 3 => h.(counter := if h.toSw != 3 then (h.counter + 1) % 32 else h.counter, toSw := 3)
    case 4 => h.(counter := 0, toSw := 4)
    case 5 => h.(column := Store(h.column, h.counter, port), toSw := 5)
    case 6 => h.(counter := if h.toSw != 6 then (h.counter + 1) % 32 else h.counter, toSw := 6)
    case 7 => h.(counter := 0, toSw := 7)
    case 8 => h.(diagonal := Store(h.diagonal, h.counter, port), toSw := 8)
    case 9 => h.(counter := if h.toSw != 9 then (h.counter + 8) % 32 else h.counter, toSw := 9)
    case 10 => h.(command := port % 2 == 1, toSw := 10)
    case _ => h
  }

  function HwRun(h: Hw, sig: Byte, port: Byte, n: nat): (h': Hw)
    requires Sized(h)
    ensures Sized(h')
  {
    if n == 0 then h else HwStep(HwRun(h, sig, port, n - 1), sig, port)
  }

  lemma StepTwice(h: Hw, sig: Byte, port: Byte)
    requires Sized(h)
    ensures HwStep(HwStep(h, sig, port), sig, port) == HwStep(h, sig, port)
  {
  }

  /** The protocol does not depend on speed: while the processor leaves its
      ports alone, any number of clocks has the effect of one. */
  lemma {:induction false} AnyNumberIsOne(h: Hw, sig: Byte, port: Byte, n: nat)
    requires Sized(h) && n > 0
    ensures HwRun(h, sig, port, n) == HwStep(h, sig, port)
  {
    if n == 1 {
      assert HwRun(h, sig, port, 0) == h;
    } else {
      AnyNumberIsOne(h, sig, port, n - 1);
      StepTwice(h, sig, port);
    }
  }

  /** Passing one byte: `store` asks for it to be stored, `ack` for the next place. */
  function Pass(h: Hw, store: Byte, ack: Byte, b: Byte): (h': Hw)
    requires Sized(h)
    ensures Sized(h')
  {
    HwStep(HwStep(h, store, b), ack, b)
  }

  /** The hardware has answered a signal under which it does nothing more,
      whatever the data port shows. */
  predicate Settled(h: Hw, sig: Byte) {
    && h.toSw == sig && sig in {0, 1, 3, 4, 6, 7, 9}
    && (sig in {0, 4, 7} ==> h.counter == 0)
  }

  lemma SettledStays(h: Hw, sig: Byte, port: Byte)
    requires Sized(h) && Settled(h, sig)
    ensures HwStep(h, sig, port) == h
  {
  }

  lemma Answers(h: Hw, sig: Byte, port: Byte)
    requires Sized(h) && sig <= 10
    ensures HwStep(h, sig, port).toSw == sig
    ensures sig in {0, 1, 3, 4, 6, 7, 9} ==> Settled(HwStep(h, sig, port), sig)
  {
  }

  lemma PassRow(h: Hw, b: Byte)
    requires Sized(h) && (h.toSw == 1 || h.toSw == 3)
    ensures Pass(h, 2, 3, b) == h.(row := Store(h.row, h.counter, b), counter := (h.counter + 1) % 32, toSw := 3)
  {
  }

  lemma PassColumn(h: Hw, b: Byte)
    requires Sized(h) && (h.toSw == 4 || h.toSw == 6)
    ensures Pass(h, 5, 6, b) == h.(column := Store(h.column, h.counter, b), counter := (h.counter + 1) % 32, toSw := 6)
  {
  }

  lemma PassDiagonal(h: Hw, b: Byte)
    requires Sized(h) && (h.toSw == 7 || h.toSw == 9)
    ensures Pass(h, 8, 9, b)
            == h.(diagonal := Store(h.diagonal, h.counter, b), counter := (h.counter + 8) % 32, toSw := 9)
  {
  }

  class Link {
    var h: Hw
    var sig: Byte
    var port: Byte

    ghost predicate Valid()
      reads this
    {
      Sized(h)
    }

    /** Both ports are clear at reset. */
    constructor (h: Hw)
      requires Sized(h)
      ensures Valid() && this.h == h && sig == 0
    {
      this.h := h;
      sig, port := 0, 0;
    }

    /** The hardware runs between two accesses of the processor: at least one
        clock, but nobody knows how many. */
    method Clocks()
      requires Valid()
      modifies this`h
      ensures Valid() && h == HwStep(old(h), sig, port)
    {
      hide HwStep;
      var more: nat := *;
      ghost var n := 1;
      h := HwStep(h, sig, port);
      assert h == HwRun(old(h), sig, port, 1) by {
        assert HwRun(old(h), sig, port, 0) == old(h);
      }
      while more > 0
        invariant Valid() && n > 0 && h == HwRun(old(h), sig, port, n)
      {
        h := HwStep(h, sig, port);
        n := n + 1;
        more := more - 1;
      }
      AnyNumberIsOne(old(h), sig, port, n);
    }

    // Every access of the processor comes after some clocks of the hardware.

    method WriteSig(value: Byte)
      requires Valid()
      modifies this`h, this`sig
      ensures Valid() && sig == value && h == HwStep(old(h), old(sig), port)
    {
      Clocks();
      sig := value;
    }

    method WritePort(value: Byte)
      requires Valid()
      modifies this`h, this`port
      ensures Valid() && port == value && h == HwStep(old(h), sig, old(port))
    {
      Clocks();
      port := value;
    }

    method ReadSig() returns (seen: Byte)
      requires Valid()
      modifies this`h
      ensures Valid() && h == HwStep(old(h), sig, port) && seen == h.toSw
    {
      Clocks();
      seen := h.toSw;
    }

    /** Signal `value` until the hardware answers with it. */
    method Announce(value: Byte)
      requires Valid() && value in {1, 4, 7} && Settled(h, sig) && sig != value
      modifies this`h, this`sig
      ensures Valid() && sig == value && h == HwStep(old(h), value, port) && Settled(h, sig)
    {
      SettledStays(h, sig, port);
      Answers(h, value, port);
      hide HwStep;
      var seen := ReadSig();
      while seen != value
        invariant Valid() && seen == h.toSw
        invariant if seen == value then sig == value && h == HwStep(old(h), value, port)
                  else sig == old(sig) && h == old(h)
        decreases if seen != value then 1 else 0
      {
        WriteSig(value);
        seen := ReadSig();
      }
    }

    /** Pass one byte. */
    method SendByte(b: Byte, store: Byte, ack: Byte)
      requires Valid() && (store, ack) in {(2, 3), (5, 6), (8, 9)} && Settled(h, sig)
      modifies this
      ensures Valid() && sig == ack && port == b && h == Pass(old(h), store, ack, b) && Settled(h, sig)
    {
      SettledStays(h, sig, port);
      SettledStays(h, sig, b);
      Answers(h, store, b);
      StepTwice(h, store, b);
      Answers(HwStep(h, store, b), ack, b);
      SettledStays(HwStep(HwStep(h, store, b), ack, b), ack, b);
      hide HwStep;
      WritePort(b);
      WriteSig(store);
      var seen := ReadSig();
      if seen == store {
        WriteSig(ack);
      }
      while seen != ack
        invariant Valid() && sig == ack && port == b
        invariant h == if seen == ack then Pass(old(h), store, ack, b) else HwStep(old(h), store, b)
        decreases if seen != ack then 1 else 0
      {
        seen := ReadSig();
      }
    }

    method SendRow(key: seq<Byte>)
      requires Valid() && |key| == 8 && Settled(h, sig) && sig == 1 && h.counter == 0
      modifies this
      ensures Valid() && Settled(h, sig) && sig == 3
      ensures h.row == key && h.column == old(h.column) && h.diagonal == old(h.diagonal)
    {
      hide HwStep;
      for i := 0 to 8
        invariant Valid() && Settled(h, sig) && sig == (if i == 0 then 1 else 3) && h.counter == i
        invariant h.row[..i] == key[..i]
        invariant h.column == old(h.column) && h.diagonal == old(h.diagonal)
      {
        PassRow(h, key[i]);
        SendByte(key[i], 2, 3);
      }
    }

    method SendColumn(key: seq<Byte>)
      requires Valid() && |key| == 10 && Settled(h, sig) && sig == 4
      modifies this
      ensures Valid() && Settled(h, sig) && sig == 6
      ensures h.column == key && h.row == old(h.row) && h.diagonal == old(h.diagonal)
    {
      hide HwStep;
      for i := 0 to 10
        invariant Valid() && Settled(h, sig) && sig == (if i == 0 then 4 else 6) && h.counter == i
        invariant h.column[..i] == key[..i]
        invariant h.row == old(h.row) && h.diagonal == old(h.diagonal)
      {
        PassColumn(h, key[i]);
        SendByte(key[i], 5, 6);
      }
    }

    /** The counter moves by eight, so only the first byte finds its place. */
    method SendDiagonal(key: seq<Byte>)
      requires Valid() && |key| == 3 && Settled(h, sig) && sig == 7
      modifies this
      ensures Valid() && Settled(h, sig) && sig == 9
      ensures h.diagonal == old(h.diagonal)[0 := key[0]] && h.row == old(h.row) && h.column == old(h.column)
    {
      hide HwStep;
      for i := 0 to 3
        invariant Valid() && Settled(h, sig) && sig == (if i == 0 then 7 else 9) && h.counter == 8 * i
        invariant h.diagonal == if i == 0 then old(h.diagonal) else old(h.diagonal)[0 := key[0]]
        invariant h.row == old(h.row) && h.column == old(h.column)
      {
        PassDiagonal(h, key[i]);
        SendByte(key[i], 8, 9);
      }
    }

    /** One round of the program's loop, with the keys and the command typed in. */
    method Session(rowKey: seq<Byte>, columnKey: seq<Byte>, diagonalKey: seq<Byte>, command: char)
      requires Valid() && sig == 0 && |rowKey| == 8 && |columnKey| == 10 && |diagonalKey| == 3
      modifies this
      ensures Valid() && sig == 0
      ensures if command == 'E' || command == 'D' then
                && h.row == rowKey && h.column == columnKey
                && h.diagonal == old(h.diagonal)[0 := diagonalKey[0]]
                && h.command == (command == 'E')
              else
                && h.row == old(h.row) && h.column == old(h.column) && h.diagonal == old(h.diagonal)
                && h.command == old(h.command)
    {
      WriteSig(0);
      WritePort(0);
      if command == 'E' || command == 'D' {
        Announce(1);
        SendRow(rowKey);
        Announce(4);
        SendColumn(columnKey);
        Announce(7);
        SendDiagonal(diagonalKey);
        if command == 'E' {
          WritePort(1);
        } else if command == 'D' {
          WritePort(0);
        }
        WriteSig(10);
        var seen: Byte := 0;
        while seen != 10
          invariant Valid() && sig == 10 && port == (if command == 'E' then 1 else 0)
          invariant h.row == rowKey && h.column == columnKey && h.diagonal == old(h.diagonal)[0 := diagonalKey[0]]
          invariant seen == 10 ==> h.command == (command == 'E')
          decreases if seen != 10 then 1 else 0
        {
          seen := ReadSig();
        }
        WriteSig(0);
      }
    }
  }

  // ------------------------------------------------------------------
  // When the hardware is too slow
  // ------------------------------------------------------------------

  /** The hardware and the signal after the processor asked for `b` to be
      stored, waited `gap` clocks, and tested the answer once. */
  function AfterTest(h: Hw, store: Byte, ack: Byte, b: Byte, gap: nat): (Hw, Byte)
    requires Sized(h)
  {
    var h' := HwRun(h, store, b, gap);
    (h', if h'.toSw == store then ack else store)
  }

  /** The processor tests only once.  If the hardware has not moved by then,
      no later poll that sees it move ever sees the answer, so the processor
      waits for ever; if it has, the first such poll does. */
  lemma TestDecides(h: Hw, store: Byte, ack: Byte, b: Byte, gap: nat, n: nat)
    requires Sized(h) && (store, ack) in {(2, 3), (5, 6), (8, 9)} && h.toSw != store && n > 0
    ensures var (h', sig) := AfterTest(h, store, ack, b, gap);
            && Sized(h')
            && (HwRun(h', sig, b, n).toSw == ack <==> gap > 0)
            && (gap > 0 ==> HwRun(h', sig, b, n) == Pass(h, store, ack, b))
  {
    var (h', sig) := AfterTest(h, store, ack, b, gap);
    AnyNumberIsOne(h', sig, b, n);
    if gap > 0 {
      AnyNumberIsOne(h, store, b, gap);
    }
  }

  /** And if it still has not moved at the first poll, the answer to the byte
      before passes for the answer to this one.  Then, whatever clocks follow,
      with this byte and with the next on the port, the counter does not move
      for it: once the next has been tested and answered, only one of the two
      has been stored, in the one place, and the counter has moved once.  It is
      the next if the hardware saw that before the test, and this one if not. */
  lemma ByteLost(h: Hw, store: Byte, ack: Byte, b: Byte, next: Byte, n: nat, m: nat, k: nat)
    requires Sized(h) && (store, ack) in {(2, 3), (5, 6), (8, 9)} && h.toSw == ack
    requires n + m > 0 && k > 0
    ensures var (h', sig) := AfterTest(h, store, ack, b, 0);
            && h'.toSw == ack && sig == store
            && HwRun(h', sig, b, n).counter == h.counter
            && var (h'', sig'') := AfterTest(HwRun(h', sig, b, n), store, ack, next, m);
            && Sized(h'') && h''.counter == h.counter && sig'' == ack
            && HwRun(h'', sig'', next, k) == Pass(h, store, ack, if m > 0 then next else b)
  {
    var g := HwRun(h, store, b, n);
    if n > 0 {
      AnyNumberIsOne(h, store, b, n);
    }
    if m > 0 {
      AnyNumberIsOne(g, store, next, m);
      StoredOver(h, store, b, next);
    }
    var h'' := HwRun(g, store, next, m);
    AnyNumberIsOne(h'', ack, next, k);
    AnswerIgnoresPort(h'', ack, b, next);
  }

  /** A byte stored in the place of another leaves nothing of it. */
  lemma StoredOver(h: Hw, store: Byte, b: Byte, next: Byte)
    requires Sized(h) && store in {2, 5, 8}
    ensures HwStep(HwStep(h, store, b), store, next) == HwStep(h, store, next)
  {
  }

  lemma AnswerIgnoresPort(h: Hw, ack: Byte, b: Byte, next: Byte)
    requires Sized(h) && ack in {3, 6, 9}
    ensures HwStep(h, ack, b) == HwStep(h, ack, next)
  {
  }
}
