/** The capture circuit's registers and banks, clocked in place. */
module CameraHardware {
  import opened Bits
  import opened CameraVram

  class Capture {
    var phase: Phase
    var second: bool
    var h: nat
    var v: nat
    var temp: bv8
    var wren: bool
    var waddress: nat
    var win: Word
    const bank0: array<Word>
    const bank1: array<Word>
    const bank2: array<Word>

    ghost predicate Valid()
      reads this
    {
      && bank0.Length == bank1.Length == bank2.Length == BANK
      && bank0 != bank1 && bank0 != bank2 && bank1 != bank2
    }

    ghost function Snapshot(): (s: State)
      requires Valid()
      reads this, bank0, bank1, bank2
      ensures Banks(s.banks)
    {
      State(phase, second, h, v, temp, wren, waddress, win, [bank0[..], bank1[..], bank2[..]])
    }

    constructor ()
      ensures Valid() && phase == SLEEP && fresh(bank0) && fresh(bank1) && fresh(bank2)
    {
      phase, second, h, v, temp, wren, waddress, win := SLEEP, false, 0, 0, 0, false, 0, 0;
      bank0, bank1, bank2 := new Word[BANK], new Word[BANK], new Word[BANK];
    }

    /** One rising edge of the pixel clock. */
    method Clock(i: Input)
      requires Valid()
      modifies this, bank0, bank1, bank2
      ensures Valid() && Snapshot() == Step(old(Snapshot()), i)
    {
      hide Datapath, NextPhase, Write;
      var next := NextPhase(phase, i);
      var store, a, w := wren, waddress, win;
      Act(i);
      StoreWord(store, a, w);
      phase := next;
    }

    /** The memory takes the write prepared at the clock before. */
    method StoreWord(store: bool, a: nat, w: Word)
      requires Valid()
      modifies bank0, bank1, bank2
      ensures var s := old(Snapshot());
              Snapshot() == s.(banks := if store then Write(s.banks, a, w) else s.banks)
    {
      if store {
        var bank, k := a / BANK, a % BANK;
        if bank == 0 {
          bank0[k] := w;
        } else if bank == 1 {
          bank1[k] := w;
        } else if bank == 2 {
          bank2[k] := w;
        }
      }
    }

    method Act(i: Input)
      requires Valid()
      modifies this
      ensures Valid() && Snapshot() == Datapath(old(Snapshot()), i)
    {
      hide Pair, Xor;
      if phase == PREP {
        second, h, v, temp, wren := false, 0, 0, 0, false;
      } else if phase == RUN {
        if i.href {
          if !second {
            wren := false;
            temp := i.data;
          } else {
            wren := true;
            if v < 240 {
              waddress := (h + v * 640) % 0x4_0000;
              win := if h < 320 then Pair(temp, i.data) else Xor(Pair(temp, i.data), i.key);
            } else {
              win := 0;
            }
            if h == 639 {
              h := 0;
              v := (v + 1) % LINES;
            } else {
              h := h + 1;
            }
          }
          second := !second;
        } else {
          wren := false;
        }
      }
    }

    /** One edge for each input. */
    method ClockFor(ins: seq<Input>)
      requires Valid()
      modifies this, bank0, bank1, bank2
      ensures Valid() && Snapshot() == Run(old(Snapshot()), ins)
    {
      hide Valid, Snapshot, Step;
      ghost var s := Snapshot();
      assert ins[..0] == [];
      for k := 0 to |ins|
        invariant Valid() && Snapshot() == Run(s, ins[..k])
      {
        assert ins[..k + 1][..k] == ins[..k];
        Clock(ins[k]);
      }
      assert ins[..|ins|] == ins;
    }

    /** The circuit itself: clocked through a frame and two edges more, its banks
        hold exactly the pixels of the frame. */
    method CaptureFrame(ins: seq<Input>, end: Input, next: Input)
      requires Valid() && Ready(Snapshot()) && end.vsync && forall k :: 0 <= k < |ins| ==> !ins[k].vsync
      modifies this, bank0, bank1, bank2
      ensures Valid() && Holds(old(Snapshot()).banks, Snapshot().banks, More(Bytes(ins), end))
    {
      FrameStored(Snapshot(), ins, end, next);
      hide Valid, Snapshot, Step, Run, Ready, Holds;
      ClockFor(ins);
      Clock(end);
      Clock(next);
    }
  }
}
