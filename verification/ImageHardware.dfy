/** The engine as the circuit runs it: registers updated in place at each
    clock edge and a memory array written in place.  `Clock` is proved to be
    `ImageEngine.Step`, so every theorem about runs of `Step` is about it. */
module ImageHardware {
  import opened ImageCipher
  import opened ImageEngine
  import opened ImageRuns

  class Engine {
    var phase: Phase
    var rev: nat
    var block: nat
    var row: nat
    var column: nat
    var row2: nat
    var column2: nat
    var keyCounter: nat
    var temp2: bv16
    var temp3: bv16
    var pins: Pins
    const temp: array<bv16>
    const sram: array<bv16>

    ghost predicate Valid()
      reads this
    {
      temp.Length == 8 && sram.Length == SRAM_WORDS && temp != sram
    }

    ghost function Snapshot(): State
      requires Valid()
      reads this, temp, sram
    {
      State(phase, rev, block, row, column, row2, column2, keyCounter,
            temp[..], temp2, temp3, pins, sram[..])
    }

    /** Power-up: the image is shown, the counters are clear and the SRAM
        holds whatever it holds. */
    constructor (image: Sram)
      ensures Valid() && fresh(temp) && fresh(sram)
      ensures Snapshot().phase.Display? && Rested(Snapshot()) && PinsSettled(Snapshot())
      ensures Snapshot().mem == image
    {
      phase, rev, block, row, column := Display, 0, 0, 0, 0;
      row2, column2, keyCounter, temp2, temp3 := 0, 0, 0, 0, 0;
      pins := ReadPins(0);
      temp := new bv16[8](_ => 0);
      sram := new bv16[SRAM_WORDS](a requires 0 <= a < SRAM_WORDS => image[a]);
    }

    method DataLines(floating: bv16) returns (w: bv16)
      requires Valid()
      ensures w == Bus(Snapshot(), floating)
    {
      if pins.dq.Word? {
        w := pins.dq.value;
      } else if !pins.oeN && pins.weN && !pins.lanesN && pins.addr < SRAM_WORDS {
        w := sram[pins.addr];
      } else {
        w := floating;
      }
    }

    method DecideNext(i: Inputs) returns (next: Phase)
      requires Valid()
      ensures next == NextPhase(Snapshot(), i)
    {
      next := phase;
      match phase
      case Display =>
        if i.run && i.sw1 && !i.sw2 {
          next := EncryptHor;
        } else if i.run && !i.sw1 && i.sw2 {
          next := DecryptXor;
        } else if i.run && !i.sw1 && !i.sw2 {
          next := KeyGen;
        }
      case EncryptHor => if block == 60 { next := EncryptInterval; }
      case EncryptInterval => next := EncryptVer;
      case EncryptVer => if block == 80 { next := EncryptVerInterval; }
      case EncryptVerInterval => next := EncryptMix;
      case EncryptMix => if block == 100 { next := EncryptMixInterval; }
      case EncryptMixInterval => next := EncryptXor;
      case EncryptXor => if block == 100 { next := Hiatus; }
      case Hiatus => if i.run && i.sw2 && i.sw1 { next := Display; }
      case DecryptHor => if block == 60 { next := Hiatus; }
      case DecryptInterval => next := DecryptHor;
      case DecryptVer => if block == 80 { next := DecryptInterval; }
      case DecryptMix => if block == 100 { next := DecryptVerInterval; }
      case DecryptVerInterval => next := DecryptVer;
      case DecryptHorInterval => next := DecryptMix;
      case DecryptXor => if block == 100 { next := DecryptHorInterval; }
      case KeyGen => if rev == 5 { next := Hiatus; }
    }

    method SetPlace(p: Pass, n: nat, i: nat)
      requires Valid()
      modifies this`row, this`column
      ensures Valid() && Snapshot() == At(p, old(Snapshot()), n, i)
    {
      if p.axis.Rows? {
        column, row := n, i;
      } else {
        row, column := n, i;
      }
    }

    method RotateEdge(p: Pass, key: Key, floating: bv16)
      requires Valid()
      modifies this, temp
      ensures Valid() && Snapshot() == PassStep(p, old(Snapshot()), key, floating)
    {
      hide Bus, RawCell, Wrap20, ReadPins, WritePins;
      var n := if p.axis.Rows? then column else row;
      var i := if p.axis.Rows? then row else column;
      if block < p.Blocks() && key[block] {
        if rev < 2 {
          LoadEdge(p, key, floating, n, i);
        } else if rev < 4 {
          FetchEdge(p, key, floating, n, i);
        } else if rev == 4 {
          StoreEdge(p, key, floating, n, i);
        } else if rev == 5 {
          AdvanceEdge(p, key, floating, n, i);
        }
      } else if block < p.Blocks() {
        block := Inc20(block);
        SetPlace(p, Wrap20(n + 8), i);
        if p.axis.Rows? {
          rev := 0;
        }
      }
    }

    /** The engine walks a selected line `n` and is at place `i` of it. */
    ghost predicate Walking(p: Pass, key: Key, n: nat, i: nat)
      reads this
    {
      && block < p.Blocks() && key[block]
      && (p.axis.Rows? ==> n == column && i == row)
      && (p.axis.Columns? ==> n == row && i == column)
    }

    /** The first eight words of the line go into the buffer. */
    method LoadEdge(p: Pass, key: Key, floating: bv16, n: nat, i: nat)
      requires Valid() && rev < 2 && Walking(p, key, n, i)
      modifies this, temp
      ensures Valid() && Snapshot() == PassStep(p, old(Snapshot()), key, floating)
    {
      hide Bus, RawCell, Wrap20, ReadPins, WritePins;
      var dq := DataLines(floating);
      pins := ReadPins(RawCell(p, n, i));
      if rev == 0 {
        rev := 1;
      } else {
        if i < 8 {
          temp[i] := dq;
        }
        if i == 7 {
          SetPlace(p, n, 0);
          rev := 2;
        } else {
          SetPlace(p, n, Inc20(i));
          rev := 0;
        }
      }
    }

    /** The word eight places on is read, over two clocks. */
    method FetchEdge(p: Pass, key: Key, floating: bv16, n: nat, i: nat)
      requires Valid() && 2 <= rev < 4 && Walking(p, key, n, i)
      modifies this`pins, this`temp2, this`rev
      ensures Valid() && Snapshot() == PassStep(p, old(Snapshot()), key, floating)
    {
      hide Bus, RawCell, Wrap20, ReadPins, WritePins;
      var dq := DataLines(floating);
      pins := ReadPins(RawCell(p, n, i + 8));
      temp2 := dq;
      rev := rev + 1;
    }

    /** The rotated word is written. */
    method StoreEdge(p: Pass, key: Key, floating: bv16, n: nat, i: nat)
      requires Valid() && rev == 4 && Walking(p, key, n, i)
      modifies this`pins, this`rev
      ensures Valid() && Snapshot() == PassStep(p, old(Snapshot()), key, floating)
    {
      hide Bus, RawCell, Wrap20, ReadPins, WritePins;
      var tail := p.Length() - 8;
      var w := if i < tail then temp2 else if i - tail < 8 then temp[i - tail] else floating;
      pins := WritePins(RawCell(p, n, i), w);
      rev := 5;
    }

    /** On to the next place, line and block. */
    method AdvanceEdge(p: Pass, key: Key, floating: bv16, n: nat, i: nat)
      requires Valid() && rev == 5 && Walking(p, key, n, i)
      modifies this`row, this`column, this`rev, this`block
      ensures Valid() && Snapshot() == PassStep(p, old(Snapshot()), key, floating)
    {
      hide Bus, RawCell, Wrap20, ReadPins, WritePins;
      if i == p.Length() - 1 {
        SetPlace(p, Inc20(n), 0);
        rev := 0;
        if Inc20(n) == 8 * block + 7 {
          block := Inc20(block);
        }
      } else {
        SetPlace(p, n, Inc20(i));
        rev := 2;
      }
    }

    method ChooseQuadrants(key: Key)
      requires Valid()
      modifies this`row, this`column, this`row2, this`column2
      ensures Valid() && Snapshot() == MixStart(old(Snapshot()), key)
    {
      match (key[24], key[48])
      case (false, false) => column, row, column2, row2 := 0, 0, 0, 320;
      case (false, true) => column, row, column2, row2 := 0, 0, 240, 0;
      case (true, false) => column, row, column2, row2 := 240, 0, 240, 320;
      case (true, true) => column, row, column2, row2 := 0, 320, 240, 320;
    }

    method MixEdge(key: Key, floating: bv16)
      requires Valid()
      modifies this
      ensures Valid() && Snapshot() == MixStep(old(Snapshot()), key, floating)
    {
      hide MixStep;
      if rev == 0 {
        MixBegin(key, floating);
      } else if rev in {1, 2, 3, 4, 10} {
        MixFetch(key, floating);
      } else if rev in {5, 6} {
        MixStore(key, floating);
      } else if rev == 7 {
        MixAdvance(key, floating);
      } else {
        MixTurn(key, floating);
      }
    }

    method MixBegin(key: Key, floating: bv16)
      requires Valid() && rev == 0
      modifies this`pins, this`row, this`column, this`row2, this`column2, this`rev, this`block
      ensures Valid() && Snapshot() == MixStep(old(Snapshot()), key, floating)
    {
      hide Bus, Wrap20, ReadPins, WritePins, Inc20, MixStart;
      pins := pins.(lanesN := false);
      ChooseQuadrants(key);
      block := 0;
      rev := 1;
    }

    /** Both words of a pair are read, each over two clocks. */
    method MixFetch(key: Key, floating: bv16)
      requires Valid() && rev in {1, 2, 3, 4, 10}
      modifies this`pins, this`temp2, this`temp3, this`rev
      ensures Valid() && Snapshot() == MixStep(old(Snapshot()), key, floating)
    {
      hide Bus, Wrap20, ReadPins, WritePins, Inc20, MixStart;
      var dq := DataLines(floating);
      pins := pins.(lanesN := false);
      if rev == 1 || rev == 2 {
        pins := ReadPins(640 * column + row);
        temp2, rev := dq, if rev == 1 then 2 else 10;
      } else if rev == 10 {
        rev := 3;
      } else {
        pins := ReadPins(640 * column2 + row2);
        temp3, rev := dq, rev + 1;
      }
    }

    /** Each is written where the other was. */
    method MixStore(key: Key, floating: bv16)
      requires Valid() && rev in {5, 6}
      modifies this`pins, this`rev
      ensures Valid() && Snapshot() == MixStep(old(Snapshot()), key, floating)
    {
      hide Bus, Wrap20, ReadPins, WritePins, Inc20, MixStart;
      pins := pins.(lanesN := false);
      if rev == 5 {
        pins := WritePins(640 * column + row, temp3);
      } else {
        pins := WritePins(640 * column2 + row2, temp2);
      }
      rev := rev + 1;
    }

    /** On to the next pair, and at the end of a line to the next line. */
    method MixAdvance(key: Key, floating: bv16)
      requires Valid() && rev == 7
      modifies this`pins, this`row, this`column, this`row2, this`column2, this`rev
      ensures Valid() && Snapshot() == MixStep(old(Snapshot()), key, floating)
    {
      hide Bus, Wrap20, ReadPins, WritePins, Inc20, MixStart;
      pins := pins.(lanesN := false);
      if row == 319 || row == 639 {
        row, row2 := Wrap20(row - 319), Wrap20(row2 - 319);
        column, column2 := Inc20(column), Inc20(column2);
        rev := 8;
      } else {
        row, row2 := Inc20(row), Inc20(row2);
        rev := 1;
      }
    }

    /** After a line: the quadrant may be done. */
    method MixTurn(key: Key, floating: bv16)
      requires Valid() && rev !in {0, 1, 2, 3, 4, 5, 6, 7, 10}
      modifies this`pins, this`rev, this`block
      ensures Valid() && Snapshot() == MixStep(old(Snapshot()), key, floating)
    {
      hide Bus, Wrap20, ReadPins, WritePins, Inc20, MixStart;
      pins := pins.(lanesN := false);
      if rev == 8 {
        if column == 240 || column == 480 {
          block := 100;
        } else {
          rev := 1;
        }
      }
    }

    method XorEdge(key: Key, floating: bv16)
      requires Valid()
      modifies this
      ensures Valid() && Snapshot() == XorStep(old(Snapshot()), key, floating)
    {
      hide Bus, Masked, Wrap20, ReadPins, WritePins;
      var dq := DataLines(floating);
      var here := 640 * column + row;
      match rev
      case 0 =>
        block := 0;
        rev := 1;
      case 1 | 7 =>
        pins := ReadPins(here);
        temp2 := dq;
        rev := rev + 1;
      case 2 | 8 =>
        pins := ReadPins(here);
        temp2 := dq;
        rev := rev + 1;
      case 3 =>
        pins := WritePins(here, Masked(temp2, key, row));
        rev := 4;
      case 4 =>
        if row == 639 {
          row := 0;
          column := Inc20(column);
        } else {
          row := Inc20(row);
        }
        rev := 5;
      case 5 =>
        rev := if column == 480 then 6 else 1;
      case 6 =>
        column, row := 0, 0;
        rev := 7;
      case 9 =>
        pins := WritePins(here, Masked(temp2, key, column));
        rev := 10;
      case 10 =>
        if column == 479 {
          column := 0;
          row := Inc20(row);
        } else {
          column := Inc20(column);
        }
        rev := 11;
      case 11 =>
        if row == 640 {
          block := 100;
        } else {
          rev := 7;
        }
      case _ =>
    }

    method KeyGenEdge(done: bool)
      requires Valid()
      modifies this`rev, this`keyCounter
      ensures Valid() && Snapshot() == KeyGenStep(old(Snapshot()), done)
    {
      if rev == 0 {
        keyCounter, rev := 0, 1;
      } else if rev == 1 {
        rev := 2;
      } else if rev == 2 {
        keyCounter, rev := Inc6(keyCounter), 3;
      } else if rev == 3 && done {
        rev := 4;
      } else if rev == 4 {
        rev := if keyCounter == 7 then 5 else 1;
      }
    }

    /** One clock edge. */
    method Clock(i: Inputs)
      requires Valid()
      modifies this, temp, sram
      ensures Valid() && Snapshot() == Step(old(Snapshot()), i)
    {
      var next := DecideNext(i);
      DatapathEdge(i);
      phase := next;
      if Writing(pins) && pins.addr < SRAM_WORDS {
        sram[pins.addr] := pins.dq.value;
      }
    }

    method DatapathEdge(i: Inputs)
      requires Valid()
      modifies this, temp
      ensures Valid() && Snapshot() == Datapath(old(Snapshot()), i)
    {
      hide PassStep, MixStep, XorStep, KeyGenStep;
      match phase
      case EncryptHor => RotateEdge(ROWS, i.key, i.floating);
      case EncryptVer => RotateEdge(COLUMNS, i.key, i.floating);
      case DecryptVer => RotateEdge(COLUMNS_BACK, i.key, i.floating);
      case DecryptHor => RotateEdge(ROWS_BACK, i.key, i.floating);
      case EncryptMix => MixEdge(i.key, i.floating);
      case DecryptMix => MixEdge(i.key, i.floating);
      case EncryptXor => XorEdge(i.key, i.floating);
      case DecryptXor => XorEdge(i.key, i.floating);
      case KeyGen => KeyGenEdge(i.subkeyDone);
      case Hiatus =>
        block, row, column, keyCounter, rev := 0, 0, 0, 0, 0;
        pins := Pins(0, Z, true, true, true);
      case Display =>
        pins := ReadPins(640 * i.vc + i.hc);
      case _ =>
        block, row, column, rev := 0, 0, 0, 0;
    }

    /** `n` edges, with the inputs from time `t` on. */
    method ClockFor(ins: nat -> Inputs, t: nat, n: nat)
      requires Valid()
      modifies this, temp, sram
      ensures Valid() && Snapshot() == Run(old(Snapshot()), ins, t, n)
    {
      hide Valid, Snapshot, Step;
      ghost var s := Snapshot();
      for k := 0 to n
        invariant Valid() && Run(Snapshot(), ins, t + k, n - k) == Run(s, ins, t, n)
      {
        assert t + k + 1 == t + (k + 1) && n - k - 1 == n - (k + 1);
        Clock(ins(t + k));
      }
    }

    /** The circuit itself: clocked through an encryption, an idle time and a
        decryption with the same key, its memory holds what it held before. */
    method RoundTrip(key: Key, ins: nat -> Inputs, t: nat, n: nat, wait: nat, m: nat)
      requires Valid() && Ready(Snapshot()) && EncryptCommand(ins(t)) && RestsAfter(Snapshot(), ins, t, n)
      requires HeldUntilRest(Step(Snapshot(), ins(t)), ins, t + 1, key)
      requires forall k :: n <= k <= n + wait ==> !Busy(Run(Snapshot(), ins, t, k).phase)
      requires var d, t' := Run(Snapshot(), ins, t, n + wait), t + n + wait;
               && d.phase.Display? && DecryptCommand(ins(t')) && RestsAfter(d, ins, t', m)
               && HeldUntilRest(Step(d, ins(t')), ins, t' + 1, key)
      modifies this, temp, sram
      ensures Valid() && sram[..] == old(sram[..])
    {
      ghost var s := Snapshot();
      assert s.mem == sram[..];
      hide Valid, Step, Ready, RestsAfter, HeldUntilRest, Busy, EncryptCommand, DecryptCommand, Run;
      ghost var m' := EncryptThenDecrypt(s, key, ins, t, n, wait);
      RestsOnce(Run(s, ins, t, n + wait), ins, t + n + wait, m, m');
      ClockFor(ins, t, n + wait + m);
      assert Snapshot().mem == s.mem;
      MemoryIs();
    }

    lemma MemoryIs()
      requires Valid()
      ensures Snapshot().mem == sram[..]
    {
    }
  }
}
