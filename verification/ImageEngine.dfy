/** The controller that encrypts and decrypts the image in place, one clock
    edge at a time: a sequencer of phases, a handful of counters, eight words
    of temporary storage and the pins of an external SRAM.  `Step` is one edge.
    The invariant `Inv` holds after every edge of every run, and `Finishes`
    shows that an operation, once started, completes. */
module ImageEngine {
  import opened ImageCipher

  // ------------------------------------------------------------------
  // Registers
  // ------------------------------------------------------------------

  datatype Phase =
    | Display | Hiatus | KeyGen
    | EncryptHor | EncryptInterval | EncryptVer | EncryptVerInterval
    | EncryptMix | EncryptMixInterval | EncryptXor
    | DecryptXor | DecryptHorInterval | DecryptMix | DecryptVerInterval
    | DecryptVer | DecryptInterval | DecryptHor

  /** What the engine puts on the data lines of the SRAM. */
  datatype Drive = Z | Word(value: bv16)

  /** Active-low output enable, write enable and byte-lane enables. */
  datatype Pins = Pins(addr: nat, dq: Drive, oeN: bool, weN: bool, lanesN: bool)

  type Temp = t: seq<bv16> | |t| == 8 witness seq(8, _ => 0)

  datatype State = State(
    phase: Phase, rev: nat, block: nat,
    row: nat, column: nat, row2: nat, column2: nat, keyCounter: nat,
    temp: Temp, temp2: bv16, temp3: bv16,
    pins: Pins, mem: Sram)

  /** What reaches the engine from outside at one edge; `floating` is what an
      undriven data line happens to show. */
  datatype Inputs = Inputs(run: bool, sw1: bool, sw2: bool, subkeyDone: bool,
                           hc: nat, vc: nat, floating: bv16, key: Key)

  function Inc20(n: nat): nat { Wrap20(n + 1) }
  function Inc6(n: nat): nat { (n + 1) % 64 }

  function ReadPins(a: int): (p: Pins)
    ensures PinsFormed(p)
  {
    Pins(Wrap20(a), Z, false, true, false)
  }

  function WritePins(a: int, w: bv16): (p: Pins)
    ensures PinsFormed(p)
  {
    Pins(Wrap20(a), Word(w), true, false, false)
  }

  predicate Writing(p: Pins) { !p.weN && !p.lanesN && p.dq.Word? }

  predicate Reading(p: Pins, a: nat) {
    p.dq.Z? && !p.oeN && p.weN && !p.lanesN && p.addr == a
  }

  /** The level of the data lines just before an edge. */
  function Bus(s: State, floating: bv16): bv16 {
    match s.pins.dq
    case Word(v) => v
    case Z =>
      if !s.pins.oeN && s.pins.weN && !s.pins.lanesN && s.pins.addr < SRAM_WORDS then s.mem[s.pins.addr] else floating
  }

  /** The SRAM stores the word on its data lines while write enable is low. */
  function Commit(p: Pins, m: Sram): Sram {
    if Writing(p) && p.addr < SRAM_WORDS then m[p.addr := p.dq.value] else m
  }

  // ------------------------------------------------------------------
  // One clock edge
  // ------------------------------------------------------------------

  function NextPhase(s: State, i: Inputs): Phase {
    match s.phase
    case Display =>
      if i.run && i.sw1 && !i.sw2 then EncryptHor
      else if i.run && !i.sw1 && i.sw2 then DecryptXor
      else if i.run && !i.sw1 && !i.sw2 then KeyGen
      else Display
    case EncryptHor => if s.block == 60 then EncryptInterval else EncryptHor
    case EncryptInterval => EncryptVer
    case EncryptVer => if s.block == 80 then EncryptVerInterval else EncryptVer
    case EncryptVerInterval => EncryptMix
    case EncryptMix => if s.block == 100 then EncryptMixInterval else EncryptMix
    case EncryptMixInterval => EncryptXor
    case EncryptXor => if s.block == 100 then Hiatus else EncryptXor
    case Hiatus => if i.run && i.sw2 && i.sw1 then Display else Hiatus
    case DecryptHor => if s.block == 60 then Hiatus else DecryptHor
    case DecryptInterval => DecryptHor
    case DecryptVer => if s.block == 80 then DecryptInterval else DecryptVer
    case DecryptMix => if s.block == 100 then DecryptVerInterval else DecryptMix
    case DecryptVerInterval => DecryptVer
    case DecryptHorInterval => DecryptMix
    case DecryptXor => if s.block == 100 then DecryptHorInterval else DecryptXor
    case KeyGen => if s.rev == 5 then Hiatus else KeyGen
  }

  /** The counter that numbers lines in a pass, and the one that numbers
      positions on a line. */
  function Line(p: Pass, s: State): nat { if p.axis.Rows? then s.column else s.row }
  function Position(p: Pass, s: State): nat { if p.axis.Rows? then s.row else s.column }

  function At(p: Pass, s: State, n: nat, i: nat): State {
    if p.axis.Rows? then s.(column := n, row := i) else s.(row := n, column := i)
  }

  /** One edge of any of the four rotation phases. */
  function PassStep(p: Pass, s: State, key: Key, floating: bv16): State {
    var n, i := Line(p, s), Position(p, s);
    var dq := Bus(s, floating);
    if s.block < p.Blocks() && key[s.block] then
      match s.rev
      case 0 => s.(pins := ReadPins(RawCell(p, n, i)), rev := 1)
      case 1 =>
        var loaded := s.(pins := ReadPins(RawCell(p, n, i)), temp := if i < 8 then s.temp[i := dq] else s.temp);
        if i == 7 then At(p, loaded, n, 0).(rev := 2) else At(p, loaded, n, Inc20(i)).(rev := 0)
      case 2 => s.(pins := ReadPins(RawCell(p, n, i + 8)), temp2 := dq, rev := 3)
      case 3 => s.(pins := ReadPins(RawCell(p, n, i + 8)), temp2 := dq, rev := 4)
      case 4 =>
        var tail := p.Length() - 8;
        var w := if i < tail then s.temp2 else if i - tail < 8 then s.temp[i - tail] else floating;
        s.(pins := WritePins(RawCell(p, n, i), w), rev := 5)
      case 5 =>
        if i == p.Length() - 1 then
          var next := Inc20(n);
          At(p, s, next, 0).(rev := 0, block := if next == 8 * s.block + 7 then Inc20(s.block) else s.block)
        else
          At(p, s, n, Inc20(i)).(rev := 2)
      case _ => s
    else if s.block < p.Blocks() then
      At(p, s, Wrap20(n + 8), i).(block := Inc20(s.block), rev := if p.axis.Rows? then 0 else s.rev)
    else
      s
  }

  function MixStart(s: State, key: Key): State {
    match (key[24], key[48])
    case (false, false) => s.(column := 0, row := 0, column2 := 0, row2 := 320)
    case (false, true) => s.(column := 0, row := 0, column2 := 240, row2 := 0)
    case (true, false) => s.(column := 240, row := 0, column2 := 240, row2 := 320)
    case (true, true) => s.(column := 0, row := 320, column2 := 240, row2 := 320)
  }

  /** One edge of the quadrant exchange. */
  function MixStep(s: State, key: Key, floating: bv16): State {
    var here, there := 640 * s.column + s.row, 640 * s.column2 + s.row2;
    var dq := Bus(s, floating);
    var on := s.(pins := s.pins.(lanesN := false));
    match s.rev
    case 0 => MixStart(on, key).(block := 0, rev := 1)
    case 1 => s.(pins := ReadPins(here), temp2 := dq, rev := 2)
    case 2 => s.(pins := ReadPins(here), temp2 := dq, rev := 10)
    case 10 => on.(rev := 3)
    case 3 => s.(pins := ReadPins(there), temp3 := dq, rev := 4)
    case 4 => s.(pins := ReadPins(there), temp3 := dq, rev := 5)
    case 5 => s.(pins := WritePins(here, s.temp3), rev := 6)
    case 6 => s.(pins := WritePins(there, s.temp2), rev := 7)
    case 7 =>
      if s.row == 319 || s.row == 639 then
        on.(row := Wrap20(s.row - 319), row2 := Wrap20(s.row2 - 319),
            column := Inc20(s.column), column2 := Inc20(s.column2), rev := 8)
      else
        on.(row := Inc20(s.row), row2 := Inc20(s.row2), rev := 1)
    case 8 => if s.column == 240 || s.column == 480 then on.(block := 100) else on.(rev := 1)
    case _ => on
  }

  /** One edge of the masking phase. */
  function XorStep(s: State, key: Key, floating: bv16): State {
    var here := 640 * s.column + s.row;
    var dq := Bus(s, floating);
    match s.rev
    case 0 => s.(block := 0, rev := 1)
    case 1 => s.(pins := ReadPins(here), temp2 := dq, rev := 2)
    case 2 => s.(pins := ReadPins(here), temp2 := dq, rev := 3)
    case 3 => s.(pins := WritePins(here, Masked(s.temp2, key, s.row)), rev := 4)
    case 4 =>
      if s.row == 639 then s.(row := 0, column := Inc20(s.column), rev := 5)
      else s.(row := Inc20(s.row), rev := 5)
    case 5 => s.(rev := if s.column == 480 then 6 else 1)
    case 6 => s.(column := 0, row := 0, rev := 7)
    case 7 => s.(pins := ReadPins(here), temp2 := dq, rev := 8)
    case 8 => s.(pins := ReadPins(here), temp2 := dq, rev := 9)
    case 9 => s.(pins := WritePins(here, Masked(s.temp2, key, s.column)), rev := 10)
    case 10 =>
      if s.column == 479 then s.(column := 0, row := Inc20(s.row), rev := 11)
      else s.(column := Inc20(s.column), rev := 11)
    case 11 => if s.row == 640 then s.(block := 100) else s.(rev := 7)
    case _ => s
  }

  function KeyGenStep(s: State, done: bool): State {
    match s.rev
    case 0 => s.(keyCounter := 0, rev := 1)
    case 1 => s.(rev := 2)
    case 2 => s.(keyCounter := Inc6(s.keyCounter), rev := 3)
    case 3 => if done then s.(rev := 4) else s
    case 4 => s.(rev := if s.keyCounter == 7 then 5 else 1)
    case _ => s
  }

  function Cleared(s: State): State {
    s.(block := 0, row := 0, column := 0, rev := 0)
  }

  function Datapath(s: State, i: Inputs): State {
    match s.phase
    case EncryptHor => PassStep(ROWS, s, i.key, i.floating)
    case EncryptVer => PassStep(COLUMNS, s, i.key, i.floating)
    case DecryptVer => PassStep(COLUMNS_BACK, s, i.key, i.floating)
    case DecryptHor => PassStep(ROWS_BACK, s, i.key, i.floating)
    case EncryptMix | DecryptMix => MixStep(s, i.key, i.floating)
    case EncryptXor | DecryptXor => XorStep(s, i.key, i.floating)
    case KeyGen => KeyGenStep(s, i.subkeyDone)
    case Hiatus => Cleared(s).(keyCounter := 0, pins := Pins(0, Z, true, true, true))
    case Display => s.(pins := ReadPins(640 * i.vc + i.hc))
    case _ => Cleared(s)
  }

  function Step(s: State, i: Inputs): State {
    var d := Datapath(s, i);
    d.(phase := NextPhase(s, i), mem := Commit(d.pins, d.mem))
  }

  // ------------------------------------------------------------------
  // The invariant
  // ------------------------------------------------------------------

  /** A write is never half asserted. */
  predicate PinsFormed(p: Pins) {
    p.addr < SRAM_WORDS && (!p.weN ==> !p.lanesN && p.dq.Word?)
  }

  /** Repeating a write that is still asserted changes nothing. */
  predicate PinsSettled(s: State) {
    PinsFormed(s.pins) && (Writing(s.pins) ==> s.mem[s.pins.addr] == s.pins.dq.value)
  }

  /** A rotation pass over `base`: how far it has come. */
  ghost predicate PassInv(s: State, p: Pass, key: Key, base: Sram) {
    var n, i := Line(p, s), Position(p, s);
    && s.block <= p.Blocks() && s.rev <= 5
    && n <= p.Lines() && i < p.Length()
    && (if s.block == p.Blocks() || !key[s.block] then
          && n == BlockStart(key, s.block) && i == 0 && s.rev == 0
          && s.mem == RotatedTo(base, p, key, n, 0)
        else
          && BlockStart(key, s.block) <= n <= 8 * s.block + 6
          && LineInv(s, p, key, base, n, i))
  }

  ghost predicate LineInv(s: State, p: Pass, key: Key, base: Sram, n: nat, i: nat)
    requires n < p.Lines() && i < p.Length()
  {
    && (s.rev <= 1 ==> i < 8 && s.mem == RotatedTo(base, p, key, n, 0))
    && (s.rev == 1 ==> Reading(s.pins, Cell(p, n, i)))
    && (forall k :: 0 <= k < (if s.rev <= 1 then i else 8) ==> s.temp[k] == base[Cell(p, n, k)])
    && (2 <= s.rev <= 4 ==> s.mem == RotatedTo(base, p, key, n, i))
    && (s.rev == 3 && i + 8 < p.Length() ==> Reading(s.pins, Cell(p, n, i + 8)))
    && (s.rev == 4 && i + 8 < p.Length() ==> s.temp2 == base[Cell(p, n, i + 8)])
    && (s.rev == 5 ==> s.mem == RotatedTo(base, p, key, n, i + 1))
  }

  ghost predicate MixInv(s: State, key: Key, base: Sram) {
    var q := Quadrant(key);
    if s.rev == 0 then
      s.mem == base && s.block == 0
    else
      && s.row2 == s.row + q.dx && s.column2 == s.column + q.dy
      && (if s.rev == 8 then
            && s.row == q.x && q.y < s.column <= q.y + 240
            && s.mem == MixedTo(base, key, 320 * (s.column - q.y))
            && (s.block == 0 || (s.block == 100 && s.column == q.y + 240))
          else
            && s.rev in {1, 2, 10, 3, 4, 5, 6, 7} && s.block == 0
            && InQuadrant(q.x, q.y, s.row, s.column)
            && ExchangeInv(s, key, base))
  }

  ghost predicate ExchangeInv(s: State, key: Key, base: Sram)
    requires InQuadrant(Quadrant(key).x, Quadrant(key).y, s.row, s.column)
  {
    var q := Quadrant(key);
    var here := 640 * s.column + s.row;
    var there := here + PartnerOffset(q);
    var k := RankIn(q.x, q.y, s.row, s.column);
    && there < PIXELS
    && (s.rev == 2 ==> Reading(s.pins, here))
    && (s.rev in {10, 3, 4, 5, 6} ==> s.temp2 == base[here])
    && (s.rev == 4 ==> Reading(s.pins, there))
    && (s.rev == 5 ==> s.temp3 == base[there])
    && s.mem == (if s.rev == 7 then MixedTo(base, key, k + 1)
                 else if s.rev == 6 then MixedTo(base, key, k)[here := base[there]]
                 else MixedTo(base, key, k))
  }

  ghost predicate XorInv(s: State, key: Key, base: Sram) {
    var here := 640 * s.column + s.row;
    var rank := 480 * s.row + s.column;
    && s.rev <= 11
    && (s.block == 0 || (s.block == 100 && s.rev == 11 && s.row == 640))
    && (s.rev == 0 ==> s.row == 0 && s.column == 0 && s.mem == base)
    && (s.rev in {1, 2, 3, 4, 7, 8, 9, 10} ==> s.row < 640 && s.column < 480)
    && (s.rev in {1, 2, 3} ==> s.mem == MaskedTo(base, key, here, 0))
    && (s.rev == 4 ==> s.mem == MaskedTo(base, key, here + 1, 0))
    && (s.rev in {2, 8} ==> Reading(s.pins, here))
    && (s.rev in {3, 9} ==> s.temp2 == s.mem[here])
    && (s.rev == 5 ==>
          && ((s.row < 640 && s.column < 480) || (s.row == 0 && s.column == 480))
          && s.mem == MaskedTo(base, key, here, 0))
    && (s.rev == 6 ==> s.mem == MaskedTo(base, key, PIXELS, 0))
    && (s.rev in {7, 8, 9} ==> s.mem == MaskedTo(base, key, PIXELS, rank))
    && (s.rev == 10 ==> s.mem == MaskedTo(base, key, PIXELS, rank + 1))
    && (s.rev == 11 ==>
          && ((s.row < 640 && s.column < 480) || (s.row == 640 && s.column == 0))
          && s.mem == MaskedTo(base, key, PIXELS, rank))
  }

  /** The image as a phase finds it, when the operation started from `origin`. */
  function Base(ph: Phase, origin: Sram, key: Key): Sram {
    match ph
    case EncryptInterval | EncryptVer => Rotate(origin, ROWS, key)
    case EncryptVerInterval | EncryptMix => Rotate(Rotate(origin, ROWS, key), COLUMNS, key)
    case EncryptMixInterval | EncryptXor => Mix(Rotate(Rotate(origin, ROWS, key), COLUMNS, key), key)
    case DecryptHorInterval | DecryptMix => Mask(origin, key)
    case DecryptVerInterval | DecryptVer => Mix(Mask(origin, key), key)
    case DecryptInterval | DecryptHor => Rotate(Mix(Mask(origin, key), key), COLUMNS_BACK, key)
    case _ => origin
  }

  predicate Rested(s: State) { s.rev == 0 && s.block == 0 && s.row == 0 && s.column == 0 }

  predicate Busy(ph: Phase) { !ph.Display? && !ph.Hiatus? && !ph.KeyGen? }

  ghost predicate Inv(s: State, origin: Sram, key: Key) {
    var base := Base(s.phase, origin, key);
    && PinsSettled(s)
    && match s.phase
       case EncryptHor => PassInv(s, ROWS, key, base)
       case EncryptVer => PassInv(s, COLUMNS, key, base)
       case DecryptVer => PassInv(s, COLUMNS_BACK, key, base)
       case DecryptHor => PassInv(s, ROWS_BACK, key, base)
       case EncryptMix | DecryptMix => MixInv(s, key, base)
       case EncryptXor | DecryptXor => XorInv(s, key, base)
       case Display => s.mem == base && Rested(s)
       case _ => s.mem == base
  }

  // ------------------------------------------------------------------
  // Every edge keeps the invariant
  // ------------------------------------------------------------------

  function Committed(s: State): State {
    s.(mem := Commit(s.pins, s.mem))
  }

  lemma PassKeeps(s: State, p: Pass, key: Key, base: Sram, floating: bv16)
    requires PinsSettled(s) && PassInv(s, p, key, base)
    ensures PinsSettled(Committed(PassStep(p, s, key, floating)))
    ensures PassInv(Committed(PassStep(p, s, key, floating)), p, key, base)
  {
    PassForms(s, p, key, floating);
    CommitSettles(PassStep(p, s, key, floating));
    hide RotatedTo, LineInv;
    if s.block == p.Blocks() {
    } else {
      hide PassStep;
      if !key[s.block] {
        PassSkips(s, p, key, base, floating);
      } else if s.rev <= 1 {
        PassLoads(s, p, key, base, floating);
      } else if s.rev <= 3 {
        PassFetches(s, p, key, base, floating);
      } else if s.rev == 4 {
        PassStores(s, p, key, base, floating);
      } else {
        PassAdvances(s, p, key, base, floating);
      }
    }
  }

  lemma CommitSettles(d: State)
    requires PinsFormed(d.pins)
    ensures PinsSettled(Committed(d))
  {
  }

  /** Holding the pins still, or only enabling the byte lanes, stores nothing new. */
  lemma CommitRepeats(s: State, p: Pins)
    requires PinsSettled(s)
    requires p == s.pins || p == s.pins.(lanesN := false)
    ensures Commit(p, s.mem) == s.mem
  {
  }

  lemma PassForms(s: State, p: Pass, key: Key, floating: bv16)
    requires PinsFormed(s.pins)
    ensures PinsFormed(PassStep(p, s, key, floating).pins)
  {
    hide RawCell, Bus, ReadPins, WritePins, Wrap20, PinsFormed;
  }

  lemma PassSkips(s: State, p: Pass, key: Key, base: Sram, floating: bv16)
    requires PinsSettled(s) && PassInv(s, p, key, base)
    requires s.block < p.Blocks() && !key[s.block]
    ensures PassInv(Committed(PassStep(p, s, key, floating)), p, key, base)
  {
    hide RawCell, Cell, LineOf, PositionOf, RotatedTo, RotatedWord, Moved;
    var n := Line(p, s);
    NextBlockStart(key, s.block);
    forall l | n <= l < n + 8 ensures !Selected(p, key, l) {
      if l <= 8 * s.block + 6 {
        SelectedInBlock(p, key, s.block, l);
      } else if s.block + 1 < p.Blocks() {
        assert l == 8 * s.block + 7 == 8 * (s.block + 1) - 1;
        assert !SomeBefore(key, s.block + 1);
      } else {
        LastLineNeverSelected(p, key, l);
      }
    }
    RotatedSkip(base, p, key, n, n + 8);
  }

  lemma PassLoads(s: State, p: Pass, key: Key, base: Sram, floating: bv16)
    requires PinsSettled(s) && PassInv(s, p, key, base)
    requires s.block < p.Blocks() && key[s.block] && s.rev <= 1
    ensures PassInv(Committed(PassStep(p, s, key, floating)), p, key, base)
  {
    hide RawCell, Cell, LineOf, PositionOf, SomeBefore, BlockStart, Wrap20, RotatedTo, RotatedWord, Moved;
    var n, i := Line(p, s), Position(p, s);
    if s.rev == 0 {
      assert Wrap20(RawCell(p, n, i)) == Cell(p, n, i);
    } else {
      RotatedAhead(base, p, key, n, 0, i);
      assert Bus(s, floating) == base[Cell(p, n, i)];
    }
  }

  lemma PassFetches(s: State, p: Pass, key: Key, base: Sram, floating: bv16)
    requires PinsSettled(s) && PassInv(s, p, key, base)
    requires s.block < p.Blocks() && key[s.block] && 2 <= s.rev <= 3
    ensures PassInv(Committed(PassStep(p, s, key, floating)), p, key, base)
  {
    hide RawCell, Cell, LineOf, PositionOf, SomeBefore, BlockStart, Wrap20, RotatedTo, RotatedWord, Moved;
    var n, i := Line(p, s), Position(p, s);
    if i + 8 < p.Length() {
      assert Wrap20(RawCell(p, n, i + 8)) == Cell(p, n, i + 8);
      RotatedAhead(base, p, key, n, i, i + 8);
    }
  }

  lemma PassStores(s: State, p: Pass, key: Key, base: Sram, floating: bv16)
    requires PinsSettled(s) && PassInv(s, p, key, base)
    requires s.block < p.Blocks() && key[s.block] && s.rev == 4
    ensures PassInv(Committed(PassStep(p, s, key, floating)), p, key, base)
  {
    var n, i := Line(p, s), Position(p, s);
    PassStored(s, p, key, base, floating);
    RotatedOneMore(base, p, key, n, i);
    hide PassStep, Committed, RawCell, Cell, LineOf, PositionOf, SomeBefore, BlockStart, Wrap20, RotatedTo;
  }

  /** The word stored is the one eight positions on, cyclically. */
  lemma PassStored(s: State, p: Pass, key: Key, base: Sram, floating: bv16)
    requires PassInv(s, p, key, base)
    requires s.block < p.Blocks() && key[s.block] && s.rev == 4
    ensures var n, i := Line(p, s), Position(p, s);
            var c := Cell(p, n, i);
            var w := base[Cell(p, n, (i + 8) % p.Length())];
            Committed(PassStep(p, s, key, floating))
            == s.(pins := WritePins(RawCell(p, n, i), w), rev := 5, mem := s.mem[c := w])
  {
    hide RawCell, Cell, LineOf, PositionOf, SomeBefore, BlockStart, Wrap20, RotatedTo, RotatedWord, Moved;
    var n, i := Line(p, s), Position(p, s);
    assert Wrap20(RawCell(p, n, i)) == Cell(p, n, i);
    if i + 8 < p.Length() {
      assert (i + 8) % p.Length() == i + 8;
    } else {
      assert (i + 8) % p.Length() == i + 8 - p.Length();
    }
  }

  lemma PassAdvances(s: State, p: Pass, key: Key, base: Sram, floating: bv16)
    requires PinsSettled(s) && PassInv(s, p, key, base)
    requires s.block < p.Blocks() && key[s.block] && s.rev == 5
    ensures PassInv(Committed(PassStep(p, s, key, floating)), p, key, base)
  {
    hide RawCell, Cell, LineOf, PositionOf, Wrap20, RotatedTo, RotatedWord, Moved;
    var n, i := Line(p, s), Position(p, s);
    if i == p.Length() - 1 {
      SelectedInBlock(p, key, s.block, n);
      RotatedLineDone(base, p, key, n);
      NextBlockStart(key, s.block);
    }
  }

  lemma MixKeeps(s: State, key: Key, base: Sram, floating: bv16)
    requires PinsSettled(s) && MixInv(s, key, base)
    ensures PinsSettled(Committed(MixStep(s, key, floating)))
    ensures MixInv(Committed(MixStep(s, key, floating)), key, base)
  {
    MixForms(s, key, floating);
    CommitSettles(MixStep(s, key, floating));
    hide MixStep, PinsSettled, Committed, MixedTo, ExchangeInv, Quadrant;
    if s.rev == 0 {
      MixBegins(s, key, base, floating);
    } else if s.rev == 7 {
      MixAdvances(s, key, base, floating);
    } else if s.rev == 8 {
      MixTurns(s, key, base, floating);
    } else if s.rev == 5 || s.rev == 6 {
      MixWrites(s, key, base, floating);
    } else {
      MixReads(s, key, base, floating);
    }
  }

  lemma MixForms(s: State, key: Key, floating: bv16)
    requires PinsFormed(s.pins)
    ensures PinsFormed(MixStep(s, key, floating).pins)
  {
    hide Bus, Wrap20, Inc20, ReadPins, WritePins;
    if s.rev in {1, 2} {
    } else if s.rev in {3, 4} {
    } else if s.rev in {5, 6} {
    }
  }

  lemma MixBegins(s: State, key: Key, base: Sram, floating: bv16)
    requires PinsSettled(s) && MixInv(s, key, base) && s.rev == 0
    ensures MixInv(Committed(MixStep(s, key, floating)), key, base)
  {
    MixBegun(s, key, floating);
    MixedNone(base, key);
    PartnerInside(key, Quadrant(key).x, Quadrant(key).y);
    hide MixStep, Committed, MixedTo, Quadrant, PinsSettled;
  }

  lemma MixBegun(s: State, key: Key, floating: bv16)
    requires PinsSettled(s) && s.rev == 0
    ensures var q := Quadrant(key);
            Committed(MixStep(s, key, floating)) ==
            s.(pins := s.pins.(lanesN := false), row := q.x, column := q.y,
               row2 := q.x + q.dx, column2 := q.y + q.dy, block := 0, rev := 1)
  {
    CommitRepeats(s, s.pins.(lanesN := false));
    hide Commit, Bus;
  }

  lemma MixReads(s: State, key: Key, base: Sram, floating: bv16)
    requires PinsSettled(s) && MixInv(s, key, base) && s.rev in {1, 2, 10, 3, 4}
    ensures MixInv(Committed(MixStep(s, key, floating)), key, base)
  {
    hide MixedTo, MixedWord, Quadrant;
    PartnerInside(key, s.row, s.column);
    MixedOneMore(base, key, s.row, s.column);
  }

  lemma MixWrites(s: State, key: Key, base: Sram, floating: bv16)
    requires PinsSettled(s) && MixInv(s, key, base) && s.rev in {5, 6}
    ensures MixInv(Committed(MixStep(s, key, floating)), key, base)
  {
    hide MixedTo, MixedWord, Quadrant;
    PartnerInside(key, s.row, s.column);
    MixedOneMore(base, key, s.row, s.column);
  }

  lemma MixAdvances(s: State, key: Key, base: Sram, floating: bv16)
    requires PinsSettled(s) && MixInv(s, key, base) && s.rev == 7
    ensures MixInv(Committed(MixStep(s, key, floating)), key, base)
  {
    MixAdvanced(s, key, base, floating);
    if s.row < Quadrant(key).x + 319 {
      MixAcross(s, key, base);
    } else {
      MixDown(s, key, base);
    }
    hide *;
  }

  /** To the next word of the line. */
  lemma MixAcross(s: State, key: Key, base: Sram)
    requires MixInv(s, key, base) && s.rev == 7 && s.row < Quadrant(key).x + 319
    ensures MixInv(s.(pins := s.pins.(lanesN := false), row := s.row + 1, row2 := s.row2 + 1, rev := 1), key, base)
  {
    hide MixedTo, Quadrant;
    PartnerInside(key, s.row + 1, s.column);
  }

  /** To the next line. */
  lemma MixDown(s: State, key: Key, base: Sram)
    requires MixInv(s, key, base) && s.rev == 7 && s.row == Quadrant(key).x + 319
    ensures var q := Quadrant(key);
            MixInv(s.(pins := s.pins.(lanesN := false), row := q.x, row2 := q.x + q.dx,
                      column := s.column + 1, column2 := s.column2 + 1, rev := 8), key, base)
  {
    hide MixedTo, Quadrant;
  }

  lemma MixAdvanced(s: State, key: Key, base: Sram, floating: bv16)
    requires PinsSettled(s) && MixInv(s, key, base) && s.rev == 7
    ensures var q := Quadrant(key);
            var on := s.(pins := s.pins.(lanesN := false));
            Committed(MixStep(s, key, floating)) ==
            if s.row < q.x + 319 then on.(row := s.row + 1, row2 := s.row2 + 1, rev := 1)
            else on.(row := q.x, row2 := q.x + q.dx, column := s.column + 1, column2 := s.column2 + 1, rev := 8)
  {
    CommitRepeats(s, s.pins.(lanesN := false));
    hide MixedTo, ExchangeInv;
  }

  lemma MixTurns(s: State, key: Key, base: Sram, floating: bv16)
    requires PinsSettled(s) && MixInv(s, key, base) && s.rev == 8
    ensures MixInv(Committed(MixStep(s, key, floating)), key, base)
  {
    MixTurned(s, key, base, floating);
    if s.column < Quadrant(key).y + 240 {
      MixBeginsLine(s, key, base);
    } else {
      MixStops(s, key, base);
    }
    hide *;
  }

  lemma MixTurned(s: State, key: Key, base: Sram, floating: bv16)
    requires PinsSettled(s) && MixInv(s, key, base) && s.rev == 8
    ensures var on := s.(pins := s.pins.(lanesN := false));
            Committed(MixStep(s, key, floating)) ==
            if s.column < Quadrant(key).y + 240 then on.(rev := 1) else on.(block := 100)
  {
    CommitRepeats(s, s.pins.(lanesN := false));
    LastColumn(s, key, base);
    hide MixedTo, Quadrant;
  }

  lemma MixBeginsLine(s: State, key: Key, base: Sram)
    requires MixInv(s, key, base) && s.rev == 8 && s.column < Quadrant(key).y + 240
    ensures MixInv(s.(pins := s.pins.(lanesN := false), rev := 1), key, base)
  {
    hide MixedTo, Quadrant;
    PartnerInside(key, s.row, s.column);
  }

  lemma MixStops(s: State, key: Key, base: Sram)
    requires MixInv(s, key, base) && s.rev == 8 && s.column >= Quadrant(key).y + 240
    ensures MixInv(s.(pins := s.pins.(lanesN := false), block := 100), key, base)
  {
    hide MixedTo, Quadrant;
  }

  lemma LastColumn(s: State, key: Key, base: Sram)
    requires MixInv(s, key, base) && s.rev == 8
    ensures (s.column == 240 || s.column == 480) <==> s.column == Quadrant(key).y + 240
  {
    hide MixedTo;
  }

  lemma MixedNone(m: Sram, key: Key)
    ensures MixedTo(m, key, 0) == m
  {
  }

  lemma XorKeeps(s: State, key: Key, base: Sram, floating: bv16)
    requires PinsSettled(s) && XorInv(s, key, base)
    ensures PinsSettled(Committed(XorStep(s, key, floating)))
    ensures XorInv(Committed(XorStep(s, key, floating)), key, base)
  {
    XorForms(s, key, floating);
    CommitSettles(XorStep(s, key, floating));
    hide XorStep, PinsSettled, Committed, MaskedTo, Masked;
    if s.rev in {0, 5, 6, 11} {
      XorTurns(s, key, base, floating);
    } else if s.rev in {1, 2, 7, 8} {
      XorReads(s, key, base, floating);
    } else if s.rev == 3 {
      XorWritesRows(s, key, base, floating);
    } else if s.rev == 9 {
      XorWritesColumns(s, key, base, floating);
    } else if s.rev == 4 {
      XorAdvancesRows(s, key, base, floating);
    } else {
      XorAdvancesColumns(s, key, base, floating);
    }
  }

  lemma XorForms(s: State, key: Key, floating: bv16)
    requires PinsFormed(s.pins)
    ensures PinsFormed(XorStep(s, key, floating).pins)
  {
    hide Bus, Masked, Wrap20, Inc20, ReadPins, WritePins, PinsFormed;
  }

  lemma XorTurns(s: State, key: Key, base: Sram, floating: bv16)
    requires PinsSettled(s) && XorInv(s, key, base) && s.rev in {0, 5, 6, 11}
    ensures XorInv(Committed(XorStep(s, key, floating)), key, base)
  {
    CommitRepeats(s, s.pins);
    MaskedNone(base, key);
    hide Commit, Bus, ReadPins, WritePins, MaskedTo, MaskedWord, Masked;
  }

  lemma XorReads(s: State, key: Key, base: Sram, floating: bv16)
    requires PinsSettled(s) && XorInv(s, key, base) && s.rev in {1, 2, 7, 8}
    ensures XorInv(Committed(XorStep(s, key, floating)), key, base)
  {
    hide MaskedTo, MaskedWord, Masked;
  }

  lemma XorWritesRows(s: State, key: Key, base: Sram, floating: bv16)
    requires PinsSettled(s) && XorInv(s, key, base) && s.rev == 3
    ensures XorInv(Committed(XorStep(s, key, floating)), key, base)
  {
    MaskedRowStep(base, key, s.row, s.column);
    hide MaskedTo, MaskedWord, Masked, Bus;
  }

  lemma XorWritesColumns(s: State, key: Key, base: Sram, floating: bv16)
    requires PinsSettled(s) && XorInv(s, key, base) && s.rev == 9
    ensures XorInv(Committed(XorStep(s, key, floating)), key, base)
  {
    MaskedColumnStep(base, key, s.row, s.column);
    hide MaskedTo, MaskedWord, Masked, Bus;
  }

  lemma XorAdvancesRows(s: State, key: Key, base: Sram, floating: bv16)
    requires PinsSettled(s) && XorInv(s, key, base) && s.rev == 4
    ensures XorInv(Committed(XorStep(s, key, floating)), key, base)
  {
    CommitRepeats(s, s.pins);
    hide Wrap20, Commit, Bus, ReadPins, WritePins, Reading, MaskedTo, MaskedWord, Masked;
    if s.row == 639 {
    }
  }

  lemma XorAdvancesColumns(s: State, key: Key, base: Sram, floating: bv16)
    requires PinsSettled(s) && XorInv(s, key, base) && s.rev == 10
    ensures XorInv(Committed(XorStep(s, key, floating)), key, base)
  {
    CommitRepeats(s, s.pins);
    hide Wrap20, Commit, Bus, ReadPins, WritePins, Reading, MaskedTo, MaskedWord, Masked;
    if s.column == 479 {
    }
  }

  lemma MaskedNone(m: Sram, key: Key)
    ensures MaskedTo(m, key, 0, 0) == m
  {
    hide Masked;
  }

  // Where one phase ends and the next begins

  lemma PassBegins(s: State, p: Pass, key: Key)
    requires Rested(s)
    ensures PassInv(s, p, key, s.mem)
  {
    RotatedNone(s.mem, p, key);
    hide RotatedTo;
    assert !SomeBefore(key, 0);
  }

  lemma PassEnds(s: State, p: Pass, key: Key, base: Sram)
    requires PassInv(s, p, key, base) && s.block == p.Blocks()
    ensures s.mem == Rotate(base, p, key)
  {
    var n := Line(p, s);
    forall l | n <= l < p.Lines() ensures !Selected(p, key, l) {
      LastLineNeverSelected(p, key, l);
    }
    RotatedSkip(base, p, key, n, p.Lines());
  }

  lemma MixEnds(s: State, key: Key, base: Sram)
    requires MixInv(s, key, base) && s.block == 100
    ensures s.mem == Mix(base, key)
  {
  }

  lemma XorEnds(s: State, key: Key, base: Sram)
    requires XorInv(s, key, base) && s.block == 100
    ensures s.mem == Mask(base, key)
  {
  }

  /** The image an operation leaves behind when its last phase ends. */
  function NextOrigin(s: State, i: Inputs, origin: Sram, key: Key): Sram {
    if NextPhase(s, i).Hiatus? && s.phase.EncryptXor? then Encrypt(origin, key)
    else if NextPhase(s, i).Hiatus? && s.phase.DecryptHor? then Decrypt(origin, key)
    else origin
  }

  /** Any edge, whatever the buttons, switches and undriven lines show, keeps
      the invariant; only the key has to stay the same while an operation runs. */
  lemma StepKeeps(s: State, origin: Sram, key: Key, i: Inputs)
    requires Inv(s, origin, key)
    requires Busy(s.phase) ==> i.key == key
    ensures Inv(Step(s, i), NextOrigin(s, i, origin, key), key)
  {
    match s.phase
    case EncryptHor =>
      PassPhaseKeeps(s, ROWS, origin, key, i);
    case EncryptVer =>
      PassPhaseKeeps(s, COLUMNS, origin, key, i);
    case DecryptVer =>
      PassPhaseKeeps(s, COLUMNS_BACK, origin, key, i);
    case DecryptHor =>
      PassPhaseKeeps(s, ROWS_BACK, origin, key, i);
    case EncryptMix | DecryptMix =>
      MixPhaseKeeps(s, origin, key, i);
    case EncryptXor | DecryptXor =>
      XorPhaseKeeps(s, origin, key, i);
    case Display =>
      DisplayKeeps(s, origin, key, i);
    case Hiatus | KeyGen =>
      IdleKeeps(s, origin, key, i);
    case _ =>
      IntervalKeeps(s, origin, key, i);
  }

  function PassOf(ph: Phase): Pass
    requires ph in {EncryptHor, EncryptVer, DecryptVer, DecryptHor}
  {
    match ph
    case EncryptHor => ROWS
    case EncryptVer => COLUMNS
    case DecryptVer => COLUMNS_BACK
    case DecryptHor => ROWS_BACK
  }

  lemma PassKeepsPhase(s: State, p: Pass, key: Key, floating: bv16)
    ensures PassStep(p, s, key, floating).phase == s.phase
  {
    hide Bus, RawCell, ReadPins, WritePins;
  }

  lemma MixKeepsPhase(s: State, key: Key, floating: bv16)
    ensures MixStep(s, key, floating).phase == s.phase
  {
    hide Bus, ReadPins, WritePins;
  }

  lemma XorKeepsPhase(s: State, key: Key, floating: bv16)
    ensures XorStep(s, key, floating).phase == s.phase
  {
    hide Bus, ReadPins, WritePins;
  }

  lemma PassPhaseStep(s: State, i: Inputs)
    requires s.phase in {EncryptHor, EncryptVer, DecryptVer, DecryptHor}
    ensures Step(s, i) == Committed(PassStep(PassOf(s.phase), s, i.key, i.floating)).(phase := NextPhase(s, i))
    ensures NextPhase(s, i) == s.phase ==> Step(s, i) == Committed(PassStep(PassOf(s.phase), s, i.key, i.floating))
  {
    PassKeepsPhase(s, PassOf(s.phase), i.key, i.floating);
    hide PassStep, Commit, NextPhase;
  }

  lemma MixPhaseStep(s: State, i: Inputs)
    requires s.phase.EncryptMix? || s.phase.DecryptMix?
    ensures Step(s, i) == Committed(MixStep(s, i.key, i.floating)).(phase := NextPhase(s, i))
    ensures NextPhase(s, i) == s.phase ==> Step(s, i) == Committed(MixStep(s, i.key, i.floating))
  {
    MixKeepsPhase(s, i.key, i.floating);
    hide MixStep, Commit, NextPhase;
  }

  lemma XorPhaseStep(s: State, i: Inputs)
    requires s.phase.EncryptXor? || s.phase.DecryptXor?
    ensures Step(s, i) == Committed(XorStep(s, i.key, i.floating)).(phase := NextPhase(s, i))
    ensures NextPhase(s, i) == s.phase ==> Step(s, i) == Committed(XorStep(s, i.key, i.floating))
  {
    XorKeepsPhase(s, i.key, i.floating);
    hide XorStep, Commit, NextPhase;
  }

  lemma PassPhaseKeeps(s: State, p: Pass, origin: Sram, key: Key, i: Inputs)
    requires s.phase in {EncryptHor, EncryptVer, DecryptVer, DecryptHor} && p == PassOf(s.phase)
    requires Inv(s, origin, key) && i.key == key
    ensures Inv(Step(s, i), NextOrigin(s, i, origin, key), key)
  {
    var base := Base(s.phase, origin, key);
    PassKeeps(s, p, key, base, i.floating);
    var s' := Committed(PassStep(p, s, key, i.floating));
    PassPhaseStep(s, i);
    if s.block == p.Blocks() {
      assert s'.block == s.block;
      PassEnds(s', p, key, base);
      PassPhaseEnds(s, s', p, origin, key, i);
    } else {
      PassPhaseGoesOn(s, s', p, origin, key, i);
    }
  }

  lemma PassPhaseEnds(s: State, s': State, p: Pass, origin: Sram, key: Key, i: Inputs)
    requires s.phase in {EncryptHor, EncryptVer, DecryptVer, DecryptHor} && p == PassOf(s.phase)
    requires PinsSettled(s') && s.block == p.Blocks()
    requires s'.mem == Rotate(Base(s.phase, origin, key), p, key)
    ensures Inv(s'.(phase := NextPhase(s, i)), NextOrigin(s, i, origin, key), key)
  {
    hide Rotate, PassInv, Mix, Mask;
  }

  lemma PassPhaseGoesOn(s: State, s': State, p: Pass, origin: Sram, key: Key, i: Inputs)
    requires s.phase in {EncryptHor, EncryptVer, DecryptVer, DecryptHor} && p == PassOf(s.phase)
    requires PinsSettled(s') && PassInv(s', p, key, Base(s.phase, origin, key)) && s.block != p.Blocks()
    ensures Inv(s'.(phase := NextPhase(s, i)), NextOrigin(s, i, origin, key), key)
  {
    assert NextPhase(s, i) == s.phase;
    PassInvPhase(s', p, s.phase, key, Base(s.phase, origin, key));
    hide NextPhase, Rotate, PassInv, Mix, Mask, PinsSettled, Base, Encrypt, Decrypt;
  }

  lemma PassInvPhase(s: State, p: Pass, ph: Phase, key: Key, base: Sram)
    requires PassInv(s, p, key, base) && PinsSettled(s)
    ensures PassInv(s.(phase := ph), p, key, base) && PinsSettled(s.(phase := ph))
  {
    hide RotatedTo;
  }

  lemma MixPhaseKeeps(s: State, origin: Sram, key: Key, i: Inputs)
    requires s.phase.EncryptMix? || s.phase.DecryptMix?
    requires Inv(s, origin, key) && i.key == key
    ensures Inv(Step(s, i), NextOrigin(s, i, origin, key), key)
  {
    var base := Base(s.phase, origin, key);
    MixKeeps(s, key, base, i.floating);
    var s' := Committed(MixStep(s, key, i.floating));
    MixPhaseStep(s, i);
    if s.block == 100 {
      MixBlockStays(s, key, base, i.floating);
      MixEnds(s', key, base);
    }
    hide MixStep, MixInv, PinsSettled, Rotate, Committed, Mix, Mask, Step;
    match s.phase
    case EncryptMix => MixInvPhase(s', NextPhase(s, i), key, base);
    case DecryptMix => MixInvPhase(s', NextPhase(s, i), key, base);
  }

  lemma MixInvPhase(s: State, ph: Phase, key: Key, base: Sram)
    requires MixInv(s, key, base) && PinsSettled(s)
    ensures MixInv(s.(phase := ph), key, base) && PinsSettled(s.(phase := ph))
  {
    hide MixedTo, Quadrant;
  }

  lemma MixBlockStays(s: State, key: Key, base: Sram, floating: bv16)
    requires MixInv(s, key, base) && s.block == 100
    ensures MixStep(s, key, floating).block == 100
  {
    hide MixedTo;
  }

  lemma XorPhaseKeeps(s: State, origin: Sram, key: Key, i: Inputs)
    requires s.phase.EncryptXor? || s.phase.DecryptXor?
    requires Inv(s, origin, key) && i.key == key
    ensures Inv(Step(s, i), NextOrigin(s, i, origin, key), key)
  {
    var base := Base(s.phase, origin, key);
    XorKeeps(s, key, base, i.floating);
    var s' := Committed(XorStep(s, key, i.floating));
    XorPhaseStep(s, i);
    if s.block == 100 {
      XorBlockStays(s, key, base, i.floating);
      XorEnds(s', key, base);
    }
    hide XorStep, XorInv, PinsSettled, Rotate, Committed, Mix, Mask, Step;
    match s.phase
    case EncryptXor => XorInvPhase(s', NextPhase(s, i), key, base);
    case DecryptXor => XorInvPhase(s', NextPhase(s, i), key, base);
  }

  lemma XorInvPhase(s: State, ph: Phase, key: Key, base: Sram)
    requires XorInv(s, key, base) && PinsSettled(s)
    ensures XorInv(s.(phase := ph), key, base) && PinsSettled(s.(phase := ph))
  {
    hide MaskedTo;
  }

  lemma XorBlockStays(s: State, key: Key, base: Sram, floating: bv16)
    requires XorInv(s, key, base) && s.block == 100
    ensures XorStep(s, key, floating).block == 100
  {
    hide MaskedTo;
  }

  lemma DisplayKeeps(s: State, origin: Sram, key: Key, i: Inputs)
    requires s.phase.Display? && Inv(s, origin, key)
    ensures Inv(Step(s, i), NextOrigin(s, i, origin, key), key)
  {
    CommitSettles(Datapath(s, i));
    PassBegins(Step(s, i), ROWS, key);
    assert MaskedTo(s.mem, key, 0, 0) == s.mem by { MaskedNone(s.mem, key); }
    hide PassInv, MaskedTo;
  }

  lemma IdleKeeps(s: State, origin: Sram, key: Key, i: Inputs)
    requires s.phase.Hiatus? || s.phase.KeyGen?
    requires Inv(s, origin, key)
    ensures Inv(Step(s, i), NextOrigin(s, i, origin, key), key)
  {
    if s.phase.Hiatus? {
      CommitSettles(Datapath(s, i));
    } else {
      CommitRepeats(s, s.pins);
      hide Commit;
    }
  }

  predicate Interval(ph: Phase) {
    ph in {EncryptInterval, EncryptVerInterval, EncryptMixInterval,
           DecryptInterval, DecryptVerInterval, DecryptHorInterval}
  }

  lemma IntervalStep(s: State, i: Inputs)
    requires Interval(s.phase) && PinsSettled(s)
    ensures Step(s, i) == Cleared(s).(phase := NextPhase(s, i))
  {
    CommitRepeats(s, s.pins);
    hide Commit, NextPhase;
  }

  lemma IntervalKeeps(s: State, origin: Sram, key: Key, i: Inputs)
    requires Interval(s.phase) && Inv(s, origin, key)
    ensures Inv(Step(s, i), NextOrigin(s, i, origin, key), key)
  {
    IntervalStep(s, i);
    hide Step, Inv, NextOrigin, NextPhase;
    if s.phase in {EncryptInterval, DecryptVerInterval, DecryptInterval} {
      PassIntervalKeeps(s, origin, key, i);
    } else {
      WordIntervalKeeps(s, origin, key, i);
    }
  }

  lemma WordIntervalKeeps(s: State, origin: Sram, key: Key, i: Inputs)
    requires Interval(s.phase) && s.phase !in {EncryptInterval, DecryptVerInterval, DecryptInterval}
    requires Inv(s, origin, key)
    ensures Inv(Cleared(s).(phase := NextPhase(s, i)), NextOrigin(s, i, origin, key), key)
  {
    hide Rotate, Mix, Mask, XorInv, MixInv;
    var s' := Cleared(s).(phase := NextPhase(s, i));
    XorBegins(s', key);
    ExchangeBegins(s', key);
  }

  lemma ExchangeBegins(s: State, key: Key)
    requires Rested(s)
    ensures MixInv(s, key, s.mem)
  {
  }

  lemma PassIntervalKeeps(s: State, origin: Sram, key: Key, i: Inputs)
    requires s.phase in {EncryptInterval, DecryptVerInterval, DecryptInterval} && Inv(s, origin, key)
    ensures Inv(Cleared(s).(phase := NextPhase(s, i)), origin, key)
    ensures NextOrigin(s, i, origin, key) == origin
  {
    hide Rotate, Mix, Mask, PassInv;
    var s' := Cleared(s).(phase := NextPhase(s, i));
    PassBegins(s', PassOf(NextPhase(s, i)), key);
  }

  lemma XorBegins(s: State, key: Key)
    requires Rested(s)
    ensures XorInv(s, key, s.mem)
  {
  }
}
