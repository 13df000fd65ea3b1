/** The camera's register writer: a bit-serial bus master that sends a table of
    register values over the two wires of the Serial Camera Control Bus. */
module SccbMaster {
  import opened DivMod

  type Byte = x: nat | x < 256

  datatype Phase = HALT | STOP | PREP | Phase1 | Phase2 | INPUT | BREAK | Phase3 | Phase4 | FIN

  /** The data wire is released, or driven to a level. */
  datatype Wire = Released | Driven(level: bool)

  /** The registers.  `counter` counts transactions, `bits` the bits of a phase. */
  datatype State = State(
    phase: Phase, ipWrite: Byte, ipRead: Byte, subAddress: Byte, writeData: Byte,
    counter: nat, bits: nat, prep1: bool, prep2: bool, camClk: bool, current: bool,
    waited: nat, pause: nat, sdioc: bool, sdiod: Wire)

  // ------------------------------------------------------------------
  // The table
  // ------------------------------------------------------------------

  const LAST: nat := 0x3b

  /** The register and value of table row `c`. */
  function Entry(c: nat): (Byte, Byte)
    requires c <= LAST
  {
    match c
    case 0x00 => (0x12, 0x80)
    case 0x01 => (0x12, 0x80)
    case 0x02 => (0x12, 0x04)
    case 0x03 => (0x11, 0x00)
    case 0x04 => (0x0c, 0x00)
    case 0x05 => (0x3e, 0x00)
    case 0x06 => (0x8c, 0x00)
    case 0x07 => (0x04, 0x00)
    case 0x08 => (0x40, 0x10)
    case 0x09 => (0x3a, 0x04)
    case 0x0a => (0x14, 0x38)
    case 0x0b => (0x4f, 0x40)
    case 0x0c => (0x50, 0x34)
    case 0x0d => (0x51, 0x0c)
    case 0x0e => (0x52, 0x17)
    case 0x0f => (0x53, 0x29)
    case 0x10 => (0x54, 0x40)
    case 0x11 => (0x58, 0x1e)
    case 0x12 => (0x3d, 0xc0)
    case 0x13 => (0x11, 0x00)
    case 0x14 => (0x17, 0x11)
    case 0x15 => (0x18, 0x61)
    case 0x16 => (0x32, 0xa4)
    case 0x17 => (0x19, 0x03)
    case 0x18 => (0x1a, 0x7b)
    case 0x19 => (0x03, 0x0a)
    case 0x1a => (0x0e, 0x61)
    case 0x1b => (0x0f, 0x4b)
    case 0x1c => (0x16, 0x02)
    case 0x1d => (0x1e, 0x37)
    case 0x1e => (0x21, 0x02)
    case 0x1f => (0x22, 0x91)
    case 0x20 => (0x29, 0x07)
    case 0x21 => (0x33, 0x0b)
    case 0x22 => (0x35, 0x0b)
    case 0x23 => (0x37, 0x1d)
    case 0x24 => (0x38, 0x71)
    case 0x25 => (0x39, 0x2a)
    case 0x26 => (0x3c, 0x78)
    case 0x27 => (0x4d, 0x40)
    case 0x28 => (0x4e, 0x20)
    case 0x29 => (0x69, 0x00)
    case 0x2a => (0x6b, 0x4a)
    case 0x2b => (0x74, 0x10)
    case 0x2c => (0x8d, 0x4f)
    case 0x2d => (0x8e, 0x00)
    case 0x2e => (0x8f, 0x00)
    case 0x2f => (0x90, 0x00)
    case 0x30 => (0x91, 0x00)
    case 0x31 => (0x96, 0x00)
    case 0x32 => (0x9a, 0x00)
    case 0x33 => (0xb0, 0x84)
    case 0x34 => (0xb1, 0x0c)
    case 0x35 => (0xb2, 0x0e)
    case 0x36 => (0xb3, 0x82)
    case 0x37 => (0xb8, 0x0a)
    case 0x38 => (0x72, 0x11)
    case 0x39 => (0x73, 0xf1)
    case 0x3a => (0x3e, 0x19)
    case _ => (0x12, 0x14)
  }

  /** The first `n` rows. */
  function Entries(n: nat): (r: seq<(Byte, Byte)>)
    requires n <= LAST + 1
    ensures |r| == n
  {
    if n == 0 then [] else Entries(n - 1) + [Entry(n - 1)]
  }

  // ------------------------------------------------------------------
  // One clock
  // ------------------------------------------------------------------

  function Power(i: nat): (p: nat)
    ensures p > 0
  {
    if i == 0 then 1 else 2 * Power(i - 1)
  }

  /** Bit `i` of a byte, the least significant being bit 0. */
  function Bit(b: Byte, i: nat): bool {
    b / Power(i) % 2 == 1
  }

  function NextPhase(s: State, run: bool): Phase {
    match s.phase
    case HALT => if run then STOP else HALT
    case STOP => PREP
    case PREP => if s.prep2 then Phase1 else PREP
    case Phase1 => if s.bits == 9 then Phase2 else Phase1
    case Phase2 => if s.bits == 9 then INPUT else Phase2
    case INPUT => if s.bits == 10 then BREAK else INPUT
    case BREAK => if s.pause == 20 then Phase3 else BREAK
    case Phase3 => if s.bits == 9 then Phase4 else Phase3
    case Phase4 => if s.bits == 10 then FIN else Phase4
    case FIN => if s.waited == 20 then STOP else FIN
  }

  /** A half clock of a phase that shifts out `b` and then keeps the line. */
  function ShiftByte(s: State, b: Byte): (s': State)
    ensures s'.subAddress == s.subAddress && s'.writeData == s.writeData
    ensures s'.counter == s.counter && s'.waited == s.waited
  {
    if !s.camClk then
      var t := if s.bits < 8 then s.(sdiod := Driven(Bit(b, 7 - s.bits)), current := Bit(b, 7 - s.bits)) else s;
      t.(camClk := true, sdioc := false, bits := s.bits + 1)
    else
      var t := if s.bits != 9 then s.(sdiod := Driven(s.current)) else s.(bits := 0);
      t.(camClk := false, sdioc := true)
  }

  /** A half clock of the phase that shifts out the data and a final zero. */
  function ShiftData(s: State): (s': State)
    ensures s'.subAddress == s.subAddress && s'.writeData == s.writeData
    ensures s'.counter == s.counter && s'.waited == s.waited
  {
    if !s.camClk then
      var t :=
        if s.bits < 8 then
          s.(sdiod := Driven(Bit(s.writeData, 7 - s.bits)), current := Bit(s.writeData, 7 - s.bits))
        else if s.bits == 9 then s.(sdiod := Driven(false), current := false)
        else s;
      t.(camClk := true, sdioc := false, bits := s.bits + 1)
    else
      var t := if s.bits != 9 then s.(sdiod := Driven(s.current)) else s;
      t.(camClk := false, sdioc := true, bits := if s.bits == 10 then 0 else s.bits)
  }

  /** A half clock of the phase that only clocks, and ends with a one and a zero. */
  function ShiftNothing(s: State): (s': State)
    ensures s'.subAddress == s.subAddress && s'.writeData == s.writeData
    ensures s'.counter == s.counter && s'.waited == s.waited
  {
    if !s.camClk then
      var t :=
        if s.bits == 8 then s.(sdiod := Driven(true), current := true)
        else if s.bits == 9 then s.(sdiod := Driven(false), current := false)
        else s;
      t.(camClk := true, sdioc := false, bits := s.bits + 1)
    else
      var t := if s.bits == 9 || s.bits == 10 then s.(sdiod := Driven(s.current)) else s;
      t.(camClk := false, sdioc := true, bits := if s.bits == 10 then 0 else s.bits)
  }

  function LoadNext(s: State): State {
    var s' :=
      if s.counter <= LAST then s.(subAddress := Entry(s.counter).0, writeData := Entry(s.counter).1) else s;
    s'.(sdioc := true, sdiod := Driven(false),
        waited := if s.counter != LAST then (s.waited + 1) % 0x1_0000 else s.waited)
  }

  function Datapath(s: State): State {
    match s.phase
    case HALT =>
      s.(subAddress := 0x12, writeData := 0x80, ipWrite := 0x42, ipRead := 0x43,
         sdioc := true, sdiod := Released, counter := 0)
    case STOP =>
      s.(counter := (s.counter + 1) % 256, bits := 0, sdioc := true, sdiod := Released, camClk := false,
         prep1 := false, prep2 := false, waited := 0, pause := 0)
    case PREP =>
      if !s.prep1 then s.(sdioc := true, sdiod := Driven(true), prep1 := true)
      else s.(sdioc := true, sdiod := Driven(false), prep2 := true)
    case Phase1 => ShiftByte(s, s.ipWrite)
    case Phase2 => ShiftByte(s, s.subAddress)
    case INPUT => ShiftData(s)
    case BREAK => s.(sdioc := true, sdiod := Driven(6 < s.pause < 12), pause := (s.pause + 1) % 256)
    case Phase3 => ShiftByte(s, s.ipRead)
    case Phase4 => ShiftNothing(s)
    case FIN => LoadNext(s)
  }

  function Step(s: State, run: bool): State {
    Datapath(s).(phase := NextPhase(s, run))
  }

  // ------------------------------------------------------------------
  // The wires as a slave sees them
  // ------------------------------------------------------------------

  datatype Lines = Lines(clock: bool, data: bool)
  datatype Event = Start | Stop | Sample(bit: bool)

  /** What happens between two observations of the wires: data falling or
      rising while the clock stays high, or a sample as the clock rises. */
  function Seen(before: Lines, after: Lines): seq<Event> {
    if before.clock && after.clock && before.data && !after.data then [Start]
    else if before.clock && after.clock && !before.data && after.data then [Stop]
    else if !before.clock && after.clock then [Sample(after.data)]
    else []
  }

  /** A slave: between a start and a stop it collects samples, and keeps the
      register writes addressed to it. */
  datatype Slave = Slave(listening: bool, bits: seq<bool>, writes: seq<(Byte, Byte)>)

  function ByteOf(bits: seq<bool>): nat {
    if bits == [] then 0 else 2 * ByteOf(bits[..|bits| - 1]) + if bits[|bits| - 1] then 1 else 0
  }

  lemma {:induction false} ByteOfBound(bits: seq<bool>)
    ensures ByteOf(bits) < Power(|bits|)
  {
    if bits != [] {
      ByteOfBound(bits[..|bits| - 1]);
    }
  }

  /** The address byte of writes, a register, a value, each followed by a bit
      that does not matter, and the low data as the clock rises to a stop. */
  function WriteOf(bits: seq<bool>): seq<(Byte, Byte)> {
    ByteOfBound(bits);
    if |bits| == 28 && ByteOf(bits[..8]) == 0x42 && !bits[27] then
      ByteOfBound(bits[9..17]);
      ByteOfBound(bits[18..26]);
      assert Power(8) == 256;
      [(ByteOf(bits[9..17]), ByteOf(bits[18..26]))]
    else []
  }

  function Hear(v: Slave, e: Event): Slave {
    match e
    case Start => v.(listening := true, bits := [])
    case Stop => if v.listening then Slave(false, [], v.writes + WriteOf(v.bits)) else v
    case Sample(bit) => if v.listening then v.(bits := v.bits + [bit]) else v
  }

  function HearAll(v: Slave, events: seq<Event>): (v': Slave)
    ensures events == [] ==> v' == v
    ensures |events| == 1 ==> v' == Hear(v, events[0])
    decreases |events|
  {
    if events == [] then v else HearAll(Hear(v, events[0]), events[1..])
  }

  /** Master, wires and slave.  A released data wire has any level. */
  datatype Bus = Bus(s: State, lines: Lines, v: Slave)

  function LinesOf(s: State, idle: bool): Lines {
    Lines(s.sdioc, if s.sdiod.Driven? then s.sdiod.level else idle)
  }

  function BusStep(y: Bus, run: bool, idle: bool): Bus {
    var s := Step(y.s, run);
    var lines := LinesOf(s, idle);
    Bus(s, lines, HearAll(y.v, Seen(y.lines, lines)))
  }

  // ------------------------------------------------------------------
  // The frame of a write
  // ------------------------------------------------------------------

  /** Sample `i` of the frame that writes `value` to `register`: three bytes,
      most significant bit first, the last bit of each held for a ninth clock,
      and a zero. */
  function FrameAt(register: Byte, value: Byte, i: nat): bool
    requires i < 28
  {
    if i < 9 then Bit(0x42, if i < 8 then 7 - i else 0)
    else if i < 18 then Bit(register, if i < 17 then 16 - i else 0)
    else if i < 27 then Bit(value, if i < 26 then 25 - i else 0)
    else false
  }

  predicate IsFrame(bits: seq<bool>, register: Byte, value: Byte) {
    |bits| <= 28 && forall i :: 0 <= i < |bits| ==> bits[i] == FrameAt(register, value, i)
  }

  lemma Halve(b: nat, p: nat)
    requires p > 0
    ensures b / p == 2 * (b / (2 * p)) + b / p % 2
  {
    var q, r := b / p, b % p;
    var h, e := q / 2, q % 2;
    assert b == p * q + r;
    assert p * q == 2 * p * h + p * e;
    assert 0 <= p * e <= p;
    QuotientIs(b, 2 * p, h, p * e + r);
  }

  /** The first `n` bits of a byte, as samples, are its value shifted right. */
  lemma {:induction false} LeadingBits(b: Byte, bits: seq<bool>)
    requires |bits| <= 8 && forall i :: 0 <= i < |bits| ==> bits[i] == Bit(b, 7 - i)
    ensures ByteOf(bits) == b / Power(8 - |bits|)
    decreases |bits|
  {
    if bits == [] {
      assert Power(8) == 256;
    } else {
      LeadingBits(b, bits[..|bits| - 1]);
      Halve(b, Power(8 - |bits|));
    }
  }

  /** The slave takes from a frame exactly the register and the value. */
  lemma FrameDecodes(bits: seq<bool>, register: Byte, value: Byte)
    requires |bits| == 28 && IsFrame(bits, register, value)
    ensures WriteOf(bits) == [(register, value)]
  {
    hide Bit, ByteOf;
    assert Power(0) == 1;
    LeadingBits(0x42, bits[..8]);
    LeadingBits(register, bits[9..17]);
    LeadingBits(value, bits[18..26]);
  }

  // ------------------------------------------------------------------
  // The wires during a transaction
  // ------------------------------------------------------------------

  /** A phase that puts samples `base` up to `base + len` of the frame on the wires. */
  predicate Sending(y: Bus, base: nat, len: nat) {
    var s, n := y.s, |y.v.bits|;
    && y.v.listening && s.sdiod.Driven? && s.pause == 0 && base + len <= 28
    && IsFrame(y.v.bits, s.subAddress, s.writeData)
    && if !s.camClk then
         && s.sdioc && s.bits < len && n == base + s.bits
         && (n > 0 ==> s.sdiod.level == FrameAt(s.subAddress, s.writeData, n - 1))
       else
         && !s.sdioc && 1 <= s.bits <= len && n == base + s.bits - 1
         && s.sdiod.level == FrameAt(s.subAddress, s.writeData, n)
         && (s.bits != 9 ==> s.current == s.sdiod.level)
  }

  /** Sample `i` of the address that the read begins with. */
  function AddressAt(i: nat): bool
    requires i < 9
  {
    Bit(0x43, if i < 8 then 7 - i else 0)
  }

  predicate IsAddress(bits: seq<bool>) {
    forall i :: 0 <= i < |bits| && i < 9 ==> bits[i] == AddressAt(i)
  }

  /** The slave takes from it that it is read from. */
  lemma AddressDecodes(bits: seq<bool>)
    requires |bits| >= 9 && IsAddress(bits)
    ensures ByteOf(bits[..8]) == 0x43
  {
    hide Bit, ByteOf;
    assert Power(0) == 1;
    LeadingBits(0x43, bits[..8]);
  }

  /** The phase that puts it on the wires. */
  predicate Addressing(y: Bus) {
    var s, n := y.s, |y.v.bits|;
    if !s.camClk then 0 < n <= 9 ==> s.sdiod == Driven(AddressAt(n - 1))
    else n < 9 && s.sdiod == Driven(AddressAt(n)) && (s.bits != 9 ==> s.current == AddressAt(n))
  }

  /** A phase of the read that follows, of `len` clocks after `base` samples. */
  predicate Reading(y: Bus, base: nat, len: nat) {
    var s, n := y.s, |y.v.bits|;
    && y.v.listening && s.sdiod.Driven? && IsAddress(y.v.bits)
    && (s.phase == Phase3 ==> Addressing(y))
    && if !s.camClk then s.sdioc && s.bits < len && n == base + s.bits
       else !s.sdioc && 1 <= s.bits <= len && n == base + s.bits - 1
            && (s.phase == Phase4 && s.bits == 10 ==> !s.sdiod.level && !s.current)
  }

  /** A slave that has heard no whole write. */
  predicate Between(v: Slave) {
    v.listening ==> |v.bits| != 28
  }

  /** The invariant of a transaction.  `w` are the writes heard before it. */
  predicate Wires(y: Bus, w: seq<(Byte, Byte)>) {
    var s := y.s;
    var w' := w + [(s.subAddress, s.writeData)];
    && s.ipWrite == 0x42 && s.ipRead == 0x43
    && y.lines.clock == s.sdioc && (s.sdiod.Driven? ==> y.lines.data == s.sdiod.level)
    && match s.phase
       case HALT => false
       case STOP => s.sdioc && Between(y.v) && y.v.writes == w
       case PREP =>
         && s.sdioc && !s.camClk && s.bits == 0 && s.pause == 0 && y.v.writes == w
         && if !s.prep1 then !s.prep2 && Between(y.v)
            else if !s.prep2 then s.sdiod == Driven(true) && Between(y.v)
            else s.sdiod == Driven(false) && y.v.listening && y.v.bits == []
       case Phase1 => Sending(y, 0, 9) && y.v.writes == w
       case Phase2 => Sending(y, 9, 9) && y.v.writes == w
       case INPUT => Sending(y, 18, 10) && y.v.writes == w
       case BREAK =>
         && s.sdioc && !s.camClk && s.bits == 0 && s.pause <= 20
         && s.sdiod == Driven(8 <= s.pause <= 12)
         && if s.pause <= 7 then
              y.v.listening && |y.v.bits| == 28 && IsFrame(y.v.bits, s.subAddress, s.writeData) && y.v.writes == w
            else if s.pause <= 12 then !y.v.listening && y.v.writes == w'
            else y.v.listening && y.v.bits == [] && y.v.writes == w'
       case Phase3 => Reading(y, 0, 9) && y.v.writes == w'
       case Phase4 => Reading(y, 9, 10) && y.v.writes == w'
       case FIN =>
         && s.sdioc && s.sdiod.Driven? && !s.sdiod.level && y.v.listening && |y.v.bits| == 19
         && IsAddress(y.v.bits) && y.v.writes == w
  }

  lemma IdleStep(y: Bus, w: seq<(Byte, Byte)>, run: bool, idle: bool)
    requires Wires(y, w) && (y.s.phase == STOP || y.s.phase == PREP || y.s.phase == FIN)
    ensures Wires(BusStep(y, run, idle), w)
  {
    hide FrameAt, Bit, WriteOf, Entry;
    if y.v.listening && |y.v.bits| != 28 {
      NoWrite(y.v.bits);
    }
  }

  lemma NoWrite(bits: seq<bool>)
    requires |bits| != 28
    ensures WriteOf(bits) == []
  {
  }

  lemma BreakStep(y: Bus, w: seq<(Byte, Byte)>, run: bool, idle: bool)
    requires Wires(y, w) && y.s.phase == BREAK
    ensures Wires(BusStep(y, run, idle), w)
  {
    if y.s.pause == 7 {
      FrameDecodes(y.v.bits, y.s.subAddress, y.s.writeData);
    }
    hide IsFrame, FrameAt, Bit, WriteOf, Entry;
  }

  lemma SendingStep(y: Bus, w: seq<(Byte, Byte)>, run: bool, idle: bool)
    requires Wires(y, w) && (y.s.phase == Phase1 || y.s.phase == Phase2 || y.s.phase == INPUT)
    ensures Wires(BusStep(y, run, idle), w)
  {
    if y.s.camClk {
      SendingRises(y, w, run, idle);
    } else {
      SendingFalls(y, w, run, idle);
    }
  }

  lemma SendingRises(y: Bus, w: seq<(Byte, Byte)>, run: bool, idle: bool)
    requires Wires(y, w) && (y.s.phase == Phase1 || y.s.phase == Phase2 || y.s.phase == INPUT)
    requires y.s.camClk
    ensures Wires(BusStep(y, run, idle), w)
  {
    hide Bit, WriteOf, Entry;
  }

  lemma SendingFalls(y: Bus, w: seq<(Byte, Byte)>, run: bool, idle: bool)
    requires Wires(y, w) && (y.s.phase == Phase1 || y.s.phase == Phase2 || y.s.phase == INPUT)
    requires !y.s.camClk
    ensures Wires(BusStep(y, run, idle), w)
  {
    hide Bit, WriteOf, Entry;
  }

  lemma ReadingStep(y: Bus, w: seq<(Byte, Byte)>, run: bool, idle: bool)
    requires Wires(y, w) && (y.s.phase == Phase3 || y.s.phase == Phase4)
    ensures var y' := BusStep(y, run, idle);
            Wires(y', if y'.s.phase == FIN then w + [(y.s.subAddress, y.s.writeData)] else w)
  {
    hide Bit, WriteOf, Entry, IsFrame, FrameAt, AddressAt;
    AddressBits();
  }

  /** What the shifting of the address puts on the wire. */
  lemma AddressBits()
    ensures forall i :: 0 <= i < 8 ==> AddressAt(i) == Bit(0x43, 7 - i)
    ensures AddressAt(8) == AddressAt(7)
  {
    hide Bit;
  }

  /** While a byte goes out, the data wire only moves as the clock falls: no
      start or stop appears, and what is sampled was there before the clock rose. */
  lemma StableWhileClockHigh(y: Bus, w: seq<(Byte, Byte)>, run: bool, idle: bool)
    requires Wires(y, w) && (y.s.phase == Phase1 || y.s.phase == Phase2 || y.s.phase == INPUT)
    ensures var y' := BusStep(y, run, idle);
            && (y'.lines.clock <==> !y.lines.clock)
            && (y'.lines.clock ==> y'.lines.data == y.lines.data)
            && Seen(y.lines, y'.lines) == if y'.lines.clock then [Sample(y.lines.data)] else []
  {
    hide Bit, WriteOf, Entry, IsFrame;
  }

  // ------------------------------------------------------------------
  // Runs
  // ------------------------------------------------------------------

  /** `n` clocks, with the inputs from clock `t` on. */
  function Run(y: Bus, run: nat -> bool, idle: nat -> bool, t: nat, n: nat): Bus
    decreases n
  {
    if n == 0 then y else Run(BusStep(y, run(t), idle(t)), run, idle, t + 1, n - 1)
  }

  function Trace(y: Bus, run: nat -> bool, idle: nat -> bool, t: nat, n: nat): seq<Event>
    decreases n
  {
    if n == 0 then []
    else
      var y' := BusStep(y, run(t), idle(t));
      Seen(y.lines, y'.lines) + Trace(y', run, idle, t + 1, n - 1)
  }

  lemma BreakSeen(y: Bus, w: seq<(Byte, Byte)>, run: bool, idle: bool)
    requires Wires(y, w) && y.s.phase == BREAK
    ensures var y' := BusStep(y, run, idle);
            && y.s.pause <= 20 && y'.s.pause == y.s.pause + 1
            && y'.s.phase == (if y.s.pause == 20 then Phase3 else BREAK)
            && Seen(y.lines, y'.lines) == if y.s.pause == 7 then [Stop] else if y.s.pause == 12 then [Start] else []
  {
    hide IsFrame, WriteOf, HearAll;
  }

  /** What is heard of the break from pause `pause` on. */
  function BreakEvents(pause: nat): seq<Event> {
    if pause <= 7 then [Stop, Start] else if pause <= 12 then [Start] else []
  }

  lemma BreakEventsStep(pause: nat)
    requires pause <= 20
    ensures BreakEvents(pause)
            == (if pause == 7 then [Stop] else if pause == 12 then [Start] else []) + BreakEvents(pause + 1)
    ensures BreakEvents(21) == []
  {
  }

  /** The break between a write and the read after it is heard as exactly one
      stop and then one start. */
  lemma {:induction false} BreakIsStopStart(y: Bus, w: seq<(Byte, Byte)>, run: nat -> bool, idle: nat -> bool, t: nat)
    requires Wires(y, w) && y.s.phase == BREAK
    ensures y.s.pause <= 20
    ensures Trace(y, run, idle, t, 21 - y.s.pause) == BreakEvents(y.s.pause)
    ensures Run(y, run, idle, t, 21 - y.s.pause).s.phase == Phase3
    decreases 21 - y.s.pause
  {
    hide Wires, BusStep, Seen, BreakEvents;
    var y' := BusStep(y, run(t), idle(t));
    BreakStep(y, w, run(t), idle(t));
    BreakSeen(y, w, run(t), idle(t));
    BreakEventsStep(y.s.pause);
    if y.s.pause < 20 {
      BreakIsStopStart(y', w, run, idle, t + 1);
    } else {
      assert Trace(y', run, idle, t + 1, 0) == [] && Run(y', run, idle, t + 1, 0) == y';
    }
  }

  /** The clocks left until the transaction is over. */
  function Left(s: State): int {
    var half := 2 * s.bits - if s.camClk then 1 else 0;
    match s.phase
    case STOP => 119
    case PREP => if !s.prep1 then 118 else if !s.prep2 then 117 else 116
    case Phase1 => 115 - half
    case Phase2 => 97 - half
    case INPUT => 79 - half
    case BREAK => 59 - s.pause
    case Phase3 => 38 - half
    case Phase4 => 20 - half
    case _ => 0
  }

  lemma LeftStep(y: Bus, w: seq<(Byte, Byte)>, run: bool, idle: bool)
    requires Wires(y, w) && y.s.phase != FIN
    ensures Left(y.s) > 0 && Left(BusStep(y, run, idle).s) == Left(y.s) - 1
  {
    hide Bit, WriteOf, IsFrame, FrameAt, Seen, HearAll;
  }

  /** The next state of the wires, whatever the phase. */
  lemma WiresStep(y: Bus, w: seq<(Byte, Byte)>, run: bool, idle: bool)
    requires Wires(y, w)
    ensures var y' := BusStep(y, run, idle);
            Wires(y', if y.s.phase == Phase4 && y'.s.phase == FIN then w + [(y.s.subAddress, y.s.writeData)] else w)
  {
    NotHalted(y, w);
    hide Wires, BusStep;
    match y.s.phase
    case STOP => IdleStep(y, w, run, idle);
    case PREP => IdleStep(y, w, run, idle);
    case FIN => IdleStep(y, w, run, idle);
    case BREAK => BreakStep(y, w, run, idle);
    case Phase3 => ReadingStep(y, w, run, idle); PhaseAfter(y, run, idle);
    case Phase4 => ReadingStep(y, w, run, idle);
    case _ => SendingStep(y, w, run, idle);
  }

  lemma NotHalted(y: Bus, w: seq<(Byte, Byte)>)
    requires Wires(y, w)
    ensures y.s.phase != HALT
  {
  }

  /** The phases follow each other, and only the last loads a register. */
  lemma PhaseAfter(y: Bus, run: bool, idle: bool)
    requires y.s.phase != HALT && y.s.phase != FIN
    ensures var y' := BusStep(y, run, idle);
            && y'.s.subAddress == y.s.subAddress && y'.s.writeData == y.s.writeData
            && (y'.s.phase == FIN ==> y.s.phase == Phase4)
  {
    hide Bit, Seen, HearAll, ShiftByte, ShiftData, ShiftNothing, LinesOf;
  }

  /** A transaction, from wherever it stands, ends with the slave having heard
      exactly one more write: the register and value that were set, whichever
      they are; and after it the beginning of a read, from the slave's address. */
  lemma {:induction false} TransactionWrites(y: Bus, w: seq<(Byte, Byte)>, run: nat -> bool, idle: nat -> bool, t: nat)
    requires Wires(y, w) && y.s.phase != FIN
    ensures Left(y.s) >= 0
    ensures var y' := Run(y, run, idle, t, Left(y.s));
            && y'.s.phase == FIN && y'.v.writes == w + [(y.s.subAddress, y.s.writeData)]
            && y'.v.listening && |y'.v.bits| == 19 && ByteOf(y'.v.bits[..8]) == 0x43
    decreases Left(y.s)
  {
    LeftStep(y, w, run(t), idle(t));
    WiresStep(y, w, run(t), idle(t));
    var y' := BusStep(y, run(t), idle(t));
    NotHalted(y, w);
    PhaseAfter(y, run(t), idle(t));
    hide BusStep;
    if y'.s.phase == FIN {
      AddressDecodes(y'.v.bits);
    } else {
      hide Wires, Left;
      TransactionWrites(y', w, run, idle, t + 1);
    }
  }
}
