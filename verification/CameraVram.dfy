/** Camera capture: bytes from the camera become pixels in a frame memory of
    three banks, from which the display is read. */
module CameraVram {
  import opened Bits

  datatype Phase = SLEEP | PREP | PREP2 | RUN

  type Word = bv16

  const BANK: nat := 0x1_0000
  const FRAME: nat := 153600
  /** The line counter has twenty bits: after so many pixels the writing of a
      frame that goes on begins again at the first address. */
  const LINES: nat := 0x10_0000
  const PERIOD: nat := 671088640

  /** The capture registers.  A write prepared at one clock reaches the memory
      at the next. */
  datatype State = State(phase: Phase, second: bool, h: nat, v: nat, temp: bv8,
                         wren: bool, waddress: nat, win: Word, banks: seq<seq<Word>>)

  /** What the circuit sees at one clock.  `key` is the keystream's output. */
  datatype Input = Input(run: bool, vsync: bool, href: bool, data: bv8, key: Word)

  predicate Banks(banks: seq<seq<Word>>) {
    |banks| == 3 && forall k :: 0 <= k < 3 ==> |banks[k]| == BANK
  }

  // ------------------------------------------------------------------
  // Three banks are one flat memory
  // ------------------------------------------------------------------

  function Flat(banks: seq<seq<Word>>, a: nat): Word
    requires Banks(banks) && a < 3 * BANK
  {
    banks[a / BANK][a % BANK]
  }

  /** Each bank is enabled by the top two bits of the address; a fourth bank
      does not exist. */
  function Write(banks: seq<seq<Word>>, a: nat, w: Word): (r: seq<seq<Word>>)
    requires Banks(banks)
    ensures Banks(r)
  {
    if a / BANK < 3 then banks[a / BANK := banks[a / BANK][a % BANK := w]] else banks
  }

  lemma WriteIsFlat(banks: seq<seq<Word>>, a: nat, w: Word, b: nat)
    requires Banks(banks) && b < 3 * BANK
    ensures Flat(Write(banks, a, w), b) == if a == b then w else Flat(banks, b)
  {
    if a != b && a / BANK == b / BANK {
      assert a % BANK != b % BANK;
    }
  }

  // ------------------------------------------------------------------
  // One clock
  // ------------------------------------------------------------------

  function NextPhase(phase: Phase, i: Input): Phase {
    match phase
    case SLEEP => if i.run then PREP else SLEEP
    case PREP => if i.vsync then PREP2 else PREP
    case PREP2 => if !i.vsync then RUN else PREP2
    case RUN => if i.vsync then PREP else RUN
  }

  function NextH(h: nat): nat { if h == 639 then 0 else h + 1 }
  function NextV(h: nat, v: nat): nat { if h == 639 then (v + 1) % LINES else v }

  function Advance(s: State): (s': State)
    ensures s'.banks == s.banks
  {
    s.(h := NextH(s.h), v := NextV(s.h, s.v))
  }

  function Prepare(s: State, i: Input): (s': State)
    ensures s'.banks == s.banks
  {
    var w := Pair(s.temp, i.data);
    if s.v < 240 then
      s.(wren := true, waddress := (s.h + s.v * 640) % 0x4_0000, win := if s.h < 320 then w else Xor(w, i.key))
    else s.(wren := true, win := 0)
  }

  function Datapath(s: State, i: Input): (s': State)
    ensures s'.banks == s.banks
  {
    match s.phase
    case SLEEP => s
    case PREP => s.(second := false, h := 0, v := 0, temp := 0, wren := false)
    case PREP2 => s
    case RUN =>
      if !i.href then s.(wren := false)
      else if !s.second then s.(wren := false, temp := i.data, second := true)
      else Advance(Prepare(s, i)).(second := false)
  }

  /** The memory with the prepared write in it. */
  function Committed(s: State): (r: seq<seq<Word>>)
    requires Banks(s.banks)
    ensures Banks(r)
  {
    if s.wren then Write(s.banks, s.waddress, s.win) else s.banks
  }

  function Step(s: State, i: Input): (s': State)
    requires Banks(s.banks)
    ensures Banks(s'.banks)
  {
    Datapath(s, i).(phase := NextPhase(s.phase, i), banks := Committed(s))
  }

  function Run(s: State, ins: seq<Input>): (s': State)
    requires Banks(s.banks)
    ensures Banks(s'.banks)
    decreases |ins|
  {
    if ins == [] then s else Step(Run(s, ins[..|ins| - 1]), ins[|ins| - 1])
  }

  // ------------------------------------------------------------------
  // The frame
  // ------------------------------------------------------------------

  /** The clocks at which the camera delivers a byte, in order. */
  function Bytes(ins: seq<Input>): seq<Input> {
    if ins == [] then []
    else Bytes(ins[..|ins| - 1]) + if ins[|ins| - 1].href then [ins[|ins| - 1]] else []
  }

  /** What pixel `n` of a frame is stored as: two bytes, the right half of the
      picture masked with the keystream at the second. */
  function Stored(bytes: seq<Input>, n: nat): Word
    requires 2 * n + 1 < |bytes|
  {
    var w := Pair(bytes[2 * n].data, bytes[2 * n + 1].data);
    if n % 640 < 320 then w else Xor(w, bytes[2 * n + 1].key)
  }

  /** The latest of the first `n` pixels that was placed at address `a`. */
  function Latest(n: nat, a: nat): (m: nat)
    requires a < n
    ensures m < n
  {
    a + (n - 1 - a) / PERIOD * PERIOD
  }

  /** What address `a` holds after `|bytes|` bytes of a frame: the latest pixel
      placed there, except that every pixel beyond the frame puts a zero at the
      last address. */
  function HeldAt(before: seq<seq<Word>>, bytes: seq<Input>, a: nat): Word
    requires Banks(before) && a < 3 * BANK
  {
    var n := |bytes| / 2;
    if a >= FRAME || n <= a then Flat(before, a)
    else if a == FRAME - 1 && (n - 1) % PERIOD != a then 0
    else Stored(bytes, Latest(n, a))
  }

  predicate Holds(before: seq<seq<Word>>, after: seq<seq<Word>>, bytes: seq<Input>)
    requires Banks(before) && Banks(after)
  {
    forall a :: 0 <= a < 3 * BANK ==> Flat(after, a) == HeldAt(before, bytes, a)
  }

  /** The registers after `|bytes|` bytes of a frame. */
  predicate Counting(s: State, bytes: seq<Input>) {
    var n := |bytes| / 2;
    && s.phase == RUN
    && (s.second <==> |bytes| % 2 == 1) && (s.second ==> s.temp == bytes[|bytes| - 1].data)
    && s.h == n % 640 && s.v == n / 640 % LINES
    && (n > 0 ==> s.waddress == if (n - 1) % PERIOD < FRAME then (n - 1) % PERIOD else FRAME - 1)
  }

  /** The state in which a frame begins. */
  predicate Ready(s: State) {
    s.phase == RUN && !s.second && s.h == 0 && s.v == 0 && !s.wren && Banks(s.banks)
  }

  /** The bytes with one more clock. */
  function More(bytes: seq<Input>, i: Input): seq<Input> {
    bytes + if i.href then [i] else []
  }

  /** Bytes that complete no pixel change nothing of what is held. */
  lemma SamePixels(before: seq<seq<Word>>, bytes: seq<Input>, i: Input, a: nat)
    requires Banks(before) && a < 3 * BANK && |More(bytes, i)| / 2 == |bytes| / 2
    ensures HeldAt(before, More(bytes, i), a) == HeldAt(before, bytes, a)
  {
    hide Flat, Pair, Xor;
    var n := |bytes| / 2;
    if a < FRAME && a < n {
      assert Stored(More(bytes, i), Latest(n, a)) == Stored(bytes, Latest(n, a));
    }
  }

  /** Clocks at which no pixel is completed leave the memory and its picture. */
  lemma QuietStep(s: State, i: Input, before: seq<seq<Word>>, bytes: seq<Input>)
    requires Banks(s.banks) && Banks(before) && Counting(s, bytes) && Holds(before, Committed(s), bytes)
    requires !i.href || !s.second
    ensures var s' := Step(s, i);
            && Holds(before, Committed(s'), More(bytes, i))
            && (!i.vsync ==> Counting(s', More(bytes, i)))
  {
    hide Flat, Write, Pair, Xor, HeldAt;
    var s', bytes' := Step(s, i), More(bytes, i);
    assert !s'.wren && Committed(s') == Committed(s);
    assert |bytes'| / 2 == |bytes| / 2;
    forall a | 0 <= a < 3 * BANK ensures Flat(Committed(s'), a) == HeldAt(before, bytes', a) {
      SamePixels(before, bytes, i, a);
    }
  }

  /** The counters place pixel `n` at address `n`, counted from the last time
      the line counter wrapped. */
  lemma Placed(n: nat)
    ensures var r := n % PERIOD;
            && n / 640 % LINES == r / 640 && n % 640 == r % 640
            && (r / 640 < 240 <==> r < FRAME)
            && (r < FRAME ==> (r % 640 + r / 640 * 640) % 0x4_0000 == r)
            && (r > 0 ==> n > 0 && (n - 1) % PERIOD == r - 1)
    ensures (n + 1) % 640 == (if n % 640 == 639 then 0 else n % 640 + 1)
    ensures (n + 1) / 640 == (if n % 640 == 639 then n / 640 + 1 else n / 640)
  {
    var q, r := n / PERIOD, n % PERIOD;
    assert n == PERIOD * q + r;
    assert n / 640 == LINES * q + r / 640;
  }

  /** What pixel `n` changes about which pixel is the latest at an address. */
  lemma LatestMoves(n: nat, a: nat)
    requires a < FRAME
    ensures n % PERIOD == a ==> n >= a && Latest(n + 1, a) == n
    ensures n % PERIOD != a && n > a ==> Latest(n + 1, a) == Latest(n, a)
    ensures n % PERIOD != a ==> n != a
    ensures n % PERIOD < FRAME - 1 ==> n == 0 || (n - 1) % PERIOD != FRAME - 1
  {
    var q, r := n / PERIOD, n % PERIOD;
    assert n == PERIOD * q + r;
  }

  lemma PreparedAs(s: State, i: Input)
    ensures var t := Prepare(s, i);
            && t.phase == s.phase && t.h == s.h && t.v == s.v && t.wren
            && t.waddress == (if s.v < 240 then (s.h + s.v * 640) % 0x4_0000 else s.waddress)
            && t.win == if s.v >= 240 then 0
                        else if s.h < 320 then Pair(s.temp, i.data) else Xor(Pair(s.temp, i.data), i.key)
  {
    hide Pair, Xor;
  }

  lemma AdvancedAs(s: State)
    ensures var t := Advance(s);
            && t.phase == s.phase && t.wren == s.wren && t.waddress == s.waddress && t.win == s.win
            && t.h == NextH(s.h) && t.v == NextV(s.h, s.v)
  {
    hide NextH, NextV;
  }

  /** The registers after the clock that completes a pixel. */
  lemma PixelRegisters(s: State, i: Input)
    requires Banks(s.banks) && s.phase == RUN && i.href && s.second
    ensures var s', t := Step(s, i), Prepare(s, i);
            && s'.phase == (if i.vsync then PREP else RUN) && !s'.second && s'.wren && s'.banks == Committed(s)
            && s'.h == NextH(s.h) && s'.v == NextV(s.h, s.v)
            && s'.waddress == t.waddress && s'.win == t.win
  {
    PreparedAs(s, i);
    AdvancedAs(Prepare(s, i));
    hide Committed, Pair, Xor, Prepare, Advance, NextH, NextV;
  }

  /** The registers once pixel `n` is complete. */
  lemma PixelCounted(s: State, i: Input, bytes: seq<Input>)
    requires Banks(s.banks) && Counting(s, bytes) && i.href && s.second
    ensures var s', bytes', n := Step(s, i), More(bytes, i), |bytes| / 2;
            var r := n % PERIOD;
            && |bytes'| / 2 == n + 1 && (!i.vsync ==> Counting(s', bytes'))
            && s'.wren && s'.banks == Committed(s)
            && (r < FRAME ==> s'.waddress == r && s'.win == Stored(bytes', n))
            && (r >= FRAME ==> s'.waddress == FRAME - 1 && s'.win == 0)
  {
    PixelRegisters(s, i);
    PreparedAs(s, i);
    hide Committed, Pair, Xor, Step, Prepare;
    var n := |bytes| / 2;
    Placed(n);
    CountsLine(n);
    assert |More(bytes, i)| == 2 * (n + 1);
    assert s.waddress == FRAME - 1 || n % PERIOD < FRAME;
    assert n % PERIOD < FRAME ==> Step(s, i).waddress == n % PERIOD;
  }

  lemma CountsLine(n: nat)
    ensures (n / 640 + 1) % LINES == (n / 640 % LINES + 1) % LINES
  {
  }

  /** What pixel `n` changes about what an address holds. */
  lemma PixelHeld(before: seq<seq<Word>>, bytes: seq<Input>, i: Input, a: nat)
    requires Banks(before) && a < 3 * BANK && i.href && |bytes| % 2 == 1
    ensures var n := |bytes| / 2;
            var r, bytes' := n % PERIOD, More(bytes, i);
            && |bytes'| / 2 == n + 1
            && HeldAt(before, bytes', a) ==
                 if a == r && r < FRAME then Stored(bytes', n)
                 else if a == FRAME - 1 && r >= FRAME then 0
                 else HeldAt(before, bytes, a)
  {
    hide Flat, Pair, Xor;
    var n := |bytes| / 2;
    if a < FRAME {
      LatestMoves(n, a);
      Placed(n);
      if a < n {
        assert Stored(More(bytes, i), Latest(n, a)) == Stored(bytes, Latest(n, a));
      }
      hide Latest, Stored;
    }
  }

  /** Completing pixel `n`. */
  lemma PixelStep(s: State, i: Input, before: seq<seq<Word>>, bytes: seq<Input>)
    requires Banks(s.banks) && Banks(before) && Counting(s, bytes) && Holds(before, Committed(s), bytes)
    requires i.href && s.second
    ensures var s' := Step(s, i);
            && Holds(before, Committed(s'), More(bytes, i))
            && (!i.vsync ==> Counting(s', More(bytes, i)))
  {
    PixelCounted(s, i, bytes);
    assert |bytes| % 2 == 1;
    hide Flat, Write, Pair, Xor, Step, Counting, HeldAt, More, Stored;
    var s', bytes' := Step(s, i), More(bytes, i);
    forall a | 0 <= a < 3 * BANK ensures Flat(Committed(s'), a) == HeldAt(before, bytes', a) {
      WriteIsFlat(s'.banks, s'.waddress, s'.win, a);
      PixelHeld(before, bytes, i, a);
    }
  }

  /** During a frame, after any clocks, the memory (with the write on its way)
      holds exactly the pixels completed so far. */
  lemma {:induction false} CapturesFrame(s: State, ins: seq<Input>)
    requires Ready(s) && (forall k :: 0 <= k < |ins| ==> !ins[k].vsync)
    ensures Counting(Run(s, ins), Bytes(ins)) && Holds(s.banks, Committed(Run(s, ins)), Bytes(ins))
    decreases |ins|
  {
    hide Holds, Counting, Committed, Step;
    if ins == [] {
      FrameBegins(s);
    } else {
      var front, last := ins[..|ins| - 1], ins[|ins| - 1];
      CapturesFrame(s, front);
      FrameStep(Run(s, front), last, s.banks, Bytes(front));
    }
  }

  lemma FrameBegins(s: State)
    requires Ready(s)
    ensures Counting(s, []) && Holds(s.banks, Committed(s), [])
  {
    hide Flat;
  }

  lemma FrameStep(s: State, i: Input, before: seq<seq<Word>>, bytes: seq<Input>)
    requires Banks(s.banks) && Banks(before) && Counting(s, bytes) && Holds(before, Committed(s), bytes)
    ensures var s' := Step(s, i);
            && Holds(before, Committed(s'), More(bytes, i))
            && (!i.vsync ==> Counting(s', More(bytes, i)))
  {
    hide Holds, Committed, Step, Counting, More;
    if i.href && s.second {
      PixelStep(s, i, before, bytes);
    } else {
      QuietStep(s, i, before, bytes);
    }
  }

  /** And when the frame ends, at the clock that sees the sync pulse, one more
      clock puts the last write in place, whatever comes. */
  lemma FrameStored(s: State, ins: seq<Input>, end: Input, next: Input)
    requires Ready(s) && (forall k :: 0 <= k < |ins| ==> !ins[k].vsync) && end.vsync
    ensures var s' := Step(Step(Run(s, ins), end), next);
            Holds(s.banks, s'.banks, More(Bytes(ins), end))
  {
    hide Holds, Counting, Datapath, Run, Committed, More;
    CapturesFrame(s, ins);
    FrameStep(Run(s, ins), end, s.banks, Bytes(ins));
  }

  /** A frame of the usual size: pixel `a` is at address `a`, and only the last
      address is zero if there were more pixels than the frame has. */
  lemma UsualFrame(before: seq<seq<Word>>, after: seq<seq<Word>>, bytes: seq<Input>, a: nat)
    requires Banks(before) && Banks(after) && Holds(before, after, bytes) && a < 3 * BANK
    requires |bytes| / 2 <= PERIOD
    ensures var n := |bytes| / 2;
            Flat(after, a) ==
              if a == FRAME - 1 && n > FRAME then 0
              else if a < FRAME && a < n then Stored(bytes, a)
              else Flat(before, a)
  {
    hide Flat, Stored;
  }

  /** Every bit of pixel `n` of such a frame is a bit of its first byte, in the
      high half, or of its second; and in the right half of a line, combined
      with that bit of the keystream's word at the second. */
  lemma PixelBits(before: seq<seq<Word>>, after: seq<seq<Word>>, bytes: seq<Input>, n: nat, i: nat)
    requires Banks(before) && Banks(after) && Holds(before, after, bytes)
    requires n < |bytes| / 2 <= PERIOD && n < FRAME && i < 16
    requires n == FRAME - 1 ==> |bytes| / 2 == FRAME
    ensures var first, second := bytes[2 * n], bytes[2 * n + 1];
            BitOf(Flat(after, n), i)
            <==> (if i < 8 then ByteBit(second.data, i) else ByteBit(first.data, i - 8))
                 != (n % 640 >= 320 && BitOf(second.key, i))
  {
    UsualFrame(before, after, bytes, n);
    hide Flat, Holds, Pair, Xor, BitOf, ByteBit;
    var first, second := bytes[2 * n], bytes[2 * n + 1];
    PairBits(first.data, second.data, i);
    XorBits(Pair(first.data, second.data), second.key, i);
  }

  /** Before the run command nothing is stored; with it, the circuit waits for a
      frame to begin. */
  lemma SleepsUntilRun(s: State, i: Input)
    requires Banks(s.banks) && s.phase == SLEEP && !s.wren
    ensures Step(s, i) == s.(phase := if i.run then PREP else SLEEP)
  {
  }

  /** Waiting for the end of a sync pulse, with the counters clear. */
  predicate Waiting(s: State) {
    s.phase == PREP2 && !s.second && s.h == 0 && s.v == 0 && !s.wren && Banks(s.banks)
  }

  /** Whatever the last frame left behind, the next one begins ready. */
  lemma {:induction false} BeginsReady(s: State, ins: seq<Input>)
    requires Banks(s.banks) && s.phase == PREP
    requires forall k :: 0 <= k < |ins| ==> Run(s, ins[..k]).phase == PREP || Run(s, ins[..k]).phase == PREP2
    ensures Run(s, ins).phase == PREP2 ==> Waiting(Run(s, ins))
    ensures Run(s, ins).phase == RUN ==> Ready(Run(s, ins))
    decreases |ins|
  {
    hide Committed;
    if ins != [] {
      var front := ins[..|ins| - 1];
      forall k | 0 <= k < |front| ensures Run(s, front[..k]).phase == PREP || Run(s, front[..k]).phase == PREP2 {
        assert front[..k] == ins[..k];
      }
      BeginsReady(s, front);
      assert ins[..|ins| - 1] == front;
    }
  }

  // ------------------------------------------------------------------
  // Reading for the display
  // ------------------------------------------------------------------

  /** The display counters, the banks' shared address register and their output
      registers. */
  datatype Reader = Reader(hc: nat, vc: nat, address: nat, q: seq<Word>)

  predicate Scanning(r: Reader) {
    r.hc < 800 && r.vc < 525 && r.address < BANK && |r.q| == 3
  }

  function ReadAddress(r: Reader): nat {
    (640 * r.vc + r.hc) % 0x4_0000
  }

  function ReadStep(r: Reader, banks: seq<seq<Word>>): (r': Reader)
    requires Scanning(r) && Banks(banks)
    ensures Scanning(r')
  {
    Reader(
      if r.hc == 799 then 0 else r.hc + 1,
      if r.hc != 799 then r.vc else if r.vc == 524 then 0 else r.vc + 1,
      ReadAddress(r) % BANK,
      [banks[0][r.address], banks[1][r.address], banks[2][r.address]])
  }

  /** The word behind the colours, or none where the picture is black. */
  datatype Shown = Black | Colour(w: Word)

  function Show(r: Reader): Shown
    requires Scanning(r)
  {
    var bank := ReadAddress(r) / BANK;
    if r.vc >= 240 || bank == 3 then Black else Colour(r.q[bank])
  }

  /** The picture is black exactly below its last line. */
  lemma ShowsBlack(r: Reader)
    requires Scanning(r)
    ensures Show(r).Black? <==> r.vc >= 240
  {
  }

  /** After two clocks the outputs are the words at the address of then. */
  lemma AnswersLate(r: Reader, banks: seq<seq<Word>>)
    requires Scanning(r) && Banks(banks)
    ensures var r' := ReadStep(ReadStep(r, banks), banks);
            && |r'.q| == 3 && forall k :: 0 <= k < 3 ==> r'.q[k] == banks[k][ReadAddress(r) % BANK]
    ensures var r' := ReadStep(ReadStep(r, banks), banks);
            && r'.hc == (if r.hc < 798 then r.hc + 2 else r.hc - 798)
            && r'.vc == (if r.hc < 798 then r.vc else if r.vc == 524 then 0 else r.vc + 1)
  {
  }

  /** The memory answers two clocks late, but the bank is chosen by the present
      address: the display shows the flat memory's word of two columns before,
      except where a bank begins in between, when it shows the word one bank on. */
  lemma ShowsFlat(r: Reader, banks: seq<seq<Word>>)
    requires Scanning(r) && Banks(banks) && r.vc < 240 && r.hc < 798
    ensures var r' := ReadStep(ReadStep(r, banks), banks);
            var a := ReadAddress(r);
            var crossing := a / BANK != (a + 2) / BANK;
            && a + 2 < 3 * BANK && ReadAddress(r') == a + 2 && (crossing ==> a + BANK < 3 * BANK)
            && Show(r') == Colour(Flat(banks, if crossing then a + BANK else a))
  {
    AnswersLate(r, banks);
    TwoOn(r, ReadStep(ReadStep(r, banks), banks));
    hide ReadStep, ReadAddress, Scanning;
    BankTwoOn(ReadAddress(r));
  }

  lemma TwoOn(r: Reader, r': Reader)
    requires r.vc < 240 && r.hc < 798 && r'.vc == r.vc && r'.hc == r.hc + 2
    ensures ReadAddress(r) + 2 < 3 * BANK && ReadAddress(r') == ReadAddress(r) + 2
  {
  }

  lemma BankTwoOn(a: nat)
    requires a + 2 < 3 * BANK
    ensures a / BANK != (a + 2) / BANK ==> a + BANK < 3 * BANK
    ensures a / BANK != (a + 2) / BANK ==> (a + 2) / BANK == (a + BANK) / BANK
    ensures (a + BANK) % BANK == a % BANK
  {
  }

  /** So four pixels of the picture come from the wrong place. */
  lemma ShowsWrongBank(r: Reader)
    requires Scanning(r) && r.vc < 240 && r.hc < 638
    ensures ReadAddress(r) / BANK != (ReadAddress(r) + 2) / BANK
            <==> (r.vc, r.hc) in {(102, 254), (102, 255), (204, 510), (204, 511)}
  {
    var a := 640 * r.vc + r.hc;
    assert ReadAddress(r) == a;
    LastOfBank(a);
    LineAndColumn(r.vc, r.hc);
    hide ReadAddress;
  }

  lemma LastOfBank(a: nat)
    requires a < 3 * BANK - 2
    ensures a / BANK != (a + 2) / BANK <==> a == BANK - 2 || a == BANK - 1 || a == 2 * BANK - 2 || a == 2 * BANK - 1
  {
  }

  lemma LineAndColumn(y: nat, x: nat)
    requires x < 640
    ensures (640 * y + x) / 640 == y && (640 * y + x) % 640 == x
  {
  }

  /** The first two columns of a line still show columns 158 and 159 of it,
      the end of the line above. */
  lemma ShowsLineStart(r: Reader, banks: seq<seq<Word>>)
    requires Scanning(r) && Banks(banks) && r.vc < 239 && r.hc >= 798
    ensures var r' := ReadStep(ReadStep(r, banks), banks);
            && r'.vc == r.vc + 1 && r'.hc == r.hc - 798
            && ReadAddress(r) == 640 * r'.vc + 158 + r'.hc && ReadAddress(r') == 640 * r'.vc + r'.hc
            && ReadAddress(r') < 3 * BANK
            && Show(r') == Colour(banks[ReadAddress(r') / BANK][ReadAddress(r) % BANK])
  {
    AnswersLate(r, banks);
    assert ReadAddress(r) == 640 * r.vc + r.hc;
    hide ReadStep;
  }
}
