/** The interrupt-driven JTAG UART driver: two rings shared between foreground
    code and an interrupt routine.  `Uart.Preempt` stands for any number of
    interrupts; the foreground methods call it between every two accesses to
    shared state, except where the source has interrupts disabled. */
module JtagUart {

  const BUF_LEN: nat := 2048
  const INT_MAX: nat := 0x7fff_ffff
  const DEFAULT_TIMEOUT: nat := 10

  // ------------------------------------------------------------------
  // Rings
  // ------------------------------------------------------------------

  predicate IsRing(buf: seq<bv8>, outAt: nat, inAt: nat) {
    |buf| == BUF_LEN && outAt < BUF_LEN && inAt < BUF_LEN
  }

  /** The bytes between the read index and the write index, cyclically. */
  function Ring(buf: seq<bv8>, outAt: nat, inAt: nat): seq<bv8>
    requires IsRing(buf, outAt, inAt)
  {
    if outAt <= inAt then buf[outAt..inAt] else buf[outAt..] + buf[..inAt]
  }

  /** One slot is always left empty, so equal indices mean an empty ring. */
  lemma RingSize(buf: seq<bv8>, outAt: nat, inAt: nat)
    requires IsRing(buf, outAt, inAt)
    ensures |Ring(buf, outAt, inAt)| == (inAt - outAt) % BUF_LEN <= BUF_LEN - 1
    ensures Ring(buf, outAt, inAt) == [] <==> outAt == inAt
    ensures |Ring(buf, outAt, inAt)| == BUF_LEN - 1 <==> (inAt + 1) % BUF_LEN == outAt
  {
  }

  lemma RingAt(buf: seq<bv8>, outAt: nat, inAt: nat, k: nat)
    requires IsRing(buf, outAt, inAt) && k < |Ring(buf, outAt, inAt)|
    ensures Ring(buf, outAt, inAt)[k] == buf[(outAt + k) % BUF_LEN]
  {
    RingSize(buf, outAt, inAt);
    Around(outAt + k);
    if outAt + k < BUF_LEN {
      RingBefore(buf, outAt, inAt, k);
    } else {
      RingBehind(buf, outAt, inAt, k);
    }
    hide Ring;
  }

  lemma Around(i: nat)
    requires i < 2 * BUF_LEN
    ensures i % BUF_LEN == if i < BUF_LEN then i else i - BUF_LEN
  {
  }

  lemma RingBefore(buf: seq<bv8>, outAt: nat, inAt: nat, k: nat)
    requires IsRing(buf, outAt, inAt) && k < |Ring(buf, outAt, inAt)| && outAt + k < BUF_LEN
    ensures Ring(buf, outAt, inAt)[k] == buf[outAt + k]
  {
  }

  lemma RingBehind(buf: seq<bv8>, outAt: nat, inAt: nat, k: nat)
    requires IsRing(buf, outAt, inAt) && k < |Ring(buf, outAt, inAt)| && outAt + k >= BUF_LEN
    ensures Ring(buf, outAt, inAt)[k] == buf[outAt + k - BUF_LEN]
  {
  }

  /** Storing into the slot at the write index does not touch the contents. */
  lemma RingStore(buf: seq<bv8>, outAt: nat, inAt: nat, slot: nat, b: bv8)
    requires IsRing(buf, outAt, inAt)
    requires inAt <= slot < BUF_LEN && (outAt <= inAt || slot < outAt)
    ensures Ring(buf[slot := b], outAt, inAt) == Ring(buf, outAt, inAt)
  {
  }

  lemma OneByte(buf: seq<bv8>, i: nat)
    requires i < |buf|
    ensures buf[i..i + 1] == [buf[i]]
  {
  }

  lemma Splice(buf: seq<bv8>, a: nat, b: nat, c: nat)
    requires a <= b <= c <= |buf|
    ensures buf[a..c] == buf[a..b] + buf[b..c]
  {
  }

  /** An index moved on to the end of the buffer at most. */
  function Moved(i: nat, n: nat): nat
    requires i < BUF_LEN && i + n <= BUF_LEN
  {
    if i + n == BUF_LEN then 0 else i + n
  }

  lemma MovedWraps(i: nat, n: nat)
    requires i < BUF_LEN && i + n <= BUF_LEN
    ensures (i + n) % BUF_LEN == Moved(i, n)
  {
  }

  lemma RingPieces(buf: seq<bv8>, outAt: nat, inAt: nat)
    requires IsRing(buf, outAt, inAt)
    ensures outAt <= inAt ==> Ring(buf, outAt, inAt) == buf[outAt..inAt]
    ensures inAt < outAt && inAt == 0 ==> Ring(buf, outAt, inAt) == buf[outAt..BUF_LEN]
    ensures inAt < outAt ==> Ring(buf, outAt, inAt) == buf[outAt..BUF_LEN] + buf[0..inAt]
  {
    assert buf[outAt..] == buf[outAt..BUF_LEN] && buf[..inAt] == buf[0..inAt];
  }

  /** Moving the write index publishes the slots it passes. */
  lemma RingPublish(buf: seq<bv8>, outAt: nat, inAt: nat, n: nat)
    requires IsRing(buf, outAt, inAt)
    requires inAt + n <= BUF_LEN && |Ring(buf, outAt, inAt)| + n <= BUF_LEN - 1
    ensures Ring(buf, outAt, (inAt + n) % BUF_LEN) == Ring(buf, outAt, inAt) + buf[inAt..inAt + n]
  {
    MovedWraps(inAt, n);
    if outAt <= inAt {
      Splice(buf, outAt, inAt, inAt + n);
    } else {
      Splice(buf, 0, inAt, inAt + n);
      Regroup(buf[outAt..BUF_LEN], buf[0..inAt], buf[inAt..inAt + n]);
    }
    RingPieces(buf, outAt, inAt);
    RingPieces(buf, outAt, Moved(inAt, n));
    hide Ring;
  }

  /** Moving the read index gives up the slots it passes. */
  lemma RingConsume(buf: seq<bv8>, outAt: nat, inAt: nat, bytes: seq<bv8>, rest: seq<bv8>)
    requires IsRing(buf, outAt, inAt) && Ring(buf, outAt, inAt) == bytes + rest
    requires outAt + |bytes| <= BUF_LEN
    ensures Ring(buf, (outAt + |bytes|) % BUF_LEN, inAt) == rest
    ensures bytes == buf[outAt..outAt + |bytes|]
  {
    var n := |bytes|;
    MovedWraps(outAt, n);
    if outAt <= inAt {
      ConsumeStraight(buf, outAt, inAt, bytes, rest);
    } else {
      ConsumeAround(buf, outAt, inAt, bytes, rest);
    }
    hide Ring;
  }

  lemma ConsumeStraight(buf: seq<bv8>, outAt: nat, inAt: nat, bytes: seq<bv8>, rest: seq<bv8>)
    requires IsRing(buf, outAt, inAt) && Ring(buf, outAt, inAt) == bytes + rest
    requires outAt + |bytes| <= BUF_LEN && outAt <= inAt
    ensures Ring(buf, Moved(outAt, |bytes|), inAt) == rest && bytes == buf[outAt..outAt + |bytes|]
  {
    hide Ring;
    var n := |bytes|;
    RingPieces(buf, outAt, inAt);
    RingPieces(buf, Moved(outAt, n), inAt);
    Splice(buf, outAt, outAt + n, inAt);
    SameParts(bytes, rest, buf[outAt..outAt + n], buf[outAt + n..inAt]);
  }

  lemma ConsumeAround(buf: seq<bv8>, outAt: nat, inAt: nat, bytes: seq<bv8>, rest: seq<bv8>)
    requires IsRing(buf, outAt, inAt) && Ring(buf, outAt, inAt) == bytes + rest
    requires outAt + |bytes| <= BUF_LEN && outAt > inAt
    ensures Ring(buf, Moved(outAt, |bytes|), inAt) == rest && bytes == buf[outAt..outAt + |bytes|]
  {
    hide Ring;
    var n := |bytes|;
    RingPieces(buf, outAt, inAt);
    RingPieces(buf, Moved(outAt, n), inAt);
    Splice(buf, outAt, outAt + n, BUF_LEN);
    Regroup(buf[outAt..outAt + n], buf[outAt + n..BUF_LEN], buf[0..inAt]);
    SameParts(bytes, rest, buf[outAt..outAt + n], buf[outAt + n..BUF_LEN] + buf[0..inAt]);
  }

  lemma SameParts(a: seq<bv8>, b: seq<bv8>, c: seq<bv8>, d: seq<bv8>)
    requires a + b == c + d && |a| == |c|
    ensures a == c && b == d
  {
    assert a == (a + b)[..|a|] == c;
    assert b == (a + b)[|a|..] == d;
  }

  /** The number of bytes the write routine may copy in one piece, from the
      read index it sampled. */
  function WriteRoom(inAt: nat, outAt: nat): nat
    requires inAt < BUF_LEN && outAt < BUF_LEN
  {
    if inAt < outAt then outAt - 1 - inAt
    else if outAt > 0 then BUF_LEN - inAt
    else BUF_LEN - 1 - inAt
  }

  lemma WriteRoomIsFree(buf: seq<bv8>, outAt: nat, inAt: nat)
    requires IsRing(buf, outAt, inAt)
    ensures inAt + WriteRoom(inAt, outAt) <= BUF_LEN
    ensures |Ring(buf, outAt, inAt)| + WriteRoom(inAt, outAt) <= BUF_LEN - 1
    ensures WriteRoom(inAt, outAt) == 0 <==> |Ring(buf, outAt, inAt)| == BUF_LEN - 1
    ensures WriteRoom(inAt, outAt) == Least(BUF_LEN - inAt, BUF_LEN - 1 - |Ring(buf, outAt, inAt)|)
  {
  }

  /** The number of bytes the read routine may copy in one piece. */
  function ReadRun(inAt: nat, outAt: nat): nat
    requires inAt < BUF_LEN && outAt < BUF_LEN
  {
    if inAt >= outAt then inAt - outAt else BUF_LEN - outAt
  }

  lemma ReadRunIsFilled(buf: seq<bv8>, outAt: nat, inAt: nat)
    requires IsRing(buf, outAt, inAt)
    ensures outAt + ReadRun(inAt, outAt) <= BUF_LEN
    ensures ReadRun(inAt, outAt) <= |Ring(buf, outAt, inAt)|
    ensures ReadRun(inAt, outAt) == 0 <==> Ring(buf, outAt, inAt) == []
    ensures ReadRun(inAt, outAt) == 0 <==> inAt == outAt
    ensures ReadRun(inAt, outAt) == Least(BUF_LEN - outAt, |Ring(buf, outAt, inAt)|)
  {
  }

  lemma Regroup(a: seq<bv8>, b: seq<bv8>, c: seq<bv8>)
    ensures a + (b + c) == (a + b) + c
  {
  }

  function Least(a: nat, b: nat): nat { if a < b then a else b }

  lemma SentOn(tx: seq<bv8>, k: nat, n: nat)
    requires k + n <= |tx|
    ensures tx[..k] + tx[k..][..n] == tx[..k + n] && tx[k..][n..] == tx[k + n..]
  {
  }

  lemma NextByte(tx: seq<bv8>, k: nat)
    requires k < |tx|
    ensures tx[k..] == tx[k..k + 1] + tx[k + 1..]
    ensures tx[..k + 1] == tx[..k] + tx[k..k + 1]
  {
  }

  lemma TailGrows(head: seq<bv8>, a: seq<bv8>, b: seq<bv8>)
    requires head + a <= head + b
    ensures a <= b
  {
    assert (head + a)[|head|..] == a && (head + b)[|head|..] == b;
    assert (head + a)[|head|..] <= (head + b)[|head|..];
  }

  // ------------------------------------------------------------------
  // Registers
  // ------------------------------------------------------------------

  /** The control register: pending interrupts, host activity and free space
      in the hardware transmit FIFO. */
  datatype Control = Control(ri: bool, wi: bool, ac: bool, wspace: nat)

  /** The data register: `avail` bytes remain after this one. */
  datatype Data = Data(valid: bool, avail: nat, byte: bv8)

  /** The space that some reports to send had in all. */
  function Space(reports: seq<Control>): nat {
    if reports == [] then 0
    else
      var last := reports[|reports| - 1];
      Space(reports[..|reports| - 1]) + if last.wi then last.wspace else 0
  }

  /** One of the reports was to receive. */
  predicate Receiving(reports: seq<Control>) {
    exists i :: 0 <= i < |reports| && reports[i].ri
  }

  predicate AllAsk(reports: seq<Control>) {
    forall i :: 0 <= i < |reports| ==> reports[i].ri || reports[i].wi
  }

  lemma SpaceNone(size: nat)
    ensures Least(Space([]), size) == 0 && !Receiving([]) && AllAsk([])
  {
  }

  lemma OneMore(reports: seq<Control>, c: Control, size: nat)
    ensures Least(Space(reports + [c]), size)
            == if c.wi then Least(Least(Space(reports), size) + c.wspace, size) else Least(Space(reports), size)
    ensures Receiving(reports + [c]) <==> Receiving(reports) || c.ri
    ensures AllAsk(reports) && (c.ri || c.wi) ==> AllAsk(reports + [c])
  {
    var more := reports + [c];
    assert more[..|more| - 1] == reports;
    if Receiving(reports) {
      var i :| 0 <= i < |reports| && reports[i].ri;
      assert more[i].ri;
    }
    if c.ri {
      assert more[|reports|].ri;
    }
  }

  /** What a foreground call returns.  `StillWaiting` is a call that has not
      returned after the number of polls given to it. */
  datatype Outcome = Count(n: nat) | WouldBlock | IoError | Closed | StillWaiting

  /** How one turn of the write loop ended. */
  datatype Turn = Again | Finished | Stuck

  /** How often the device had been found dry, and the interrupt enables, at the
      beginning of an interrupt. */
  datatype Marks = Marks(dry: nat, re: bool, we: bool)

  /** What the driver has done so far, and the state only foreground code changes. */
  datatype View = View(
    accepted: seq<bv8>,  // bytes taken over from writers
    sent: seq<bv8>,      // bytes written to the device
    popped: seq<bv8>,    // valid bytes read from the device
    returned: seq<bv8>,  // bytes handed to readers
    idleness: seq<nat>,  // the host's silence after each presence callback
    windows: nat,        // how often interrupts have been let in
    txIn: nat, rxOut: nat, txBuf: seq<bv8>, timeout: nat,
    writeKickDue: bool, readKickDue: bool)

  /** Sent and received bytes, the callbacks so far and the count of chances for
      interrupts are only ever added to. */
  ghost predicate Onwards(a: View, b: View) {
    a.sent <= b.sent && a.popped <= b.popped && a.idleness <= b.idleness && a.windows <= b.windows
  }

  /** Everything interrupts can do to the foreground's picture: send more of
      what was accepted and receive more from the device. */
  ghost predicate Interfered(a: View, b: View) {
    && b == a.(sent := b.sent, popped := b.popped, idleness := b.idleness, windows := b.windows)
    && Onwards(a, b)
  }

  /** What may change while a write is in progress: nothing on the reading side. */
  ghost predicate WriteFrame(a: View, b: View) {
    && b == a.(accepted := b.accepted, sent := b.sent, popped := b.popped, idleness := b.idleness,
               windows := b.windows, txIn := b.txIn, txBuf := b.txBuf, writeKickDue := b.writeKickDue)
    && Onwards(a, b)
  }

  /** What may change while bytes are copied into free slots. */
  ghost predicate CopyFrame(a: View, b: View) {
    && b == a.(sent := b.sent, popped := b.popped, idleness := b.idleness, windows := b.windows, txBuf := b.txBuf)
    && Onwards(a, b)
  }

  /** What may change while a read is in progress: nothing on the writing side. */
  ghost predicate ReadFrame(a: View, b: View) {
    && b == a.(sent := b.sent, popped := b.popped, idleness := b.idleness, windows := b.windows, returned := b.returned,
               rxOut := b.rxOut, readKickDue := b.readKickDue)
    && Onwards(a, b)
  }

  // Frames compose with interrupts before and after.

  lemma InterferedTwice(a: View, b: View, c: View)
    requires Interfered(a, b) && Interfered(b, c)
    ensures Interfered(a, c)
  {
  }

  lemma WriteFrames(a: View, b: View, c: View)
    requires WriteFrame(a, b) && (Interfered(b, c) || CopyFrame(b, c) || WriteFrame(b, c))
    ensures WriteFrame(a, c)
  {
  }

  lemma CopiedIn(a: View, b: View)
    requires CopyFrame(a, b)
    ensures WriteFrame(a, b)
  {
  }

  lemma ReadFrames(a: View, b: View, c: View)
    requires ReadFrame(a, b) && (Interfered(b, c) || ReadFrame(b, c))
    ensures ReadFrame(a, c)
  {
  }

  lemma FramesOf(a: View, b: View)
    requires Interfered(a, b)
    ensures WriteFrame(a, b) && ReadFrame(a, b) && CopyFrame(a, b)
  {
  }

  /** `accepted` bytes minus `seen` bytes fill a ring. */
  ghost predicate WasFull(accepted: seq<bv8>, seen: nat) {
    |accepted| == seen + BUF_LEN - 1
  }

  /** All of the first `seen` bytes from the device have been returned. */
  ghost predicate WasEmpty(returned: seq<bv8>, seen: nat) {
    |returned| == seen
  }

  class Uart {
    var timeout: nat
    var hostInactive: nat
    // the driver's copy of the interrupt enables, and the device's own
    var irqRe: bool
    var irqWe: bool
    var devRe: bool
    var devWe: bool
    var rxIn: nat
    var rxOut: nat
    var txIn: nat
    var txOut: nat
    const rxBuf: array<bv8>
    const txBuf: array<bv8>

    ghost var accepted: seq<bv8>
    ghost var sent: seq<bv8>
    ghost var popped: seq<bv8>
    ghost var returned: seq<bv8>
    // set from the moment a routine moves its index until it has enabled the
    // interrupt that goes with it
    ghost var writeKickDue: bool
    ghost var readKickDue: bool
    // how many presence callbacks in a row have seen no host activity, and
    // what `hostInactive` has been after each callback
    ghost var silence: nat
    ghost var idleness: seq<nat>
    // how often interrupts have been let in; how often the device has been read,
    // and found to have no byte; and what was left at the last reading
    ghost var windows: nat
    ghost var pops: nat
    ghost var dry: nat
    ghost var left: nat

    ghost predicate Shaped()
      reads this
    {
      && rxBuf.Length == BUF_LEN && txBuf.Length == BUF_LEN && rxBuf != txBuf
      && rxIn < BUF_LEN && rxOut < BUF_LEN && txIn < BUF_LEN && txOut < BUF_LEN
      && 2 <= timeout <= INT_MAX && Watched()
    }

    /** The host's silence is counted up to a cap. */
    ghost predicate Watched()
      reads this
    {
      && hostInactive == (if silence < INT_MAX - 2 then silence else INT_MAX - 2)
      && idleness != [] && idleness[|idleness| - 1] == hostInactive
    }

    ghost function Tx(): seq<bv8>
      requires Shaped()
      reads this, txBuf
    {
      Ring(txBuf[..], txOut, txIn)
    }

    ghost function Rx(): seq<bv8>
      requires Shaped()
      reads this, rxBuf
    {
      Ring(rxBuf[..], rxOut, rxIn)
    }

    /** No byte is lost, duplicated or reordered, and none is stuck: waiting
        bytes have the interrupt that will move them. */
    ghost predicate Valid()
      reads this, rxBuf, txBuf
    {
      && Shaped()
      && accepted == sent + Tx()
      && popped == returned + Rx()
      && devRe == irqRe && devWe == irqWe
      && (Tx() != [] && !writeKickDue ==> irqWe)
      && (!irqRe && !readKickDue ==> |Rx()| == BUF_LEN - 1)
    }

    ghost function Now(): View
      reads this, txBuf
    {
      View(accepted, sent, popped, returned, idleness, windows, txIn, rxOut, txBuf[..], timeout,
           writeKickDue, readKickDue)
    }

    /** The host counts as silent once `timeout` callbacks in a row have seen no
        activity; with the two longest timeouts, the silence is never counted so far. */
    predicate Silent()
      reads this
    {
      hostInactive >= timeout
    }

    lemma SilentMeans()
      requires Valid()
      ensures Silent() <==> silence >= timeout && timeout <= INT_MAX - 2
    {
    }

    /** Driver initialisation; `alarmStarted` tells whether the host-presence
        alarm could be started. */
    constructor (alarmStarted: bool)
      ensures Valid() && fresh(rxBuf) && fresh(txBuf)
      ensures accepted == sent == popped == returned == []
      ensures !writeKickDue && !readKickDue && devRe && !devWe
      ensures timeout == if alarmStarted then DEFAULT_TIMEOUT else INT_MAX
    {
      rxBuf := new bv8[BUF_LEN](_ => 0);
      txBuf := new bv8[BUF_LEN](_ => 0);
      rxIn, rxOut, txIn, txOut := 0, 0, 0, 0;
      irqRe, irqWe, devRe, devWe := true, false, true, false;
      hostInactive, silence, idleness := 0, 0, [0];
      windows, pops, dry, left := 0, 0, 0, 0;
      timeout := if alarmStarted then DEFAULT_TIMEOUT else INT_MAX;
      accepted, sent, popped, returned := [], [], [], [];
      writeKickDue, readKickDue := false, false;
    }

    // ----------------------------------------------------------------
    // The device: it answers as it likes, but never claims that bytes
    // remain after an invalid one
    // ----------------------------------------------------------------

    method ReadControl() returns (c: Control)
    {
      c := *;
    }

    method ReadData() returns (d: Data)
      modifies this`popped, this`pops, this`dry, this`left
      ensures !d.valid ==> d.avail == 0
      ensures dry == old(dry) + (if d.valid then 0 else 1) && pops == old(pops) + 1 && left == d.avail
      ensures popped == old(popped) + (if d.valid then [d.byte] else [])
    {
      d := *;
      pops := pops + 1;
      if d.valid {
        popped := popped + [d.byte];
      } else {
        d := Data(false, 0, d.byte);
        dry := dry + 1;
      }
      left := d.avail;
    }

    method WriteData(b: bv8)
      modifies this`sent
      ensures sent == old(sent) + [b]
    {
      sent := sent + [b];
    }

    method WriteControl(re: bool, we: bool)
      modifies this`devRe, this`devWe
      ensures devRe == re && devWe == we
    {
      devRe, devWe := re, we;
    }

    // ----------------------------------------------------------------
    // Interrupts
    // ----------------------------------------------------------------

    /** Pop one byte from the device into the free slot at the write index. */
    method Receive() returns (d: Data)
      requires Valid() && (rxIn + 1) % BUF_LEN != rxOut
      modifies this`popped, this`pops, this`dry, this`left, this`rxIn, rxBuf
      ensures Valid() && Interfered(old(Now()), Now())
      ensures d.valid ==> |Rx()| == |old(Rx())| + 1
      ensures dry == old(dry) + (if d.valid then 0 else 1) && pops == old(pops) + 1 && left == d.avail
      ensures !d.valid ==> d.avail == 0
    {
      RingSize(rxBuf[..], rxOut, rxIn);
      hide Ring, Watched;
      d := ReadData();
      if d.valid {
        StoreReceived(d.byte);
        assert returned + (old(Rx()) + [d.byte]) == (returned + old(Rx())) + [d.byte];
      }
    }

    method StoreReceived(b: bv8)
      requires Shaped() && (rxIn + 1) % BUF_LEN != rxOut
      modifies this`rxIn, rxBuf
      ensures Shaped() && Rx() == old(Rx()) + [b]
    {
      ghost var before := rxBuf[..];
      RingSize(before, rxOut, rxIn);
      RingStore(before, rxOut, rxIn, rxIn, b);
      RingPublish(before[rxIn := b], rxOut, rxIn, 1);
      hide Ring;
      rxBuf[rxIn] := b;
      assert rxBuf[..] == before[rxIn := b];
      rxIn := (rxIn + 1) % BUF_LEN;
    }

    /** The receive half of the interrupt routine: pop until the device is
        drained or the ring is full.  Receive interrupts are stopped exactly if
        the ring was full from the start, or the device had more to come at the
        last reading: then the ring is full. */
    method ServeReceive() returns (ghost drained: bool)
      requires Valid()
      modifies this`popped, this`pops, this`dry, this`left, this`rxIn, this`irqRe, this`devRe, this`devWe, rxBuf
      ensures Valid() && Interfered(old(Now()), Now())
      ensures drained || |Rx()| == BUF_LEN - 1
      ensures dry >= old(dry) && (drained ==> dry > old(dry))
      ensures irqRe == (old(irqRe) && pops > old(pops) && left == 0)
    {
      hide Valid, Ring, Now, Interfered;
      ghost var v := Now();
      NoInterference();
      var avail := 1;
      drained := false;
      while true
        invariant Valid() && Interfered(v, Now())
        invariant !drained && irqRe == old(irqRe) && dry == old(dry) && pops >= old(pops)
        invariant avail == if pops > old(pops) then left else 1
        decreases BUF_LEN - RxSize()
      {
        RxFull();
        var next := (rxIn + 1) % BUF_LEN;
        if next == rxOut {
          break;
        }
        ghost var w := Now();
        var d := Receive();
        InterferedTwice(v, w, Now());
        avail := d.avail;
        if !d.valid {
          drained := true;
          break;
        }
      }
      if avail > 0 {
        MaskReceive(v);
      }
    }

    ghost function RxSize(): (n: nat)
      requires Valid()
      reads this, rxBuf, txBuf
      ensures n == |Rx()| <= BUF_LEN - 1
    {
      RingSize(rxBuf[..], rxOut, rxIn);
      |Rx()|
    }

    lemma RxFull()
      requires Valid()
      ensures |Rx()| == BUF_LEN - 1 <==> (rxIn + 1) % BUF_LEN == rxOut
    {
      RingSize(rxBuf[..], rxOut, rxIn);
    }

    /** Stop receive interrupts: the ring is full. */
    method MaskReceive(ghost v: View)
      requires Valid() && Interfered(v, Now()) && |Rx()| == BUF_LEN - 1
      modifies this`irqRe, this`devRe, this`devWe
      ensures Valid() && Interfered(v, Now()) && |Rx()| == BUF_LEN - 1 && !irqRe
    {
      hide Ring;
      irqRe := false;
      WriteControl(irqRe, irqWe);
      var _ := ReadControl();
    }

    /** Write the oldest byte of the transmit ring to the device. */
    method SendOne(ghost first: seq<bv8>, ghost rest: seq<bv8>)
      requires Valid() && |first| == 1 && Tx() == first + rest
      modifies this`sent, this`txOut
      ensures Valid() && Interfered(old(Now()), Now())
      ensures sent == old(sent) + first && Tx() == rest
    {
      ghost var buf := txBuf[..];
      RingConsume(buf, txOut, txIn, first, rest);
      OneByte(buf, txOut);
      Regroup(sent, first, rest);
      hide Ring, Watched;
      WriteData(txBuf[txOut]);
      txOut := (txOut + 1) % BUF_LEN;
      assert txBuf[..] == buf;
    }

    /** The transmit half: send the oldest bytes while the device has space;
        space left over means the ring is empty, so stop transmit interrupts. */
    method ServeTransmit(wspace: nat)
      requires Valid()
      modifies this`sent, this`txOut, this`irqWe, this`devRe, this`devWe
      ensures Valid() && Interfered(old(Now()), Now())
      ensures var n := if wspace < |old(Tx())| then wspace else |old(Tx())|;
              && sent == old(sent) + old(Tx())[..n] && Tx() == old(Tx())[n..]
              && irqWe == (old(irqWe) && wspace == n)
    {
      ghost var tx, k, v := Tx(), 0, Now();
      hide Ring, Valid, Sending;
      SendingStarts();
      var space := wspace;
      while space > 0 && txOut != txIn
        invariant Sending(v, tx, k)
        invariant k <= |tx| && space == wspace - k && irqWe == old(irqWe)
        decreases space
      {
        SendNext(v, tx, k);
        space := space - 1;
        k := k + 1;
      }
      SendingMeans(v, tx, k);
      if space > 0 {
        MaskTransmit(v);
      }
    }

    /** Since `v`, with `tx` waiting, the first `k` bytes have been sent. */
    ghost predicate Sending(v: View, tx: seq<bv8>, k: nat)
      reads this, rxBuf, txBuf
    {
      && Valid() && Interfered(v, Now())
      && k <= |tx| && sent == v.sent + tx[..k] && Tx() == tx[k..]
    }

    lemma SendingStarts()
      requires Valid()
      ensures Sending(Now(), Tx(), 0)
    {
    }

    lemma SendingMeans(v: View, tx: seq<bv8>, k: nat)
      requires Sending(v, tx, k)
      ensures Valid() && Interfered(v, Now()) && sent == v.sent + tx[..k] && Tx() == tx[k..]
      ensures txOut == txIn <==> k == |tx|
    {
      TxEmpty();
    }

    /** Send one byte more. */
    method SendNext(ghost v: View, ghost tx: seq<bv8>, ghost k: nat)
      requires Sending(v, tx, k) && txOut != txIn
      modifies this`sent, this`txOut
      ensures k < |tx| && Sending(v, tx, k + 1)
    {
      SendingMeans(v, tx, k);
      NextByte(tx, k);
      hide Ring, Watched, Valid, Interfered, Sending, Now;
      ghost var w := Now();
      SendOne(tx[k..k + 1], tx[k + 1..]);
      InterferedTwice(v, w, Now());
      Regroup(v.sent, tx[..k], tx[k..k + 1]);
      SendingIs(v, tx, k + 1);
    }

    /** Stop transmit interrupts: there is nothing left to send. */
    method MaskTransmit(ghost v: View)
      requires Valid() && Interfered(v, Now()) && Tx() == []
      modifies this`irqWe, this`devRe, this`devWe
      ensures Valid() && Interfered(v, Now()) && !irqWe
    {
      hide Ring;
      irqWe := false;
      WriteControl(irqRe, irqWe);
      var _ := ReadControl();
    }

    /** The interrupt routine.  It runs until the device reports nothing
        pending, which may be after any number of rounds; `served` are the
        reports of those rounds.  As many of the oldest bytes are sent as the
        rounds had space for; and if any round was to receive, the device has
        been emptied, or the ring filled. */
    method Isr() returns (ghost served: seq<Control>)
      requires Valid()
      modifies this`sent, this`txOut, this`irqWe, this`popped, this`pops, this`dry, this`left, this`rxIn, this`irqRe,
               this`devRe, this`devWe, rxBuf
      ensures Valid() && Interfered(old(Now()), Now())
      ensures AllAsk(served)
      ensures var n := Least(Space(served), |old(Tx())|);
              sent == old(sent) + old(Tx())[..n] && Tx() == old(Tx())[n..]
      ensures Receiving(served) ==> dry > old(dry) || |Rx()| == BUF_LEN - 1
      ensures (irqWe ==> old(irqWe)) && (irqRe ==> old(irqRe))
    {
      ghost var tx, v, from := Tx(), Now(), Marks(dry, irqRe, irqWe);
      ServingStarts();
      hide *;
      served := Rounds(v, tx, from);
      ServingMeans(v, tx, from, served);
    }

    /** The loop of the interrupt routine. */
    method Rounds(ghost v: View, ghost tx: seq<bv8>, ghost from: Marks) returns (ghost served: seq<Control>)
      requires Serving(v, tx, from, [])
      modifies this`sent, this`txOut, this`irqWe, this`popped, this`pops, this`dry, this`left, this`rxIn, this`irqRe,
               this`devRe, this`devWe, rxBuf
      ensures Serving(v, tx, from, served)
    {
      hide *;
      served := [];
      var rounds: nat := *;
      while rounds > 0
        invariant Serving(v, tx, from, served)
      {
        var control := ReadControl();
        if !control.ri && !control.wi {
          break;
        }
        Round(v, tx, from, served, control);
        served := served + [control];
        rounds := rounds - 1;
      }
    }

    /** Since `v`, with `tx` waiting, the rounds in `served` have been served. */
    ghost predicate Serving(v: View, tx: seq<bv8>, from: Marks, served: seq<Control>)
      reads this, rxBuf, txBuf
    {
      && Sending(v, tx, Least(Space(served), |tx|)) && AllAsk(served)
      && Enabled(from) && (Receiving(served) ==> Emptied(from))
    }

    /** No interrupt has been turned on. */
    ghost predicate Enabled(from: Marks)
      reads this
    {
      dry >= from.dry && (irqWe ==> from.we) && (irqRe ==> from.re)
    }

    /** The device has been found empty, or the receive ring is full. */
    ghost predicate Emptied(from: Marks)
      reads this
    {
      dry > from.dry || (rxIn + 1) % BUF_LEN == rxOut
    }

    lemma ServingStarts()
      requires Valid()
      ensures Serving(Now(), Tx(), Marks(dry, irqRe, irqWe), [])
    {
      SpaceNone(|Tx()|);
    }

    lemma ServingMeans(v: View, tx: seq<bv8>, from: Marks, served: seq<Control>)
      requires Serving(v, tx, from, served)
      ensures Valid() && Interfered(v, Now()) && AllAsk(served)
      ensures var n := Least(Space(served), |tx|); sent == v.sent + tx[..n] && Tx() == tx[n..]
      ensures Receiving(served) ==> dry > from.dry || |Rx()| == BUF_LEN - 1
      ensures (irqWe ==> from.we) && (irqRe ==> from.re)
    {
      SendingMeans(v, tx, Least(Space(served), |tx|));
      RxFull();
      hide Sending, Valid;
    }

    /** One round of the interrupt routine. */
    method Round(ghost v: View, ghost tx: seq<bv8>, ghost from: Marks, ghost served: seq<Control>, control: Control)
      requires Serving(v, tx, from, served) && (control.ri || control.wi)
      modifies this`sent, this`txOut, this`irqWe, this`popped, this`pops, this`dry, this`left, this`rxIn, this`irqRe,
               this`devRe, this`devWe, rxBuf
      ensures Serving(v, tx, from, served + [control])
    {
      hide *;
      ServingParts(v, tx, from, served);
      OneMore(served, control, |tx|);
      ghost var k := Least(Space(served), |tx|);
      if control.ri {
        RoundReceive(v, tx, k, from);
      }
      if control.wi {
        RoundTransmit(v, tx, k, control.wspace, from);
      }
      ServingWhole(v, tx, from, served + [control]);
    }

    lemma ServingParts(v: View, tx: seq<bv8>, from: Marks, served: seq<Control>)
      requires Serving(v, tx, from, served)
      ensures Sending(v, tx, Least(Space(served), |tx|)) && AllAsk(served) && Enabled(from)
      ensures Receiving(served) ==> Emptied(from)
    {
    }

    lemma ServingWhole(v: View, tx: seq<bv8>, from: Marks, served: seq<Control>)
      requires Sending(v, tx, Least(Space(served), |tx|)) && AllAsk(served) && Enabled(from)
      requires Receiving(served) ==> Emptied(from)
      ensures Serving(v, tx, from, served)
    {
    }

    method RoundReceive(ghost v: View, ghost tx: seq<bv8>, ghost k: nat, ghost from: Marks)
      requires Sending(v, tx, k) && Enabled(from)
      modifies this`popped, this`pops, this`dry, this`left, this`rxIn, this`irqRe, this`devRe, this`devWe, rxBuf
      ensures Sending(v, tx, k) && Enabled(from) && Emptied(from)
    {
      SendingMeans(v, tx, k);
      hide Ring, Watched;
      ghost var w := Now();
      ghost var drained := ServeReceive();
      InterferedTwice(v, w, Now());
      RxFull();
    }

    method RoundTransmit(ghost v: View, ghost tx: seq<bv8>, ghost k: nat, wspace: nat, ghost from: Marks)
      requires Sending(v, tx, k) && Enabled(from)
      modifies this`sent, this`txOut, this`irqWe, this`devRe, this`devWe
      ensures Sending(v, tx, Least(k + wspace, |tx|)) && Enabled(from)
      ensures old(Emptied(from)) ==> Emptied(from)
    {
      hide Sending, Valid, Now, Interfered, Least;
      SendRound(v, tx, k, wspace);
    }

    method SendRound(ghost v: View, ghost tx: seq<bv8>, ghost k: nat, wspace: nat)
      requires Sending(v, tx, k)
      modifies this`sent, this`txOut, this`irqWe, this`devRe, this`devWe
      ensures Sending(v, tx, Least(k + wspace, |tx|))
      ensures irqWe ==> old(irqWe)
    {
      SendingMeans(v, tx, k);
      ghost var m := Least(wspace, |tx| - k);
      SentOn(tx, k, m);
      Regroup(v.sent, tx[..k], tx[k..][..m]);
      ghost var n := k + m;
      assert n == Least(k + wspace, |tx|);
      hide Ring, Watched, Valid, Interfered, Sending, Now, Least;
      ghost var w := Now();
      ServeTransmit(wspace);
      InterferedTwice(v, w, Now());
      assert sent == v.sent + tx[..n];
      SendingIs(v, tx, n);
    }

    lemma SendingIs(v: View, tx: seq<bv8>, k: nat)
      requires Valid() && Interfered(v, Now()) && k <= |tx| && sent == v.sent + tx[..k] && Tx() == tx[k..]
      ensures Sending(v, tx, k)
    {
    }

    /** The periodic host-presence callback; `active` is what the device reports. */
    method Timeout() returns (active: bool)
      requires Valid()
      modifies this`hostInactive, this`devRe, this`devWe, this`silence, this`idleness
      ensures Valid() && Interfered(old(Now()), Now())
      ensures silence == (if active then 0 else old(silence) + 1)
      ensures idleness == old(idleness) + [hostInactive]
    {
      hide Valid, Ring, Now, Interfered;
      var control := ReadControl();
      active := control.ac;
      if control.ac {
        HostSeen();
      } else {
        HostMissed();
      }
    }

    /** The device reports activity: acknowledge it. */
    method HostSeen()
      requires Valid()
      modifies this`hostInactive, this`devRe, this`devWe, this`silence, this`idleness
      ensures Valid() && Interfered(old(Now()), Now())
      ensures silence == hostInactive == 0 && idleness == old(idleness) + [hostInactive]
    {
      hide Ring;
      WriteControl(irqRe, irqWe);
      hostInactive := 0;
      silence := 0;
      idleness := idleness + [hostInactive];
    }

    /** The device reports none. */
    method HostMissed()
      requires Valid()
      modifies this`hostInactive, this`silence, this`idleness
      ensures Valid() && Interfered(old(Now()), Now())
      ensures silence == old(silence) + 1 && idleness == old(idleness) + [hostInactive]
    {
      hide Ring;
      if hostInactive < INT_MAX - 2 {
        hostInactive := hostInactive + 1;
      }
      silence := silence + 1;
      idleness := idleness + [hostInactive];
    }

    /** Any number of interrupts, of either kind, in any order. */
    method Preempt()
      requires Valid()
      modifies this`sent, this`txOut, this`irqWe, this`popped, this`rxIn, this`irqRe, this`devRe, this`devWe,
               this`hostInactive, this`silence, this`idleness, this`windows, this`pops, this`dry, this`left, rxBuf
      ensures Valid() && Interfered(old(Now()), Now()) && windows == old(windows) + 1
      ensures old(Rx()) <= Rx() && |Tx()| <= |old(Tx())|
    {
      Interrupts();
      hide Ring;
      TailGrows(returned, old(Rx()), Rx());
    }

    method Interrupts()
      requires Valid()
      modifies this`sent, this`txOut, this`irqWe, this`popped, this`rxIn, this`irqRe, this`devRe, this`devWe,
               this`hostInactive, this`silence, this`idleness, this`windows, this`pops, this`dry, this`left, rxBuf
      ensures Valid() && Interfered(old(Now()), Now()) && windows == old(windows) + 1
    {
      hide Valid, Ring, Now, Interfered;
      ghost var v := Now();
      NoInterference();
      var events: nat := *;
      while events > 0
        invariant Valid() && Interfered(v, Now()) && windows == old(windows)
      {
        ghost var w := Now();
        if * {
          ghost var served := Isr();
        } else {
          var _ := Timeout();
        }
        InterferedTwice(v, w, Now());
        events := events - 1;
      }
      LetIn(v);
    }

    /** Interrupts have been let in. */
    ghost method LetIn(v: View)
      requires Valid() && Interfered(v, Now())
      modifies this`windows
      ensures Valid() && Interfered(v, Now()) && windows == old(windows) + 1
    {
      hide Ring;
      windows := windows + 1;
    }

    // ----------------------------------------------------------------
    // Writing
    // ----------------------------------------------------------------

    /** memcpy into the free part of the transmit ring, one byte at a time. */
    method CopyIn(data: seq<bv8>, at: nat, n: nat)
      requires Valid()
      requires at + n <= |data| && txIn + n <= BUF_LEN && |Tx()| + n <= BUF_LEN - 1
      modifies this, rxBuf, txBuf
      ensures Valid() && CopyFrame(old(Now()), Now()) && |Tx()| <= |old(Tx())|
      ensures txBuf[txIn..txIn + n] == data[at..at + n]
      ensures windows == old(windows) + n
    {
      hide Ring;
      var k := 0;
      while k < n
        invariant 0 <= k <= n
        invariant Valid() && CopyFrame(old(Now()), Now()) && |Tx()| <= |old(Tx())|
        invariant txBuf[txIn..txIn + k] == data[at..at + k]
        invariant windows == old(windows) + k
      {
        CopyByte(data[at + k], k);
        Splice(data, at, at + k, at + (k + 1));
        assert data[at + k..at + (k + 1)] == [data[at + k]];
        k := k + 1;
      }
    }

    /** One byte into the slot behind the `k` slots filled so far. */
    method CopyByte(b: bv8, k: nat)
      requires Valid() && txIn + k < BUF_LEN && |Tx()| + k < BUF_LEN - 1
      modifies this, rxBuf, txBuf
      ensures Valid() && CopyFrame(old(Now()), Now()) && |Tx()| <= |old(Tx())|
      ensures txBuf[txIn..txIn + (k + 1)] == old(txBuf[txIn..txIn + k]) + [b]
      ensures windows == old(windows) + 1
    {
      hide Ring;
      Preempt();
      StoreOut(txIn + k, b);
      assert txBuf[txIn..txIn + (k + 1)] == txBuf[txIn..txIn + k] + [txBuf[txIn + k]];
    }

    /** Store into a free slot: the interrupt routine does not look at it. */
    method StoreOut(slot: nat, b: bv8)
      requires Valid()
      requires txIn <= slot < BUF_LEN && |Tx()| + (slot - txIn) < BUF_LEN - 1
      modifies txBuf
      ensures Valid() && Now() == old(Now()).(txBuf := txBuf[..])
      ensures txBuf[..] == old(txBuf[..])[slot := b]
    {
      ghost var before := txBuf[..];
      RingSize(before, txOut, txIn);
      RingStore(before, txOut, txIn, slot, b);
      hide Ring;
      txBuf[slot] := b;
      assert txBuf[..] == before[slot := b];
    }

    /** One turn of the copying loop: sample the indices, copy what fits in one
        piece, publish it.  `seen` is the number of bytes that had been sent when
        the read index was sampled. */
    method FillOnce(data: seq<bv8>, at: nat) returns (n: nat, outAt: nat, ghost seen: nat)
      requires Valid() && at < |data|
      modifies this, rxBuf, txBuf
      ensures Valid() && WriteFrame(old(Now()), Now())
      ensures at + n <= |data| && accepted == old(accepted) + data[at..at + n]
      ensures |old(sent)| <= seen <= |sent|
      ensures windows <= old(windows) + if n == 0 then 2 else 4 * n
      ensures n == 0 ==> WasFull(accepted, seen) && outAt == (txIn + 1) % BUF_LEN
    {
      hide Valid, Ring, WriteRoom;
      ghost var v := Now();
      n, outAt, seen := SampleRoom();
      FramesOf(v, Now());
      if n == 0 {
        return;
      }
      if n > |data| - at {
        n := |data| - at;
      }
      ghost var w := Now();
      PutIn(data, at, n);
      WriteFrames(v, w, Now());
    }

    /** How many bytes can be copied in one piece. */
    method SampleRoom() returns (n: nat, outAt: nat, ghost seen: nat)
      requires Valid()
      modifies this, rxBuf
      ensures Valid() && Interfered(old(Now()), Now())
      ensures txIn + n <= BUF_LEN && |Tx()| + n <= BUF_LEN - 1
      ensures |old(sent)| <= seen <= |sent|
      ensures windows == old(windows) + 2
      ensures n == 0 ==> WasFull(accepted, seen) && outAt == (txIn + 1) % BUF_LEN
    {
      hide Ring, WriteRoom;
      ghost var v := Now();
      Preempt();
      var inAt := txIn;
      Interrupted(v);
      outAt := txOut;
      seen := |sent|;
      WriteRoomIsFree(txBuf[..], txOut, txIn);
      RingSize(txBuf[..], txOut, txIn);
      n := WriteRoom(inAt, outAt);
    }

    /** Copy `n` bytes into free slots and hand them over. */
    method PutIn(data: seq<bv8>, at: nat, n: nat)
      requires Valid()
      requires at + n <= |data| && txIn + n <= BUF_LEN && |Tx()| + n <= BUF_LEN - 1
      modifies this, rxBuf, txBuf
      ensures Valid() && WriteFrame(old(Now()), Now())
      ensures accepted == old(accepted) + data[at..at + n]
      ensures windows == old(windows) + n + 1
    {
      hide Valid, Ring;
      ghost var v := Now();
      CopyIn(data, at, n);
      CopiedIn(v, Now());
      InterruptedWrite(v);
      ghost var w := Now();
      Publish(n);
      WriteFrames(v, w, Now());
    }

    /** Hand the next `n` slots of the transmit ring over to the interrupt routine. */
    method Publish(n: nat)
      requires Valid() && txIn + n <= BUF_LEN && |Tx()| + n <= BUF_LEN - 1
      modifies this`txIn, this`accepted, this`writeKickDue
      ensures Valid() && WriteFrame(old(Now()), Now())
      ensures accepted == old(accepted) + txBuf[old(txIn)..old(txIn) + n]
    {
      ghost var buf, tx, more := txBuf[..], Tx(), txBuf[txIn..txIn + n];
      RingPublish(buf, txOut, txIn, n);
      Regroup(sent, tx, more);
      hide Ring, Watched;
      accepted := accepted + more;
      txIn := (txIn + n) % BUF_LEN;
      writeKickDue := true;
      assert txBuf[..] == buf;
      assert Tx() == tx + more;
    }

    /** Copy as much of `data[at..]` as fits. */
    method Fill(data: seq<bv8>, at: nat) returns (ptr: nat, outAt: nat, ghost seen: nat)
      requires Valid() && at <= |data|
      modifies this, rxBuf, txBuf
      ensures Valid() && WriteFrame(old(Now()), Now())
      ensures at <= ptr <= |data| && accepted == old(accepted) + data[at..ptr]
      ensures windows <= old(windows) + 4 * (ptr - at) + 2
      ensures ptr < |data| ==> |old(sent)| <= seen <= |sent| && WasFull(accepted, seen) && outAt == (txIn + 1) % BUF_LEN
    {
      hide Ring, Valid, WasFull, Now, WriteFrame;
      ghost var v := Now();
      Beginning();
      ptr, outAt, seen := at, 0, |sent|;
      while ptr < |data|
        invariant Valid() && WriteFrame(v, Now()) && v.sent == old(sent)
        invariant at <= ptr <= |data| && accepted == old(accepted) + data[at..ptr]
        invariant windows <= old(windows) + 4 * (ptr - at)
        decreases |data| - ptr
      {
        var n;
        ghost var w := Now();
        Since(v);
        n, outAt, seen := FillOnce(data, ptr);
        WriteFrames(v, w, Now());
        assert data[at..ptr + n] == data[at..ptr] + data[ptr..ptr + n];
        ptr := ptr + n;
        if n == 0 {
          break;
        }
      }
    }

    /** Turn transmit interrupts on, with interrupts disabled meanwhile. */
    method KickTransmit()
      requires Valid()
      modifies this`irqWe, this`devRe, this`devWe, this`writeKickDue
      ensures Valid() && !writeKickDue && irqWe && WriteFrame(old(Now()), Now())
    {
      irqWe := true;
      WriteControl(irqRe, irqWe);
      writeKickDue := false;
    }

    /** Spin until the interrupt routine has sent something or the host has been
        silent too long.  If a presence callback sees no activity between any
        two polls (`quiet`), the spin takes at most `timeout` polls. */
    method AwaitRoom(outAt: nat, patience: nat) returns (polls: nat, done: bool, ghost quiet: bool)
      requires Valid()
      modifies this, rxBuf
      ensures Valid() && Interfered(old(Now()), Now())
      ensures polls <= patience
      ensures done ==> outAt != txOut || Silent()
      ensures !done ==> !Silent() && polls == 0
      ensures windows >= old(windows) + (patience - polls)
      ensures quiet && timeout <= INT_MAX - 2 ==> patience - polls <= timeout
    {
      hide Valid, Now, Interfered;
      ghost var v := Now();
      NoInterference();
      polls, done, quiet := patience, false, true;
      ghost var last := silence;
      while true
        invariant Valid() && Interfered(v, Now()) && polls <= patience && !done
        invariant windows >= old(windows) + (patience - polls)
        invariant quiet ==> silence >= patience - polls
        invariant quiet && timeout <= INT_MAX - 2 ==> patience - polls <= timeout
        decreases polls
      {
        ghost var was := silence;
        Interrupted(v);
        if outAt != txOut {
          return polls, true, quiet;
        }
        Interrupted(v);
        quiet := quiet && silence > was;
        SilentMeans();
        if Silent() {
          return polls, true, quiet;
        }
        if polls == 0 {
          return 0, false, quiet;
        }
        polls := polls - 1;
      }
    }

    /** Interrupts, seen from an earlier moment. */
    method Interrupted(ghost v: View)
      requires Valid() && Interfered(v, Now())
      modifies this`sent, this`txOut, this`irqWe, this`popped, this`rxIn, this`irqRe, this`devRe, this`devWe,
               this`hostInactive, this`silence, this`idleness, this`windows, this`pops, this`dry, this`left, rxBuf
      ensures Valid() && Interfered(v, Now()) && windows == old(windows) + 1
      ensures old(sent) <= sent && old(idleness) <= idleness
      ensures old(Rx()) <= Rx() && |Tx()| <= |old(Tx())|
    {
      ghost var w := Now();
      Preempt();
      InterferedTwice(v, w, Now());
    }

    lemma Beginning()
      ensures Now().sent == sent && Now().idleness == idleness && WriteFrame(Now(), Now())
    {
    }

    lemma Since(v: View)
      requires WriteFrame(v, Now())
      ensures |v.sent| <= |sent| && |v.idleness| <= |idleness|
    {
    }

    lemma NoInterference()
      ensures Interfered(Now(), Now())
    {
    }

    /** The same, seen from the beginning of a write. */
    method InterruptedWrite(ghost v: View)
      requires Valid() && WriteFrame(v, Now())
      modifies this`sent, this`txOut, this`irqWe, this`popped, this`rxIn, this`irqRe, this`devRe, this`devWe,
               this`hostInactive, this`silence, this`idleness, this`windows, this`pops, this`dry, this`left, rxBuf
      ensures Valid() && WriteFrame(v, Now()) && Interfered(old(Now()), Now()) && |Tx()| <= |old(Tx())|
      ensures windows == old(windows) + 1
    {
      ghost var w := Now();
      Preempt();
      WriteFrames(v, w, Now());
    }

    /** The first half of a turn of the write routine: fill the ring, and turn
        interrupts on. */
    method FillAndKick(data: seq<bv8>, at: nat) returns (ptr: nat, outAt: nat, ghost seen: nat)
      requires Valid() && at <= |data|
      modifies this, rxBuf, txBuf
      ensures Valid() && !writeKickDue && WriteFrame(old(Now()), Now())
      ensures at <= ptr <= |data| && accepted == old(accepted) + data[at..ptr]
      ensures windows <= old(windows) + 4 * (ptr - at) + 3
      ensures ptr < |data| ==> |old(sent)| <= seen <= |sent| && WasFull(accepted, seen) && outAt == (txIn + 1) % BUF_LEN
    {
      hide Valid, WasFull, Ring, WriteFrame;
      ghost var v := Now();
      ptr, outAt, seen := Fill(data, at);
      InterruptedWrite(v);
      ghost var w := Now();
      KickTransmit();
      WriteFrames(v, w, Now());
    }

    /** The second half: bytes are left over, and the ring was full when `seen`
        bytes had been sent.  Wait, and give up only with more sent, or the host
        silent past the timeout meanwhile. */
    method WaitForRoom(outAt: nat, patience: nat, ghost seen: nat) returns (polls: nat, turn: Turn)
      requires Valid() && !writeKickDue
      requires seen <= |sent| && WasFull(accepted, seen) && outAt == (txIn + 1) % BUF_LEN
      modifies this, rxBuf
      ensures Valid() && !writeKickDue && Interfered(old(Now()), Now())
      ensures polls <= patience && windows >= old(windows) + (patience - polls)
      ensures turn.Again? ==> polls < patience
      ensures turn.Finished? ==> hostInactive > 0
      ensures turn.Finished? ==> |sent| > seen || WasSilent(|old(idleness)| - 1)
      ensures turn.Stuck? ==> !Silent() && polls == 0
    {
      hide Valid, Ring, WasFull;
      var done;
      ghost var quiet;
      ghost var v := Now();
      polls, done, quiet := AwaitRoom(outAt, patience);
      if !done {
        return polls, Stuck;
      }
      RoomMoved(outAt, seen);
      SilentNow();
      ghost var last := |idleness| - 1;
      Interrupted(v);
      TimeoutIsPositive();
      if hostInactive > 0 {
        assert |sent| > seen || idleness[last] >= timeout;
        return polls, Finished;
      }
      if polls == 0 {
        return polls, Stuck;
      }
      polls := polls - 1;
      turn := Again;
    }

    /** The read index has left its place only if a byte was sent. */
    lemma RoomMoved(outAt: nat, seen: nat)
      requires Valid() && WasFull(accepted, seen) && outAt == (txIn + 1) % BUF_LEN
      ensures outAt != txOut && seen <= |sent| ==> |sent| > seen
    {
      RingSize(txBuf[..], txOut, txIn);
    }

    lemma TimeoutIsPositive()
      requires Valid()
      ensures hostInactive == 0 ==> !Silent()
    {
    }

    /** Bytes were left over because the ring was full when `seen` bytes had been
        sent; and a call that blocks then waited until more had been sent, or the
        host had been silent past the timeout since callback number `since`. */
    ghost predicate CutShort(nonblock: bool, since: int, before: nat)
      reads this
    {
      exists seen :: before <= seen <= |sent| && WasFull(accepted, seen)
                     && (nonblock || |sent| > seen || WasSilent(since))
    }

    lemma IsCutShort(nonblock: bool, since: int, before: nat, seen: nat)
      requires before <= seen <= |sent| && WasFull(accepted, seen)
      requires nonblock || |sent| > seen || WasSilent(since)
      ensures CutShort(nonblock, since, before)
    {
    }

    lemma CutShortEarlier(nonblock: bool, since: int, before: nat, since': int, before': nat)
      requires CutShort(nonblock, since, before) && since' <= since && before' <= before
      ensures CutShort(nonblock, since', before')
    {
      WasSilentEarlier(since', since);
    }

    /** One turn of the write routine: fill the ring, turn interrupts on, and if
        bytes are left over either give up or wait. */
    method WriteTurn(data: seq<bv8>, at: nat, nonblock: bool, patience: nat) returns (ptr: nat, polls: nat, turn: Turn)
      requires Valid() && at <= |data|
      modifies this, rxBuf, txBuf
      ensures Valid() && !writeKickDue && WriteFrame(old(Now()), Now())
      ensures at <= ptr <= |data| && accepted == old(accepted) + data[at..ptr]
      ensures nonblock ==> windows <= old(windows) + 4 * (ptr - at) + 3
      ensures polls <= patience && windows >= old(windows) + (patience - polls)
      ensures turn.Again? ==> ptr < |data| && !nonblock && polls < patience
      ensures turn.Stuck? ==> !nonblock && !Silent() && polls == 0
      ensures turn.Finished? && ptr < |data| ==> CutShort(nonblock, |old(idleness)| - 1, |old(sent)|)
      ensures turn.Finished? && ptr < |data| && !nonblock ==> hostInactive > 0
    {
      hide Valid, Ring, WasFull, Silent, WasSilent, CutShort;
      var outAt;
      ghost var v := Now();
      ghost var seen;
      ptr, outAt, seen := FillAndKick(data, at);
      if ptr >= |data| {
        return ptr, patience, Finished;
      }
      ghost var w := Now();
      if nonblock {
        IsCutShort(nonblock, |v.idleness| - 1, |v.sent|, seen);
        return ptr, patience, Finished;
      }
      polls, turn := WaitForRoom(outAt, patience, seen);
      WriteFrames(v, w, Now());
      if turn.Finished? {
        WasSilentEarlier(|v.idleness| - 1, |w.idleness| - 1);
        IsCutShort(nonblock, |v.idleness| - 1, |v.sent|, seen);
      }
    }

    /** The write routine.  The bytes it accepts are the first bytes of `data`;
        it comes back short only from a full ring, and if it blocks, only after
        waiting; and it is still waiting only after `patience` chances for
        interrupts, with the host not silent for `timeout` callbacks in a row.
        If it does not block it lets interrupts in four times for each byte and
        three times more, at most. */
    method Write(data: seq<bv8>, nonblock: bool, patience: nat) returns (r: Outcome)
      requires Valid()
      modifies this, rxBuf, txBuf
      ensures Valid() && !writeKickDue && WriteFrame(old(Now()), Now())
      ensures |old(accepted)| <= |accepted| <= |old(accepted)| + |data|
      ensures accepted == old(accepted) + data[..|accepted| - |old(accepted)|]
      ensures r.Count? ==> r.n == |accepted| - |old(accepted)| > 0
      ensures r.WouldBlock? || r.IoError? ==> accepted == old(accepted)
      ensures nonblock ==> windows <= old(windows) + 4 * (|accepted| - |old(accepted)|) + 3
      ensures !r.Closed? && (r.WouldBlock? ==> nonblock) && (r.IoError? || r.StillWaiting? ==> !nonblock)
      ensures r.StillWaiting? ==> windows >= old(windows) + patience && (silence < timeout || timeout > INT_MAX - 2)
      ensures !r.StillWaiting? && |accepted| < |old(accepted)| + |data| ==>
                exists seen :: |old(sent)| <= seen <= |sent| && WasFull(accepted, seen)
                               && (nonblock || |sent| > seen || WasSilent(|old(idleness)| - 1))
      ensures !nonblock && !r.StillWaiting? && |accepted| < |old(accepted)| + |data| ==> hostInactive > 0
    {
      hide Valid, WasFull, Ring, Silent, WasSilent;
      ghost var v := Now();
      var ptr, turn := WriteLoop(data, nonblock, patience);
      SilentMeans();
      if turn.Stuck? {
        return StillWaiting;
      }
      if ptr > 0 {
        r := Count(ptr);
      } else if nonblock {
        r := WouldBlock;
      } else {
        r := IoError;
      }
    }

    /** The loop of the write routine. */
    method WriteLoop(data: seq<bv8>, nonblock: bool, patience: nat) returns (ptr: nat, turn: Turn)
      requires Valid()
      modifies this, rxBuf, txBuf
      ensures Valid() && !writeKickDue && WriteFrame(old(Now()), Now()) && !turn.Again?
      ensures ptr <= |data| && accepted == old(accepted) + data[..ptr]
      ensures nonblock ==> windows <= old(windows) + 4 * ptr + 3
      ensures turn.Stuck? ==> !nonblock && !Silent() && windows >= old(windows) + patience
      ensures turn.Finished? && ptr < |data| ==> CutShort(nonblock, |old(idleness)| - 1, |old(sent)|)
      ensures turn.Finished? && ptr < |data| && !nonblock ==> hostInactive > 0
    {
      hide Valid, WasFull, Ring, Silent, Now, WriteFrame, CutShort;
      ghost var v := Now();
      Beginning();
      var polls: nat;
      ptr, polls, turn := WriteTurn(data, 0, nonblock, patience);
      while turn.Again?
        invariant Valid() && !writeKickDue && WriteFrame(v, Now())
        invariant v.sent == old(sent) && v.idleness == old(idleness)
        invariant ptr <= |data| && accepted == old(accepted) + data[..ptr]
        invariant nonblock ==> windows <= old(windows) + 4 * ptr + 3
        invariant polls <= patience && windows >= old(windows) + (patience - polls)
        invariant turn.Again? ==> !nonblock
        invariant turn.Stuck? ==> !nonblock && !Silent() && polls == 0
        invariant turn.Finished? && ptr < |data| ==> CutShort(nonblock, |v.idleness| - 1, |v.sent|)
        invariant turn.Finished? && ptr < |data| && !nonblock ==> hostInactive > 0
        decreases turn.Again?, polls
      {
        ghost var from, w := ptr, Now();
        Since(v);
        ghost var since: int, before := |idleness| - 1, |sent|;
        ptr, polls, turn := WriteTurn(data, ptr, nonblock, polls);
        WriteFrames(v, w, Now());
        assert data[..from] + data[from..ptr] == data[..ptr];
        if turn.Finished? && ptr < |data| {
          CutShortEarlier(nonblock, since, before, |v.idleness| - 1, |v.sent|);
        }
      }
    }

    // ----------------------------------------------------------------
    // Reading
    // ----------------------------------------------------------------

    /** memcpy out of the receive ring, one byte at a time. */
    method CopyOut(n: nat) returns (bytes: seq<bv8>)
      requires Valid() && rxOut + n <= BUF_LEN && n <= |Rx()|
      modifies this, rxBuf
      ensures Valid() && Interfered(old(Now()), Now())
      ensures n <= |Rx()| && bytes == Rx()[..n]
      ensures windows == old(windows) + n
    {
      hide Ring;
      bytes := [];
      var k := 0;
      while k < n
        invariant 0 <= k <= n
        invariant Valid() && Interfered(old(Now()), Now())
        invariant n <= |Rx()| && bytes == Rx()[..k]
        invariant windows == old(windows) + k
      {
        Preempt();
        RingAt(rxBuf[..], rxOut, rxIn, k);
        bytes := bytes + [rxBuf[rxOut + k]];
        k := k + 1;
      }
    }

    /** One turn of the copying loop: sample the write index, copy what is there
        in one piece, give up the slots.  `seen` is the number of bytes popped
        when the write index was sampled. */
    method DrainOnce(space: nat) returns (bytes: seq<bv8>, inAt: nat, ghost seen: nat)
      requires Valid() && space > 0
      modifies this, rxBuf
      ensures Valid() && ReadFrame(old(Now()), Now())
      ensures |bytes| <= space && returned == old(returned) + bytes
      ensures |old(popped)| <= seen <= |popped|
      ensures windows <= old(windows) + if bytes == [] then 2 else 4 * |bytes|
      ensures bytes == [] ==> WasEmpty(returned, seen) && inAt == rxOut && readKickDue == old(readKickDue)
      ensures bytes == [] ==> old(rxIn == rxOut)
    {
      hide Valid, Ring, ReadRun;
      ghost var v := Now();
      var n;
      n, inAt, seen := SampleRun();
      if n == 0 {
        FramesOf(v, Now());
        return [], inAt, seen;
      }
      if n > space {
        n := space;
      }
      ghost var w := Now();
      bytes := TakeOut(n);
      FramesOf(v, w);
      ReadFrames(v, w, Now());
    }

    /** How many bytes can be copied in one piece. */
    method SampleRun() returns (n: nat, inAt: nat, ghost seen: nat)
      requires Valid()
      modifies this, rxBuf
      ensures Valid() && Interfered(old(Now()), Now())
      ensures rxOut + n <= BUF_LEN && n <= |Rx()|
      ensures |old(popped)| <= seen <= |popped|
      ensures windows == old(windows) + 2
      ensures n == 0 ==> WasEmpty(returned, seen) && inAt == rxOut && old(rxIn == rxOut)
    {
      hide Ring, ReadRun;
      ghost var v := Now();
      NoInterference();
      LookAgain(v);
      inAt := rxIn;
      seen := |popped|;
      n := ReadRun(inAt, rxOut);
      ReadRunIsFilled(rxBuf[..], rxOut, rxIn);
      Interrupted(v);
    }

    /** Copy `n` bytes out and give up their slots. */
    method TakeOut(n: nat) returns (bytes: seq<bv8>)
      requires Valid() && rxOut + n <= BUF_LEN && n <= |Rx()|
      modifies this, rxBuf
      ensures Valid() && ReadFrame(old(Now()), Now())
      ensures |bytes| == n && returned == old(returned) + bytes
      ensures windows == old(windows) + n + 1
    {
      hide Valid, Ring;
      ghost var v := Now();
      bytes := CopyOut(n);
      Interrupted(v);
      ghost var w, more := Now(), Untaken(n);
      FramesOf(v, w);
      Consume(n, bytes, more);
      ReadFrames(v, w, Now());
    }

    /** The bytes behind the first `n`. */
    ghost function Untaken(n: nat): (rest: seq<bv8>)
      requires Valid() && n <= |Rx()|
      reads this, rxBuf, txBuf
      ensures forall bytes :: |bytes| == n && bytes <= Rx() ==> Rx() == bytes + rest
    {
      Rx()[n..]
    }

    /** Give the first bytes of the receive ring to the reader. */
    method Consume(n: nat, ghost bytes: seq<bv8>, ghost rest: seq<bv8>)
      requires Valid() && rxOut + n <= BUF_LEN && |bytes| == n && Rx() == bytes + rest
      modifies this`rxOut, this`returned, this`readKickDue
      ensures Valid() && ReadFrame(old(Now()), Now())
      ensures returned == old(returned) + bytes && Rx() == rest
    {
      ghost var buf := rxBuf[..];
      RingConsume(buf, rxOut, rxIn, bytes, rest);
      Regroup(returned, bytes, rest);
      hide Ring, Watched;
      returned := returned + bytes;
      rxOut := (rxOut + n) % BUF_LEN;
      readKickDue := true;
      assert rxBuf[..] == buf;
    }

    /** Take up to `space` bytes out of the ring. */
    method Drain(space: nat) returns (bytes: seq<bv8>, inAt: nat, ghost seen: nat)
      requires Valid() && space > 0
      modifies this, rxBuf
      ensures Valid() && ReadFrame(old(Now()), Now())
      ensures |bytes| <= space && returned == old(returned) + bytes
      ensures windows <= old(windows) + 4 * |bytes| + 2
      ensures bytes == [] ==> readKickDue == old(readKickDue) && inAt == rxOut && old(rxIn == rxOut)
      ensures |bytes| < space ==> |old(popped)| <= seen <= |popped| && WasEmpty(returned, seen)
    {
      hide Ring, Valid, WasEmpty;
      bytes, inAt, seen := [], 0, |popped|;
      while true
        invariant Valid() && ReadFrame(old(Now()), Now())
        invariant |bytes| < space && returned == old(returned) + bytes
        invariant windows <= old(windows) + 4 * |bytes|
        invariant bytes == [] ==> readKickDue == old(readKickDue) && rxIn == old(rxIn) && rxOut == old(rxOut)
        decreases space - |bytes|
      {
        var piece;
        piece, inAt, seen := DrainOnce(space - |bytes|);
        if piece == [] {
          break;
        }
        bytes := bytes + piece;
        if |bytes| >= space {
          break;
        }
      }
    }

    /** Turn receive interrupts on, with interrupts disabled meanwhile. */
    method KickReceive()
      requires Valid()
      modifies this`irqRe, this`devRe, this`devWe, this`readKickDue
      ensures Valid() && !readKickDue && irqRe
    {
      irqRe := true;
      WriteControl(irqRe, irqWe);
      readKickDue := false;
    }

    /** Spin until something arrives or the host has been silent too long, with
        the same bound. */
    method AwaitData(inAt: nat, patience: nat) returns (polls: nat, done: bool, ghost quiet: bool)
      requires Valid()
      modifies this, rxBuf
      ensures Valid() && Interfered(old(Now()), Now())
      ensures polls <= patience
      ensures done ==> inAt != rxIn || Silent()
      ensures !done ==> !Silent() && polls == 0
      ensures windows >= old(windows) + (patience - polls)
      ensures quiet && timeout <= INT_MAX - 2 ==> patience - polls <= timeout
    {
      hide Valid, Now, Interfered;
      ghost var v := Now();
      NoInterference();
      polls, done, quiet := patience, false, true;
      while true
        invariant Valid() && Interfered(v, Now()) && polls <= patience && !done
        invariant windows >= old(windows) + (patience - polls)
        invariant quiet ==> silence >= patience - polls
        invariant quiet && timeout <= INT_MAX - 2 ==> patience - polls <= timeout
        decreases polls
      {
        ghost var was := silence;
        Interrupted(v);
        if inAt != rxIn {
          return polls, true, quiet;
        }
        Interrupted(v);
        quiet := quiet && silence > was;
        SilentMeans();
        if Silent() {
          return polls, true, quiet;
        }
        if polls == 0 {
          return 0, false, quiet;
        }
        polls := polls - 1;
      }
    }

    /** The ring was empty when `inAt` was sampled: wait, and look again. */
    method WaitForData(inAt: nat, patience: nat) returns (turn: Turn)
      requires Valid() && inAt == rxOut
      modifies this, rxBuf
      ensures Valid() && Interfered(old(Now()), Now())
      ensures turn.Again? ==> rxIn != rxOut
      ensures turn.Stuck? ==> !Silent() && windows >= old(windows) + patience
      ensures turn.Finished? ==> rxIn == rxOut && WasSilent(|old(idleness)| - 1)
    {
      hide Valid, Ring;
      var polls, done;
      ghost var quiet;
      ghost var v := Now();
      polls, done, quiet := AwaitData(inAt, patience);
      if !done {
        return Stuck;
      }
      ghost var last := |idleness| - 1;
      SilentNow();
      LookAgain(v);
      if inAt == rxIn {
        assert idleness[last] >= timeout;
        return Finished;
      }
      turn := Again;
    }

    /** What has arrived stays. */
    method LookAgain(ghost v: View)
      requires Valid() && Interfered(v, Now())
      modifies this`sent, this`txOut, this`irqWe, this`popped, this`rxIn, this`irqRe, this`devRe, this`devWe,
               this`hostInactive, this`silence, this`idleness, this`windows, this`pops, this`dry, this`left, rxBuf
      ensures Valid() && Interfered(v, Now()) && Interfered(old(Now()), Now())
      ensures windows == old(windows) + 1
      ensures old(rxIn != rxOut) ==> rxIn != rxOut
    {
      hide Ring;
      RxEmpty();
      ghost var w := Now();
      Preempt();
      RxEmpty();
      InterferedTwice(v, w, Now());
    }

    /** The host was silent past the timeout after some callback from number
        `since` on. */
    ghost predicate WasSilent(since: int)
      reads this
    {
      exists k: nat :: since <= k < |idleness| && idleness[k] >= timeout
    }

    lemma RxEmpty()
      requires Valid()
      ensures Rx() == [] <==> rxIn == rxOut
    {
      RingSize(rxBuf[..], rxOut, rxIn);
    }

    lemma SilentNow()
      requires Valid()
      ensures idleness != [] && idleness[|idleness| - 1] == hostInactive
    {
    }

    /** One turn of the read routine: empty the ring, and if there was nothing in
        it either give up or wait. */
    method ReadTurn(space: nat, nonblock: bool, patience: nat)
        returns (bytes: seq<bv8>, turn: Turn, ghost seen: nat)
      requires Valid() && !readKickDue && space > 0
      modifies this, rxBuf
      ensures Valid() && ReadFrame(old(Now()), Now())
      ensures |bytes| <= space && returned == old(returned) + bytes
      ensures nonblock ==> windows <= old(windows) + 4 * |bytes| + 2
      ensures bytes == [] ==> !readKickDue && old(rxIn == rxOut)
      ensures !turn.Finished? ==> bytes == [] && !nonblock
      ensures turn.Again? ==> rxIn != rxOut
      ensures turn.Stuck? ==> !Silent() && windows >= old(windows) + patience
      ensures turn.Finished? && bytes == [] && !nonblock ==> rxIn == rxOut && WasSilent(|old(idleness)| - 1)
      ensures (bytes != [] || nonblock) && |bytes| < space ==>
                |old(popped)| <= seen <= |popped| && WasEmpty(returned, seen)
    {
      hide Valid, Ring, WasEmpty, Silent, WasSilent;
      ghost var v := Now();
      var inAt;
      bytes, inAt, seen := Drain(space);
      if bytes != [] || nonblock {
        return bytes, Finished, seen;
      }
      ghost var w := Now();
      turn := WaitForData(inAt, patience);
      ReadFrames(v, w, Now());
      WasSilentEarlier(|v.idleness| - 1, |w.idleness| - 1);
    }

    /** The read routine: it returns at least one byte if it can, and all that
        had arrived when it last looked, up to `space`.  It fails without
        having waited only if asked not to block, and after waiting only if the
        host was silent past the timeout meanwhile. */
    method Read(space: nat, nonblock: bool, patience: nat) returns (r: Outcome, bytes: seq<bv8>)
      requires Valid() && !readKickDue
      modifies this, rxBuf
      ensures Valid() && !readKickDue && ReadFrame(old(Now()), Now())
      ensures |bytes| <= space && returned == old(returned) + bytes
      ensures nonblock ==> windows <= old(windows) + 4 * |bytes| + 3
      ensures r.Count? <==> bytes != []
      ensures r.Count? ==> r.n == |bytes|
      ensures !r.Closed? && (r.WouldBlock? ==> nonblock) && (r.IoError? || r.StillWaiting? ==> !nonblock)
      ensures (r.Count? || r.WouldBlock?) && |bytes| < space ==>
                exists seen :: |old(popped)| <= seen <= |popped| && WasEmpty(returned, seen)
      ensures r.IoError? && space > 0 ==> Rx() == [] && WasSilent(|old(idleness)| - 1)
      ensures r.StillWaiting? ==> windows >= old(windows) + patience && (silence < timeout || timeout > INT_MAX - 2)
    {
      hide Valid, Ring, WasEmpty, Silent, WasSilent;
      if space == 0 {
        return if nonblock then WouldBlock else IoError, [];
      }
      var turn;
      bytes, turn := ReadLoop(space, nonblock, patience);
      SilentMeans();
      RxEmpty();
      if turn.Stuck? {
        return StillWaiting, [];
      }
      if bytes != [] {
        EnableReceive();
        r := Count(|bytes|);
      } else if nonblock {
        r := WouldBlock;
      } else {
        r := IoError;
      }
    }

    /** Receive interrupts go on some time after the last byte was taken. */
    method EnableReceive()
      requires Valid()
      modifies this, rxBuf
      ensures Valid() && !readKickDue && ReadFrame(old(Now()), Now()) && returned == old(returned)
      ensures windows == old(windows) + 1
    {
      Preempt();
      hide Valid, Ring;
      KickReceive();
    }

    /** The loop of the read routine.  A second turn finds what the first one
        waited for. */
    method ReadLoop(space: nat, nonblock: bool, patience: nat) returns (bytes: seq<bv8>, turn: Turn)
      requires Valid() && !readKickDue && space > 0
      modifies this, rxBuf
      ensures Valid() && ReadFrame(old(Now()), Now()) && !turn.Again?
      ensures |bytes| <= space && returned == old(returned) + bytes
      ensures nonblock ==> windows <= old(windows) + 4 * |bytes| + 2
      ensures bytes == [] ==> !readKickDue
      ensures turn.Stuck? ==> bytes == [] && !nonblock && !Silent() && windows >= old(windows) + patience
      ensures turn.Finished? && bytes == [] && !nonblock ==> rxIn == rxOut && WasSilent(|old(idleness)| - 1)
      ensures (bytes != [] || nonblock) && |bytes| < space ==>
                exists seen :: |old(popped)| <= seen <= |popped| && WasEmpty(returned, seen)
    {
      hide Valid, Ring, WasEmpty, Silent, WasSilent;
      ghost var v := Now();
      ghost var seen;
      bytes, turn, seen := ReadTurn(space, nonblock, patience);
      while turn.Again?
        invariant Valid() && ReadFrame(v, Now())
        invariant |bytes| <= space && returned == old(returned) + bytes
        invariant nonblock ==> windows <= old(windows) + 4 * |bytes| + 2
        invariant bytes == [] ==> !readKickDue
        invariant !turn.Finished? ==> bytes == [] && !nonblock
        invariant turn.Again? ==> rxIn != rxOut
        invariant turn.Stuck? ==> !Silent() && windows >= old(windows) + patience
        invariant turn.Finished? && bytes == [] && !nonblock ==> rxIn == rxOut && WasSilent(|old(idleness)| - 1)
        invariant (bytes != [] || nonblock) && |bytes| < space ==>
                    |old(popped)| <= seen <= |popped| && WasEmpty(returned, seen)
        decreases turn.Again?
      {
        ghost var w := Now();
        bytes, turn, seen := ReadTurn(space, nonblock, patience);
        ReadFrames(v, w, Now());
      }
    }

    lemma WasSilentEarlier(a: int, b: int)
      requires a <= b
      ensures WasSilent(b) ==> WasSilent(a)
    {
    }

    // ----------------------------------------------------------------
    // Closing and settings
    // ----------------------------------------------------------------

    /** The close routine waits for the ring to drain: when it succeeds, every
        accepted byte has gone to the device unless the host stopped responding. */
    method Close(nonblock: bool, patience: nat) returns (r: Outcome)
      requires Valid()
      modifies this, rxBuf
      ensures Valid() && Interfered(old(Now()), Now())
      ensures r.Closed? || (r.WouldBlock? && nonblock) || (r.StillWaiting? && !nonblock)
      ensures r.Closed? ==> accepted == sent || (silence >= timeout && timeout <= INT_MAX - 2)
      ensures r.WouldBlock? || r.StillWaiting? ==>
                old(accepted) != old(sent) && (silence < timeout || timeout > INT_MAX - 2)
      ensures r.StillWaiting? ==> windows >= old(windows) + patience
      ensures nonblock ==> windows <= old(windows) + 2
    {
      hide Valid, Ring;
      var polls, done;
      ghost var quiet;
      TxEmpty();
      polls, done, quiet := AwaitEmpty(if nonblock then 0 else patience);
      TxEmpty();
      SilentMeans();
      r := if done then Closed else if nonblock then WouldBlock else StillWaiting;
    }

    /** The spin of the close routine, with the same bound. */
    method AwaitEmpty(patience: nat) returns (polls: nat, done: bool, ghost quiet: bool)
      requires Valid()
      modifies this, rxBuf
      ensures Valid() && Interfered(old(Now()), Now())
      ensures polls <= patience
      ensures done ==> txIn == txOut || Silent()
      ensures !done ==> !Silent() && polls == 0 && old(txIn != txOut)
      ensures windows >= old(windows) + (patience - polls)
      ensures windows <= old(windows) + 2 * (patience - polls) + 2
      ensures quiet && timeout <= INT_MAX - 2 ==> patience - polls <= timeout
    {
      hide Valid, Now, Interfered, Ring;
      ghost var v := Now();
      NoInterference();
      polls, done, quiet := patience, false, true;
      while true
        invariant Valid() && Interfered(v, Now()) && polls <= patience && !done
        invariant windows >= old(windows) + (patience - polls)
        invariant windows == old(windows) + 2 * (patience - polls)
        invariant old(txIn == txOut) ==> txIn == txOut
        invariant quiet ==> silence >= patience - polls
        invariant quiet && timeout <= INT_MAX - 2 ==> patience - polls <= timeout
        decreases polls
      {
        ghost var was := silence;
        TxEmpty();
        Interrupted(v);
        TxEmpty();
        if txOut == txIn {
          return polls, true, quiet;
        }
        Interrupted(v);
        TxEmpty();
        quiet := quiet && silence > was;
        SilentMeans();
        if Silent() {
          return polls, true, quiet;
        }
        if polls == 0 {
          return 0, false, quiet;
        }
        polls := polls - 1;
      }
    }

    lemma TxEmpty()
      requires Valid()
      ensures Tx() == [] <==> txIn == txOut
      ensures accepted == sent <==> txIn == txOut
    {
      RingSize(txBuf[..], txOut, txIn);
    }

    /** TIOCSTIMEOUT: out-of-range values ask for the longest finite timeout; a
        driver without a presence alarm refuses.  From then on the host counts as
        silent once that many callbacks in a row have seen no activity; with the
        longest finite timeout, or none, it never does. */
    method SetTimeout(value: int) returns (ok: bool)
      requires Valid()
      modifies this`timeout
      ensures Valid() && ok == (old(timeout) != INT_MAX)
      ensures timeout == if !ok then old(timeout) else if 2 <= value < INT_MAX then value else INT_MAX - 1
      ensures Silent() <==> ok && 2 <= value < INT_MAX - 1 && silence >= value
    {
      ok := timeout != INT_MAX;
      if ok {
        timeout := if 2 <= value < INT_MAX then value else INT_MAX - 1;
      }
    }

    /** TIOCGCONNECTED: the host is reported gone exactly once `timeout` callbacks
        in a row have seen no activity, and never with the longest finite timeout. */
    method Connected() returns (ok: bool, connected: bool)
      requires Valid()
      ensures ok == (timeout != INT_MAX)
      ensures ok ==> (connected <==> silence < timeout || timeout == INT_MAX - 1)
    {
      ok := timeout != INT_MAX;
      connected := hostInactive < timeout;
    }
  }
}
