/** The file descriptor table: which device each descriptor stands for, and who
    holds a device for exclusive use. */
module FileTable {
  import opened Options

  /** What a name may resolve to: a character device, or a file system. */
  datatype Dev = Device(id: nat) | FileSystem(id: nat)

  datatype Fd = Fd(dev: Option<Dev>, flags: bv32)

  /** `maxFd` is the highest descriptor ever handed out. */
  datatype Table = Table(slots: seq<Fd>, maxFd: int)

  datatype Errno = ENODEV | EMFILE | EACCES | EBADFD | ENOTTY | EINVAL | Driver(code: int)
  datatype Outcome = Done(rc: int) | Flags(flags: bv32) | Failed(errno: Errno)

  const MAX_FD: nat := 32
  const EXCL: bv32 := 0x8000_0000
  const DEV: bv32 := 0x4000_0000
  const MARKS: bv32 := 0xC000_0000
  /** Append and non-blocking mode, the flags that fcntl may change. */
  const SETTABLE: bv32 := 0x0000_4008

  // ------------------------------------------------------------------
  // Flags
  // ------------------------------------------------------------------

  predicate IsExcl(f: bv32) { f & EXCL != 0 }
  predicate IsDev(f: bv32) { f & DEV != 0 }

  function Unmarked(f: bv32): (r: bv32)
    ensures !IsExcl(r) && !IsDev(r)
  {
    f & !MARKS
  }

  function MarkDev(f: bv32): (r: bv32)
    ensures IsDev(r) && (IsExcl(r) <==> IsExcl(f))
  {
    f | DEV
  }

  /** The flags of a fresh descriptor: the caller's, without marks, and a device's mark. */
  function Mode(dev: Dev, flags: bv32): (r: bv32)
    ensures !IsExcl(r) && (IsDev(r) <==> dev.Device?)
  {
    if dev.Device? then MarkDev(Unmarked(flags)) else Unmarked(flags)
  }

  lemma ModeBits(dev: Dev, flags: bv32)
    ensures Unmarked(Mode(dev, flags)) == Unmarked(flags)
  {
    UnmarkedTwice(flags);
    MarkedUnmarked(Unmarked(flags));
    hide Unmarked, MarkDev, IsExcl, IsDev;
  }

  lemma UnmarkedTwice(f: bv32)
    ensures Unmarked(Unmarked(f)) == Unmarked(f)
  {
    hide IsExcl, IsDev;
  }

  lemma MarkedUnmarked(f: bv32)
    ensures Unmarked(MarkDev(f)) == Unmarked(f)
  {
    hide IsExcl, IsDev;
  }

  function MarkExcl(f: bv32): (r: bv32)
    ensures IsExcl(r) && (IsDev(r) <==> IsDev(f))
  {
    f | EXCL
  }

  function ClearExcl(f: bv32): (r: bv32)
    ensures !IsExcl(r) && (IsDev(r) <==> IsDev(f))
  {
    f & !EXCL
  }

  function ClearModes(f: bv32): bv32 { f & !SETTABLE }
  function AddModes(f: bv32, arg: bv32): bv32 { f | (arg & SETTABLE) }

  function SetMode(f: bv32, arg: bv32): (r: bv32)
    ensures (IsExcl(r) <==> IsExcl(f)) && (IsDev(r) <==> IsDev(f))
  {
    AddModes(ClearModes(f), arg)
  }

  lemma SetModeSteps(f: bv32, arg: bv32)
    ensures SetMode(f, arg) == AddModes(ClearModes(f), arg)
  {
  }

  lemma SetModeBits(f: bv32, arg: bv32)
    ensures SetMode(f, arg) & SETTABLE == arg & SETTABLE
    ensures SetMode(f, arg) & !SETTABLE == f & !SETTABLE
  {
  }

  // ------------------------------------------------------------------
  // The operations
  // ------------------------------------------------------------------

  function Boot(devNull: Dev): Table {
    Table(seq(MAX_FD, i => if i < 3 then Fd(Some(devNull), 0) else Fd(None, 0)), -1)
  }

  predicate Sized(t: Table) {
    |t.slots| == MAX_FD && -1 <= t.maxFd < MAX_FD
  }

  /** The first free slot from `from` on, or MAX_FD. */
  function FirstFree(slots: seq<Fd>, from: nat): (i: nat)
    requires from <= |slots|
    ensures from <= i <= |slots|
    ensures forall k :: from <= k < i ==> slots[k].dev.Some?
    ensures i < |slots| ==> slots[i].dev.None?
    decreases |slots| - from
  {
    if from == |slots| || slots[from].dev.None? then from else FirstFree(slots, from + 1)
  }

  function Allocate(t: Table, i: nat, fd: Fd): Table
    requires Sized(t) && i < MAX_FD
  {
    Table(t.slots[i := fd], if i > t.maxFd then i else t.maxFd)
  }

  function Release(t: Table, fd: int): Table
    requires Sized(t) && fd < MAX_FD
  {
    if fd > 2 then t.(slots := t.slots[fd := Fd(None, 0)]) else t
  }

  /** Does another descriptor, up to the highest, hold the device of `fd`? */
  predicate FileLocked(t: Table, fd: nat)
    requires Sized(t) && fd < MAX_FD
  {
    exists i :: 0 <= i <= t.maxFd && i != fd && t.slots[i].dev == t.slots[fd].dev && IsExcl(t.slots[i].flags)
  }

  /** `found` is what the name resolves to, `driver` the answer of the device's
      own open routine (zero when it has none). */
  function Open(t: Table, found: Option<Dev>, flags: bv32, driver: int): (Table, Outcome)
    requires Sized(t)
  {
    match found
    case None => (t, Failed(ENODEV))
    case Some(dev) =>
      var i := FirstFree(t.slots, 0);
      if i == MAX_FD then (t, Failed(EMFILE))
      else
        var t' := Allocate(t, i, Fd(found, Mode(dev, flags)));
        if dev.Device? && FileLocked(t', i) then (Release(t', i), Failed(EACCES))
        else if driver < 0 then (Release(t', i), Failed(Driver(-driver)))
        else (t', Done(i))
  }

  function Close(t: Table, fd: int, driver: int): (Table, Outcome)
    requires Sized(t) && fd < MAX_FD
  {
    if fd < 0 then (t, Failed(EBADFD))
    else (Release(t, fd), if driver < 0 then Failed(Driver(-driver)) else Done(0))
  }

  /** Is a lock refused?  Only descriptors strictly below the highest are looked at. */
  predicate Contended(t: Table, fd: nat)
    requires Sized(t) && fd < MAX_FD
  {
    exists i :: 0 <= i < t.maxFd && i != fd && t.slots[i].dev == t.slots[fd].dev
  }

  function Remark(t: Table, fd: nat, flags: bv32): Table
    requires Sized(t) && fd < MAX_FD
  {
    t.(slots := t.slots[fd := t.slots[fd].(flags := flags)])
  }

  datatype Request = TIOCEXCL | TIOCNXCL | OtherRequest

  /** `driver` is what the driver's own routine answers, if it has one. */
  function Ioctl(t: Table, fd: int, req: Request, driver: Option<int>): (Table, Outcome)
    requires Sized(t) && fd < MAX_FD
  {
    if fd < 0 then (t, Failed(EBADFD))
    else if IsDev(t.slots[fd].flags) && req == TIOCEXCL then
      if Contended(t, fd) then (t, Failed(EACCES))
      else (Remark(t, fd, MarkExcl(t.slots[fd].flags)), Done(0))
    else if IsDev(t.slots[fd].flags) && req == TIOCNXCL then
      (Remark(t, fd, ClearExcl(t.slots[fd].flags)), Done(0))
    else if driver.None? then (t, Failed(ENOTTY))
    else if driver.value < 0 then (t, Failed(Driver(-driver.value)))
    else (t, Done(driver.value))
  }

  datatype Command = F_GETFL | F_SETFL | OtherCommand

  function Fcntl(t: Table, fd: int, cmd: Command, arg: bv32): (Table, Outcome)
    requires Sized(t) && fd < MAX_FD
  {
    if fd < 0 then (t, Failed(EBADFD))
    else match cmd
      case F_GETFL => (t, Flags(Unmarked(t.slots[fd].flags)))
      case F_SETFL => (Remark(t, fd, SetMode(t.slots[fd].flags, arg)), Done(0))
      case OtherCommand => (t, Failed(EINVAL))
  }

  /** Open a device and move it onto one of the three standard descriptors. */
  function Redirect(t: Table, target: nat, found: Option<Dev>, flags: bv32, driver: int): Table
    requires Sized(t) && target < 3
  {
    var (t', outcome) := Open(t, found, flags, driver);
    if outcome.Done? && 0 <= outcome.rc < MAX_FD then
      Release(t'.(slots := t'.slots[target := t'.slots[outcome.rc]]), outcome.rc)
    else t'
  }

  // ------------------------------------------------------------------
  // Runs
  // ------------------------------------------------------------------

  datatype Op =
    | DoOpen(found: Option<Dev>, flags: bv32, driver: int)
    | DoClose(fd: int, driver: int)
    | DoIoctl(fd: int, req: Request, driverOpt: Option<int>)
    | DoFcntl(fd: int, cmd: Command, flags: bv32)
    | DoRedirect(target: nat, found: Option<Dev>, flags: bv32, driver: int)

  /** What the source leaves to the caller: descriptors lie in the table, and
      those handed to close and ioctl are open. */
  predicate Legal(t: Table, op: Op)
    requires Sized(t)
  {
    match op
    case DoOpen(_, _, _) => true
    case DoClose(fd, _) => fd < 0 || (fd < MAX_FD && t.slots[fd].dev.Some?)
    case DoIoctl(fd, _, _) => fd < 0 || (fd < MAX_FD && t.slots[fd].dev.Some?)
    case DoFcntl(fd, _, _) => fd < MAX_FD
    case DoRedirect(target, _, _, _) => target < 3
  }

  function Step(t: Table, op: Op): Table
    requires Sized(t) && Legal(t, op)
  {
    match op
    case DoOpen(found, flags, driver) => Open(t, found, flags, driver).0
    case DoClose(fd, driver) => Close(t, fd, driver).0
    case DoIoctl(fd, req, driver) => Ioctl(t, fd, req, driver).0
    case DoFcntl(fd, cmd, arg) => Fcntl(t, fd, cmd, arg).0
    case DoRedirect(target, found, flags, driver) => Redirect(t, target, found, flags, driver)
  }

  // ------------------------------------------------------------------
  // The invariant
  // ------------------------------------------------------------------

  /** Descriptor `c` holds device `dev` for itself. */
  predicate Holds(t: Table, c: nat, dev: Dev) {
    c < |t.slots| && IsExcl(t.slots[c].flags) && t.slots[c].dev == Some(dev)
  }

  /** Whoever holds a device is below every other descriptor of that device:
      the strict bound of the lock's scan can only have missed the highest. */
  predicate HoldersLowest(slots: seq<Fd>) {
    forall c, j :: 0 <= c < |slots| && 0 <= j < |slots| && c != j && IsExcl(slots[c].flags) ==>
      slots[c].dev == slots[j].dev ==> c < j
  }

  predicate SlotOk(fd: Fd) {
    && (fd.dev.None? ==> !IsDev(fd.flags))
    && (IsExcl(fd.flags) ==> IsDev(fd.flags))
    && (IsDev(fd.flags) ==> fd.dev.Some? && fd.dev.value.Device?)
  }

  predicate Inv(t: Table)
    ensures Inv(t) ==> Sized(t)
  {
    && Sized(t)
    && (forall i :: 0 <= i < 3 ==> t.slots[i].dev.Some?)
    && (forall i :: 3 <= i < MAX_FD && t.slots[i].dev.Some? ==> i <= t.maxFd)
    && (forall i :: 0 <= i < MAX_FD ==> SlotOk(t.slots[i]) && (IsDev(t.slots[i].flags) ==> t.maxFd >= 3))
    && HoldersLowest(t.slots)
  }

  lemma BootInv(devNull: Dev)
    ensures Inv(Boot(devNull))
  {
  }

  lemma AllocateKeeps(t: Table, i: nat, fd: Fd)
    requires Inv(t) && 3 <= i < MAX_FD && t.slots[i].dev.None?
    requires fd.dev.Some? && !IsExcl(fd.flags) && SlotOk(fd)
    requires fd.dev.value.Device? ==> forall c :: !Holds(t, c, fd.dev.value)
    ensures Inv(Allocate(t, i, fd))
  {
    hide IsExcl, IsDev;
    var t' := Allocate(t, i, fd);
    assert forall k :: 0 <= k < MAX_FD && k != i ==> t'.slots[k] == t.slots[k];
    forall c | 0 <= c < MAX_FD && c != i && IsExcl(t'.slots[c].flags) ensures t'.slots[c].dev != t'.slots[i].dev {
      assert SlotOk(t.slots[c]);
      assert fd.dev.value.Device? ==> !Holds(t, c, fd.dev.value);
    }
  }

  lemma ReleaseKeeps(t: Table, fd: int)
    requires Inv(t) && fd < MAX_FD
    ensures Inv(Release(t, fd))
  {
  }

  /** Giving a slot back leaves the table as it was, but for the flags of a
      slot that was free. */
  lemma ReleaseUndoesAllocate(t: Table, i: nat, fd: Fd)
    requires Sized(t) && 3 <= i < MAX_FD && t.slots[i].dev.None?
    ensures Release(Allocate(t, i, fd), i).slots == t.slots[i := Fd(None, 0)]
  {
    assert t.slots[i := fd][i := Fd(None, 0)] == t.slots[i := Fd(None, 0)];
  }

  lemma RestoredKeeps(t: Table, i: nat, maxFd: int)
    requires Inv(t) && 3 <= i < MAX_FD && t.slots[i].dev.None? && t.maxFd <= maxFd < MAX_FD
    ensures Inv(Table(t.slots[i := Fd(None, 0)], maxFd))
  {
    hide IsExcl, IsDev;
    assert !IsExcl(0) && !IsDev(0) by { NoMarks(); }
  }

  lemma NoMarks()
    ensures !IsExcl(0) && !IsDev(0)
  {
  }

  lemma FirstFreeIsHigh(t: Table)
    requires Inv(t)
    ensures FirstFree(t.slots, 0) >= 3
  {
  }

  lemma FirstFreeIs(slots: seq<Fd>, k: nat)
    requires k < |slots| && slots[k].dev.None? && forall j :: 0 <= j < k ==> slots[j].dev.Some?
    ensures FirstFree(slots, 0) == k
  {
  }

  /** The scan made for a fresh descriptor sees every holder. */
  lemma FileLockedSeesAll(t: Table, i: nat, fd: Fd)
    requires Inv(t) && 3 <= i < MAX_FD && t.slots[i].dev.None? && fd.dev.Some?
    ensures FileLocked(Allocate(t, i, fd), i) <==> exists c :: Holds(t, c, fd.dev.value)
  {
    hide IsExcl, IsDev;
    var t' := Allocate(t, i, fd);
    forall c: nat | Holds(t, c, fd.dev.value) ensures FileLocked(t', i) {
      assert SlotOk(t.slots[c]);
      assert t'.slots[c] == t.slots[c];
    }
    if FileLocked(t', i) {
      var c :| 0 <= c <= t'.maxFd && c != i && t'.slots[c].dev == t'.slots[i].dev && IsExcl(t'.slots[c].flags);
      assert Holds(t, c, fd.dev.value);
    }
  }

  // ------------------------------------------------------------------
  // What opening does
  // ------------------------------------------------------------------

  /** What a failed open leaves: the slot it tried free and clear, and the
      high-water mark raised to it. */
  function Abandoned(t: Table, i: nat): Table
    requires Sized(t) && i < MAX_FD
  {
    Table(t.slots[i := Fd(None, 0)], if i > t.maxFd then i else t.maxFd)
  }

  /** Somebody holds the device. */
  ghost predicate Held(t: Table, dev: Dev) {
    dev.Device? && exists c :: Holds(t, c, dev)
  }

  /** The four ways an open may end. */
  lemma OpenCases(t: Table, dev: Dev, flags: bv32, driver: int)
    requires Inv(t)
    ensures var i := FirstFree(t.slots, 0);
            && i >= 3
            && Open(t, Some(dev), flags, driver) ==
                 if i == MAX_FD then (t, Failed(EMFILE))
                 else if Held(t, dev) then (Abandoned(t, i), Failed(EACCES))
                 else if driver < 0 then (Abandoned(t, i), Failed(Driver(-driver)))
                 else (Allocate(t, i, Fd(Some(dev), Mode(dev, flags))), Done(i))
  {
    FirstFreeIsHigh(t);
    var i := FirstFree(t.slots, 0);
    if i < MAX_FD {
      var fd := Fd(Some(dev), Mode(dev, flags));
      FileLockedSeesAll(t, i, fd);
      ReleaseUndoesAllocate(t, i, fd);
      hide Inv, IsExcl, IsDev, Mode, FileLocked, FirstFree, Holds;
    }
  }

  /** A device opens exactly when a descriptor is free, nobody holds the device
      and its driver agrees; the descriptor was free, and it is all that changes. */
  lemma OpenExactly(t: Table, dev: Dev, flags: bv32, driver: int)
    requires Inv(t)
    ensures var (t', outcome) := Open(t, Some(dev), flags, driver);
            && (outcome.Done? <==> driver >= 0 && !Held(t, dev) && exists i :: 0 <= i < MAX_FD && t.slots[i].dev.None?)
            && (outcome.Done? ==> 3 <= outcome.rc < MAX_FD && Opened(t, t', dev, outcome.rc, flags))
            && (Held(t, dev) ==> outcome == Failed(EACCES) || outcome == Failed(EMFILE))
  {
    hide Inv, Open, IsExcl, IsDev, Mode, Unmarked, Held, FirstFree, Opened;
    OpenCases(t, dev, flags, driver);
    var i := FirstFree(t.slots, 0);
    if i < MAX_FD {
      AllocateOpens(t, dev, i, flags);
    }
  }

  lemma AllocateOpens(t: Table, dev: Dev, i: nat, flags: bv32)
    requires Sized(t) && i < MAX_FD && t.slots[i].dev.None?
    ensures Opened(t, Allocate(t, i, Fd(Some(dev), Mode(dev, flags))), dev, i, flags)
  {
    ModeBits(dev, flags);
    hide IsExcl, IsDev, Mode, Unmarked;
  }

  /** The one change a successful open makes. */
  predicate Opened(t: Table, t': Table, dev: Dev, i: nat, flags: bv32)
    requires Sized(t) && i < MAX_FD
  {
    && t.slots[i].dev.None?
    && |t'.slots| == MAX_FD
    && t'.slots[i].dev == Some(dev)
    && Unmarked(t'.slots[i].flags) == Unmarked(flags)
    && !IsExcl(t'.slots[i].flags) && (IsDev(t'.slots[i].flags) <==> dev.Device?)
    && t'.slots == t.slots[i := t'.slots[i]]
    && t'.maxFd == if i > t.maxFd then i else t.maxFd
  }

  /** A failed open, at whichever step, leaves every descriptor's device as it
      was; but it clears the flags of the free slot it tried, and raises the
      high-water mark to it.  So it leaves no trace exactly if it tried none,
      or one with clear flags below the mark. */
  lemma FailedOpenRestores(t: Table, found: Option<Dev>, flags: bv32, driver: int)
    requires Inv(t) && Open(t, found, flags, driver).1.Failed?
    ensures var t' := Open(t, found, flags, driver).0;
            var i := FirstFree(t.slots, 0);
            var tried := found.Some? && i < MAX_FD;
            && |t'.slots| == MAX_FD
            && (forall k :: 0 <= k < MAX_FD ==> t'.slots[k].dev == t.slots[k].dev)
            && (t'.slots == t.slots <==> !tried || t.slots[i].flags == 0)
            && t'.maxFd == (if tried && i > t.maxFd then i else t.maxFd)
            && (t' == t <==> !tried || (t.slots[i].flags == 0 && i <= t.maxFd))
  {
    if found.Some? {
      OpenCases(t, found.value, flags, driver);
    }
    var i := FirstFree(t.slots, 0);
    var t' := Open(t, found, flags, driver).0;
    if found.Some? && i < MAX_FD {
      assert Abandoned(t, i).slots[i] == Fd(None, 0);
      AbandonedDiffers(t, i);
    }
    hide Inv, IsExcl, IsDev, FirstFree, FileLocked, Mode;
  }

  lemma AbandonedDiffers(t: Table, i: nat)
    requires Sized(t) && i < MAX_FD && t.slots[i].dev.None?
    ensures Abandoned(t, i).slots == t.slots <==> t.slots[i].flags == 0
    ensures forall k :: 0 <= k < MAX_FD ==> Abandoned(t, i).slots[k].dev == t.slots[k].dev
  {
    assert Abandoned(t, i).slots[i] == Fd(None, 0);
  }

  lemma OpenKeeps(t: Table, found: Option<Dev>, flags: bv32, driver: int)
    requires Inv(t)
    ensures Inv(Open(t, found, flags, driver).0)
  {
    if found.Some? {
      OpenCases(t, found.value, flags, driver);
      hide Inv, Open, IsExcl, IsDev, Mode, Held, FirstFree;
      var i := FirstFree(t.slots, 0);
      if i < MAX_FD {
        AbandonedKeeps(t, i);
        if !Held(t, found.value) {
          FreshKeeps(t, i, found.value, flags);
        }
      }
    }
  }

  lemma AbandonedKeeps(t: Table, i: nat)
    requires Inv(t) && 3 <= i < MAX_FD && t.slots[i].dev.None?
    ensures Inv(Abandoned(t, i))
  {
    RestoredKeeps(t, i, if i > t.maxFd then i else t.maxFd);
    hide Inv;
  }

  lemma FreshKeeps(t: Table, i: nat, dev: Dev, flags: bv32)
    requires Inv(t) && 3 <= i < MAX_FD && t.slots[i].dev.None? && !Held(t, dev)
    ensures Inv(Allocate(t, i, Fd(Some(dev), Mode(dev, flags))))
  {
    hide IsExcl, IsDev, Mode, HoldersLowest;
    AllocateKeeps(t, i, Fd(Some(dev), Mode(dev, flags)));
  }

  // ------------------------------------------------------------------
  // What the other operations do
  // ------------------------------------------------------------------

  /** A lock is granted exactly when every other descriptor of the device is
      the highest one. */
  lemma LockExactly(t: Table, fd: nat, driver: Option<int>)
    requires Inv(t) && fd < MAX_FD && IsDev(t.slots[fd].flags)
    ensures var (t', outcome) := Ioctl(t, fd, TIOCEXCL, driver);
            && (outcome == Done(0) <==>
                  forall j :: 0 <= j < MAX_FD && j != fd && t.slots[j].dev == t.slots[fd].dev ==> j == t.maxFd)
            && (outcome == Done(0) ==>
                  Holds(t', fd, t.slots[fd].dev.value) && t'.slots == t.slots[fd := t'.slots[fd]])
            && (outcome != Done(0) ==> t' == t && outcome == Failed(EACCES))
  {
    assert SlotOk(t.slots[fd]);
    hide IsExcl, IsDev, HoldersLowest;
    if Contended(t, fd) {
      var i :| 0 <= i < t.maxFd && i != fd && t.slots[i].dev == t.slots[fd].dev;
      assert i != t.maxFd;
    }
  }

  /** A granted lock is exclusive, as the source means it to be, exactly when
      the highest descriptor is the holder itself or stands for something else. */
  lemma GrantedLockIsSole(t: Table, fd: nat)
    requires Inv(t) && fd < MAX_FD && IsDev(t.slots[fd].flags) && !Contended(t, fd)
    ensures (forall j :: 0 <= j < MAX_FD && j != fd ==> t.slots[j].dev != t.slots[fd].dev)
            <==> fd == t.maxFd || t.slots[t.maxFd].dev != t.slots[fd].dev
  {
    assert SlotOk(t.slots[fd]);
    hide IsExcl, IsDev, HoldersLowest;
  }

  // ------------------------------------------------------------------
  // Three runs from reset
  // ------------------------------------------------------------------

  /** A device opened from reset, and opened again. */
  function OpenedOnce(devNull: Dev, flags: bv32): Table {
    Allocate(Boot(devNull), 3, Fd(Some(Device(1)), Mode(Device(1), flags)))
  }

  function OpenedTwice(devNull: Dev, flags: bv32): Table {
    Allocate(OpenedOnce(devNull, flags), 4, Fd(Some(Device(1)), Mode(Device(1), flags)))
  }

  lemma OpensTwice(devNull: Dev, flags: bv32)
    ensures Inv(OpenedOnce(devNull, flags)) && Inv(OpenedTwice(devNull, flags))
    ensures Open(Boot(devNull), Some(Device(1)), flags, 0) == (OpenedOnce(devNull, flags), Done(3))
    ensures Open(OpenedOnce(devNull, flags), Some(Device(1)), flags, 0) == (OpenedTwice(devNull, flags), Done(4))
    ensures !Held(OpenedTwice(devNull, flags), Device(2))
  {
    var t, t1, t2 := Boot(devNull), OpenedOnce(devNull, flags), OpenedTwice(devNull, flags);
    NoMarks();
    hide IsExcl, IsDev, Mode;
    BootInv(devNull);
    FirstFreeIs(t.slots, 3);
    FirstFreeIs(t1.slots, 4);
    NobodyHolds(t, Device(1));
    NobodyHolds(t1, Device(1));
    NobodyHolds(t2, Device(2));
    hide Inv, Open, FirstFree, Boot, Held;
    OpenCases(t, Device(1), flags, 0);
    FreshKeeps(t, 3, Device(1), flags);
    OpenCases(t1, Device(1), flags, 0);
    FreshKeeps(t1, 4, Device(1), flags);
  }

  lemma NobodyHolds(t: Table, dev: Dev)
    requires forall c :: 0 <= c < |t.slots| ==> !IsExcl(t.slots[c].flags)
    ensures !Held(t, dev)
  {
  }

  /** A granted lock need not be exclusive: open a device twice from reset, and
      the first descriptor is granted the lock while the second stays open. */
  lemma LockBesideAnOpenDescriptor(devNull: Dev, flags: bv32)
    requires devNull != Device(1)
    ensures var t := Open(Open(Boot(devNull), Some(Device(1)), flags, 0).0, Some(Device(1)), flags, 0).0;
            && t.slots[3].dev == t.slots[4].dev == Some(Device(1))
            && var (t', lock) := Ioctl(t, 3, TIOCEXCL, None);
            && lock == Done(0) && Holds(t', 3, Device(1)) && t'.slots[4].dev == Some(Device(1))
  {
    OpensTwice(devNull, flags);
    hide Open, IsExcl, IsDev, Mode, Inv;
  }

  /** A failed open may decide a later lock: after it, in the same place, the
      same lock is refused. */
  lemma FailedOpenRefusesLock(devNull: Dev, flags: bv32)
    requires devNull != Device(1)
    ensures var t := OpenedTwice(devNull, flags);
            var (t', outcome) := Open(t, Some(Device(2)), flags, -1);
            && outcome.Failed? && t'.slots == t.slots && t'.maxFd == 5
            && !Contended(t, 3) && Contended(t', 3)
  {
    var t := OpenedTwice(devNull, flags);
    OpensTwice(devNull, flags);
    hide IsExcl, IsDev, Mode, Inv, Held;
    FirstFreeIs(t.slots, 5);
    hide FirstFree, Open;
    OpenCases(t, Device(2), flags, -1);
    AbandonedDiffers(t, 5);
    assert t.slots[4].dev == t.slots[3].dev == Some(Device(1));
  }

  /** And it may clear flags: modes set on a closed descriptor are lost when an
      open tries it and fails. */
  lemma FailedOpenDropsModes(devNull: Dev, dev: Dev, flags: bv32)
    ensures var t := Fcntl(Boot(devNull), 3, F_SETFL, 0x4000).0;
            && Inv(t) && t.slots[3].flags != 0
            && var (t', outcome) := Open(t, Some(dev), flags, -1);
            && outcome.Failed? && t'.slots[3] == Fd(None, 0) && t'.slots != t.slots
  {
    var t := Fcntl(Boot(devNull), 3, F_SETFL, 0x4000).0;
    BootInv(devNull);
    FcntlKeeps(Boot(devNull), 3, F_SETFL, 0x4000);
    SomeMode();
    NoMarks();
    hide IsExcl, IsDev, SetMode;
    FirstFreeIs(t.slots, 3);
    NobodyHolds(t, dev);
    hide Inv, FirstFree, Open, Held;
    OpenCases(t, dev, flags, -1);
  }

  lemma SomeMode()
    ensures SetMode(0, 0x4000) != 0
  {
  }

  lemma IoctlKeeps(t: Table, fd: int, req: Request, driver: Option<int>)
    requires Inv(t) && fd < MAX_FD
    ensures Inv(Ioctl(t, fd, req, driver).0)
  {
    if fd >= 0 && IsDev(t.slots[fd].flags) && req != OtherRequest {
      var t' := Ioctl(t, fd, req, driver).0;
      assert SlotOk(t.slots[fd]);
      hide IsExcl, IsDev;
      forall k | 0 <= k < MAX_FD ensures SlotOk(t'.slots[k]) {
        assert SlotOk(t.slots[k]);
      }
    }
  }

  /** Setting modes changes the two mode bits of one descriptor, and neither
      forges nor clears its marks. */
  lemma FcntlKeeps(t: Table, fd: int, cmd: Command, arg: bv32)
    requires Inv(t) && fd < MAX_FD
    ensures var t' := Fcntl(t, fd, cmd, arg).0;
            && Inv(t')
            && (forall k :: 0 <= k < MAX_FD ==>
                  && t'.slots[k].dev == t.slots[k].dev
                  && (IsExcl(t'.slots[k].flags) <==> IsExcl(t.slots[k].flags))
                  && (IsDev(t'.slots[k].flags) <==> IsDev(t.slots[k].flags))
                  && (k != fd ==> t'.slots[k] == t.slots[k]))
  {
    hide IsExcl, IsDev, SetMode;
    var t' := Fcntl(t, fd, cmd, arg).0;
    FcntlSlots(t, fd, cmd, arg);
    hide Fcntl;
    forall k | 0 <= k < MAX_FD ensures SlotOk(t'.slots[k]) {
      assert SlotOk(t.slots[k]);
    }
  }

  lemma FcntlSlots(t: Table, fd: int, cmd: Command, arg: bv32)
    requires Sized(t) && fd < MAX_FD
    ensures var t' := Fcntl(t, fd, cmd, arg).0;
            && Sized(t') && t'.maxFd == t.maxFd
            && forall k :: 0 <= k < MAX_FD ==>
                 && t'.slots[k].dev == t.slots[k].dev && (k != fd ==> t'.slots[k] == t.slots[k])
                 && (IsExcl(t'.slots[k].flags) <==> IsExcl(t.slots[k].flags))
                 && (IsDev(t'.slots[k].flags) <==> IsDev(t.slots[k].flags))
  {
    hide IsExcl, IsDev, SetMode;
  }

  lemma RedirectKeeps(t: Table, target: nat, found: Option<Dev>, flags: bv32, driver: int)
    requires Inv(t) && target < 3
    ensures Inv(Redirect(t, target, found, flags, driver))
  {
    hide IsExcl, IsDev;
    OpenKeeps(t, found, flags, driver);
    if found.Some? {
      OpenExactly(t, found.value, flags, driver);
      var (t', outcome) := Open(t, found, flags, driver);
      if outcome.Done? {
        MoveKeeps(t', target, outcome.rc);
      }
    }
  }

  lemma MoveKeeps(t: Table, target: nat, from: nat)
    requires Inv(t) && target < 3 <= from < MAX_FD && t.slots[from].dev.Some?
    requires !IsExcl(t.slots[from].flags)
    requires forall c: nat :: !Holds(t, c, t.slots[from].dev.value)
    ensures Inv(Release(t.(slots := t.slots[target := t.slots[from]]), from))
  {
    hide IsExcl, IsDev;
    NoMarks();
    var t' := Release(t.(slots := t.slots[target := t.slots[from]]), from);
    forall c, j | 0 <= c < MAX_FD && 0 <= j < MAX_FD && c != j
                  && IsExcl(t'.slots[c].flags) && t'.slots[c].dev == t'.slots[j].dev
      ensures c < j
    {
      assert c != target && c != from;
      assert SlotOk(t.slots[c]);
      assert j != target by { assert !Holds(t, c, t.slots[from].dev.value); }
    }
  }

  // ------------------------------------------------------------------
  // Every run
  // ------------------------------------------------------------------

  predicate LegalRun(t: Table, ops: seq<Op>)
    requires Sized(t)
    decreases |ops|
  {
    ops == [] || (Legal(t, ops[0]) && Sized(Step(t, ops[0])) && LegalRun(Step(t, ops[0]), ops[1..]))
  }

  function Run(t: Table, ops: seq<Op>): (t': Table)
    requires Sized(t) && LegalRun(t, ops)
    ensures Sized(t')
    decreases |ops|
  {
    if ops == [] then t else Run(Step(t, ops[0]), ops[1..])
  }

  lemma StepKeeps(t: Table, op: Op)
    requires Inv(t) && Legal(t, op)
    ensures Inv(Step(t, op))
  {
    hide Inv, Open, Ioctl, Fcntl, Redirect, Release;
    match op
    case DoOpen(found, flags, driver) => OpenKeeps(t, found, flags, driver);
    case DoClose(fd, driver) => if fd >= 0 { ReleaseKeeps(t, fd); }
    case DoIoctl(fd, req, driver) => IoctlKeeps(t, fd, req, driver);
    case DoFcntl(fd, cmd, arg) => FcntlKeeps(t, fd, cmd, arg);
    case DoRedirect(target, found, flags, driver) => RedirectKeeps(t, target, found, flags, driver);
  }

  lemma {:induction false} RunKeeps(t: Table, ops: seq<Op>)
    requires Inv(t) && LegalRun(t, ops)
    ensures Inv(Run(t, ops))
    decreases |ops|
  {
    hide Inv, Step;
    if ops != [] {
      StepKeeps(t, ops[0]);
      RunKeeps(Step(t, ops[0]), ops[1..]);
    }
  }

  /** In every table reached from reset, at most one descriptor holds a device. */
  lemma AtMostOneHolder(devNull: Dev, ops: seq<Op>, dev: Dev, c: nat, c': nat)
    requires LegalRun(Boot(devNull), ops)
    requires Holds(Run(Boot(devNull), ops), c, dev) && Holds(Run(Boot(devNull), ops), c', dev)
    ensures c == c'
  {
    hide IsExcl, IsDev, LegalRun, Run, Boot;
    BootInv(devNull);
    RunKeeps(Boot(devNull), ops);
  }

  /** The operations by which descriptor `c` may lose its device. */
  predicate LetsGo(op: Op, c: nat) {
    || (op.DoClose? && op.fd == c)
    || (op.DoIoctl? && op.fd == c && op.req == TIOCNXCL)
    || (op.DoRedirect? && op.target == c)
  }

  lemma StepHolds(t: Table, op: Op, c: nat, dev: Dev)
    requires Inv(t) && Legal(t, op) && Holds(t, c, dev) && !LetsGo(op, c)
    ensures Holds(Step(t, op), c, dev)
  {
    hide IsExcl, IsDev, HoldersLowest, FileLocked, Contended;
    match op
    case DoOpen(found, flags, driver) => OpenLeaves(t, found, flags, driver, c);
    case DoRedirect(target, found, flags, driver) => OpenLeaves(t, found, flags, driver, c);
    case _ =>
  }

  lemma OpenLeaves(t: Table, found: Option<Dev>, flags: bv32, driver: int, c: nat)
    requires Inv(t) && c < MAX_FD && t.slots[c].dev.Some?
    ensures var (t', outcome) := Open(t, found, flags, driver);
            && |t'.slots| == MAX_FD && t'.slots[c] == t.slots[c]
            && (outcome.Done? ==> c != outcome.rc && 3 <= outcome.rc < MAX_FD)
  {
    hide IsExcl, IsDev, HoldersLowest, FileLocked, SlotOk;
    FirstFreeIsHigh(t);
  }

  /** Once granted, a device stays with its holder, whatever anyone does, until
      the holder lets go of it; and all that time nobody can open the device. */
  lemma {:induction false} HeldThroughout(t: Table, ops: seq<Op>, c: nat, dev: Dev, flags: bv32, driver: int)
    requires Inv(t) && LegalRun(t, ops) && Holds(t, c, dev)
    requires forall i :: 0 <= i < |ops| ==> !LetsGo(ops[i], c)
    ensures Holds(Run(t, ops), c, dev)
    ensures Open(Run(t, ops), Some(dev), flags, driver).1.Failed?
    decreases |ops|
  {
    hide Step, IsExcl, IsDev, HoldersLowest, LetsGo;
    if ops == [] {
      assert SlotOk(t.slots[c]);
      hide Open;
      OpenExactly(t, dev, flags, driver);
    } else {
      StepHolds(t, ops[0], c, dev);
      StepKeeps(t, ops[0]);
      HeldThroughout(Step(t, ops[0]), ops[1..], c, dev, flags, driver);
    }
  }

  // ------------------------------------------------------------------
  // No descriptor is lost or handed out twice
  // ------------------------------------------------------------------

  function InUse(t: Table): set<int> {
    set i | 0 <= i < |t.slots| && t.slots[i].dev.Some?
  }

  /** The descriptor that `op` hands out, or takes back. */
  function Granted(t: Table, op: Op): set<int>
    requires Sized(t)
  {
    if op.DoOpen? then
      var outcome := Open(t, op.found, op.flags, op.driver).1;
      if outcome.Done? then {outcome.rc} else {}
    else {}
  }

  function Returned(op: Op): set<int> {
    if op.DoClose? && op.fd > 2 then {op.fd} else {}
  }

  lemma StepBalances(t: Table, op: Op)
    requires Inv(t) && Legal(t, op)
    ensures Granted(t, op) !! InUse(t) && Returned(op) <= InUse(t)
    ensures InUse(Step(t, op)) == InUse(t) + Granted(t, op) - Returned(op)
  {
    hide IsExcl, IsDev, HoldersLowest, FileLocked, Contended, SlotOk;
    match op
    case DoOpen(found, flags, driver) => OpenBalances(t, found, flags, driver);
    case DoRedirect(target, found, flags, driver) => OpenBalances(t, found, flags, driver);
    case DoClose(fd, driver) =>
    case DoIoctl(fd, req, driver) =>
    case DoFcntl(fd, cmd, arg) =>
  }

  lemma OpenBalances(t: Table, found: Option<Dev>, flags: bv32, driver: int)
    requires Inv(t)
    ensures var (t', outcome) := Open(t, found, flags, driver);
            && |t'.slots| == MAX_FD
            && (outcome.Done? ==> 3 <= outcome.rc < MAX_FD && outcome.rc !in InUse(t) && t'.slots[outcome.rc].dev.Some?)
            && InUse(t') == InUse(t) + (if outcome.Done? then {outcome.rc} else {})
  {
    hide IsExcl, IsDev, HoldersLowest, FileLocked, SlotOk;
    FirstFreeIsHigh(t);
  }

  function Count(t: Table, ops: seq<Op>): int
    requires Sized(t) && LegalRun(t, ops)
    decreases |ops|
  {
    if ops == [] then 0 else |Granted(t, ops[0])| - |Returned(ops[0])| + Count(Step(t, ops[0]), ops[1..])
  }

  /** Over every run, the descriptors in use grow by those handed out and
      shrink by those taken back: failed opens and redirections lose none. */
  lemma {:induction false} RunBalances(t: Table, ops: seq<Op>)
    requires Inv(t) && LegalRun(t, ops)
    ensures |InUse(Run(t, ops))| == |InUse(t)| + Count(t, ops)
    decreases |ops|
  {
    hide Inv, Step, InUse, Granted, Returned;
    if ops != [] {
      StepKeeps(t, ops[0]);
      StepBalances(t, ops[0]);
      RunBalances(Step(t, ops[0]), ops[1..]);
      var a, g, r := InUse(t), Granted(t, ops[0]), Returned(ops[0]);
      assert |a + g| == |a| + |g|;
      assert |a + g - r| == |a + g| - |r|;
    }
  }
}
