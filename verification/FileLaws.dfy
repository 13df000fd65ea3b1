/** What each operation on descriptors answers and leaves, said slot by slot and
    bit by bit. */
module FileLaws {
  import opened Options
  import opened FileTable

  /** Nothing but slot `k` changes, and the high-water mark does not. */
  predicate OnlySlot(t: Table, t': Table, k: nat) {
    && |t.slots| == |t'.slots| && t'.maxFd == t.maxFd
    && forall j :: 0 <= j < |t.slots| && j != k ==> t'.slots[j] == t.slots[j]
  }

  predicate AnyFree(t: Table) {
    exists k :: 0 <= k < |t.slots| && t.slots[k].dev.None?
  }

  // ------------------------------------------------------------------
  // Opening
  // ------------------------------------------------------------------

  /** What open answers, in the order in which the source looks. */
  lemma OpenAnswers(t: Table, found: Option<Dev>, flags: bv32, driver: int)
    requires Inv(t)
    ensures var outcome := Open(t, found, flags, driver).1;
            && (found.None? ==> outcome == Failed(ENODEV))
            && (found.Some? && !AnyFree(t) ==> outcome == Failed(EMFILE))
            && (found.Some? && AnyFree(t) && Held(t, found.value) ==> outcome == Failed(EACCES))
            && (found.Some? && AnyFree(t) && !Held(t, found.value) && driver < 0 ==> outcome == Failed(Driver(-driver)))
            && (found.Some? && AnyFree(t) && !Held(t, found.value) && driver >= 0 ==> outcome.Done?)
  {
    if found.Some? {
      OpenCases(t, found.value, flags, driver);
      hide Open, Inv, Held, Abandoned, Allocate;
    }
  }

  /** An opened descriptor is the lowest free one.  It has the flags asked for,
      but for the top two bits: it is marked as a device's exactly if it is, and
      is never locked. */
  lemma OpenedBits(t: Table, dev: Dev, flags: bv32, driver: int)
    requires Inv(t) && Open(t, Some(dev), flags, driver).1.Done?
    ensures var (t', outcome) := Open(t, Some(dev), flags, driver);
            var i := outcome.rc;
            && 3 <= i < MAX_FD && |t'.slots| == MAX_FD
            && t.slots[i].dev.None? && (forall k :: 0 <= k < i ==> t.slots[k].dev.Some?)
            && t'.slots[i].dev == Some(dev)
            && Rest(t'.slots[i].flags) == Rest(flags)
            && Marks(t'.slots[i].flags) == (if dev.Device? then 0x4000_0000 else 0)
            && (forall j :: 0 <= j < MAX_FD && j != i ==> t'.slots[j] == t.slots[j])
            && t'.maxFd == if i > t.maxFd then i else t.maxFd
  {
    OpenCases(t, dev, flags, driver);
    hide Open, Inv, Held, Abandoned, Mode, IsExcl, IsDev, Marks, Rest;
    ModeLiteral(dev, flags);
  }

  // The two marks of a descriptor's flags, and the rest.
  function Marks(f: bv32): bv32 { f & 0xc000_0000 }
  function Rest(f: bv32): bv32 { f & 0x3fff_ffff }

  lemma ModeLiteral(dev: Dev, flags: bv32)
    ensures Rest(Mode(dev, flags)) == Rest(flags)
    ensures Marks(Mode(dev, flags)) == if dev.Device? then 0x4000_0000 else 0
  {
    hide IsExcl, IsDev, MarkDev, Unmarked, Marks, Rest;
    UnmarkedLiteral(flags);
    MarkDevLiteral(Unmarked(flags));
  }

  lemma UnmarkedLiteral(f: bv32)
    ensures Marks(Unmarked(f)) == 0
    ensures Rest(Unmarked(f)) == Rest(f)
  {
    hide IsExcl, IsDev;
  }

  lemma MarkDevLiteral(f: bv32)
    ensures Marks(f) == 0 ==> Marks(MarkDev(f)) == 0x4000_0000
    ensures Rest(MarkDev(f)) == Rest(f)
  {
    hide IsExcl, IsDev;
  }

  // ------------------------------------------------------------------
  // Locking
  // ------------------------------------------------------------------

  // The lock of a descriptor, and the rest of its flags.
  predicate LockBit(f: bv32) { f & 0x8000_0000 != 0 }
  function NoLock(f: bv32): bv32 { f & 0x7fff_ffff }

  predicate Locked(fd: Fd) { LockBit(fd.flags) }

  /** A granted lock sets the top bit of the one descriptor, and nothing else. */
  lemma LockSets(t: Table, fd: nat, driver: Option<int>)
    requires Inv(t) && fd < MAX_FD && IsDev(t.slots[fd].flags)
    requires Ioctl(t, fd, TIOCEXCL, driver).1 == Done(0)
    ensures var t' := Ioctl(t, fd, TIOCEXCL, driver).0;
            && OnlySlot(t, t', fd) && t'.slots[fd].dev == t.slots[fd].dev && Locked(t'.slots[fd])
            && NoLock(t'.slots[fd].flags) == NoLock(t.slots[fd].flags)
  {
    MarkLiteral(t.slots[fd].flags);
    hide IsDev, IsExcl, Contended, MarkExcl, LockBit, NoLock;
  }

  lemma MarkLiteral(f: bv32)
    ensures LockBit(MarkExcl(f)) && NoLock(MarkExcl(f)) == NoLock(f)
  {
    hide IsExcl, IsDev;
  }

  lemma ClearLiteral(f: bv32)
    ensures !LockBit(ClearExcl(f)) && NoLock(ClearExcl(f)) == NoLock(f)
  {
    hide IsExcl, IsDev;
  }

  /** Releasing a lock always succeeds: the descriptor no longer holds its device,
      its other flags and all other descriptors are as before. */
  lemma ReleaseClears(t: Table, fd: nat, driver: Option<int>)
    requires Inv(t) && fd < MAX_FD && IsDev(t.slots[fd].flags)
    ensures var (t', outcome) := Ioctl(t, fd, TIOCNXCL, driver);
            && outcome == Done(0) && Inv(t')
            && OnlySlot(t, t', fd) && t'.slots[fd].dev == t.slots[fd].dev && !Locked(t'.slots[fd])
            && NoLock(t'.slots[fd].flags) == NoLock(t.slots[fd].flags)
  {
    IoctlKeeps(t, fd, TIOCNXCL, driver);
    ClearLiteral(t.slots[fd].flags);
    hide IsDev, IsExcl, Inv, Contended, ClearExcl, LockBit, NoLock;
  }

  lemma LockedIsExcl(fd: Fd)
    ensures Locked(fd) <==> IsExcl(fd.flags)
  {
  }

  /** Once its holder has released it, nobody holds the device, and it can be
      opened again if a descriptor is free and its driver agrees. */
  lemma ReleasedOpens(t: Table, fd: nat, dev: Dev, flags: bv32, driver: int, own: Option<int>)
    requires Inv(t) && Holds(t, fd, dev)
    ensures var t' := Ioctl(t, fd, TIOCNXCL, own).0;
            !Held(t', dev) && (AnyFree(t) && driver >= 0 ==> Open(t', Some(dev), flags, driver).1.Done?)
  {
    assert SlotOk(t.slots[fd]);
    var t' := Ioctl(t, fd, TIOCNXCL, own).0;
    ReleaseClears(t, fd, own);
    LockedIsExcl(t'.slots[fd]);
    SoleHolder(t, t', fd, dev);
    SameFree(t, t', fd);
    hide Ioctl, Inv, Open, Held, Holds, Locked, IsExcl, IsDev;
    OpenAnswers(t', Some(dev), flags, driver);
  }

  lemma SoleHolder(t: Table, t': Table, fd: nat, dev: Dev)
    requires Inv(t) && Holds(t, fd, dev) && OnlySlot(t, t', fd)
    requires t'.slots[fd].dev == t.slots[fd].dev || t'.slots[fd].dev.None?
    requires !IsExcl(t'.slots[fd].flags)
    ensures !Held(t', dev)
  {
    hide IsExcl, IsDev, SlotOk;
    forall c: nat ensures !Holds(t', c, dev) {
      assert c < |t.slots| && c != fd ==> t'.slots[c] == t.slots[c];
    }
  }

  lemma SameFree(t: Table, t': Table, fd: nat)
    requires OnlySlot(t, t', fd) && fd < |t.slots| && t'.slots[fd].dev == t.slots[fd].dev
    ensures AnyFree(t') <==> AnyFree(t)
  {
    forall k | 0 <= k < |t.slots| ensures t'.slots[k].dev == t.slots[k].dev {
    }
    if AnyFree(t) {
      var k :| 0 <= k < |t.slots| && t.slots[k].dev.None?;
      assert t'.slots[k].dev.None?;
    }
  }

  /** From reset: opened, locked, opened in vain, released, and opened again. */
  lemma LockedThenReleased(devNull: Dev, flags: bv32)
    requires devNull != Device(1)
    ensures var (t1, first) := Open(Boot(devNull), Some(Device(1)), flags, 0);
            && first == Done(3) && Sized(t1)
            && var (t2, lock) := Ioctl(t1, 3, TIOCEXCL, None);
            && lock == Done(0) && Sized(t2) && Open(t2, Some(Device(1)), flags, 0).1 == Failed(EACCES)
            && var (t3, release) := Ioctl(t2, 3, TIOCNXCL, None);
            && release == Done(0) && Sized(t3) && Open(t3, Some(Device(1)), flags, 0).1 == Done(4)
  {
    OpensTwice(devNull, flags);
    FirstIsOpen(devNull, flags);
    var t1 := OpenedOnce(devNull, flags);
    hide Open, Ioctl, Inv, Held, Holds, Locked, IsExcl, IsDev, OpenedOnce, OpenedTwice, OnlySlot, Boot;
    hide Contended, Sized, AnyFree;
    LockAndRelease(t1, flags);
  }

  /** A table in which the lowest free descriptor is 4 and only 3 has the device. */
  predicate LoneUser(t: Table) {
    && Inv(t) && IsDev(t.slots[3].flags) && t.slots[3].dev == Some(Device(1)) && t.slots[4].dev.None?
    && forall k :: 0 <= k < 3 ==> t.slots[k].dev.Some?
  }

  lemma FirstIsOpen(devNull: Dev, flags: bv32)
    requires devNull != Device(1)
    ensures LoneUser(OpenedOnce(devNull, flags)) && !Contended(OpenedOnce(devNull, flags), 3)
  {
    OpensTwice(devNull, flags);
    hide IsDev, IsExcl, Open, OpenedTwice, Held, Mode;
  }

  lemma LockAndRelease(t1: Table, flags: bv32)
    requires LoneUser(t1) && !Contended(t1, 3)
    ensures var (t2, lock) := Ioctl(t1, 3, TIOCEXCL, None);
            && lock == Done(0) && Sized(t2) && Open(t2, Some(Device(1)), flags, 0).1 == Failed(EACCES)
            && var (t3, release) := Ioctl(t2, 3, TIOCNXCL, None);
            && release == Done(0) && Sized(t3) && Open(t3, Some(Device(1)), flags, 0).1 == Done(4)
  {
    var (t2, lock) := Ioctl(t1, 3, TIOCEXCL, None);
    LockExactly(t1, 3, None);
    IoctlKeeps(t1, 3, TIOCEXCL, None);
    assert lock == Done(0);
    assert LoneUser(t2) && Holds(t2, 3, Device(1)) && AnyFree(t2);
    hide Ioctl, Holds, Held, Open, Locked, IsExcl, IsDev, Contended, Mode;
    assert Held(t2, Device(1)) by { HeldBy(t2, 3, Device(1)); }
    OpenAnswers(t2, Some(Device(1)), flags, 0);
    ReleaseClears(t2, 3, None);
    ReleasedOpens(t2, 3, Device(1), flags, 0, None);
    OpenedBits(Ioctl(t2, 3, TIOCNXCL, None).0, Device(1), flags, 0);
  }

  lemma HeldBy(t: Table, c: nat, dev: Dev)
    requires Holds(t, c, dev) && dev.Device?
    ensures Held(t, dev)
  {
  }

  /** Any other request is the driver's to answer, and changes nothing. */
  lemma DriverAnswers(t: Table, fd: int, req: Request, driver: Option<int>)
    requires Inv(t) && fd < MAX_FD
    ensures fd < 0 ==> Ioctl(t, fd, req, driver) == (t, Failed(EBADFD))
    ensures fd >= 0 && (req == OtherRequest || t.slots[fd].flags & 0x4000_0000 == 0) ==>
              var (t', outcome) := Ioctl(t, fd, req, driver);
              && t' == t
              && (driver.None? ==> outcome == Failed(ENOTTY))
              && (driver.Some? && driver.value < 0 ==> outcome == Failed(Driver(-driver.value)))
              && (driver.Some? && driver.value >= 0 ==> outcome == Done(driver.value))
  {
  }

  // ------------------------------------------------------------------
  // Modes
  // ------------------------------------------------------------------

  // The two modes of a descriptor's flags, and the rest.
  function Modes(f: bv32): bv32 { f & 0x4008 }
  function NoModes(f: bv32): bv32 { f & 0xffff_bff7 }

  /** Asked for its modes, a descriptor answers its flags without the two marks;
      told them, it takes exactly two bits; and nothing else is known. */
  lemma FcntlAnswers(t: Table, fd: int, cmd: Command, arg: bv32)
    requires Inv(t) && fd < MAX_FD
    ensures var (t', outcome) := Fcntl(t, fd, cmd, arg);
            && (fd < 0 ==> t' == t && outcome == Failed(EBADFD))
            && (fd >= 0 && cmd == F_GETFL ==>
                  && t' == t && outcome.Flags?
                  && Marks(outcome.flags) == 0 && Rest(outcome.flags) == Rest(t.slots[fd].flags))
            && (fd >= 0 && cmd == F_SETFL ==>
                  && outcome == Done(0) && OnlySlot(t, t', fd) && t'.slots[fd].dev == t.slots[fd].dev
                  && Modes(t'.slots[fd].flags) == Modes(arg)
                  && NoModes(t'.slots[fd].flags) == NoModes(t.slots[fd].flags))
            && (fd >= 0 && cmd == OtherCommand ==> t' == t && outcome == Failed(EINVAL))
  {
    hide SetMode, Unmarked, IsDev, IsExcl, Marks, Rest, Modes, NoModes, SlotOk, HoldersLowest;
    if fd >= 0 {
      SetLiteral(t.slots[fd].flags, arg);
      UnmarkedLiteral(t.slots[fd].flags);
    }
  }

  lemma SetLiteral(f: bv32, arg: bv32)
    ensures Modes(SetMode(f, arg)) == Modes(arg)
    ensures NoModes(SetMode(f, arg)) == NoModes(f)
  {
    hide IsExcl, IsDev;
  }

  // ------------------------------------------------------------------
  // Closing
  // ------------------------------------------------------------------

  /** Closing frees the descriptor whatever its driver answers, but for the three
      standard ones, which stay; a holder's device is then free for others. */
  lemma CloseAnswers(t: Table, fd: int, driver: int)
    requires Inv(t) && fd < MAX_FD
    ensures var (t', outcome) := Close(t, fd, driver);
            && Inv(t')
            && (fd < 0 ==> t' == t && outcome == Failed(EBADFD))
            && (fd >= 0 ==> outcome == if driver < 0 then Failed(Driver(-driver)) else Done(0))
            && (0 <= fd < 3 ==> t' == t)
            && (fd >= 3 ==> OnlySlot(t, t', fd) && t'.slots[fd] == Fd(None, 0))
            && (fd >= 3 && t.slots[fd].dev.Some? && Holds(t, fd, t.slots[fd].dev.value) ==>
                  !Held(t', t.slots[fd].dev.value))
  {
    ReleaseKeeps(t, fd);
    if fd >= 3 && t.slots[fd].dev.Some? && Holds(t, fd, t.slots[fd].dev.value) {
      NoMarks();
      SoleHolder(t, Close(t, fd, driver).0, fd, t.slots[fd].dev.value);
    }
    hide Inv, Held, Holds, IsExcl, IsDev;
  }

  // ------------------------------------------------------------------
  // Redirecting
  // ------------------------------------------------------------------

  /** If the device can be opened, the standard descriptor has it afterwards, with
      the flags asked for and no lock; the descriptor it was opened on is free
      and clear, and the others are as they were.  If not, only what a failed
      open leaves is left. */
  lemma RedirectExactly(t: Table, target: nat, found: Option<Dev>, flags: bv32, driver: int)
    requires Inv(t) && target < 3
    ensures var t' := Redirect(t, target, found, flags, driver);
            if found.Some? && AnyFree(t) && !Held(t, found.value) && driver >= 0 then
              && |t'.slots| == MAX_FD && t'.slots[target].dev == found
              && Rest(t'.slots[target].flags) == Rest(flags)
              && Marks(t'.slots[target].flags) == (if found.value.Device? then 0x4000_0000 else 0)
              && exists i ::
                   && 3 <= i < MAX_FD && t.slots[i].dev.None? && (forall k :: 0 <= k < i ==> t.slots[k].dev.Some?)
                   && t'.slots[i] == Fd(None, 0)
                   && (forall k :: 0 <= k < MAX_FD && k != target && k != i ==> t'.slots[k] == t.slots[k])
                   && t'.maxFd == (if i > t.maxFd then i else t.maxFd)
            else t' == Open(t, found, flags, driver).0
  {
    OpenAnswers(t, found, flags, driver);
    var (t', outcome) := Open(t, found, flags, driver);
    if outcome.Done? {
      OpenedBits(t, found.value, flags, driver);
      hide Open, Inv, Held;
      var i := outcome.rc;
      assert Redirect(t, target, found, flags, driver).slots[i] == Fd(None, 0);
    } else {
      hide Open, Inv, Held;
    }
  }

  // ------------------------------------------------------------------
  // Starting up
  // ------------------------------------------------------------------

  /** What a standard stream is to be sent to, if the name resolves, and the
      answer of that device's open routine. */
  datatype Stream = Stream(found: Option<Dev>, driver: int) {
    predicate Opens() { found.Some? && driver >= 0 }
  }

  const O_RDONLY: bv32 := 0
  const O_WRONLY: bv32 := 1

  /** Standard output, input and error are redirected, in this order. */
  function RedirectAll(t: Table, out: Stream, input: Stream, error: Stream): Table
    requires Inv(t)
  {
    var t1 := Redirect(t, 1, out.found, O_WRONLY, out.driver);
    RedirectKeeps(t, 1, out.found, O_WRONLY, out.driver);
    var t2 := Redirect(t1, 0, input.found, O_RDONLY, input.driver);
    RedirectKeeps(t1, 0, input.found, O_RDONLY, input.driver);
    Redirect(t2, 2, error.found, O_WRONLY, error.driver)
  }

  /** Only the three standard descriptors are in use, and nothing is locked. */
  predicate StandardOnly(t: Table) {
    && Inv(t)
    && (forall k :: 3 <= k < MAX_FD ==> t.slots[k] == Fd(None, 0))
    && (forall k :: 0 <= k < MAX_FD ==> !Locked(t.slots[k]))
  }

  lemma RedirectOne(t: Table, target: nat, s: Stream, flags: bv32)
    requires StandardOnly(t) && target < 3
    ensures var t' := Redirect(t, target, s.found, flags, s.driver);
            && StandardOnly(t')
            && t'.slots[target].dev == (if s.Opens() then s.found else t.slots[target].dev)
            && (forall k :: 0 <= k < 3 && k != target ==> t'.slots[k] == t.slots[k])
  {
    RedirectKeeps(t, target, s.found, flags, s.driver);
    RedirectExactly(t, target, s.found, flags, s.driver);
    if s.found.Some? {
      NoneHolds(t, s.found.value);
      assert t.slots[3].dev.None?;
      OpenCases(t, s.found.value, flags, s.driver);
      hide Open, Redirect, Held;
      if s.Opens() {
        var t' := Redirect(t, target, s.found, flags, s.driver);
        NotLocked(t'.slots[target]);
      }
    }
    NotLocked(Fd(None, 0));
    hide Open, Redirect, Held, Inv, Locked, Marks, Rest;
  }

  lemma NotLocked(fd: Fd)
    ensures Marks(fd.flags) == 0 || Marks(fd.flags) == 0x4000_0000 || fd.flags == 0 ==> !Locked(fd)
  {
  }

  lemma NoneHolds(t: Table, dev: Dev)
    requires forall k :: 0 <= k < |t.slots| ==> !Locked(t.slots[k])
    ensures !Held(t, dev)
  {
    forall k | 0 <= k < |t.slots| ensures !IsExcl(t.slots[k].flags) {
      LockedIsExcl(t.slots[k]);
    }
    NobodyHolds(t, dev);
  }

  /** After start-up every standard stream whose device could be opened goes to
      it, the others still go to the null device, and no other descriptor is in use. */
  lemma StartsUp(devNull: Dev, out: Stream, input: Stream, error: Stream)
    ensures Inv(Boot(devNull))
    ensures var t := RedirectAll(Boot(devNull), out, input, error);
            && StandardOnly(t)
            && t.slots[1].dev == (if out.Opens() then out.found else Some(devNull))
            && t.slots[0].dev == (if input.Opens() then input.found else Some(devNull))
            && t.slots[2].dev == (if error.Opens() then error.found else Some(devNull))
  {
    BootInv(devNull);
    var t := Boot(devNull);
    NotLocked(Fd(None, 0));
    NotLocked(Fd(Some(devNull), 0));
    hide Inv, Redirect, Locked;
    RedirectOne(t, 1, out, O_WRONLY);
    var t1 := Redirect(t, 1, out.found, O_WRONLY, out.driver);
    RedirectOne(t1, 0, input, O_RDONLY);
    var t2 := Redirect(t1, 0, input.found, O_RDONLY, input.driver);
    RedirectOne(t2, 2, error, O_WRONLY);
  }
}
