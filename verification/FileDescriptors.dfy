/** The routines of the file descriptor table, working in place. */
module FileDescriptors {
  import opened FileLaws
  import opened FileTable
  import opened Options

  class Descriptors {
    const list: array<Fd>
    var maxFd: int

    ghost function View(): Table
      reads this, list
    {
      Table(list[..], maxFd)
    }

    ghost predicate Valid()
      reads this, list
    {
      Inv(View())
    }

    constructor (devNull: Dev)
      ensures Valid() && View() == Boot(devNull) && fresh(list)
    {
      list := new Fd[MAX_FD](i => if i < 3 then Fd(Some(devNull), 0) else Fd(None, 0));
      maxFd := -1;
      new;
      assert list[..] == Boot(devNull).slots;
      BootInv(devNull);
    }

    /** Allocate the first free descriptor.  Its flags are left to the caller. */
    method GetFd(dev: Dev) returns (rc: int)
      requires Valid()
      modifies this`maxFd, list
      ensures var i := FirstFree(old(View()).slots, 0);
              if i == MAX_FD then rc == -1 && View() == old(View())
              else rc == i && View() == Allocate(old(View()), i, old(list[i]).(dev := Some(dev)))
    {
      hide Inv;
      rc := -1;
      for i := 0 to MAX_FD
        invariant View() == old(View()) && FirstFree(list[..], i) == FirstFree(list[..], 0)
      {
        if list[i].dev.None? {
          list[i] := list[i].(dev := Some(dev));
          if i > maxFd {
            maxFd := i;
          }
          return i;
        }
      }
    }

    method ReleaseFd(fd: int)
      requires Sized(View()) && fd < MAX_FD
      modifies list
      ensures View() == Release(old(View()), fd)
    {
      if fd > 2 {
        list[fd] := list[fd].(flags := 0);
        list[fd] := list[fd].(dev := None);
      }
    }

    /** Mark a descriptor as a device's, and look for a holder of the device.
        The scan compares unsigned: no descriptor allocated yet would send it
        over the end of the table. */
    method TestLocked(fd: nat) returns (rc: int)
      requires Sized(View()) && fd < MAX_FD && maxFd >= 0
      modifies list
      ensures View() == Remark(old(View()), fd, MarkDev(old(list[fd]).flags))
      ensures rc == if FileLocked(View(), fd) then -1 else 0
    {
      hide IsExcl, IsDev, MarkDev;
      list[fd] := list[fd].(flags := MarkDev(list[fd].flags));
      for i := 0 to maxFd + 1
        invariant View() == Remark(old(View()), fd, MarkDev(old(list[fd]).flags))
        invariant forall k :: 0 <= k < i && k != fd && list[k].dev == list[fd].dev ==> !IsExcl(list[k].flags)
      {
        if list[i].dev == list[fd].dev && IsExcl(list[i].flags) && i != fd {
          return -1;
        }
      }
      rc := 0;
    }

    method OpenFile(found: Option<Dev>, flags: bv32, driver: int) returns (outcome: Outcome)
      requires Valid()
      modifies this`maxFd, list
      ensures Valid() && (View(), outcome) == Open(old(View()), found, flags, driver)
    {
      OpenKeeps(View(), found, flags, driver);
      FirstFreeIsHigh(View());
      hide Inv, IsExcl, IsDev, MarkDev, Unmarked, FileLocked;
      match found
      case None =>
        ReleaseFd(-1);
        outcome := Failed(ENODEV);
      case Some(dev) =>
        var index := GetFd(dev);
        if index < 0 {
          ReleaseFd(index);
          outcome := Failed(EMFILE);
        } else {
          list[index] := list[index].(flags := Unmarked(flags));
          assert View() == Allocate(old(View()), index, Fd(found, Unmarked(flags)));
          var locked := 0;
          if dev.Device? {
            locked := TestLocked(index);
            assert View() == Allocate(old(View()), index, Fd(found, MarkDev(Unmarked(flags))));
          }
          if locked < 0 {
            outcome := Failed(EACCES);
            ReleaseFd(index);
          } else if driver < 0 {
            outcome := Failed(Driver(-driver));
            ReleaseFd(index);
          } else {
            outcome := Done(index);
          }
        }
    }

    /** Grant a lock unless another descriptor of the device is in use. */
    method Lock(fd: nat) returns (rc: int)
      requires Sized(View()) && fd < MAX_FD
      modifies list
      ensures if Contended(old(View()), fd) then rc < 0 && View() == old(View())
              else rc == 0 && View() == Remark(old(View()), fd, MarkExcl(old(list[fd]).flags))
    {
      hide IsExcl, IsDev, MarkExcl;
      for i := 0 to if maxFd < 0 then 0 else maxFd
        invariant View() == old(View())
        invariant forall k :: 0 <= k < i && k != fd ==> list[k].dev != list[fd].dev
      {
        if i != fd && list[i].dev == list[fd].dev {
          return -1;
        }
      }
      list[fd] := list[fd].(flags := MarkExcl(list[fd].flags));
      rc := 0;
    }

    method Unlock(fd: nat) returns (rc: int)
      requires Sized(View()) && fd < MAX_FD
      modifies list
      ensures rc == 0 && View() == Remark(old(View()), fd, ClearExcl(old(list[fd]).flags))
    {
      hide IsExcl, IsDev, ClearExcl;
      list[fd] := list[fd].(flags := ClearExcl(list[fd].flags));
      rc := 0;
    }

    method CloseFile(fd: int, driver: int) returns (outcome: Outcome)
      requires Valid() && Legal(View(), DoClose(fd, driver))
      modifies list
      ensures Valid() && (View(), outcome) == Close(old(View()), fd, driver)
    {
      StepKeeps(View(), DoClose(fd, driver));
      hide Inv;
      if fd < 0 {
        return Failed(EBADFD);
      }
      ReleaseFd(fd);
      if driver < 0 {
        return Failed(Driver(-driver));
      }
      outcome := Done(0);
    }

    method Control(fd: int, req: Request, driver: Option<int>) returns (outcome: Outcome)
      requires Valid() && Legal(View(), DoIoctl(fd, req, driver))
      modifies list
      ensures Valid() && (View(), outcome) == Ioctl(old(View()), fd, req, driver)
    {
      StepKeeps(View(), DoIoctl(fd, req, driver));
      hide Inv, IsExcl, IsDev, MarkExcl, ClearExcl, Contended;
      if fd < 0 {
        return Failed(EBADFD);
      }
      if IsDev(list[fd].flags) && req == TIOCEXCL {
        var rc := Lock(fd);
        return if rc < 0 then Failed(EACCES) else Done(0);
      }
      if IsDev(list[fd].flags) && req == TIOCNXCL {
        var rc := Unlock(fd);
        return Done(0);
      }
      match driver
      case None => outcome := Failed(ENOTTY);
      case Some(rc) => outcome := if rc < 0 then Failed(Driver(-rc)) else Done(rc);
    }

    method ChangeModes(fd: nat, arg: bv32)
      requires Sized(View()) && fd < MAX_FD
      modifies list
      ensures View() == Remark(old(View()), fd, SetMode(old(list[fd].flags), arg))
    {
      SetModeSteps(list[fd].flags, arg);
      hide IsExcl, IsDev, ClearModes, AddModes, SetMode;
      ghost var was := list[..];
      list[fd] := list[fd].(flags := ClearModes(list[fd].flags));
      list[fd] := list[fd].(flags := AddModes(list[fd].flags, arg));
      assert list[..] == was[fd := was[fd].(flags := SetMode(was[fd].flags, arg))];
    }

    method SetModes(fd: int, cmd: Command, arg: bv32) returns (outcome: Outcome)
      requires Valid() && fd < MAX_FD
      modifies list
      ensures Valid() && (View(), outcome) == Fcntl(old(View()), fd, cmd, arg)
    {
      StepKeeps(View(), DoFcntl(fd, cmd, arg));
      hide Inv, IsExcl, IsDev, Unmarked, SetMode;
      if fd < 0 {
        return Failed(EBADFD);
      }
      match cmd
      case F_GETFL => outcome := Flags(Unmarked(list[fd].flags));
      case F_SETFL =>
        ChangeModes(fd, arg);
        outcome := Done(0);
      case OtherCommand => outcome := Failed(EINVAL);
    }

    /** Copy one descriptor over another and free it. */
    method Move(target: nat, from: nat)
      requires Sized(View()) && target < MAX_FD && from < MAX_FD
      modifies list
      ensures Sized(View())
      ensures var t := old(View()); View() == Release(t.(slots := t.slots[target := t.slots[from]]), from)
    {
      ghost var was := list[..];
      list[target] := list[target].(dev := list[from].dev);
      list[target] := list[target].(flags := list[from].flags);
      assert list[..] == was[target := was[from]];
      hide Release;
      ReleaseFd(from);
    }

    method RedirectTo(target: nat, found: Option<Dev>, flags: bv32, driver: int)
      requires Valid() && target < 3
      modifies this`maxFd, list
      ensures Valid() && View() == Redirect(old(View()), target, found, flags, driver)
    {
      RedirectKeeps(View(), target, found, flags, driver);
      OpenBalances(View(), found, flags, driver);
      hide Inv, Open, Release;
      var outcome := OpenFile(found, flags, driver);
      if outcome.Done? {
        Move(target, outcome.rc);
      }
    }

    /** Redirect standard output, input and error. */
    method RedirectStreams(out: Stream, input: Stream, error: Stream)
      requires Valid()
      modifies this`maxFd, list
      ensures Valid() && View() == RedirectAll(old(View()), out, input, error)
    {
      hide Inv, Redirect;
      RedirectTo(1, out.found, O_WRONLY, out.driver);
      RedirectTo(0, input.found, O_RDONLY, input.driver);
      RedirectTo(2, error.found, O_WRONLY, error.driver);
    }
  }
}
