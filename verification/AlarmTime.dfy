/** One alarm's arithmetic: a 32-bit time and a rollover flag, on a clock that
    wraps, stand for a tick of a clock that never does. */
module AlarmTime {

  const WRAP: nat := 0x1_0000_0000

  /** What the tick routine tests, after clearing the flag if it may. */
  predicate Expired(time: nat, flag: bool, nticks: nat) {
    time <= nticks && !flag
  }

  /** The flag after a tick that leaves the counter at `nticks`. */
  function FlagAt(flag: bool, nticks: nat): bool {
    if flag && nticks == 0 then false else flag
  }

  // What starting an alarm sets.
  function StartTime(nticks: nat, n: nat): nat { (n + nticks + 1) % WRAP }
  function StartFlag(nticks: nat, n: nat): bool { StartTime(nticks, n) < nticks }

  // What a callback that asks for `c` more ticks leaves set.
  function RearmTime(time: nat, c: nat): nat { (time + c) % WRAP }
  function RearmFlag(time: nat, flag: bool, c: nat, nticks: nat): bool {
    flag || RearmTime(time, c) < nticks
  }

  /** The tick at which an alarm with these fields next expires, `now` ticks
      after reset.  A flagged alarm waits for the counter's next epoch; so does
      one at the last tick of an epoch, since the counter then starts again. */
  function Due(time: nat, flag: bool, now: nat): nat {
    var epoch, r := now / WRAP * WRAP, now % WRAP;
    if flag || r == WRAP - 1 then epoch + WRAP + time
    else if time <= r then now + 1
    else epoch + time
  }

  lemma DueLater(time: nat, flag: bool, now: nat)
    ensures Due(time, flag, now) > now
  {
  }

  lemma NextTick(now: nat)
    ensures now % WRAP == WRAP - 1 ==> (now + 1) % WRAP == 0 && (now + 1) / WRAP == now / WRAP + 1
    ensures now % WRAP != WRAP - 1 ==> (now + 1) % WRAP == now % WRAP + 1 && (now + 1) / WRAP == now / WRAP
  {
  }

  /** The tick after `now` fires the alarm exactly when it is due then, and
      otherwise leaves it due when it was: whatever its fields are. */
  lemma TickKeepsDue(time: nat, flag: bool, now: nat)
    requires time < WRAP
    ensures var nticks := (now + 1) % WRAP;
            && (Expired(time, FlagAt(flag, nticks), nticks) <==> Due(time, flag, now) == now + 1)
            && (Due(time, flag, now) != now + 1 ==> Due(time, FlagAt(flag, nticks), now + 1) == Due(time, flag, now))
  {
    NextTick(now);
  }

  // ------------------------------------------------------------------
  // When an alarm first fires
  // ------------------------------------------------------------------

  /** Left alone from tick `now` on, the alarm fires at tick `due` and at no
      tick before it. */
  predicate FirstFiresAt(time: nat, flag: bool, now: nat, due: nat)
    requires now < due
    decreases due - now
  {
    var nticks := (now + 1) % WRAP;
    var f := FlagAt(flag, nticks);
    if now + 1 == due then Expired(time, f, nticks)
    else !Expired(time, f, nticks) && FirstFiresAt(time, f, now + 1, due)
  }

  lemma {:induction false} FiresWhenDue(time: nat, flag: bool, now: nat)
    requires time < WRAP
    ensures Due(time, flag, now) > now && FirstFiresAt(time, flag, now, Due(time, flag, now))
    decreases Due(time, flag, now) - now
  {
    DueLater(time, flag, now);
    TickKeepsDue(time, flag, now);
    hide Due, Expired, FlagAt;
    if Due(time, flag, now) != now + 1 {
      FiresWhenDue(time, FlagAt(flag, (now + 1) % WRAP), now + 1);
    }
  }

  lemma Remainders(now: nat, n: nat)
    requires n < WRAP
    ensures (now % WRAP + n) % WRAP == if now % WRAP + n < WRAP then now % WRAP + n else now % WRAP + n - WRAP
    ensures (now % WRAP + n) % WRAP == (now + n) % WRAP
  {
  }

  /** An alarm started at tick `now` for `n` ticks, any 32-bit number, is due at
      tick now + n + 1, as promised, except in one case: the longest interval,
      asked for at any tick but the last of an epoch, has the same 32-bit time
      as the present tick, and is due at once. */
  lemma StartDue(now: nat, n: nat)
    requires n < WRAP
    ensures var due := Due(StartTime(now % WRAP, n), StartFlag(now % WRAP, n), now);
            && (due == now + n + 1 <==> n != WRAP - 1 || now % WRAP == WRAP - 1)
            && (due != now + n + 1 ==> due == now + 1)
  {
    var r := now % WRAP;
    if n < WRAP - 1 {
      Remainders(now, n + 1);
    } else {
      assert StartTime(r, n) == r;
    }
  }

  /** In the same cases the alarm's time is the tick it is due at, as the counter
      will show it. */
  lemma StartPunctual(now: nat, n: nat)
    requires n < WRAP
    ensures var time, flag := StartTime(now % WRAP, n), StartFlag(now % WRAP, n);
            Due(time, flag, now) % WRAP == time <==> n != WRAP - 1 || now % WRAP == WRAP - 1
  {
    var r := now % WRAP;
    DuePunctual(StartTime(r, n), StartFlag(r, n), now);
    hide Due;
    if n < WRAP - 1 {
      Remainders(now, n + 1);
    } else {
      assert StartTime(r, n) == r;
    }
  }

  /** The failing case, at the first tick after reset. */
  lemma LongestIntervalFiresAtOnce()
    ensures Due(StartTime(0, WRAP - 1), StartFlag(0, WRAP - 1), 0) == 1
    ensures FirstFiresAt(StartTime(0, WRAP - 1), StartFlag(0, WRAP - 1), 0, 1)
  {
  }

  /** A callback served at tick `now`, and asking for `c` more ticks, is due again
      exactly `c` ticks on if and only if the counter shows the alarm's own time;
      or if it shows the time after, the callback asked for one tick, and this is
      not the last tick of an epoch. */
  lemma RearmDue(time: nat, now: nat, c: nat)
    requires time <= now % WRAP && 0 < c < WRAP
    ensures var r := now % WRAP;
            Due(RearmTime(time, c), RearmFlag(time, false, c, r), now) == now + c
            <==> time == r || (r == time + 1 && c == 1 && r != WRAP - 1)
  {
    var r, epoch := now % WRAP, now / WRAP * WRAP;
    assert now == epoch + r;
    if time + c < WRAP {
      assert RearmTime(time, c) == time + c;
    } else {
      assert RearmTime(time, c) == time + c - WRAP;
    }
  }

  /** Served at its own time, it keeps it: the new time is the tick it is due at,
      as the counter will show it. */
  lemma RearmKeepsTime(now: nat, c: nat)
    requires c < WRAP
    ensures RearmTime(now % WRAP, c) == (now + c) % WRAP
  {
    Remainders(now, c);
  }

  /** The counter shows the alarm's own time when it is due, unless its time was
      already past when it was set. */
  lemma DuePunctual(time: nat, flag: bool, now: nat)
    requires time < WRAP
    ensures Due(time, flag, now) % WRAP == time <==> flag || time > now % WRAP || now % WRAP == WRAP - 1
  {
    var epoch, r := now / WRAP * WRAP, now % WRAP;
    assert (epoch + WRAP + time) % WRAP == time && (epoch + time) % WRAP == time;
    NextTick(now);
  }
}
