/** The system clock: starting and stopping alarms, and the tick routine that
    walks the list and calls back while the list may change under it. */
module AlarmClock {
  import opened AlarmList
  import opened AlarmTime
  import opened AlarmTick
  import opened AlarmRuns
  import opened AlarmWalk

  datatype Status = Ok | NotSupported | InvalidArgument

  class Clock {
    const list: List
    var tickRate: nat
    /** The 32-bit tick counter, and the number of ticks since reset. */
    var nticks: nat
    ghost var elapsed: nat

    ghost predicate Valid()
      reads this, list, list.head, list.pool
    {
      && list.Valid() && nticks == elapsed % WRAP
      && forall a :: a in list.pool ==> a.time < WRAP
    }

    /** The list, and the fields of every alarm. */
    ghost function View(): Plan
      reads this, list, list.pool
    {
      Plan(list.ring, map a | a in list.pool :: Setting(a.time, a.rollover))
    }

    lemma ViewIsSound()
      requires Valid()
      ensures Sound(View()) && nticks == elapsed % WRAP && nticks < WRAP
      ensures (nticks + 1) % WRAP == (elapsed + 1) % WRAP
    {
    }

    constructor (pool: set<Alarm>, tickRate: nat)
      requires forall a :: a in pool ==> a.next == a && a.previous == a && a.time < WRAP
      ensures Valid() && fresh(list) && fresh(list.head) && list.pool == pool && list.ring == []
      ensures elapsed == 0 && this.tickRate == tickRate
    {
      list := new List(pool);
      this.tickRate := tickRate;
      nticks := 0;
      elapsed := 0;
    }

    // ----------------------------------------------------------------
    // Starting and stopping
    // ----------------------------------------------------------------

    method Start(alarm: Alarm?, n: nat) returns (rc: Status)
      requires Valid() && n < WRAP
      requires alarm != null ==> alarm in list.pool && alarm !in list.ring
      modifies list, list.head, list.pool
      ensures Valid()
      ensures rc == if tickRate == 0 then NotSupported else if alarm == null then InvalidArgument else Ok
      ensures View() == if rc == Ok then Do(old(View()), StartAlarm(alarm, n), nticks) else old(View())
      ensures rc == Ok ==> (DueOf(View(), alarm, elapsed) == elapsed + n + 1 <==> n != WRAP - 1 || nticks == WRAP - 1)
      ensures rc == Ok ==> (Punctual(View(), alarm, elapsed) <==> n != WRAP - 1 || nticks == WRAP - 1)
    {
      hide Linked, Distinct, Due;
      if tickRate == 0 {
        return NotSupported;
      }
      if alarm == null {
        return InvalidArgument;
      }
      Arm(alarm, n);
      StartDue(elapsed, n);
      StartPunctual(elapsed, n);
      rc := Ok;
    }

    /** The critical section of starting an alarm. */
    method Arm(alarm: Alarm, n: nat)
      requires Valid() && n < WRAP && alarm in list.pool && alarm !in list.ring
      modifies list, list.head, list.pool
      ensures Valid() && View() == Do(old(View()), StartAlarm(alarm, n), nticks)
    {
      hide Distinct, Linked;
      alarm.time := (n + nticks + 1) % WRAP;
      if alarm.time < nticks {
        alarm.rollover := true;
      } else {
        alarm.rollover := false;
      }
      list.Insert(alarm);
    }

    method Stop(alarm: Alarm)
      requires Valid() && alarm in list.pool
      modifies list, list.head, list.pool
      ensures Valid() && View() == Do(old(View()), StopAlarm(alarm), nticks)
    {
      hide Linked, Distinct, Without;
      list.Remove(alarm);
    }

    // ----------------------------------------------------------------
    // The tick
    // ----------------------------------------------------------------

    /** A callback: it starts and stops alarms, in order. */
    method Callback(acts: seq<Act>)
      requires Valid() && MayAll(View(), acts, nticks)
      requires Proper(acts)
      modifies list, list.head, list.pool
      ensures Valid() && View() == DoAll(old(View()), acts, nticks)
    {
      hide Do, Valid;
      for k := 0 to |acts|
        invariant Valid() && MayAll(View(), acts[k..], nticks)
        invariant DoAll(View(), acts[k..], nticks) == DoAll(old(View()), acts, nticks)
      {
        assert acts[k..][0] == acts[k] && acts[k..][1..] == acts[k + 1..];
        PerformAct(acts[k]);
      }
      assert acts[|acts|..] == [];
    }

    method PerformAct(act: Act)
      requires Valid() && May(View(), act) && (act.StartAlarm? || act.StopAlarm?)
      modifies list, list.head, list.pool
      ensures Valid() && View() == Do(old(View()), act, nticks)
    {
      hide Linked, Distinct, Do;
      match act
      case StartAlarm(alarm, n) => Arm(alarm, n);
      case StopAlarm(alarm) => Stop(alarm);
    }

    /** Clear the flag if it may be cleared, and test whether the alarm has expired. */
    method Test(alarm: Alarm) returns (expired: bool)
      requires Valid() && alarm in list.pool
      modifies list.pool
      ensures Valid() && View() == Do(old(View()), ClearFlag(alarm), nticks)
      ensures expired == Fires(old(View()), alarm, nticks)
    {
      hide Linked, Distinct;
      if alarm.rollover && nticks == 0 {
        alarm.rollover := false;
      }
      expired := alarm.time <= nticks && !alarm.rollover;
    }

    /** The callback asked for more ticks. */
    method Rearm(alarm: Alarm, again: nat)
      requires Valid() && alarm in list.pool && 0 < again < WRAP
      modifies list.pool
      ensures Valid() && View() == Do(old(View()), RearmAlarm(alarm, again), nticks)
    {
      hide Linked, Distinct;
      alarm.time := (alarm.time + again) % WRAP;
      if alarm.time < nticks {
        alarm.rollover := true;
      }
    }

    /** Serve one alarm of the tick. */
    method Visit(alarm: Alarm, reactions: map<Alarm, Reaction>) returns (fired: bool)
      requires Valid() && MayServe(View(), alarm, reactions, nticks)
      modifies list, list.head, list.pool
      ensures Valid() && View() == Serve(old(View()), alarm, reactions, nticks)
      ensures fired == Fires(old(View()), alarm, nticks)
    {
      var reaction := reactions[alarm];
      TurnInSteps(View(), alarm, reaction, nticks);
      hide Valid, Do, DoAll, MayAll, TurnOf, Fires, May, Proper;
      fired := Test(alarm);
      if fired {
        Callback(reaction.acts);
        if reaction.again == 0 {
          Stop(alarm);
        } else {
          Rearm(alarm, reaction.again);
        }
      }
    }

    /** The links of the list lead the walk. */
    lemma FirstLeads()
      requires Valid()
      ensures list.head.next == FirstOf(View().ring, list.head)
    {
      assert LinkAt(list.head, list.ring, 0);
    }

    lemma NextLeads(alarm: Alarm)
      requires Valid() && alarm in View().settings
      ensures alarm in list.pool && alarm.next == NextOf(View().ring, list.head, alarm)
    {
      var k := IndexIn(list.ring, alarm);
      if k < |list.ring| {
        assert LinkAt(list.head, list.ring, k + 1);
      }
    }

    /** One round of the walk: save the link, serve the alarm. */
    method Round(ghost t: Trail, alarm: Alarm, reactions: map<Alarm, Reaction>, ghost calls: Calls,
                 ghost visited: seq<Alarm>, ghost fired: seq<Alarm>)
        returns (next: Alarm, rang: bool)
      requires Valid() && alarm != list.head && calls != [] && reactions == calls[0]
      requires OnTrail(t, View(), alarm, calls, nticks, list.head, visited, fired)
      modifies list, list.head, list.pool
      ensures Valid()
      ensures OnTrail(t, View(), next, calls[1..], nticks, list.head,
                      visited + [alarm], if rang then fired + [alarm] else fired)
    {
      OnTrailStep(t, View(), alarm, calls, nticks, list.head, visited, fired);
      NextLeads(alarm);
      hide Valid, View, OnTrail, MayServe, Serve, NextOf, Fires;
      next := alarm.next;
      rang := Visit(alarm, reactions);
    }

    /** One tick of the system clock, given how the callbacks react in each round
        of the walk, and for how many rounds: the walk may never end. */
    method Tick(calls: Calls) returns (at: Alarm, visited: seq<Alarm>, fired: seq<Alarm>)
      requires Valid() && Allowed(View(), FirstOf(View().ring, list.head), calls, (elapsed + 1) % WRAP, list.head)
      modifies this, list, list.head, list.pool
      ensures Valid() && elapsed == old(elapsed) + 1 && nticks == (old(nticks) + 1) % WRAP
      ensures Trail(View(), at, visited, fired) == TickTrail(old(View()), old(elapsed), calls, list.head)
    {
      ViewIsSound();
      hide Valid, View, Allowed, Follow, FirstOf;
      Advance();
      at, visited, fired := WalkList(calls);
    }

    /** The loop of the tick routine. */
    method WalkList(calls: Calls) returns (at: Alarm, visited: seq<Alarm>, fired: seq<Alarm>)
      requires Valid() && Allowed(View(), FirstOf(View().ring, list.head), calls, nticks, list.head)
      modifies list, list.head, list.pool
      ensures Valid()
      ensures Trail(View(), at, visited, fired)
              == Follow(old(View()), FirstOf(old(View()).ring, list.head), calls, nticks, list.head)
    {
      FirstLeads();
      hide *;
      OnTrailBegins(View(), list.head.next, calls, nticks, list.head);
      ghost var t := Follow(View(), list.head.next, calls, nticks, list.head);
      at, visited, fired := list.head.next, [], [];
      var left := calls;
      while at != list.head && left != []
        invariant Valid() && OnTrail(t, View(), at, left, nticks, list.head, visited, fired)
        decreases |left|
      {
        var alarm, rang := at, false;
        at, rang := Round(t, alarm, left[0], left, visited, fired);
        visited := visited + [alarm];
        if rang {
          fired := fired + [alarm];
        }
        left := left[1..];
      }
      OnTrailEnds(t, View(), at, left, nticks, list.head, visited, fired);
    }

    method Advance()
      requires Valid()
      modifies this
      ensures Valid() && View() == old(View()) && elapsed == old(elapsed) + 1 && nticks == (old(nticks) + 1) % WRAP
      ensures nticks == elapsed % WRAP
    {
      hide Linked, Distinct;
      nticks := (nticks + 1) % WRAP;
      elapsed := elapsed + 1;
    }

    /** Any number of ticks, each of which ends.  `fires` are the alarms called
        back at each. */
    method Ticks(cs: seq<Calls>) returns (fires: seq<seq<Alarm>>)
      requires Valid() && AllEnd(View(), elapsed, cs, list.head)
      modifies this, list, list.head, list.pool
      ensures Valid() && elapsed == old(elapsed) + |cs|
      ensures View() == Finally(old(View()), old(elapsed), cs, list.head)
      ensures |fires| == |cs|
      ensures forall i :: 0 <= i < |cs| ==> fires[i] == RungAt(old(View()), old(elapsed), cs, list.head, i)
      decreases |cs|
    {
      hide Valid, View, Allowed, Follow, FirstOf;
      if cs == [] {
        return [];
      }
      ghost var p, now := View(), elapsed;
      var at, visited, fired := Tick(cs[0]);
      var later := Ticks(cs[1..]);
      fires := [fired] + later;
      forall i | 0 <= i < |cs| ensures fires[i] == RungAt(p, now, cs, list.head, i) {
        if i > 0 {
          assert fires[i] == later[i - 1];
        }
      }
    }
  }

  // ------------------------------------------------------------------
  // Part of the way through a walk
  // ------------------------------------------------------------------

  /** A walk that has visited and called back some alarms, and has come to alarm
      `at`, will be as `t` says after the rounds left. */
  ghost predicate OnTrail(t: Trail, p: Plan, at: Alarm, calls: Calls, nticks: nat, head: Alarm,
                          visited: seq<Alarm>, fired: seq<Alarm>)
  {
    && Allowed(p, at, calls, nticks, head)
    && var rest := Follow(p, at, calls, nticks, head);
    t == Trail(rest.plan, rest.at, visited + rest.visited, fired + rest.fired)
  }

  lemma OnTrailBegins(p: Plan, at: Alarm, calls: Calls, nticks: nat, head: Alarm)
    requires Allowed(p, at, calls, nticks, head)
    ensures OnTrail(Follow(p, at, calls, nticks, head), p, at, calls, nticks, head, [], [])
  {
    var t := Follow(p, at, calls, nticks, head);
    hide Allowed, Follow;
    assert [] + t.visited == t.visited && [] + t.fired == t.fired;
  }

  lemma OnTrailStep(t: Trail, p: Plan, at: Alarm, calls: Calls, nticks: nat, head: Alarm,
                    visited: seq<Alarm>, fired: seq<Alarm>)
    requires OnTrail(t, p, at, calls, nticks, head, visited, fired) && at != head && calls != []
    ensures MayServe(p, at, calls[0], nticks)
    ensures OnTrail(t, Serve(p, at, calls[0], nticks), NextOf(p.ring, head, at), calls[1..], nticks, head,
                    visited + [at], if Fires(p, at, nticks) then fired + [at] else fired)
  {
    hide MayServe, Serve, NextOf, Fires;
    var rest := Follow(Serve(p, at, calls[0], nticks), NextOf(p.ring, head, at), calls[1..], nticks, head);
    assert visited + ([at] + rest.visited) == (visited + [at]) + rest.visited;
    assert fired + ([at] + rest.fired) == (fired + [at]) + rest.fired;
  }

  lemma OnTrailEnds(t: Trail, p: Plan, at: Alarm, calls: Calls, nticks: nat, head: Alarm,
                    visited: seq<Alarm>, fired: seq<Alarm>)
    requires OnTrail(t, p, at, calls, nticks, head, visited, fired) && (at == head || calls == [])
    ensures t == Trail(p, at, visited, fired)
  {
  }
}
