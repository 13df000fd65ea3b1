/** Many ticks, and what becomes of an alarm that no callback touches. */
module AlarmRuns {
  import opened AlarmList
  import opened AlarmTime
  import opened AlarmTick
  import opened DivMod

  /** No callback starts or stops alarm `x`. */
  ghost predicate Untouched(reactions: map<Alarm, Reaction>, x: Alarm) {
    forall a, i :: a in reactions && 0 <= i < |reactions[a].acts| ==> reactions[a].acts[i].alarm != x
  }

  lemma {:induction false} AboutSplit(a: seq<Act>, b: seq<Act>, x: Alarm)
    ensures About(a + b, x) == About(a, x) + About(b, x)
  {
    if a == [] {
      assert a + b == b;
    } else {
      assert (a + b)[0] == a[0] && (a + b)[1..] == a[1..] + b;
      AboutSplit(a[1..], b, x);
      var h := if a[0].alarm == x then [a[0]] else [];
      assert h + (About(a[1..], x) + About(b, x)) == (h + About(a[1..], x)) + About(b, x);
    }
  }

  lemma {:induction false} AboutNone(acts: seq<Act>, x: Alarm)
    requires forall i :: 0 <= i < |acts| ==> acts[i].alarm != x
    ensures About(acts, x) == []
  {
    if acts != [] {
      assert forall i :: 0 <= i < |acts[1..]| ==> acts[1..][i] == acts[i + 1];
      AboutNone(acts[1..], x);
    }
  }

  /** All that happens to an untouched alarm in its own turn. */
  function OwnTurn(p: Plan, x: Alarm, reaction: Reaction, nticks: nat): seq<Act>
    requires x in p.settings
  {
    if !Fires(p, x, nticks) then [ClearFlag(x)]
    else [ClearFlag(x), if reaction.again == 0 then StopAlarm(x) else RearmAlarm(x, reaction.again)]
  }

  lemma TurnAbout(p: Plan, a: Alarm, reaction: Reaction, nticks: nat, x: Alarm)
    requires a in p.settings && x in p.settings
    requires forall i :: 0 <= i < |reaction.acts| ==> reaction.acts[i].alarm != x
    ensures About(TurnOf(p, a, reaction, nticks), x) == if x == a then OwnTurn(p, x, reaction, nticks) else []
  {
    hide Expired;
    AboutSplit([ClearFlag(a)], TurnOf(p, a, reaction, nticks)[1..], x);
    AboutOne(ClearFlag(a), x);
    AboutNone(reaction.acts, x);
    if Fires(p, a, nticks) {
      var last := if reaction.again == 0 then StopAlarm(a) else RearmAlarm(a, reaction.again);
      AboutSplit(reaction.acts, [last], x);
      AboutOne(last, x);
      assert TurnOf(p, a, reaction, nticks)[1..] == reaction.acts + [last];
    }
  }

  lemma AboutOne(act: Act, x: Alarm)
    ensures About([act], x) == if act.alarm == x then [act] else []
    ensures About([], x) == []
  {
    assert [act][1..] == [];
  }

  lemma {:induction false} NotStopped(acts: seq<Act>, x: Alarm)
    requires About(acts, x) == []
    ensures x !in Stopped(acts)
  {
    if acts != [] {
      StoppedMore(acts);
      assert acts[0].alarm != x && About(acts[1..], x) == [];
      NotStopped(acts[1..], x);
    }
  }

  /** An untouched alarm is visited exactly if it was to be, and nothing but its
      own turn happens to it. */
  lemma {:induction false} WalkLeaves(p: Plan, todo: seq<Alarm>, reactions: map<Alarm, Reaction>, nticks: nat, x: Alarm)
    requires Sound(p) && IsSuffix(todo, p.ring) && LegalWalk(p, todo, reactions, nticks)
    requires Untouched(reactions, x) && x in p.settings && x in reactions
    ensures var o := Walk(p, todo, reactions, nticks);
            && (x in o.visited <==> x in todo)
            && About(o.script, x) == if x in todo then OwnTurn(p, x, reactions[x], nticks) else []
    decreases |todo|
  {
    hide Sound, MayAll, DoAll, TurnOf, IsSuffix, Without, Stopped, Fires, Spares, Untouched, OwnTurn, About;
    if todo == [] {
      AboutOne(ClearFlag(x), x);
    } else {
      Step(p, todo, reactions, nticks);
      var a, tail := todo[0], todo[1..];
      assert todo == [a] + tail;
      var acts := TurnOf(p, a, reactions[a], nticks);
      var q, rest := DoAll(p, acts, nticks), Without(tail, Stopped(acts));
      WalkLeaves(q, rest, reactions, nticks, x);
      WithoutMember(tail, Stopped(acts), x);
      TouchedByNone(reactions, a, x);
      TurnAbout(p, a, reactions[a], nticks, x);
      AboutSplit(acts, Walk(q, rest, reactions, nticks).script, x);
      if x != a {
        NotStopped(acts, x);
        ActsDecide(p, acts, nticks, x);
        SameTurn(p, q, x, reactions[x], nticks);
      }
    }
  }

  lemma TouchedByNone(reactions: map<Alarm, Reaction>, a: Alarm, x: Alarm)
    requires Untouched(reactions, x) && a in reactions
    ensures forall i :: 0 <= i < |reactions[a].acts| ==> reactions[a].acts[i].alarm != x
  {
  }

  lemma SameTurn(p: Plan, q: Plan, x: Alarm, reaction: Reaction, nticks: nat)
    requires x in p.settings && x in q.settings && q.settings[x] == Fields(p.settings[x], [], nticks)
    ensures OwnTurn(p, x, reaction, nticks) == OwnTurn(q, x, reaction, nticks)
  {
  }

  function TickOf(p: Plan, reactions: map<Alarm, Reaction>, nticks: nat): Outcome
    requires LegalWalk(p, p.ring, reactions, nticks)
  {
    Walk(p, p.ring, reactions, nticks)
  }

  function DueOf(p: Plan, x: Alarm, now: nat): nat
    requires x in p.settings
  {
    Due(p.settings[x].time, p.settings[x].flag, now)
  }

  /** When the alarm is due, the counter will show its own time. */
  predicate Punctual(p: Plan, x: Alarm, now: nat)
    requires x in p.settings
  {
    p.settings[x].time == DueOf(p, x, now) % WRAP
  }

  /** What a tick leaves of any alarm is what the acts about it say, in order:
      listed and due as started if the last of them starts it, off the list if
      it stops it. */
  lemma TickSettles(p: Plan, now: nat, reactions: map<Alarm, Reaction>, a: Alarm)
    requires Sound(p) && LegalWalk(p, p.ring, reactions, (now + 1) % WRAP) && a in p.settings
    ensures var o := TickOf(p, reactions, (now + 1) % WRAP);
            var about := About(o.script, a);
            && a in o.plan.settings
            && (a in o.plan.ring <==> Listed(a in p.ring, about))
            && o.plan.settings[a] == Fields(p.settings[a], about, (now + 1) % WRAP)
            && (about != [] && about[|about| - 1].StopAlarm? ==> a !in o.plan.ring)
            && (about != [] && about[|about| - 1].StartAlarm? ==>
                  var n := about[|about| - 1].n;
                  a in o.plan.ring && n < WRAP
                  && (DueOf(o.plan, a, now + 1) == now + 1 + n + 1 <==> n != WRAP - 1 || (now + 1) % WRAP == WRAP - 1)
                  && (Punctual(o.plan, a, now + 1) <==> n != WRAP - 1 || (now + 1) % WRAP == WRAP - 1))
  {
    hide LegalWalk, Walk, Due, Changed, Listed, Fields, DoAll, MayAll, About, Sound, IsSuffix;
    var nticks := (now + 1) % WRAP;
    var o := TickOf(p, reactions, nticks);
    WholeSuffix(p.ring);
    WalkIsScript(p, p.ring, reactions, nticks);
    ActsDecide(p, o.script, nticks, a);
    var about := About(o.script, a);
    if about != [] {
      var front, last := about[..|about| - 1], about[|about| - 1];
      assert about == front + [last];
      AboutMember(p, o.script, nticks, a);
      if last.StartAlarm? {
        StartedLast(p, o.script, now + 1, a, front, last.n);
      } else if last.StopAlarm? {
        StoppedLast(p, o.script, nticks, a, front);
      }
    }
  }

  /** The acts about an alarm are about it, and allowed. */
  lemma {:induction false} AboutMember(p: Plan, acts: seq<Act>, nticks: nat, a: Alarm)
    requires MayAll(p, acts, nticks)
    ensures forall i :: 0 <= i < |About(acts, a)| ==>
              About(acts, a)[i].alarm == a && (About(acts, a)[i].StartAlarm? ==> About(acts, a)[i].n < WRAP)
    decreases |acts|
  {
    hide Do;
    if acts != [] {
      AboutMember(Do(p, acts[0], nticks), acts[1..], nticks, a);
    }
  }

  /** The condition for an alarm served at tick `now` to be due again as many
      ticks on as its callback asks for: the counter shows its own time, or it
      is one tick late, for one tick more, and the epoch does not end. */
  predicate RearmsOnTime(time: nat, again: nat, now: nat) {
    time == now % WRAP || (now % WRAP == time + 1 && again == 1 && now % WRAP != WRAP - 1)
  }

  /** One tick of a listed alarm that no callback touches: it is called back
      exactly if it is due; if not, it stays listed and due when it was; if so,
      it is off the list or listed and rearmed as its callback asked, and then
      due again exactly that many ticks on if and only if it rearms on time. */
  lemma UntouchedTick(p: Plan, now: nat, reactions: map<Alarm, Reaction>, x: Alarm)
    requires Sound(p) && LegalWalk(p, p.ring, reactions, (now + 1) % WRAP)
    requires x in p.ring && Untouched(reactions, x) && x in reactions && reactions[x].again < WRAP
    ensures var o := TickOf(p, reactions, (now + 1) % WRAP);
            var again := reactions[x].again;
            && x in p.settings && x in o.plan.settings && Sound(o.plan)
            && (x in o.fired <==> DueOf(p, x, now) == now + 1)
            && (x in o.plan.ring <==> !(x in o.fired && again == 0))
            && (x !in o.fired ==>
                  DueOf(o.plan, x, now + 1) == DueOf(p, x, now) && o.plan.settings[x].time == p.settings[x].time)
            && (x in o.fired && again > 0 ==>
                  (DueOf(o.plan, x, now + 1) == now + 1 + again <==> RearmsOnTime(p.settings[x].time, again, now + 1))
                  && o.plan.settings[x].time == RearmTime(p.settings[x].time, again))
  {
    hide LegalWalk, Walk, Due, Expired, FlagAt, RearmTime, RearmFlag, Untouched, IsSuffix, Changed, OwnTurn;
    hide DoAll, MayAll, DueAt, About, Fields, Listed, Fires, May, Do, Sound, RearmsOnTime;
    var nticks := (now + 1) % WRAP;
    var o := TickOf(p, reactions, nticks);
    WholeSuffix(p.ring);
    ListedIsSet(p, x);
    WalkIsScript(p, p.ring, reactions, nticks);
    WalkFires(p, p.ring, reactions, now);
    WalkLeaves(p, p.ring, reactions, nticks, x);
    ActsDecide(p, o.script, nticks, x);
    DueAtMember(o.visited, p.settings, now, x);
    OwnTurnDone(p, x, reactions[x], nticks);
    OwnTurnDue(p, now, x, reactions[x]);
  }

  /** An alarm that is not listed, and that no callback touches, is not called
      back and stays off the list. */
  lemma UnlistedTick(p: Plan, now: nat, reactions: map<Alarm, Reaction>, x: Alarm)
    requires Sound(p) && LegalWalk(p, p.ring, reactions, (now + 1) % WRAP)
    requires x in p.settings && x !in p.ring && Untouched(reactions, x) && x in reactions
    ensures var o := TickOf(p, reactions, (now + 1) % WRAP);
            x !in o.fired && x in o.plan.settings && x !in o.plan.ring && Sound(o.plan)
  {
    hide LegalWalk, Walk, Due, Untouched, IsSuffix, Changed, OwnTurn;
    hide DoAll, MayAll, DueAt, About, Fields, Fires, Sound;
    var nticks := (now + 1) % WRAP;
    var o := TickOf(p, reactions, nticks);
    WholeSuffix(p.ring);
    WalkIsScript(p, p.ring, reactions, nticks);
    WalkFires(p, p.ring, reactions, now);
    WalkLeaves(p, p.ring, reactions, nticks, x);
    ActsDecide(p, o.script, nticks, x);
    DueAtMember(o.visited, p.settings, now, x);
  }

  lemma ListedIsSet(p: Plan, x: Alarm)
    requires Sound(p) && x in p.ring
    ensures x in p.settings
  {
  }

  /** When an alarm is due after its own turn. */
  lemma OwnTurnDue(p: Plan, now: nat, x: Alarm, reaction: Reaction)
    requires Sound(p) && x in p.settings && reaction.again < WRAP
    ensures var nticks, s := (now + 1) % WRAP, p.settings[x];
            var flag := FlagAt(s.flag, nticks);
            && (Fires(p, x, nticks) <==> DueOf(p, x, now) == now + 1)
            && (!Fires(p, x, nticks) ==> Due(s.time, flag, now + 1) == DueOf(p, x, now))
            && (Fires(p, x, nticks) && reaction.again > 0 ==>
                  (Due(RearmTime(s.time, reaction.again), RearmFlag(s.time, flag, reaction.again, nticks), now + 1)
                   == now + 1 + reaction.again
                   <==> RearmsOnTime(s.time, reaction.again, now + 1)))
  {
    hide Due, FlagAt, RearmTime, RearmFlag, RearmsOnTime;
    TickKeepsDue(p.settings[x].time, p.settings[x].flag, now);
    RearmedDue(p.settings[x], now + 1, reaction.again);
  }

  lemma WholeSuffix<T>(ring: seq<T>)
    ensures IsSuffix(ring, ring)
  {
  }

  lemma {:induction false} DueAtMember(s: seq<Alarm>, settings: map<Alarm, Setting>, now: nat, x: Alarm)
    ensures x in DueAt(s, settings, now)
            <==> x in s && x in settings && Due(settings[x].time, settings[x].flag, now) == now + 1
  {
    hide Due;
    if s != [] {
      DueAtMember(s[1..], settings, now, x);
    }
  }

  lemma OwnTurnDone(p: Plan, x: Alarm, reaction: Reaction, nticks: nat)
    requires x in p.settings
    ensures var cleared := p.settings[x].(flag := FlagAt(p.settings[x].flag, nticks));
            var about := OwnTurn(p, x, reaction, nticks);
            && Listed(true, about) == !(Fires(p, x, nticks) && reaction.again == 0)
            && Fields(p.settings[x], about, nticks)
               == if Fires(p, x, nticks) && reaction.again > 0 then
                    Setting(RearmTime(cleared.time, reaction.again),
                            RearmFlag(cleared.time, cleared.flag, reaction.again, nticks))
                  else cleared
  {
    hide Expired, FlagAt, RearmTime, RearmFlag;
    var about := OwnTurn(p, x, reaction, nticks);
    assert [] + [ClearFlag(x)] == [ClearFlag(x)];
    ListedEnds(true, [], ClearFlag(x));
    FieldsEnd(p.settings[x], [], ClearFlag(x), nticks);
    if Fires(p, x, nticks) {
      assert about == [ClearFlag(x)] + [about[1]];
      ListedEnds(true, [ClearFlag(x)], about[1]);
      FieldsEnd(p.settings[x], [ClearFlag(x)], about[1], nticks);
    }
  }

  lemma RearmedDue(s: Setting, now: nat, again: nat)
    requires again < WRAP
    ensures var nticks := now % WRAP;
            var flag := FlagAt(s.flag, nticks);
            again > 0 && Expired(s.time, flag, nticks) ==>
              (Due(RearmTime(s.time, again), RearmFlag(s.time, flag, again, nticks), now) == now + again
               <==> RearmsOnTime(s.time, again, now))
  {
    hide Due, RearmTime, RearmFlag, FlagAt;
    if again > 0 && Expired(s.time, FlagAt(s.flag, now % WRAP), now % WRAP) {
      RearmDue(s.time, now, again);
    }
  }

  // ------------------------------------------------------------------
  // Many ticks
  // ------------------------------------------------------------------

  predicate LegalTicks(p: Plan, now: nat, rs: seq<map<Alarm, Reaction>>)
    decreases |rs|
  {
    rs != [] ==>
      && LegalWalk(p, p.ring, rs[0], (now + 1) % WRAP)
      && LegalTicks(TickOf(p, rs[0], (now + 1) % WRAP).plan, now + 1, rs[1..])
  }

  /** The state after some ticks. */
  function After(p: Plan, now: nat, rs: seq<map<Alarm, Reaction>>): Plan
    requires LegalTicks(p, now, rs)
    decreases |rs|
  {
    if rs == [] then p else After(TickOf(p, rs[0], (now + 1) % WRAP).plan, now + 1, rs[1..])
  }

  /** The alarms called back at tick now + i + 1. */
  function FiredAt(p: Plan, now: nat, rs: seq<map<Alarm, Reaction>>, i: nat): seq<Alarm>
    requires LegalTicks(p, now, rs) && i < |rs|
    decreases |rs|
  {
    var o := TickOf(p, rs[0], (now + 1) % WRAP);
    if i == 0 then o.fired else FiredAt(o.plan, now + 1, rs[1..], i - 1)
  }

  /** A listed alarm that no callback touches is called back at the tick it is
      due, and at no tick before: across any number of ticks and of wraps of the
      counter, whatever the other alarms' callbacks do. */
  lemma {:induction false} FiresAtItsTick(p: Plan, now: nat, rs: seq<map<Alarm, Reaction>>, x: Alarm, i: nat)
    requires Sound(p) && x in p.ring && x in p.settings && LegalTicks(p, now, rs)
    requires i < |rs| && now + i + 1 <= DueOf(p, x, now)
    requires forall k :: 0 <= k < |rs| ==> Untouched(rs[k], x) && x in rs[k] && rs[k][x].again < WRAP
    ensures x in FiredAt(p, now, rs, i) <==> now + i + 1 == DueOf(p, x, now)
    decreases |rs|
  {
    hide Sound, LegalWalk, Untouched, DueOf, TickOf;
    assert Untouched(rs[0], x);
    UntouchedTick(p, now, rs[0], x);
    if i > 0 {
      assert forall k :: 0 <= k < |rs[1..]| ==> rs[1..][k] == rs[k + 1];
      FiresAtItsTick(TickOf(p, rs[0], (now + 1) % WRAP).plan, now + 1, rs[1..], x, i - 1);
    }
  }

  // ------------------------------------------------------------------
  // The whole history of an alarm
  // ------------------------------------------------------------------

  /** A punctual alarm stays so, as long as it is listed. */
  lemma PunctualTick(p: Plan, now: nat, reactions: map<Alarm, Reaction>, x: Alarm)
    requires Sound(p) && LegalWalk(p, p.ring, reactions, (now + 1) % WRAP)
    requires x in p.ring && Untouched(reactions, x) && x in reactions && reactions[x].again < WRAP
    requires x in p.settings && Punctual(p, x, now)
    ensures var o := TickOf(p, reactions, (now + 1) % WRAP);
            var again := reactions[x].again;
            && x in o.plan.settings && Sound(o.plan)
            && (x in o.fired <==> DueOf(p, x, now) == now + 1)
            && (x in o.plan.ring <==> !(x in o.fired && again == 0))
            && (x in o.plan.ring ==>
                  && DueOf(o.plan, x, now + 1) == (if x in o.fired then now + 1 + again else DueOf(p, x, now))
                  && Punctual(o.plan, x, now + 1))
  {
    UntouchedTick(p, now, reactions, x);
    hide Sound, LegalWalk, Untouched, DueOf, TickOf, RearmTime;
    RearmKeepsTime(now + 1, reactions[x].again);
  }

  /** Whether an alarm due at tick `due` is called back at tick now + i + 1, if
      its callback, called at tick now + k + 1, asks for `asks[k]` ticks more. */
  predicate RingsAt(due: nat, now: nat, asks: seq<nat>, i: nat)
    requires i < |asks|
    decreases i
  {
    if due != now + 1 then i > 0 && RingsAt(due, now + 1, asks[1..], i - 1)
    else i == 0 || (asks[0] > 0 && RingsAt(now + 1 + asks[0], now + 1, asks[1..], i - 1))
  }

  /** What the callback of alarm `x` asks for, tick by tick. */
  function Asks(rs: seq<map<Alarm, Reaction>>, x: Alarm): (asks: seq<nat>)
    requires forall k :: 0 <= k < |rs| ==> x in rs[k]
    ensures |asks| == |rs| && forall k :: 0 <= k < |rs| ==> asks[k] == rs[k][x].again
  {
    seq(|rs|, k requires 0 <= k < |rs| => rs[k][x].again)
  }

  /** No callback of any of the ticks touches the alarm. */
  ghost predicate Undisturbed(rs: seq<map<Alarm, Reaction>>, x: Alarm) {
    forall k :: 0 <= k < |rs| ==> Untouched(rs[k], x) && x in rs[k] && rs[k][x].again < WRAP
  }

  lemma UndisturbedOn(rs: seq<map<Alarm, Reaction>>, x: Alarm)
    requires Undisturbed(rs, x) && rs != []
    ensures Untouched(rs[0], x) && x in rs[0] && rs[0][x].again < WRAP
    ensures Undisturbed(rs[1..], x) && Asks(rs[1..], x) == Asks(rs, x)[1..]
  {
    assert forall k :: 0 <= k < |rs[1..]| ==> rs[1..][k] == rs[k + 1];
  }

  /** The whole history of a punctual alarm that no callback touches: over any
      number of ticks and of wraps of the counter it is called back at the tick
      it is due, then each time exactly as many ticks on as its callback asked,
      until it asks for none, and at no other tick. */
  lemma {:induction false} RingsExactly(p: Plan, now: nat, rs: seq<map<Alarm, Reaction>>, x: Alarm, i: nat)
    requires Sound(p) && x in p.ring && x in p.settings && LegalTicks(p, now, rs)
    requires i < |rs| && Undisturbed(rs, x) && Punctual(p, x, now)
    ensures x in FiredAt(p, now, rs, i) <==> RingsAt(DueOf(p, x, now), now, Asks(rs, x), i)
    decreases |rs|
  {
    hide Sound, LegalWalk, Untouched, Undisturbed, DueOf, Punctual, TickOf;
    UndisturbedOn(rs, x);
    PunctualTick(p, now, rs[0], x);
    if i > 0 {
      var q := TickOf(p, rs[0], (now + 1) % WRAP).plan;
      if x in q.ring {
        RingsExactly(q, now + 1, rs[1..], x, i - 1);
      } else {
        NeverRings(q, now + 1, rs[1..], x, i - 1);
      }
    }
  }

  lemma {:induction false} NeverRings(p: Plan, now: nat, rs: seq<map<Alarm, Reaction>>, x: Alarm, i: nat)
    requires Sound(p) && x !in p.ring && x in p.settings && LegalTicks(p, now, rs)
    requires i < |rs| && Undisturbed(rs, x)
    ensures x !in FiredAt(p, now, rs, i)
    decreases |rs|
  {
    hide Sound, LegalWalk, Untouched, Undisturbed, TickOf;
    UndisturbedOn(rs, x);
    UnlistedTick(p, now, rs[0], x);
    if i > 0 {
      NeverRings(TickOf(p, rs[0], (now + 1) % WRAP).plan, now + 1, rs[1..], x, i - 1);
    }
  }

  /** In particular, one that always asks for the same is called back at exactly
      the ticks that lie a multiple of that after the first. */
  lemma RingsPeriodically(p: Plan, now: nat, rs: seq<map<Alarm, Reaction>>, x: Alarm, i: nat, c: nat)
    requires Sound(p) && x in p.ring && x in p.settings && LegalTicks(p, now, rs)
    requires i < |rs| && Undisturbed(rs, x) && Punctual(p, x, now)
    requires c > 0 && forall k :: 0 <= k < |rs| ==> rs[k][x].again == c
    ensures var due, tick := DueOf(p, x, now), now + i + 1;
            x in FiredAt(p, now, rs, i) <==> tick >= due && (tick - due) % c == 0
  {
    RingsExactly(p, now, rs, x, i);
    DueLater(p.settings[x].time, p.settings[x].flag, now);
    hide DueOf, Punctual;
    EveryPeriod(DueOf(p, x, now), now, Asks(rs, x), i, c);
  }

  lemma {:induction false} EveryPeriod(due: nat, now: nat, asks: seq<nat>, i: nat, c: nat)
    requires i < |asks| && due > now && c > 0 && forall k :: 0 <= k < |asks| ==> asks[k] == c
    ensures RingsAt(due, now, asks, i) <==> now + i + 1 >= due && (now + i + 1 - due) % c == 0
    decreases i
  {
    if due != now + 1 {
      if i > 0 {
        EveryPeriod(due, now + 1, asks[1..], i - 1, c);
      }
    } else if i > 0 {
      EveryPeriod(now + 1 + c, now + 1, asks[1..], i - 1, c);
      OnePeriodOn(i, c);
    }
  }

  lemma OnePeriodOn(i: nat, c: nat)
    requires c > 0 && i > 0
    ensures i < c ==> i % c == i
    ensures i >= c ==> (i - c) % c == i % c
  {
    QuotientOf(i, c);
    if i >= c {
      MultipleIs(c, i / c);
      QuotientIs(i - c, c, i / c - 1, i % c);
    } else {
      QuotientIs(i, c, 0, i);
    }
  }

  /** The tick of a clock with one alarm, which expires. */
  lemma LoneTick(x: Alarm, before: Setting, n: nat, start: nat, again: nat)
    requires before.time < WRAP && n < WRAP && 0 < again < WRAP
    requires var nticks := (start + 1) % WRAP;
             Expired(StartTime(start, n), FlagAt(StartFlag(start, n), nticks), nticks)
    ensures var p := Do(Plan([], map[x := before]), StartAlarm(x, n), start);
            var reactions, nticks := map[x := Reaction([], again)], (start + 1) % WRAP;
            var time, flag := StartTime(start, n), FlagAt(StartFlag(start, n), nticks);
            && LegalWalk(p, p.ring, reactions, nticks)
            && TickOf(p, reactions, nticks).fired == [x]
            && TickOf(p, reactions, nticks).plan
               == Plan([x], map[x := Setting(RearmTime(time, again), RearmFlag(time, flag, again, nticks))])
  {
    hide Expired, FlagAt, StartTime, StartFlag, RearmTime, RearmFlag;
    var p := Do(Plan([], map[x := before]), StartAlarm(x, n), start);
    var reactions, nticks := map[x := Reaction([], again)], (start + 1) % WRAP;
    var time, flag := StartTime(start, n), FlagAt(StartFlag(start, n), nticks);
    assert p == Plan([x], map[x := Setting(time, StartFlag(start, n))]);
    var acts := [ClearFlag(x), RearmAlarm(x, again)];
    assert TurnOf(p, x, reactions[x], nticks) == acts;
    var cleared := Do(p, ClearFlag(x), nticks);
    assert cleared == Plan([x], map[x := Setting(time, flag)]);
    var q := Do(cleared, RearmAlarm(x, again), nticks);
    assert q == Plan([x], map[x := Setting(RearmTime(time, again), RearmFlag(time, flag, again, nticks))]);
    assert acts[1..] == [RearmAlarm(x, again)] && acts[1..][1..] == [];
    assert MayAll(q, acts[1..][1..], nticks);
    assert MayAll(cleared, acts[1..], nticks) && DoAll(cleared, acts[1..], nticks) == q;
    assert MayAll(p, acts, nticks) && DoAll(p, acts, nticks) == q;
    assert Fires(p, x, nticks) && Spares([], []);
    hide Do, DoAll, MayAll, TurnOf, Fires, Spares;
    assert p.ring == [x] && p.ring[0] == x && p.ring[1..] == [] && Without(p.ring[1..], Stopped(acts)) == [];
    assert LegalWalk(q, [], reactions, nticks);
    assert LegalWalk(p, p.ring, reactions, nticks);
    assert Walk(q, [], reactions, nticks) == Outcome(q, [], [], {}, []);
    assert TickOf(p, reactions, nticks).fired == [x] + [];
  }

  /** An alarm that is not punctual need not keep to this.  Started at reset for
      the longest interval it is called back at tick 1; asking then for two
      ticks, it is due again at tick 2. */
  lemma LateAlarmRingsEarly(x: Alarm, s: Setting)
    requires s.time < WRAP
    ensures var p := Do(Plan([], map[x := s]), StartAlarm(x, WRAP - 1), 0);
            var reactions := map[x := Reaction([], 2)];
            && LegalWalk(p, p.ring, reactions, 1)
            && TickOf(p, reactions, 1).fired == [x]
            && var q := TickOf(p, reactions, 1).plan;
            && x in q.ring && x in q.settings && DueOf(q, x, 1) == 2
  {
    LoneTick(x, s, WRAP - 1, 0, 2);
  }

  /** And started one tick before the last of an epoch, it is called back at the
      last; asking then for one tick, it is due again 2^32 ticks later. */
  lemma LateAlarmMissesAnEpoch(x: Alarm, s: Setting)
    requires s.time < WRAP
    ensures var p := Do(Plan([], map[x := s]), StartAlarm(x, WRAP - 1), WRAP - 2);
            var reactions := map[x := Reaction([], 1)];
            && LegalWalk(p, p.ring, reactions, WRAP - 1)
            && TickOf(p, reactions, WRAP - 1).fired == [x]
            && var q := TickOf(p, reactions, WRAP - 1).plan;
            && x in q.ring && x in q.settings && DueOf(q, x, WRAP - 1) == WRAP - 1 + WRAP
  {
    LoneTick(x, s, WRAP - 1, WRAP - 2, 1);
  }
}
