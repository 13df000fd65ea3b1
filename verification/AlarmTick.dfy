/** What a tick does, as a function: the walk over the list, with callbacks that
    start and stop alarms while it goes on. */
module AlarmTick {
  import opened AlarmList
  import opened AlarmTime

  datatype Setting = Setting(time: nat, flag: bool)

  /** One change to the alarms.  Callbacks start and stop; the tick routine
      itself clears a flag before it tests, and rearms after a callback. */
  datatype Act =
    | StartAlarm(alarm: Alarm, n: nat)
    | StopAlarm(alarm: Alarm)
    | ClearFlag(alarm: Alarm)
    | RearmAlarm(alarm: Alarm, again: nat)

  /** What an alarm's callback does to the alarms, in order, and the number of
      further ticks it asks for. */
  datatype Reaction = Reaction(acts: seq<Act>, again: nat)

  /** The list, and the fields of every alarm. */
  datatype Plan = Plan(ring: seq<Alarm>, settings: map<Alarm, Setting>)

  predicate Sound(p: Plan) {
    && Distinct(p.ring)
    && (forall a :: a in p.ring ==> a in p.settings)
    && (forall a :: a in p.settings ==> p.settings[a].time < WRAP)
  }

  // ------------------------------------------------------------------
  // Acts
  // ------------------------------------------------------------------

  /** The new fields of the alarm an act is about. */
  function Changed(s: Setting, act: Act, nticks: nat): Setting {
    match act
    case StartAlarm(_, n) => Setting(StartTime(nticks, n), StartFlag(nticks, n))
    case StopAlarm(_) => s
    case ClearFlag(_) => s.(flag := FlagAt(s.flag, nticks))
    case RearmAlarm(_, c) => Setting(RearmTime(s.time, c), RearmFlag(s.time, s.flag, c, nticks))
  }

  function Do(p: Plan, act: Act, nticks: nat): Plan
    requires act.alarm in p.settings
  {
    Plan(
      match act
      case StartAlarm(a, _) => [a] + p.ring
      case StopAlarm(a) => Without(p.ring, {a})
      case _ => p.ring,
      p.settings[act.alarm := Changed(p.settings[act.alarm], act, nticks)])
  }

  /** What the routines demand of their callers: an alarm is not started while
      it is listed. */
  predicate May(p: Plan, act: Act) {
    && act.alarm in p.settings
    && (act.StartAlarm? ==> act.alarm !in p.ring && act.n < WRAP)
    && (act.RearmAlarm? ==> act.again < WRAP)
  }

  predicate MayAll(p: Plan, acts: seq<Act>, nticks: nat)
    decreases |acts|
  {
    acts == [] || (May(p, acts[0]) && MayAll(Do(p, acts[0], nticks), acts[1..], nticks))
  }

  function DoAll(p: Plan, acts: seq<Act>, nticks: nat): Plan
    requires MayAll(p, acts, nticks)
    decreases |acts|
  {
    if acts == [] then p else DoAll(Do(p, acts[0], nticks), acts[1..], nticks)
  }

  function Stopped(acts: seq<Act>): set<Alarm> {
    set i | 0 <= i < |acts| && acts[i].StopAlarm? :: acts[i].alarm
  }

  function Started(acts: seq<Act>): set<Alarm> {
    set i | 0 <= i < |acts| && acts[i].StartAlarm? :: acts[i].alarm
  }

  /** The acts that concern alarm `a`, in order. */
  function About(acts: seq<Act>, a: Alarm): seq<Act> {
    if acts == [] then []
    else (if acts[0].alarm == a then [acts[0]] else []) + About(acts[1..], a)
  }

  /** Whether an alarm is listed after some acts about it. */
  function Listed(before: bool, about: seq<Act>): bool
    decreases |about|
  {
    if about == [] then before
    else Listed(if about[0].StartAlarm? then true else if about[0].StopAlarm? then false else before, about[1..])
  }

  /** Its fields after them. */
  function Fields(before: Setting, about: seq<Act>, nticks: nat): Setting
    decreases |about|
  {
    if about == [] then before else Fields(Changed(before, about[0], nticks), about[1..], nticks)
  }

  lemma DoKeeps(p: Plan, act: Act, nticks: nat)
    requires Sound(p) && May(p, act)
    ensures Sound(Do(p, act, nticks)) && Do(p, act, nticks).settings.Keys == p.settings.Keys
  {
    var q := Do(p, act, nticks);
    if act.StopAlarm? {
      WithoutDistinct(p.ring, {act.alarm});
      WithoutMembers(p.ring, {act.alarm});
    }
    hide Without;
    assert q.settings.Keys == p.settings.Keys;
    assert Changed(p.settings[act.alarm], act, nticks).time < WRAP;
    assert Distinct(q.ring);
    assert forall a :: a in q.ring ==> a in q.settings;
    assert forall a :: a in q.settings ==> q.settings[a].time < WRAP;
  }

  /** What happens to an alarm is what the acts about it say, whatever the
      others do in between. */
  lemma {:induction false} ActsDecide(p: Plan, acts: seq<Act>, nticks: nat, a: Alarm)
    requires Sound(p) && MayAll(p, acts, nticks) && a in p.settings
    ensures var q := DoAll(p, acts, nticks);
            && Sound(q) && q.settings.Keys == p.settings.Keys
            && (a in q.ring <==> Listed(a in p.ring, About(acts, a)))
            && q.settings[a] == Fields(p.settings[a], About(acts, a), nticks)
    decreases |acts|
  {
    hide Sound, Changed;
    if acts != [] {
      var act := acts[0];
      var q := Do(p, act, nticks);
      DoKeeps(p, act, nticks);
      ActDecides(p, act, nticks, a);
      ActsDecide(q, acts[1..], nticks, a);
      hide Do;
      var rest := About(acts[1..], a);
      if act.alarm == a {
        assert About(acts, a) == [act] + rest && ([act] + rest)[0] == act && ([act] + rest)[1..] == rest;
      } else {
        assert About(acts, a) == [] + rest == rest;
      }
    }
  }

  lemma ActDecides(p: Plan, act: Act, nticks: nat, a: Alarm)
    requires May(p, act) && a in p.settings
    ensures var q := Do(p, act, nticks);
            && (a in q.ring <==>
                  if act.alarm == a && act.StartAlarm? then true
                  else if act.alarm == a && act.StopAlarm? then false
                  else a in p.ring)
            && q.settings[a] == if act.alarm == a then Changed(p.settings[a], act, nticks) else p.settings[a]
  {
    WithoutMembers(p.ring, {act.alarm});
    hide Without, Changed;
  }

  lemma {:induction false} DoAllSplit(p: Plan, a: seq<Act>, b: seq<Act>, nticks: nat)
    requires MayAll(p, a, nticks) && MayAll(DoAll(p, a, nticks), b, nticks)
    ensures MayAll(p, a + b, nticks) && DoAll(p, a + b, nticks) == DoAll(DoAll(p, a, nticks), b, nticks)
    decreases |a|
  {
    hide Do;
    if a == [] {
      assert a + b == b;
    } else {
      assert (a + b)[0] == a[0] && (a + b)[1..] == a[1..] + b;
      DoAllSplit(Do(p, a[0], nticks), a[1..], b, nticks);
    }
  }

  lemma {:induction false} ListedEnds(before: bool, about: seq<Act>, last: Act)
    ensures Listed(before, about + [last])
            == if last.StartAlarm? then true else if last.StopAlarm? then false else Listed(before, about)
    decreases |about|
  {
    var more := about + [last];
    if about == [] {
      assert more[1..] == [];
    } else {
      assert more[0] == about[0] && more[1..] == about[1..] + [last];
      var first := about[0];
      ListedEnds(first.StartAlarm? || (before && !first.StopAlarm?), about[1..], last);
    }
  }

  lemma {:induction false} FieldsEnd(before: Setting, about: seq<Act>, last: Act, nticks: nat)
    ensures Fields(before, about + [last], nticks) == Changed(Fields(before, about, nticks), last, nticks)
    decreases |about|
  {
    hide Changed;
    var more := about + [last];
    if about == [] {
      assert more[1..] == [];
    } else {
      assert more[0] == about[0] && more[1..] == about[1..] + [last];
      FieldsEnd(Changed(before, about[0], nticks), about[1..], last, nticks);
    }
  }

  /** Acts that end with a start leave the alarm listed, and due as a start does. */
  lemma StartedLast(p: Plan, acts: seq<Act>, now: nat, a: Alarm, about: seq<Act>, n: nat)
    requires Sound(p) && MayAll(p, acts, now % WRAP) && a in p.settings
    requires About(acts, a) == about + [StartAlarm(a, n)] && n < WRAP
    ensures var q := DoAll(p, acts, now % WRAP);
            && a in q.ring && a in q.settings
            && (Due(q.settings[a].time, q.settings[a].flag, now) == now + n + 1
                <==> n != WRAP - 1 || now % WRAP == WRAP - 1)
            && (Due(q.settings[a].time, q.settings[a].flag, now) % WRAP == q.settings[a].time
                <==> n != WRAP - 1 || now % WRAP == WRAP - 1)
  {
    ActsDecide(p, acts, now % WRAP, a);
    ListedEnds(a in p.ring, about, StartAlarm(a, n));
    FieldsEnd(p.settings[a], about, StartAlarm(a, n), now % WRAP);
    StartDue(now, n);
    StartPunctual(now, n);
    hide Due, StartTime, StartFlag, DoAll, MayAll, Sound;
  }

  /** Acts that end with a stop leave the alarm off the list. */
  lemma StoppedLast(p: Plan, acts: seq<Act>, nticks: nat, a: Alarm, about: seq<Act>)
    requires Sound(p) && MayAll(p, acts, nticks) && a in p.settings
    requires About(acts, a) == about + [StopAlarm(a)]
    ensures a !in DoAll(p, acts, nticks).ring
  {
    ActsDecide(p, acts, nticks, a);
    ListedEnds(a in p.ring, about, StopAlarm(a));
    hide DoAll, MayAll, Sound;
  }

  // ------------------------------------------------------------------
  // The end of the list still to be visited
  // ------------------------------------------------------------------

  predicate IsSuffix<T(==)>(todo: seq<T>, ring: seq<T>)
    ensures IsSuffix(todo, ring) ==> forall x :: x in todo ==> x in ring
  {
    |todo| <= |ring| && ring[|ring| - |todo|..] == todo
  }

  lemma SuffixMember<T>(todo: seq<T>, ring: seq<T>, x: T)
    requires IsSuffix(todo, ring) && x in todo
    ensures x in ring
  {
  }

  lemma SuffixWithout<T>(ring: seq<T>, todo: seq<T>, dropped: set<T>)
    requires IsSuffix(todo, ring)
    ensures IsSuffix(Without(todo, dropped), Without(ring, dropped))
  {
    var done := ring[..|ring| - |todo|];
    assert ring == done + todo;
    WithoutAppend(done, todo, dropped);
  }

  lemma StoppedMore(acts: seq<Act>)
    requires acts != []
    ensures Stopped(acts) == (if acts[0].StopAlarm? then {acts[0].alarm} else {}) + Stopped(acts[1..])
    ensures Started(acts) == (if acts[0].StartAlarm? then {acts[0].alarm} else {}) + Started(acts[1..])
  {
    assert forall i :: 0 < i < |acts| ==> acts[i] == acts[1..][i - 1];
    assert forall i :: 0 <= i < |acts[1..]| ==> acts[1..][i] == acts[i + 1];
  }

  /** Acts take what they stop out of the end of the list, and put what they
      start in front of it. */
  lemma {:induction false} ActsKeepSuffix(p: Plan, todo: seq<Alarm>, acts: seq<Act>, nticks: nat)
    requires MayAll(p, acts, nticks) && IsSuffix(todo, p.ring)
    ensures IsSuffix(Without(todo, Stopped(acts)), DoAll(p, acts, nticks).ring)
    decreases |acts|
  {
    hide Without, Changed;
    if acts == [] {
      assert Stopped(acts) == {};
      WithoutNone(todo, {});
    } else {
      var q := Do(p, acts[0], nticks);
      var dropped := if acts[0].StopAlarm? then {acts[0].alarm} else {};
      var left := Without(todo, dropped);
      if acts[0].StopAlarm? {
        SuffixWithout(p.ring, todo, dropped);
      } else {
        WithoutNone(todo, {});
        if acts[0].StartAlarm? {
          assert q.ring[|q.ring| - |todo|..] == p.ring[|p.ring| - |todo|..];
        }
      }
      StoppedMore(acts);
      WithoutTwice(todo, dropped, Stopped(acts[1..]));
      hide Do, IsSuffix, Stopped;
      ActsKeepSuffix(q, left, acts[1..], nticks);
    }
  }

  /** An alarm that stays on the list keeps its fields: it cannot be started. */
  lemma {:induction false} ListedStays(p: Plan, acts: seq<Act>, nticks: nat, x: Alarm)
    requires MayAll(p, acts, nticks) && x in p.ring && x !in Stopped(acts)
    requires forall i :: 0 <= i < |acts| ==> acts[i].alarm == x ==> acts[i].StartAlarm? || acts[i].StopAlarm?
    ensures About(acts, x) == []
    decreases |acts|
  {
    hide Changed;
    if acts != [] {
      assert acts[0].alarm != x;
      StoppedMore(acts);
      var q := Do(p, acts[0], nticks);
      WithoutMembers(p.ring, {acts[0].alarm});
      assert x in q.ring;
      hide Do, Stopped, Without;
      assert forall i :: 0 <= i < |acts[1..]| ==> acts[1..][i] == acts[i + 1];
      ListedStays(q, acts[1..], nticks, x);
    }
  }

  // ------------------------------------------------------------------
  // The walk
  // ------------------------------------------------------------------

  predicate Fires(p: Plan, a: Alarm, nticks: nat)
    requires a in p.settings
  {
    Expired(p.settings[a].time, FlagAt(p.settings[a].flag, nticks), nticks)
  }

  /** Everything done in the turn of alarm `a`: its flag is cleared if it may
      be, and if it has expired its callback runs, and it is stopped or rearmed. */
  function TurnOf(p: Plan, a: Alarm, reaction: Reaction, nticks: nat): seq<Act>
    requires a in p.settings
  {
    [ClearFlag(a)] +
    if Fires(p, a, nticks) then
      reaction.acts + [if reaction.again == 0 then StopAlarm(a) else RearmAlarm(a, reaction.again)]
    else []
  }

  /** A turn, step by step. */
  lemma TurnInSteps(p: Plan, a: Alarm, reaction: Reaction, nticks: nat)
    requires a in p.settings && MayAll(p, TurnOf(p, a, reaction, nticks), nticks)
    ensures var cleared := Do(p, ClearFlag(a), nticks);
            var done := DoAll(p, TurnOf(p, a, reaction, nticks), nticks);
            if !Fires(p, a, nticks) then done == cleared
            else
              && MayAll(cleared, reaction.acts, nticks)
              && var called := DoAll(cleared, reaction.acts, nticks);
              && a in called.settings
              && done == Do(called, if reaction.again == 0 then StopAlarm(a) else RearmAlarm(a, reaction.again), nticks)
  {
    var acts, cleared := TurnOf(p, a, reaction, nticks), Do(p, ClearFlag(a), nticks);
    hide Expired, Changed;
    assert acts[0] == ClearFlag(a);
    if Fires(p, a, nticks) {
      var last := if reaction.again == 0 then StopAlarm(a) else RearmAlarm(a, reaction.again);
      assert acts[1..] == reaction.acts + [last];
      hide Fires, TurnOf, Do;
      DoAllEnd(cleared, reaction.acts, last, nticks);
    } else {
      assert acts[1..] == [];
    }
  }

  lemma {:induction false} DoAllEnd(p: Plan, acts: seq<Act>, last: Act, nticks: nat)
    requires MayAll(p, acts + [last], nticks)
    ensures MayAll(p, acts, nticks) && last.alarm in DoAll(p, acts, nticks).settings
    ensures May(DoAll(p, acts, nticks), last)
    ensures DoAll(p, acts + [last], nticks) == Do(DoAll(p, acts, nticks), last, nticks)
    decreases |acts|
  {
    hide Do;
    var more := acts + [last];
    if acts == [] {
      assert more == [last] && more[1..] == [];
    } else {
      assert more[0] == acts[0] && more[1..] == acts[1..] + [last];
      DoAllEnd(Do(p, acts[0], nticks), acts[1..], last, nticks);
    }
  }

  /** A callback only starts and stops alarms. */
  predicate Proper(acts: seq<Act>) {
    forall i :: 0 <= i < |acts| ==> acts[i].StartAlarm? || acts[i].StopAlarm?
  }

  /** What a callback owes the walk: it only starts and stops alarms, and does
      not stop the alarm saved as the next to visit. */
  predicate Spares(acts: seq<Act>, tail: seq<Alarm>) {
    && Proper(acts)
    && (tail != [] ==> tail[0] !in Stopped(acts))
  }

  /** Every callback of the walk keeps to the rules, in the state it meets. */
  predicate LegalWalk(p: Plan, todo: seq<Alarm>, reactions: map<Alarm, Reaction>, nticks: nat)
    decreases |todo|
  {
    todo == [] ||
    var a, tail := todo[0], todo[1..];
    && a in p.settings && a in reactions && reactions[a].again < WRAP
    && var acts := TurnOf(p, a, reactions[a], nticks);
    && (Fires(p, a, nticks) ==> Spares(reactions[a].acts, tail))
    && MayAll(p, acts, nticks)
    && LegalWalk(DoAll(p, acts, nticks), Without(tail, Stopped(acts)), reactions, nticks)
  }

  /** What a walk did: the alarms visited, those called back, those stopped
      before their turn, everything done in order, and the state it left. */
  datatype Outcome = Outcome(plan: Plan, visited: seq<Alarm>, fired: seq<Alarm>, dropped: set<Alarm>, script: seq<Act>)

  function Walk(p: Plan, todo: seq<Alarm>, reactions: map<Alarm, Reaction>, nticks: nat): Outcome
    requires LegalWalk(p, todo, reactions, nticks)
    decreases |todo|
  {
    if todo == [] then Outcome(p, [], [], {}, [])
    else
      var a, tail := todo[0], todo[1..];
      var acts := TurnOf(p, a, reactions[a], nticks);
      var o := Walk(DoAll(p, acts, nticks), Without(tail, Stopped(acts)), reactions, nticks);
      Before(a, Fires(p, a, nticks), Stopped(acts) * (set x | x in tail), acts, o)
  }

  function Before(a: Alarm, rang: bool, cut: set<Alarm>, acts: seq<Act>, o: Outcome): Outcome {
    Outcome(o.plan, [a] + o.visited, if rang then [a] + o.fired else o.fired, cut + o.dropped, acts + o.script)
  }

  /** One turn keeps what the walk relies on. */
  lemma TurnKeeps(p: Plan, a: Alarm, tail: seq<Alarm>, acts: seq<Act>, nticks: nat)
    requires Sound(p) && IsSuffix([a] + tail, p.ring) && MayAll(p, acts, nticks)
    ensures var q, rest := DoAll(p, acts, nticks), Without(tail, Stopped(acts));
            && Sound(q) && q.settings.Keys == p.settings.Keys
            && IsSuffix(rest, q.ring)
            && (tail != [] && tail[0] !in Stopped(acts) ==> rest != [] && rest[0] == tail[0])
            && (tail == [] ==> rest == [])
    ensures a !in tail && a in p.settings && IsSuffix(tail, p.ring)
  {
    var all := [a] + tail;
    assert all == p.ring[|p.ring| - |all|..];
    assert tail == p.ring[|p.ring| - |tail|..] && a == p.ring[|p.ring| - |all|];
    assert a in all;
    ActsKeepSuffix(p, tail, acts, nticks);
    ActsDecide(p, acts, nticks, a);
    if tail != [] && tail[0] !in Stopped(acts) {
      SuffixWithout(p.ring, tail, Stopped(acts));
    }
  }

  lemma Step(p: Plan, todo: seq<Alarm>, reactions: map<Alarm, Reaction>, nticks: nat)
    requires todo != [] && LegalWalk(p, todo, reactions, nticks) && Sound(p) && IsSuffix(todo, p.ring)
    ensures var a, tail := todo[0], todo[1..];
            && a in p.settings && a in reactions && a !in tail && a in p.ring && IsSuffix(tail, p.ring)
            && var acts := TurnOf(p, a, reactions[a], nticks);
            && MayAll(p, acts, nticks)
            && var q, rest := DoAll(p, acts, nticks), Without(tail, Stopped(acts));
            && Sound(q) && q.settings.Keys == p.settings.Keys && IsSuffix(rest, q.ring)
            && LegalWalk(q, rest, reactions, nticks) && |rest| < |todo|
            && (tail == [] ==> rest == [])
            && (tail != [] ==> rest != [] && rest[0] == tail[0])
  {
    hide Sound, IsSuffix, MayAll, DoAll, TurnOf, Without, Stopped, Fires, Spares;
    var a, tail := todo[0], todo[1..];
    assert todo == [a] + tail;
    TurnKeeps(p, a, tail, TurnOf(p, a, reactions[a], nticks), nticks);
    SuffixMember(todo, p.ring, a);
    if tail != [] {
      NextSpared(p, a, tail, reactions[a], nticks);
    }
  }

  lemma NextSpared(p: Plan, a: Alarm, tail: seq<Alarm>, reaction: Reaction, nticks: nat)
    requires a in p.settings && tail != [] && a !in tail && (Fires(p, a, nticks) ==> Spares(reaction.acts, tail))
    ensures tail[0] !in Stopped(TurnOf(p, a, reaction, nticks))
  {
    TurnStops(p, a, reaction, nticks);
    hide Stopped, TurnOf, Fires;
  }

  lemma TurnStops(p: Plan, a: Alarm, reaction: Reaction, nticks: nat)
    requires a in p.settings
    ensures Stopped(TurnOf(p, a, reaction, nticks))
            == if !Fires(p, a, nticks) then {} else Stopped(reaction.acts) + if reaction.again == 0 then {a} else {}
  {
    var acts := TurnOf(p, a, reaction, nticks);
    if Fires(p, a, nticks) {
      assert forall i :: 0 <= i < |reaction.acts| ==> acts[i + 1] == reaction.acts[i];
      assert forall i :: 0 < i < |acts| - 1 ==> acts[i] == reaction.acts[i - 1];
      var last := acts[|acts| - 1];
      assert last == if reaction.again == 0 then StopAlarm(a) else RearmAlarm(a, reaction.again);
    }
  }

  // ------------------------------------------------------------------
  // What a walk does
  // ------------------------------------------------------------------

  /** All a walk does to the alarms is what its script says, in order. */
  lemma {:induction false} WalkIsScript(p: Plan, todo: seq<Alarm>, reactions: map<Alarm, Reaction>, nticks: nat)
    requires Sound(p) && IsSuffix(todo, p.ring) && LegalWalk(p, todo, reactions, nticks)
    ensures var o := Walk(p, todo, reactions, nticks);
            && Sound(o.plan) && o.plan.settings.Keys == p.settings.Keys
            && MayAll(p, o.script, nticks) && o.plan == DoAll(p, o.script, nticks)
    decreases |todo|
  {
    hide Sound, MayAll, DoAll, TurnOf, Stopped, Without, IsSuffix;
    if todo == [] {
      NothingDone(p, nticks);
    } else {
      Step(p, todo, reactions, nticks);
      var acts := TurnOf(p, todo[0], reactions[todo[0]], nticks);
      var q, rest := DoAll(p, acts, nticks), Without(todo[1..], Stopped(acts));
      WalkIsScript(q, rest, reactions, nticks);
      DoAllSplit(p, acts, Walk(q, rest, reactions, nticks).script, nticks);
    }
  }

  lemma NothingDone(p: Plan, nticks: nat)
    ensures MayAll(p, [], nticks) && DoAll(p, [], nticks) == p
  {
  }

  /** An alarm is stopped before its turn, which begins with the clearing of its flag. */
  predicate StoppedFirst(script: seq<Act>, x: Alarm) {
    script != [] && script[0] != ClearFlag(x) && (script[0] == StopAlarm(x) || StoppedFirst(script[1..], x))
  }

  lemma {:induction false} StoppedFirstSplit(acts: seq<Act>, script: seq<Act>, x: Alarm)
    requires forall i :: 0 <= i < |acts| ==> acts[i] != ClearFlag(x)
    ensures StoppedFirst(acts + script, x) <==> x in Stopped(acts) || StoppedFirst(script, x)
    decreases |acts|
  {
    if acts == [] {
      assert acts + script == script;
    } else {
      StoppedMore(acts);
      assert (acts + script)[0] == acts[0] && (acts + script)[1..] == acts[1..] + script;
      hide Stopped;
      assert forall i :: 0 <= i < |acts[1..]| ==> acts[1..][i] == acts[i + 1];
      StoppedFirstSplit(acts[1..], script, x);
    }
  }

  /** The walk visits the alarms in list order, each once, but for exactly those
      that a callback stops before their turn. */
  lemma {:induction false} WalkVisits(p: Plan, todo: seq<Alarm>, reactions: map<Alarm, Reaction>, nticks: nat)
    requires Sound(p) && IsSuffix(todo, p.ring) && LegalWalk(p, todo, reactions, nticks)
    ensures var o := Walk(p, todo, reactions, nticks);
            && o.visited == Without(todo, o.dropped)
            && (forall x :: x in o.dropped ==> x in todo)
            && (forall x :: x in todo ==> (x in o.dropped <==> StoppedFirst(o.script, x)))
    decreases |todo|
  {
    hide Sound, MayAll, DoAll, TurnOf, IsSuffix, Without, Stopped;
    if todo == [] {
      WithoutNone(todo, {});
    } else {
      Step(p, todo, reactions, nticks);
      var a, tail := todo[0], todo[1..];
      var acts := TurnOf(p, a, reactions[a], nticks);
      var q, rest := DoAll(p, acts, nticks), Without(tail, Stopped(acts));
      WithoutMembers(tail, Stopped(acts));
      WalkVisits(q, rest, reactions, nticks);
      var o, o' := Walk(q, rest, reactions, nticks), Walk(p, todo, reactions, nticks);
      VisitedBefore(a, tail, Stopped(acts), o.dropped);
      assert todo == [a] + tail;
      forall x | x in todo ensures x in o'.dropped <==> StoppedFirst(o'.script, x) {
        if x == a {
          TurnBegins(p, a, reactions[a], nticks);
        } else {
          TurnClears(p, a, tail, reactions[a], nticks, x);
          StoppedFirstSplit(acts, o.script, x);
        }
      }
    }
  }

  lemma VisitedBefore(a: Alarm, tail: seq<Alarm>, stopped: set<Alarm>, dropped: set<Alarm>)
    requires a !in tail && (forall x :: x in dropped ==> x in Without(tail, stopped))
    ensures [a] + Without(Without(tail, stopped), dropped)
            == Without([a] + tail, stopped * (set x | x in tail) + dropped)
  {
    WithoutTwice(tail, stopped, dropped);
    WithoutMembers(tail, stopped);
    WithoutSame(tail, stopped + dropped, stopped * (set x | x in tail) + dropped);
    assert ([a] + tail)[1..] == tail;
  }

  lemma TurnBegins(p: Plan, a: Alarm, reaction: Reaction, nticks: nat)
    requires a in p.settings
    ensures TurnOf(p, a, reaction, nticks) != [] && TurnOf(p, a, reaction, nticks)[0] == ClearFlag(a)
  {
  }

  /** A turn clears no other alarm's flag, and rearms no other alarm. */
  lemma TurnClears(p: Plan, a: Alarm, tail: seq<Alarm>, reaction: Reaction, nticks: nat, x: Alarm)
    requires a in p.settings && x != a && (Fires(p, a, nticks) ==> Spares(reaction.acts, tail))
    ensures var acts := TurnOf(p, a, reaction, nticks);
            forall i :: 0 <= i < |acts| && acts[i].alarm == x ==> acts[i].StartAlarm? || acts[i].StopAlarm?
  {
    hide Expired;
  }

  /** The alarms among `s` due at tick now + 1, in order. */
  function DueAt(s: seq<Alarm>, settings: map<Alarm, Setting>, now: nat): seq<Alarm> {
    if s == [] then []
    else (if s[0] in settings && Due(settings[s[0]].time, settings[s[0]].flag, now) == now + 1 then [s[0]] else [])
         + DueAt(s[1..], settings, now)
  }

  lemma {:induction false} DueAtSame(s: seq<Alarm>, a: map<Alarm, Setting>, b: map<Alarm, Setting>, now: nat)
    requires forall x :: x in s ==> x in a && x in b && a[x] == b[x]
    ensures DueAt(s, a, now) == DueAt(s, b, now)
  {
    hide Due;
    if s != [] {
      assert forall x :: x in s[1..] ==> x in s;
      DueAtSame(s[1..], a, b, now);
    }
  }

  /** An alarm still waiting for its turn has the fields it began with. */
  lemma Waiting(p: Plan, a: Alarm, tail: seq<Alarm>, reaction: Reaction, nticks: nat, x: Alarm)
    requires Sound(p) && a in p.settings && x in p.ring && x != a
    requires (Fires(p, a, nticks) ==> Spares(reaction.acts, tail)) && MayAll(p, TurnOf(p, a, reaction, nticks), nticks)
    requires x !in Stopped(TurnOf(p, a, reaction, nticks))
    ensures var q := DoAll(p, TurnOf(p, a, reaction, nticks), nticks);
            x in q.ring && x in q.settings && x in p.settings && q.settings[x] == p.settings[x]
  {
    var acts := TurnOf(p, a, reaction, nticks);
    TurnClears(p, a, tail, reaction, nticks, x);
    ListedStays(p, acts, nticks, x);
    ActsDecide(p, acts, nticks, x);
  }

  /** Called back are exactly the visited alarms that are due, in order. */
  lemma {:induction false} WalkFires(p: Plan, todo: seq<Alarm>, reactions: map<Alarm, Reaction>, now: nat)
    requires Sound(p) && IsSuffix(todo, p.ring) && LegalWalk(p, todo, reactions, (now + 1) % WRAP)
    ensures var o := Walk(p, todo, reactions, (now + 1) % WRAP);
            o.fired == DueAt(o.visited, p.settings, now)
    decreases |todo|
  {
    hide Sound, MayAll, DoAll, TurnOf, IsSuffix, Without, Stopped, Due, Fires, Spares;
    var nticks := (now + 1) % WRAP;
    if todo != [] {
      Step(p, todo, reactions, nticks);
      var a, tail := todo[0], todo[1..];
      assert todo == [a] + tail;
      var acts := TurnOf(p, a, reactions[a], nticks);
      var q, rest := DoAll(p, acts, nticks), Without(tail, Stopped(acts));
      WalkFires(q, rest, reactions, now);
      VisitedWait(p, a, tail, reactions, nticks);
      FiresIfDue(p, a, now);
      var o := Walk(q, rest, reactions, nticks);
      DueAtSame(o.visited, q.settings, p.settings, now);
      DueAtMore(a, o.visited, p.settings, now);
    }
  }

  /** What a later part of the walk visits has waited for it. */
  lemma VisitedWait(p: Plan, a: Alarm, tail: seq<Alarm>, reactions: map<Alarm, Reaction>, nticks: nat)
    requires Sound(p) && IsSuffix([a] + tail, p.ring) && LegalWalk(p, [a] + tail, reactions, nticks)
    ensures a in p.settings && a in reactions && MayAll(p, TurnOf(p, a, reactions[a], nticks), nticks)
    ensures var acts := TurnOf(p, a, reactions[a], nticks);
            var q, rest := DoAll(p, acts, nticks), Without(tail, Stopped(acts));
            && LegalWalk(q, rest, reactions, nticks)
            && forall x :: x in Walk(q, rest, reactions, nticks).visited ==>
                 x in p.settings && x in q.settings && q.settings[x] == p.settings[x]
  {
    hide Sound, MayAll, DoAll, TurnOf, IsSuffix, Without, Stopped, Fires, Spares;
    assert ([a] + tail)[1..] == tail;
    Step(p, [a] + tail, reactions, nticks);
    var acts := TurnOf(p, a, reactions[a], nticks);
    var q, rest := DoAll(p, acts, nticks), Without(tail, Stopped(acts));
    WalkVisits(q, rest, reactions, nticks);
    var o := Walk(q, rest, reactions, nticks);
    forall x | x in o.visited ensures x in p.settings && x in q.settings && q.settings[x] == p.settings[x] {
      WithoutMember(rest, o.dropped, x);
      WithoutMember(tail, Stopped(acts), x);
      SuffixMember(tail, p.ring, x);
      Waiting(p, a, tail, reactions[a], nticks, x);
    }
  }

  lemma DueAtMore(a: Alarm, s: seq<Alarm>, settings: map<Alarm, Setting>, now: nat)
    ensures DueAt([a] + s, settings, now)
            == (if a in settings && Due(settings[a].time, settings[a].flag, now) == now + 1 then [a] else [])
               + DueAt(s, settings, now)
  {
    assert ([a] + s)[1..] == s;
  }

  lemma FiresIfDue(p: Plan, a: Alarm, now: nat)
    requires Sound(p) && a in p.settings
    ensures Fires(p, a, (now + 1) % WRAP) <==> Due(p.settings[a].time, p.settings[a].flag, now) == now + 1
  {
    TickKeepsDue(p.settings[a].time, p.settings[a].flag, now);
  }
}
