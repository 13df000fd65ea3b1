/** The walk of a tick as the source makes it: save the link, serve the alarm, go
    where the link led.  It ends at the head of the list, if it ends. */
module AlarmWalk {
  import opened AlarmList
  import opened AlarmTime
  import opened AlarmTick
  import opened AlarmRuns

  /** How callbacks react, round by round of the walk. */
  type Calls = seq<map<Alarm, Reaction>>

  /** The same in each of `k` rounds. */
  function Always(reactions: map<Alarm, Reaction>, k: nat): (calls: Calls)
    ensures |calls| == k && forall j :: 0 <= j < k ==> calls[j] == reactions
  {
    seq(k, _ => reactions)
  }

  lemma AlwaysMore(reactions: map<Alarm, Reaction>, k: nat)
    requires k > 0
    ensures Always(reactions, k)[0] == reactions && Always(reactions, k)[1..] == Always(reactions, k - 1)
  {
  }

  /** Where a walk has come to, and what it has done on the way. */
  datatype Trail = Trail(plan: Plan, at: Alarm, visited: seq<Alarm>, fired: seq<Alarm>)

  function FirstOf(ring: seq<Alarm>, head: Alarm): Alarm {
    if ring == [] then head else ring[0]
  }

  /** Where an alarm's link leads: around the circle, or to itself if it is not listed. */
  function NextOf(ring: seq<Alarm>, head: Alarm, a: Alarm): Alarm {
    var k := IndexIn(ring, a);
    if k == |ring| then a else if k + 1 < |ring| then ring[k + 1] else head
  }

  /** The callback, if it is called, keeps to what the routines demand. */
  predicate MayServe(p: Plan, at: Alarm, reactions: map<Alarm, Reaction>, nticks: nat) {
    && at in p.settings && at in reactions && reactions[at].again < WRAP
    && (Fires(p, at, nticks) ==> Proper(reactions[at].acts))
    && MayAll(p, TurnOf(p, at, reactions[at], nticks), nticks)
  }

  function Serve(p: Plan, at: Alarm, reactions: map<Alarm, Reaction>, nticks: nat): Plan
    requires MayServe(p, at, reactions, nticks)
  {
    DoAll(p, TurnOf(p, at, reactions[at], nticks), nticks)
  }

  /** So do those of the next rounds from alarm `at` on, one for each of `calls`. */
  predicate Allowed(p: Plan, at: Alarm, calls: Calls, nticks: nat, head: Alarm)
    decreases |calls|
  {
    calls == [] || at == head ||
    (MayServe(p, at, calls[0], nticks)
     && Allowed(Serve(p, at, calls[0], nticks), NextOf(p.ring, head, at), calls[1..], nticks, head))
  }

  /** Those rounds, or fewer if the walk ends before. */
  function Follow(p: Plan, at: Alarm, calls: Calls, nticks: nat, head: Alarm): Trail
    requires Allowed(p, at, calls, nticks, head)
    decreases |calls|
  {
    if calls == [] || at == head then Trail(p, at, [], [])
    else
      Passing(at, Fires(p, at, nticks),
              Follow(Serve(p, at, calls[0], nticks), NextOf(p.ring, head, at), calls[1..], nticks, head))
  }

  function Passing(a: Alarm, rang: bool, t: Trail): Trail {
    Trail(t.plan, t.at, [a] + t.visited, if rang then [a] + t.fired else t.fired)
  }

  /** After those rounds the walk has reached the head of the list. */
  predicate Reaches(p: Plan, at: Alarm, calls: Calls, nticks: nat, head: Alarm) {
    Allowed(p, at, calls, nticks, head) && Follow(p, at, calls, nticks, head).at == head
  }

  /** With callbacks that react the same in every round, the walk ends. */
  ghost predicate Ends(p: Plan, at: Alarm, reactions: map<Alarm, Reaction>, nticks: nat, head: Alarm) {
    exists k: nat :: Reaches(p, at, Always(reactions, k), nticks, head)
  }

  // ------------------------------------------------------------------
  // When every callback spares the alarm saved as next
  // ------------------------------------------------------------------

  lemma {:induction false} IndexOfItem<T>(s: seq<T>, k: nat)
    requires Distinct(s) && k < |s|
    ensures IndexIn(s, s[k]) == k
  {
    if k > 0 {
      assert s[1..][k - 1] == s[k];
      IndexOfItem(s[1..], k - 1);
    }
  }

  lemma NextVisited(p: Plan, todo: seq<Alarm>, head: Alarm)
    requires Sound(p) && todo != [] && IsSuffix(todo, p.ring) && head !in p.settings
    ensures NextOf(p.ring, head, todo[0]) == FirstOf(todo[1..], head) && todo[0] != head
  {
    var k := |p.ring| - |todo|;
    assert todo[0] == p.ring[k];
    IndexOfItem(p.ring, k);
    if |todo| > 1 {
      assert todo[1] == p.ring[k + 1];
    }
  }

  /** Then the walk by saved links ends, and leaves and does what the specified
      walk does. */
  lemma {:induction false} LegalWalkEnds(
      p: Plan, todo: seq<Alarm>, reactions: map<Alarm, Reaction>, nticks: nat, head: Alarm, k: nat)
    requires Sound(p) && IsSuffix(todo, p.ring) && LegalWalk(p, todo, reactions, nticks) && head !in p.settings
    requires k >= |todo|
    ensures var at, calls, o := FirstOf(todo, head), Always(reactions, k), Walk(p, todo, reactions, nticks);
            && Allowed(p, at, calls, nticks, head)
            && Follow(p, at, calls, nticks, head) == Trail(o.plan, head, o.visited, o.fired)
    decreases |todo|
  {
    hide Sound, MayAll, DoAll, TurnOf, Without, Stopped, Fires, Proper, IsSuffix, NextOf;
    if todo != [] {
      Step(p, todo, reactions, nticks);
      var a, tail := todo[0], todo[1..];
      var acts := TurnOf(p, a, reactions[a], nticks);
      var q, rest := DoAll(p, acts, nticks), Without(tail, Stopped(acts));
      NextVisited(p, todo, head);
      assert MayServe(p, a, reactions, nticks) && Serve(p, a, reactions, nticks) == q;
      LegalWalkEnds(q, rest, reactions, nticks, head, k - 1);
      hide Walk, LegalWalk, MayServe, Serve;
      AlwaysMore(reactions, k);
    }
  }

  /** One tick, with enough rounds for the whole list. */
  lemma LegalTickEnds(p: Plan, reactions: map<Alarm, Reaction>, now: nat, head: Alarm, k: nat)
    requires Sound(p) && LegalWalk(p, p.ring, reactions, (now + 1) % WRAP) && head !in p.settings && k >= |p.ring|
    ensures var nticks := (now + 1) % WRAP;
            var at, calls, o := FirstOf(p.ring, head), Always(reactions, k), TickOf(p, reactions, nticks);
            && Allowed(p, at, calls, nticks, head)
            && Follow(p, at, calls, nticks, head) == Trail(o.plan, head, o.visited, o.fired)
            && o.visited == Without(p.ring, o.dropped) && o.fired == DueAt(o.visited, p.settings, now)
  {
    WholeSuffix(p.ring);
    WalkVisits(p, p.ring, reactions, (now + 1) % WRAP);
    WalkFires(p, p.ring, reactions, now);
    hide Sound, LegalWalk, Walk, Without, DueAt, Follow, Allowed;
    LegalWalkEnds(p, p.ring, reactions, (now + 1) % WRAP, head, k);
  }

  // ------------------------------------------------------------------
  // Many ticks
  // ------------------------------------------------------------------

  /** The trail of the tick after `now`. */
  function TickTrail(p: Plan, now: nat, calls: Calls, head: Alarm): Trail
    requires Allowed(p, FirstOf(p.ring, head), calls, (now + 1) % WRAP, head)
  {
    Follow(p, FirstOf(p.ring, head), calls, (now + 1) % WRAP, head)
  }

  /** Every tick ends within the rounds there are. */
  predicate AllEnd(p: Plan, now: nat, cs: seq<Calls>, head: Alarm)
    decreases |cs|
  {
    cs != [] ==>
      && Reaches(p, FirstOf(p.ring, head), cs[0], (now + 1) % WRAP, head)
      && AllEnd(TickTrail(p, now, cs[0], head).plan, now + 1, cs[1..], head)
  }

  function Finally(p: Plan, now: nat, cs: seq<Calls>, head: Alarm): Plan
    requires AllEnd(p, now, cs, head)
    decreases |cs|
  {
    if cs == [] then p else Finally(TickTrail(p, now, cs[0], head).plan, now + 1, cs[1..], head)
  }

  /** The alarms called back at tick now + i + 1. */
  function RungAt(p: Plan, now: nat, cs: seq<Calls>, head: Alarm, i: nat): seq<Alarm>
    requires AllEnd(p, now, cs, head) && i < |cs|
    decreases |cs|
  {
    var t := TickTrail(p, now, cs[0], head);
    if i == 0 then t.fired else RungAt(t.plan, now + 1, cs[1..], head, i - 1)
  }

  function AlwaysEach(rs: seq<map<Alarm, Reaction>>, k: nat): (cs: seq<Calls>)
    ensures |cs| == |rs| && forall i :: 0 <= i < |rs| ==> cs[i] == Always(rs[i], k)
  {
    seq(|rs|, i requires 0 <= i < |rs| => Always(rs[i], k))
  }

  /** A list is no longer than there are alarms. */
  lemma {:induction false} RingFits(ring: seq<Alarm>, pool: set<Alarm>)
    requires Distinct(ring) && forall a :: a in ring ==> a in pool
    ensures |ring| <= |pool|
  {
    if ring != [] {
      var rest := ring[1..];
      assert forall a :: a in rest ==> a in pool && a != ring[0];
      RingFits(rest, pool - {ring[0]});
    }
  }

  /** Ticks whose callbacks spare the alarm saved as next all end, and do what
      the specified ticks do. */
  lemma {:induction false} LegalTicksEnd(p: Plan, now: nat, rs: seq<map<Alarm, Reaction>>, head: Alarm, k: nat)
    requires Sound(p) && LegalTicks(p, now, rs) && head !in p.settings && k >= |p.settings.Keys|
    ensures AllEnd(p, now, AlwaysEach(rs, k), head) && Finally(p, now, AlwaysEach(rs, k), head) == After(p, now, rs)
    ensures forall i :: 0 <= i < |rs| ==> RungAt(p, now, AlwaysEach(rs, k), head, i) == FiredAt(p, now, rs, i)
    decreases |rs|
  {
    if rs != [] {
      RingFits(p.ring, p.settings.Keys);
      LegalTickEnds(p, rs[0], now, head, k);
      WholeSuffix(p.ring);
      WalkIsScript(p, p.ring, rs[0], (now + 1) % WRAP);
      hide Sound, LegalWalk, Walk, Follow, Allowed, Without, DueAt, Always, DoAll, MayAll, FirstOf;
      var cs, q := AlwaysEach(rs, k), TickOf(p, rs[0], (now + 1) % WRAP).plan;
      assert cs[1..] == AlwaysEach(rs[1..], k);
      LegalTicksEnd(q, now + 1, rs[1..], head, k);
      forall i | 0 <= i < |rs| ensures RungAt(p, now, cs, head, i) == FiredAt(p, now, rs, i) {
        if i > 0 {
          assert RungAt(q, now + 1, cs[1..], head, i - 1) == FiredAt(q, now + 1, rs[1..], i - 1);
        }
      }
    }
  }

  // ------------------------------------------------------------------
  // When the alarm saved as next is stopped after all
  // ------------------------------------------------------------------

  predicate Starts(acts: seq<Act>, x: Alarm) {
    exists i :: 0 <= i < |acts| && acts[i].StartAlarm? && acts[i].alarm == x
  }

  /** The alarm's own callback does not start it. */
  predicate StartsNotItself(reactions: map<Alarm, Reaction>, x: Alarm) {
    x in reactions ==> !Starts(reactions[x].acts, x)
  }

  lemma {:induction false} NotListed(acts: seq<Act>, x: Alarm)
    requires !Starts(acts, x)
    ensures !Listed(false, About(acts, x))
  {
    if acts != [] {
      var rest := acts[1..];
      assert acts[0].alarm != x || !acts[0].StartAlarm?;
      forall i | 0 <= i < |rest| ensures !(rest[i].StartAlarm? && rest[i].alarm == x) {
        assert rest[i] == acts[i + 1];
      }
      NotListed(rest, x);
      if acts[0].alarm == x {
        assert About(acts, x) == [acts[0]] + About(rest, x);
        assert ([acts[0]] + About(rest, x))[1..] == About(rest, x);
      } else {
        assert About(acts, x) == [] + About(rest, x) == About(rest, x);
      }
    }
  }

  /** An unlisted alarm's turn leaves it unlisted, unless its callback starts it. */
  lemma ServedUnlisted(p: Plan, x: Alarm, reactions: map<Alarm, Reaction>, nticks: nat)
    requires Sound(p) && x !in p.ring && MayServe(p, x, reactions, nticks) && StartsNotItself(reactions, x)
    ensures Sound(Serve(p, x, reactions, nticks)) && x !in Serve(p, x, reactions, nticks).ring
  {
    hide Fires, Proper, MayAll, DoAll, Sound;
    var reaction := reactions[x];
    var acts := TurnOf(p, x, reaction, nticks);
    forall i | 0 <= i < |acts| ensures !(acts[i].StartAlarm? && acts[i].alarm == x) {
      if 0 < i && i - 1 < |reaction.acts| && Fires(p, x, nticks) {
        assert acts[i] == reaction.acts[i - 1];
      }
    }
    NotListed(acts, x);
    ActsDecide(p, acts, nticks, x);
  }

  /** A walk that has come to an unlisted alarm stays there: its link leads to itself. */
  lemma {:induction false} StaysTrapped(p: Plan, x: Alarm, calls: Calls, nticks: nat, head: Alarm)
    requires Sound(p) && x !in p.ring && x != head
    requires forall j :: 0 <= j < |calls| ==> StartsNotItself(calls[j], x)
    requires Allowed(p, x, calls, nticks, head)
    ensures Follow(p, x, calls, nticks, head).at == x
    decreases |calls|
  {
    hide Sound, MayServe, Serve, Fires, StartsNotItself;
    if calls != [] {
      assert StartsNotItself(calls[0], x);
      assert forall j :: 0 <= j < |calls[1..]| ==> calls[1..][j] == calls[j + 1];
      ServedUnlisted(p, x, calls[0], nticks);
      StaysTrapped(Serve(p, x, calls[0], nticks), x, calls[1..], nticks, head);
    }
  }

  /** The end of the list from alarm `x` on. */
  function From(ring: seq<Alarm>, x: Alarm): (todo: seq<Alarm>)
    ensures IsSuffix(todo, ring)
    ensures if x in ring then todo != [] && todo[0] == x else todo == []
  {
    ring[IndexIn(ring, x)..]
  }

  /** After a callback's acts, the walk that goes on to the alarm it saved as next
      reaches the end of the list if and only if the acts leave that alarm listed:
      they did not stop it, or started it again. */
  lemma TrapExactly(
      p: Plan, acts: seq<Act>, next: Alarm, reactions: map<Alarm, Reaction>, nticks: nat, head: Alarm)
    requires Sound(p) && MayAll(p, acts, nticks) && next in p.ring && head !in p.settings
    requires var q := DoAll(p, acts, nticks);
             if next in q.ring then LegalWalk(q, From(q.ring, next), reactions, nticks)
             else StartsNotItself(reactions, next)
    ensures Ends(DoAll(p, acts, nticks), next, reactions, nticks, head)
            <==> Listed(true, About(acts, next))
  {
    var q := DoAll(p, acts, nticks);
    ActsDecide(p, acts, nticks, next);
    ListedIsSet(p, next);
    hide Sound, MayAll, DoAll, About, From, Allowed, Follow, LegalWalk, Walk, Listed;
    if next in q.ring {
      var todo := From(q.ring, next);
      LegalWalkEnds(q, todo, reactions, nticks, head, |todo|);
      assert Reaches(q, next, Always(reactions, |todo|), nticks, head);
    } else {
      NeverEnds(q, next, reactions, nticks, head);
    }
  }

  lemma NeverEnds(p: Plan, x: Alarm, reactions: map<Alarm, Reaction>, nticks: nat, head: Alarm)
    requires Sound(p) && x !in p.ring && x != head && StartsNotItself(reactions, x)
    ensures !Ends(p, x, reactions, nticks, head)
  {
    hide Sound, Allowed, Follow;
    forall k: nat ensures !Reaches(p, x, Always(reactions, k), nticks, head) {
      if Allowed(p, x, Always(reactions, k), nticks, head) {
        StaysTrappedAlways(p, x, reactions, nticks, head, k);
      }
    }
  }

  /** So does one with callbacks that react the same in every round. */
  lemma StaysTrappedAlways(p: Plan, x: Alarm, reactions: map<Alarm, Reaction>, nticks: nat, head: Alarm, k: nat)
    requires Sound(p) && x !in p.ring && x != head && StartsNotItself(reactions, x)
    requires Allowed(p, x, Always(reactions, k), nticks, head)
    ensures Follow(p, x, Always(reactions, k), nticks, head).at == x
  {
    hide Sound, Allowed, Follow, StartsNotItself, Always;
    StaysTrapped(p, x, Always(reactions, k), nticks, head);
  }

  /** Every callback of the walk spares the alarm saved as next, or else stops it
      for good: neither it nor that alarm's own callback starts it again. */
  predicate PlainWalk(p: Plan, todo: seq<Alarm>, reactions: map<Alarm, Reaction>, nticks: nat)
    decreases |todo|
  {
    todo == [] ||
    var a, tail := todo[0], todo[1..];
    && MayServe(p, a, reactions, nticks)
    && var q := Serve(p, a, reactions, nticks);
    if StopsNext(p, a, tail, reactions, nticks) then tail[0] !in q.ring && StartsNotItself(reactions, tail[0])
    else PlainWalk(q, Without(tail, Stopped(TurnOf(p, a, reactions[a], nticks))), reactions, nticks)
  }

  predicate StopsNext(p: Plan, a: Alarm, tail: seq<Alarm>, reactions: map<Alarm, Reaction>, nticks: nat)
    requires MayServe(p, a, reactions, nticks)
  {
    Fires(p, a, nticks) && tail != [] && tail[0] in Stopped(reactions[a].acts)
  }

  /** A plain walk over the whole list ends if and only if none of its callbacks,
      in the state it meets, stops the alarm saved as next. */
  lemma PlainWalkEndsExactly(p: Plan, reactions: map<Alarm, Reaction>, nticks: nat, head: Alarm)
    requires Sound(p) && PlainWalk(p, p.ring, reactions, nticks) && head !in p.settings
    ensures Ends(p, FirstOf(p.ring, head), reactions, nticks, head) <==> LegalWalk(p, p.ring, reactions, nticks)
  {
    WholeSuffix(p.ring);
    hide Sound, PlainWalk, LegalWalk, Walk, Allowed, Follow;
    var at := FirstOf(p.ring, head);
    if LegalWalk(p, p.ring, reactions, nticks) {
      LegalWalkEnds(p, p.ring, reactions, nticks, head, |p.ring|);
      assert Reaches(p, at, Always(reactions, |p.ring|), nticks, head);
    } else {
      forall k: nat ensures !Reaches(p, at, Always(reactions, k), nticks, head) {
        if Allowed(p, at, Always(reactions, k), nticks, head) {
          PlainWalkTraps(p, p.ring, reactions, nticks, head, k);
        }
      }
    }
  }

  lemma {:induction false} PlainWalkTraps(
      p: Plan, todo: seq<Alarm>, reactions: map<Alarm, Reaction>, nticks: nat, head: Alarm, k: nat)
    requires Sound(p) && IsSuffix(todo, p.ring) && PlainWalk(p, todo, reactions, nticks) && head !in p.settings
    requires !LegalWalk(p, todo, reactions, nticks)
    requires Allowed(p, FirstOf(todo, head), Always(reactions, k), nticks, head)
    ensures Follow(p, FirstOf(todo, head), Always(reactions, k), nticks, head).at != head
    decreases k
  {
    hide Sound, IsSuffix, NextOf, StartsNotItself, MayServe, Serve, StopsNext, Without, Stopped, Always;
    NextVisited(p, todo, head);
    if k > 0 {
      var a, tail := todo[0], todo[1..];
      PlainStep(p, todo, reactions, nticks);
      var q, rest := Serve(p, a, reactions, nticks), Without(tail, Stopped(TurnOf(p, a, reactions[a], nticks)));
      AlwaysMore(reactions, k);
      hide TurnOf;
      if StopsNext(p, a, tail, reactions, nticks) {
        NextIsSet(p, tail);
        StaysTrappedAlways(q, tail[0], reactions, nticks, head, k - 1);
      } else {
        PlainWalkTraps(q, rest, reactions, nticks, head, k - 1);
      }
    }
  }

  /** One round of a plain walk that does not end as specified. */
  lemma PlainStep(p: Plan, todo: seq<Alarm>, reactions: map<Alarm, Reaction>, nticks: nat)
    requires Sound(p) && todo != [] && IsSuffix(todo, p.ring) && PlainWalk(p, todo, reactions, nticks)
    requires !LegalWalk(p, todo, reactions, nticks)
    ensures var a, tail := todo[0], todo[1..];
            && MayServe(p, a, reactions, nticks) && a in p.settings && a in reactions && IsSuffix(tail, p.ring)
            && var q := Serve(p, a, reactions, nticks);
            var rest := Without(tail, Stopped(TurnOf(p, a, reactions[a], nticks)));
            && Sound(q) && q.settings.Keys == p.settings.Keys
            && if StopsNext(p, a, tail, reactions, nticks) then
                 tail != [] && tail[0] !in q.ring && StartsNotItself(reactions, tail[0])
               else
                 && IsSuffix(rest, q.ring) && PlainWalk(q, rest, reactions, nticks)
                 && !LegalWalk(q, rest, reactions, nticks)
                 && (tail == [] <==> rest == []) && (tail != [] ==> tail[0] == rest[0])
  {
    hide Sound, MayAll, DoAll, TurnOf, Without, Stopped, Fires, Proper, IsSuffix, StartsNotItself;
    var a, tail := todo[0], todo[1..];
    assert todo == [a] + tail;
    TurnKeeps(p, a, tail, TurnOf(p, a, reactions[a], nticks), nticks);
    if !StopsNext(p, a, tail, reactions, nticks) && tail != [] {
      NextSpared(p, a, tail, reactions[a], nticks);
    }
  }

  lemma NextIsSet(p: Plan, tail: seq<Alarm>)
    requires Sound(p) && tail != [] && IsSuffix(tail, p.ring)
    ensures tail[0] in p.settings
  {
  }

  /** So it is, for one, with two alarms of which the first is due and stops the
      second: the walk serves the second over and over, and never ends. */
  lemma StoppingTheNextTraps(a: Alarm, b: Alarm, head: Alarm, k: nat)
    requires a != b && a != head && b != head
    ensures var p := Plan([a, b], map[a := Setting(1, false), b := Setting(9, false)]);
            var calls := Always(map[a := Reaction([StopAlarm(b)], 1), b := Reaction([], 1)], k + 1);
            && Sound(p) && head !in p.settings
            && Allowed(p, a, calls, 1, head)
            && var t := Follow(p, a, calls, 1, head);
            t.at == b && t.fired == [a] && t.visited == [a] + seq(k, _ => b)
  {
    var p := Plan([a, b], map[a := Setting(1, false), b := Setting(9, false)]);
    var reactions := map[a := Reaction([StopAlarm(b)], 1), b := Reaction([], 1)];
    var q := Plan([a], map[a := Setting(2, false), b := Setting(9, false)]);
    FirstStops(a, b);
    ServesForEver(q, b, reactions, head, k);
    AlwaysMore(reactions, k + 1);
    assert NextOf(p.ring, head, a) == b by {
      assert IndexIn([a, b], a) == 0;
    }
    hide MayServe, Serve, NextOf;
    assert [a] + [] == [a];
  }

  lemma FirstStops(a: Alarm, b: Alarm)
    requires a != b
    ensures var p := Plan([a, b], map[a := Setting(1, false), b := Setting(9, false)]);
            var reactions := map[a := Reaction([StopAlarm(b)], 1), b := Reaction([], 1)];
            && Fires(p, a, 1) && MayServe(p, a, reactions, 1)
            && Serve(p, a, reactions, 1) == Plan([a], map[a := Setting(2, false), b := Setting(9, false)])
  {
    var p := Plan([a, b], map[a := Setting(1, false), b := Setting(9, false)]);
    var acts := [ClearFlag(a), StopAlarm(b), RearmAlarm(a, 1)];
    assert TurnOf(p, a, Reaction([StopAlarm(b)], 1), 1) == acts;
    assert Do(p, ClearFlag(a), 1) == p;
    var p1 := Do(p, StopAlarm(b), 1);
    WithoutOne([a, b], 1);
    assert [a, b][..1] + [a, b][2..] == [a];
    assert p1 == Plan([a], p.settings);
    var p2 := Do(p1, RearmAlarm(a, 1), 1);
    assert p2 == Plan([a], map[a := Setting(2, false), b := Setting(9, false)]);
    assert acts[1..] == [StopAlarm(b), RearmAlarm(a, 1)] && acts[1..][1..] == [RearmAlarm(a, 1)];
    assert acts[1..][1..][1..] == [];
    hide Do, Changed;
    assert MayAll(p2, [], 1) && DoAll(p2, [], 1) == p2;
    assert MayAll(p1, acts[1..][1..], 1) && DoAll(p1, acts[1..][1..], 1) == p2;
    assert MayAll(p, acts[1..], 1) && DoAll(p, acts[1..], 1) == p2;
  }

  /** A walk at an unlisted alarm that is not due. */
  lemma {:induction false} ServesForEver(q: Plan, b: Alarm, reactions: map<Alarm, Reaction>, head: Alarm, k: nat)
    requires b in q.settings && q.settings[b] == Setting(9, false) && b !in q.ring && b != head
    requires b in reactions && reactions[b].again < WRAP
    ensures Allowed(q, b, Always(reactions, k), 1, head)
    ensures Follow(q, b, Always(reactions, k), 1, head) == Trail(q, b, seq(k, _ => b), [])
    decreases k
  {
    if k > 0 {
      ServesIdle(q, b, reactions);
      AlwaysMore(reactions, k);
      hide MayServe, Serve, Fires;
      ServesForEver(q, b, reactions, head, k - 1);
      assert [b] + seq(k - 1, _ => b) == seq(k, _ => b);
    }
  }

  lemma ServesIdle(q: Plan, b: Alarm, reactions: map<Alarm, Reaction>)
    requires b in q.settings && q.settings[b] == Setting(9, false)
    requires b in reactions && reactions[b].again < WRAP
    ensures !Fires(q, b, 1) && MayServe(q, b, reactions, 1) && Serve(q, b, reactions, 1) == q
  {
    var acts := TurnOf(q, b, reactions[b], 1);
    assert acts == [ClearFlag(b)] && acts[1..] == [];
    assert Do(q, ClearFlag(b), 1) == q;
    hide Do;
    assert MayAll(q, [], 1) && DoAll(q, [], 1) == q;
    assert MayAll(q, acts, 1) && DoAll(q, acts, 1) == q;
  }
}
