/** What the engine does between two operations: it shows the picture, waits, and
    asks for subkeys. */
module ImageIdle {
  import opened ImageCipher
  import opened ImageEngine
  import opened ImageRuns

  /** While the picture is shown, what is on the data lines one edge later is the
      word at the line and column asked for. */
  lemma DisplayShows(s: State, i: Inputs, floating: bv16)
    requires s.phase.Display? && i.hc < 640 && i.vc < 480
    ensures Bus(Step(s, i), floating) == s.mem[640 * i.vc + i.hc]
  {
  }

  /** What the run button does while the picture is shown, by the two switches;
      and that nothing else does anything. */
  lemma CommandsOnly(s: State, i: Inputs)
    requires s.phase.Display?
    ensures var next := Step(s, i).phase;
            && (Busy(next) <==> EncryptCommand(i) || DecryptCommand(i))
            && (next.KeyGen? <==> i.run && !i.sw1 && !i.sw2)
            && (next.Display? <==> !i.run || (i.sw1 && i.sw2))
  {
  }

  /** After an operation the picture is shown again exactly at the run button
      with both switches on; until then the engine rests. */
  lemma RestsUntilShown(s: State, i: Inputs)
    requires s.phase.Hiatus?
    ensures var s' := Step(s, i);
            && (s'.phase.Display? <==> i.run && i.sw1 && i.sw2) && (!s'.phase.Display? ==> s'.phase.Hiatus?)
            && Rested(s') && !Writing(s'.pins)
  {
  }

  // ------------------------------------------------------------------
  // Subkeys
  // ------------------------------------------------------------------

  /** How many subkeys have been delivered over `n` edges: the engine was waiting
      for one, and one was done. */
  function Delivered(s: State, ins: nat -> Inputs, t: nat, n: nat): nat
    decreases n
  {
    if n == 0 then 0
    else (if s.phase.KeyGen? && s.rev == 3 && ins(t).subkeyDone then 1 else 0)
         + Delivered(Step(s, ins(t)), ins, t + 1, n - 1)
  }

  /** The engine generates keys, and `d` have been delivered. */
  predicate Generating(s: State, d: nat) {
    && s.phase.KeyGen?
    && match s.rev
       case 0 => d == 0
       case 1 | 2 => s.keyCounter == d < 7
       case 3 => s.keyCounter == d + 1 <= 7
       case 4 => s.keyCounter == d && 1 <= d <= 7
       case 5 => s.keyCounter == d == 7
       case _ => false
  }

  lemma GeneratingStep(s: State, i: Inputs, d: nat)
    requires Generating(s, d)
    ensures var s' := Step(s, i);
            var d' := if s.rev == 3 && i.subkeyDone then d + 1 else d;
            if s.rev == 5 then s'.phase.Hiatus? && d' == 7 else Generating(s', d')
  {
    hide Step;
    KeyCounts(s, d);
    KeyRegisters(s, i);
  }

  /** The command that begins it. */
  lemma KeysBegin(s: State, i: Inputs)
    requires Ready(s) && i.run && !i.sw1 && !i.sw2
    ensures Generating(Step(s, i), 0) && KeyEdges(Step(s, i), 0) == 30
  {
  }

  lemma KeyCounts(s: State, d: nat)
    requires Generating(s, d)
    ensures s.phase.KeyGen? && s.rev <= 5 && d <= 7
    ensures s.rev != 0 ==> s.keyCounter <= 7
  {
  }

  lemma KeyRegisters(s: State, i: Inputs)
    requires s.phase.KeyGen? && s.rev <= 5 && (s.rev != 0 ==> s.keyCounter <= 7)
    ensures var s' := Step(s, i);
            && s'.rev == (match s.rev
                          case 0 => 1
                          case 1 => 2
                          case 2 => 3
                          case 3 => if i.subkeyDone then 4 else 3
                          case 4 => if s.keyCounter == 7 then 5 else 1
                          case _ => 5)
            && s'.keyCounter == (if s.rev == 0 then 0 else if s.rev == 2 then s.keyCounter + 1 else s.keyCounter)
            && s'.phase == if s.rev == 5 then Hiatus else KeyGen
  {
    KeyPhase(s, i);
    hide Commit, Step;
  }

  lemma KeyPhase(s: State, i: Inputs)
    requires s.phase.KeyGen?
    ensures var s', r := Step(s, i), KeyGenStep(s, i.subkeyDone);
            s'.rev == r.rev && s'.keyCounter == r.keyCounter && s'.phase == if s.rev == 5 then Hiatus else KeyGen
  {
    hide Commit, KeyGenStep;
  }

  /** However long each subkey takes, the engine comes to rest once exactly seven
      have been delivered, and not before. */
  lemma {:induction false} SevenSubkeys(s: State, ins: nat -> Inputs, t: nat, n: nat, d: nat)
    requires Generating(s, d)
    requires Run(s, ins, t, n).phase.Hiatus? && forall k :: 0 <= k < n ==> Run(s, ins, t, k).phase.KeyGen?
    ensures d + Delivered(s, ins, t, n) == 7
    decreases n
  {
    hide Step, Generating;
    assert n > 0 by { GeneratingPhase(s, d); }
    var s', u := Step(s, ins(t)), t + 1;
    GeneratingStep(s, ins(t), d);
    GeneratingPhase(s, d);
    assert Run(s, ins, t, 1) == Run(s', ins, u, 0) == s';
    assert n > 1 ==> Run(s, ins, t, 1).phase.KeyGen?;
    assert Delivered(s', ins, u, 0) == 0;
    if s.rev != 5 {
      forall k | 0 <= k < n - 1 ensures Run(s', ins, u, k).phase.KeyGen? {
        assert Run(s', ins, u, k) == Run(s, ins, t, k + 1);
      }
      SevenSubkeys(s', ins, u, n - 1, if s.rev == 3 && ins(t).subkeyDone then d + 1 else d);
    }
  }

  lemma GeneratingPhase(s: State, d: nat)
    requires Generating(s, d)
    ensures s.phase.KeyGen? && (s.rev == 5 ==> d == 7)
  {
  }

  /** The edges left, if every subkey is done when it is asked for. */
  function KeyEdges(s: State, d: nat): nat
    requires Generating(s, d)
  {
    match s.rev
    case 0 => 30
    case 1 => 29 - 4 * d
    case 2 => 28 - 4 * d
    case 3 => 27 - 4 * d
    case 4 => 30 - 4 * d
    case _ => 1
  }

  /** It does come to rest, thirty edges after the command if no subkey is waited for. */
  lemma {:induction false} KeysCome(s: State, ins: nat -> Inputs, t: nat, d: nat)
    requires Generating(s, d) && forall k: nat :: ins(k).subkeyDone
    ensures Run(s, ins, t, KeyEdges(s, d)).phase.Hiatus?
    decreases KeyEdges(s, d)
  {
    GeneratingStep(s, ins(t), d);
    var s', d' := Step(s, ins(t)), if s.rev == 3 then d + 1 else d;
    assert ins(t).subkeyDone;
    if s.rev == 5 {
      assert Run(s', ins, t + 1, 0) == s';
    } else {
      KeyEdgeLess(s, ins(t), d);
      hide Step, Generating;
      KeysCome(s', ins, t + 1, d');
    }
  }

  lemma KeyEdgeLess(s: State, i: Inputs, d: nat)
    requires Generating(s, d) && s.rev != 5 && i.subkeyDone
    ensures var d' := if s.rev == 3 then d + 1 else d;
            Generating(Step(s, i), d') && KeyEdges(Step(s, i), d') == KeyEdges(s, d) - 1
  {
    hide Step;
    KeyCounts(s, d);
    KeyRegisters(s, i);
  }
}
