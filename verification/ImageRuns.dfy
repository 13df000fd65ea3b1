/** Whole runs of the image engine, over any sequence of inputs: operations
    complete, and decryption restores the image. */
module ImageRuns {
  import opened ImageCipher
  import opened ImageEngine

  /** `n` edges from time `t` on, under the inputs `ins`. */
  function Run(s: State, ins: nat -> Inputs, t: nat, n: nat): State
    decreases n
  {
    if n == 0 then s else Run(Step(s, ins(t)), ins, t + 1, n - 1)
  }

  lemma {:induction false} RunSplit(s: State, ins: nat -> Inputs, t: nat, a: nat, b: nat)
    ensures Run(s, ins, t, a + b) == Run(Run(s, ins, t, a), ins, t + a, b)
    decreases a
  {
    hide Step;
    if a > 0 {
      RunSplit(Step(s, ins(t)), ins, t + 1, a - 1, b);
      assert a + b - 1 == a - 1 + b;
    }
  }

  // ------------------------------------------------------------------
  // The key: free to change except while an operation runs
  // ------------------------------------------------------------------

  /** Between two edges of one operation the key stays the same. */
  predicate Steady(s: State, ins: nat -> Inputs, t: nat, n: nat)
    decreases n
  {
    n > 0 ==>
      && (Busy(s.phase) && Busy(Step(s, ins(t)).phase) ==> ins(t).key == ins(t + 1).key)
      && Steady(Step(s, ins(t)), ins, t + 1, n - 1)
  }

  /** The engine is busy now and at each of the next `k` edges. */
  predicate BusyThrough(s: State, ins: nat -> Inputs, t: nat, k: nat)
    decreases k
  {
    Busy(s.phase) && (k > 0 ==> BusyThrough(Step(s, ins(t)), ins, t + 1, k - 1))
  }

  /** The key is `key` until the operation under way is over. */
  ghost predicate HeldUntilRest(s: State, ins: nat -> Inputs, t: nat, key: Key) {
    forall k: nat :: BusyThrough(s, ins, t, k) ==> ins(t + k).key == key
  }

  lemma HeldOn(s: State, ins: nat -> Inputs, t: nat, key: Key)
    requires HeldUntilRest(s, ins, t, key) && Busy(s.phase)
    ensures ins(t).key == key && HeldUntilRest(Step(s, ins(t)), ins, t + 1, key)
  {
    hide Step;
    var s', t' := Step(s, ins(t)), t + 1;
    assert BusyThrough(s, ins, t, 0);
    assert ins(t + 0).key == key;
    forall k: nat | BusyThrough(s', ins, t', k) ensures ins(t' + k).key == key {
      assert BusyThrough(s, ins, t, k + 1);
      assert t + (k + 1) == t' + k;
    }
  }

  // ------------------------------------------------------------------
  // Safety: every edge of every run
  // ------------------------------------------------------------------

  /** The image the engine is answerable for after `n` edges: the one it
      started with, through every operation completed since, each with the key
      it ran with. */
  function OriginAfter(s: State, ins: nat -> Inputs, t: nat, n: nat, origin: Sram): Sram
    decreases n
  {
    if n == 0 then origin
    else OriginAfter(Step(s, ins(t)), ins, t + 1, n - 1, NextOrigin(s, ins(t), origin, ins(t).key))
  }

  /** An idle engine's invariant does not depend on the key. */
  lemma IdleAnyKey(s: State, origin: Sram, key: Key, key': Key)
    requires Inv(s, origin, key) && !Busy(s.phase)
    ensures Inv(s, origin, key')
  {
  }

  lemma StepKeepsNextKey(s: State, origin: Sram, i: Inputs, key': Key)
    requires Inv(s, origin, i.key)
    requires Busy(s.phase) && Busy(Step(s, i).phase) ==> i.key == key'
    ensures Inv(Step(s, i), NextOrigin(s, i, origin, i.key), key')
  {
    if Busy(s.phase) {
      StepKeeps(s, origin, i.key, i);
      if !Busy(Step(s, i).phase) {
        IdleAnyKey(Step(s, i), NextOrigin(s, i, origin, i.key), i.key, key');
      }
    } else {
      IdleAnyKey(s, origin, i.key, key');
      StepKeeps(s, origin, key', i);
      IdleOrigin(s, i, origin, i.key, key');
    }
    hide Inv, Step, NextOrigin;
  }

  lemma IdleOrigin(s: State, i: Inputs, origin: Sram, key: Key, key': Key)
    requires !Busy(s.phase)
    ensures NextOrigin(s, i, origin, key) == NextOrigin(s, i, origin, key') == origin
  {
  }

  lemma {:induction false} RunKeeps(s: State, ins: nat -> Inputs, t: nat, n: nat, origin: Sram)
    requires Inv(s, origin, ins(t).key) && Steady(s, ins, t, n)
    ensures Inv(Run(s, ins, t, n), OriginAfter(s, ins, t, n, origin), ins(t + n).key)
    decreases n
  {
    hide Inv, Step, NextOrigin, Busy;
    if n > 0 {
      StepKeepsNextKey(s, origin, ins(t), ins(t + 1).key);
      RunKeeps(Step(s, ins(t)), ins, t + 1, n - 1, NextOrigin(s, ins(t), origin, ins(t).key));
      assert t + 1 + (n - 1) == t + n;
    }
  }

  /** While the engine only shows the image, waits or generates keys, no edge
      changes it. */
  lemma {:induction false} IdleRunKeepsImage(s: State, ins: nat -> Inputs, t: nat, n: nat, key: Key)
    requires Inv(s, s.mem, key)
    requires forall k :: 0 <= k <= n ==> !Busy(Run(s, ins, t, k).phase)
    ensures Run(s, ins, t, n).mem == s.mem
    ensures Inv(Run(s, ins, t, n), s.mem, key)
    decreases n
  {
    hide Inv, Step;
    if n > 0 {
      assert !Busy(Run(s, ins, t, 0).phase);
      var s' := Step(s, ins(t));
      assert s' == Run(s', ins, t + 1, 0) == Run(s, ins, t, 1);
      StepKeeps(s, s.mem, key, ins(t));
      IdleStepKeepsImage(s, ins(t), key);
      var t' := t + 1;
      forall k | 0 <= k <= n - 1 ensures !Busy(Run(s', ins, t', k).phase) {
        assert Run(s', ins, t', k) == Run(s, ins, t, k + 1);
      }
      IdleRunKeepsImage(s', ins, t', n - 1, key);
    }
  }

  lemma IdleStepKeepsImage(s: State, i: Inputs, key: Key)
    requires Inv(s, s.mem, key) && !Busy(s.phase)
    ensures NextOrigin(s, i, s.mem, key) == s.mem
    ensures Step(s, i).mem == s.mem
  {
    if s.phase.KeyGen? {
      CommitRepeats(s, s.pins);
      hide Commit;
    }
  }

  // ------------------------------------------------------------------
  // Progress: what is left to do
  // ------------------------------------------------------------------

  datatype Rank = Rank(phase: nat, pass: nat, stage: nat, place: nat, rev: nat)

  predicate Below(a: Rank, b: Rank) {
    if a.phase != b.phase then a.phase < b.phase
    else if a.pass != b.pass then a.pass < b.pass
    else if a.stage != b.stage then a.stage < b.stage
    else if a.place != b.place then a.place < b.place
    else a.rev < b.rev
  }

  function Minus(a: nat, b: nat): nat { if a <= b then 0 else a - b }

  function PhaseRank(ph: Phase): nat {
    match ph
    case EncryptHor => 7
    case EncryptInterval => 6
    case EncryptVer => 5
    case EncryptVerInterval => 4
    case EncryptMix => 3
    case EncryptMixInterval => 2
    case EncryptXor => 1
    case DecryptXor => 7
    case DecryptHorInterval => 6
    case DecryptMix => 5
    case DecryptVerInterval => 4
    case DecryptVer => 3
    case DecryptInterval => 2
    case DecryptHor => 1
    case _ => 0
  }

  function MixRev(rev: nat): nat {
    match rev
    case 8 => 9
    case 1 => 8
    case 2 => 7
    case 10 => 6
    case 3 => 5
    case 4 => 4
    case 5 => 3
    case 6 => 2
    case 7 => 1
    case _ => 0
  }

  function PassRank(s: State, p: Pass): Rank {
    Rank(PhaseRank(s.phase), Minus(p.Lines(), Line(p, s)), if s.rev <= 1 then 1 else 0,
         Minus(p.Length(), Position(p, s)), Minus(6, s.rev))
  }

  function MixRank(s: State, key: Key): Rank {
    var q := Quadrant(key);
    Rank(PhaseRank(s.phase), if s.block == 100 then 0 else if s.rev == 0 then 2 else 1, 0,
         if s.rev == 0 then 0 else Minus(QUADRANT_WORDS, Minus(320 * Minus(s.column, q.y) + s.row, q.x)),
         MixRev(s.rev))
  }

  function XorRank(s: State): Rank {
    var turn := if s.rev == 5 || s.rev == 11 then 1 else 0;
    Rank(PhaseRank(s.phase),
         if s.block == 100 then 0 else if s.rev == 0 then 4 else if s.rev <= 5 then 3 else if s.rev == 6 then 2 else 1,
         0,
         if s.rev <= 5 then 2 * Minus(PIXELS, 640 * s.column + s.row) + turn
         else 2 * Minus(PIXELS, 480 * s.row + s.column) + turn,
         Minus(12, s.rev))
  }

  /** A lexicographic measure of the edges an operation still needs. */
  function RankOf(s: State, key: Key): Rank {
    match s.phase
    case EncryptHor => PassRank(s, ROWS)
    case EncryptVer => PassRank(s, COLUMNS)
    case DecryptVer => PassRank(s, COLUMNS_BACK)
    case DecryptHor => PassRank(s, ROWS_BACK)
    case EncryptMix | DecryptMix => MixRank(s, key)
    case EncryptXor | DecryptXor => XorRank(s)
    case _ => Rank(PhaseRank(s.phase), 0, 0, 0, 0)
  }

  lemma PassDescends(s: State, p: Pass, key: Key, base: Sram, floating: bv16)
    requires PassInv(s, p, key, base) && s.block != p.Blocks()
    ensures Below(PassRank(PassStep(p, s, key, floating), p), PassRank(s, p))
  {
    if key[s.block] {
      LinePlace(s, p, key, base);
      hide PassInv;
      if p.axis.Rows? {
        LineDescends(s, p, key, floating);
      } else {
        LineDescends(s, p, key, floating);
      }
    } else {
      hide RotatedTo, LineInv;
      assert Line(p, s) <= 8 * s.block;
    }
  }

  lemma LineDescends(s: State, p: Pass, key: Key, floating: bv16)
    requires s.block < p.Blocks() && key[s.block] && s.rev <= 5
    requires Line(p, s) < p.Lines() && Position(p, s) < p.Length()
    requires s.rev <= 1 ==> Position(p, s) < 8
    ensures Below(PassRank(PassStep(p, s, key, floating), p), PassRank(s, p))
  {
    hide Bus, RawCell, ReadPins, WritePins;
    match s.rev
    case 1 =>
    case 5 =>
    case _ =>
  }

  lemma LinePlace(s: State, p: Pass, key: Key, base: Sram)
    requires PassInv(s, p, key, base) && s.block < p.Blocks() && key[s.block]
    ensures s.rev <= 5 && Line(p, s) < p.Lines() && Position(p, s) < p.Length()
    ensures s.rev <= 1 ==> Position(p, s) < 8
  {
    hide RotatedTo;
  }

  lemma MixDescends(s: State, key: Key, base: Sram, floating: bv16)
    requires MixInv(s, key, base) && s.block != 100
    ensures Below(MixRank(MixStep(s, key, floating), key), MixRank(s, key))
  {
    hide MixedTo, ExchangeInv, Bus, ReadPins, WritePins;
    match s.rev
    case 0 =>
    case 7 =>
    case 8 =>
    case _ =>
  }

  lemma XorDescends(s: State, key: Key, base: Sram, floating: bv16)
    requires XorInv(s, key, base) && s.block != 100
    ensures Below(XorRank(XorStep(s, key, floating)), XorRank(s))
  {
    hide MaskedTo, Bus, ReadPins, WritePins, Masked, Reading;
    match s.rev
    case 4 =>
    case 10 =>
    case 5 =>
    case 11 =>
    case _ =>
  }

  lemma RankIgnoresMemory(s: State, p: Pass, key: Key)
    ensures PassRank(Committed(s), p) == PassRank(s, p)
    ensures MixRank(Committed(s), key) == MixRank(s, key)
    ensures XorRank(Committed(s)) == XorRank(s)
  {
    hide Commit;
  }

  /** Every edge of an operation brings it closer to its end. */
  lemma StepDescends(s: State, origin: Sram, key: Key, i: Inputs)
    requires Inv(s, origin, key) && Busy(s.phase) && i.key == key
    ensures Below(RankOf(Step(s, i), key), RankOf(s, key))
  {
    if NextPhase(s, i) != s.phase {
      PhaseChangeDescends(s, key, i);
    } else if s.phase in {EncryptHor, EncryptVer, DecryptVer, DecryptHor} {
      PassStepDescends(s, origin, key, i);
    } else if s.phase.EncryptMix? || s.phase.DecryptMix? {
      MixStepDescends(s, origin, key, i);
    } else {
      XorStepDescends(s, origin, key, i);
    }
  }

  lemma PhaseChangeDescends(s: State, key: Key, i: Inputs)
    requires Busy(s.phase) && NextPhase(s, i) != s.phase
    ensures Below(RankOf(Step(s, i), key), RankOf(s, key))
  {
    NextPhaseDescends(s, i);
    StepPhase(s, i);
    RankPhase(s, key);
    RankPhase(Step(s, i), key);
    hide RankOf, Step, NextPhase;
  }

  lemma RankInPhase(s: State, key: Key)
    ensures s.phase in {EncryptHor, EncryptVer, DecryptVer, DecryptHor} ==>
              RankOf(s, key) == PassRank(s, PassOf(s.phase))
    ensures s.phase.EncryptMix? || s.phase.DecryptMix? ==> RankOf(s, key) == MixRank(s, key)
    ensures s.phase.EncryptXor? || s.phase.DecryptXor? ==> RankOf(s, key) == XorRank(s)
  {
    hide PassRank, MixRank, XorRank;
  }

  lemma PassStepDescends(s: State, origin: Sram, key: Key, i: Inputs)
    requires s.phase in {EncryptHor, EncryptVer, DecryptVer, DecryptHor} && NextPhase(s, i) == s.phase
    requires Inv(s, origin, key) && i.key == key
    ensures Below(RankOf(Step(s, i), key), RankOf(s, key))
  {
    hide RankOf, PassInv, Rotate, Mix, Mask, Step, PassStep, Committed, PassRank, Base;
    var p := PassOf(s.phase);
    PassDescends(s, p, key, Base(s.phase, origin, key), i.floating);
    RankIgnoresMemory(PassStep(p, s, key, i.floating), p, key);
    PassPhaseStep(s, i);
    RankInPhase(s, key);
    RankInPhase(Step(s, i), key);
  }

  lemma MixStepDescends(s: State, origin: Sram, key: Key, i: Inputs)
    requires (s.phase.EncryptMix? || s.phase.DecryptMix?) && NextPhase(s, i) == s.phase
    requires Inv(s, origin, key) && i.key == key
    ensures Below(RankOf(Step(s, i), key), RankOf(s, key))
  {
    hide RankOf, MixInv, Rotate, Mix, Mask, Step, MixStep, Committed, MixRank, Base;
    MixDescends(s, key, Base(s.phase, origin, key), i.floating);
    RankIgnoresMemory(MixStep(s, key, i.floating), ROWS, key);
    MixPhaseStep(s, i);
    RankInPhase(s, key);
    RankInPhase(Step(s, i), key);
  }

  lemma XorStepDescends(s: State, origin: Sram, key: Key, i: Inputs)
    requires (s.phase.EncryptXor? || s.phase.DecryptXor?) && NextPhase(s, i) == s.phase
    requires Inv(s, origin, key) && i.key == key
    ensures Below(RankOf(Step(s, i), key), RankOf(s, key))
  {
    hide RankOf, XorInv, Rotate, Mix, Mask, Step, XorStep, Committed, XorRank, Base;
    XorDescends(s, key, Base(s.phase, origin, key), i.floating);
    RankIgnoresMemory(XorStep(s, key, i.floating), ROWS, key);
    XorPhaseStep(s, i);
    RankInPhase(s, key);
    RankInPhase(Step(s, i), key);
  }

  lemma StepPhase(s: State, i: Inputs)
    ensures Step(s, i).phase == NextPhase(s, i)
  {
    hide Datapath, Commit;
  }

  lemma RankPhase(s: State, key: Key)
    ensures RankOf(s, key).phase == PhaseRank(s.phase)
  {
    hide Minus, MixRev;
  }

  lemma NextPhaseDescends(s: State, i: Inputs)
    requires Busy(s.phase) && NextPhase(s, i) != s.phase
    ensures PhaseRank(NextPhase(s, i)) < PhaseRank(s.phase)
  {
  }

  // ------------------------------------------------------------------
  // Operations
  // ------------------------------------------------------------------

  predicate Encrypting(ph: Phase) {
    ph in {EncryptHor, EncryptInterval, EncryptVer, EncryptVerInterval, EncryptMix, EncryptMixInterval, EncryptXor}
  }

  function Outcome(ph: Phase, origin: Sram, key: Key): Sram {
    if Encrypting(ph) then Encrypt(origin, key) else Decrypt(origin, key)
  }

  /** From anywhere inside an operation, the engine reaches the resting phase,
      and when it first does the image is the operation's result. */
  lemma {:induction false} Finishes(s: State, origin: Sram, key: Key, ins: nat -> Inputs, t: nat) returns (n: nat)
    requires Inv(s, origin, key) && Busy(s.phase) && HeldUntilRest(s, ins, t, key)
    ensures n > 0 && Run(s, ins, t, n).phase.Hiatus?
    ensures forall k :: 0 <= k < n ==> Busy(Run(s, ins, t, k).phase)
    ensures Run(s, ins, t, n).mem == Outcome(s.phase, origin, key)
    ensures Inv(Run(s, ins, t, n), Outcome(s.phase, origin, key), key)
    decreases RankOf(s, key).phase, RankOf(s, key).pass, RankOf(s, key).stage, RankOf(s, key).place, RankOf(s, key).rev
  {
    var i := ins(t);
    var s' := Step(s, i);
    HeldOn(s, ins, t, key);
    StepKeeps(s, origin, key, i);
    StepDescends(s, origin, key, i);
    StepPhase(s, i);
    hide Step, Inv, Encrypt, Decrypt, RankOf;
    BusyStepsOn(s, i, origin, key);
    assert Run(s, ins, t, 1) == Run(s', ins, t + 1, 0) == s';
    if Busy(s'.phase) {
      var m := Finishes(s', origin, key, ins, t + 1);
      n := m + 1;
      forall k | 0 <= k < n ensures Busy(Run(s, ins, t, k).phase) {
        if k > 0 {
          assert Run(s, ins, t, k) == Run(s', ins, t + 1, k - 1);
        }
      }
    } else {
      n := 1;
      RestingImage(s', Outcome(s.phase, origin, key), key);
    }
  }

  lemma BusyStepsOn(s: State, i: Inputs, origin: Sram, key: Key)
    requires Busy(s.phase)
    ensures Busy(NextPhase(s, i)) ==>
              && Encrypting(NextPhase(s, i)) == Encrypting(s.phase)
              && NextOrigin(s, i, origin, key) == origin
    ensures !Busy(NextPhase(s, i)) ==>
              && NextPhase(s, i).Hiatus?
              && NextOrigin(s, i, origin, key) == Outcome(s.phase, origin, key)
  {
    hide Encrypt, Decrypt;
  }

  lemma RestingImage(s: State, origin: Sram, key: Key)
    requires Inv(s, origin, key) && !Busy(s.phase)
    ensures s.mem == origin
  {
  }

  /** The engine shows the image and its counters are clear. */
  predicate Ready(s: State) {
    s.phase.Display? && Rested(s) && PinsSettled(s)
  }

  predicate EncryptCommand(i: Inputs) { i.run && i.sw1 && !i.sw2 }
  predicate DecryptCommand(i: Inputs) { i.run && !i.sw1 && i.sw2 }

  /** `n` edges after time `t` the engine has just come to rest, having been
      busy on every edge between. */
  ghost predicate RestsAfter(s: State, ins: nat -> Inputs, t: nat, n: nat) {
    && n > 0 && Run(s, ins, t, n).phase.Hiatus?
    && forall k :: 0 < k < n ==> Busy(Run(s, ins, t, k).phase)
  }

  /** A command given while the image is shown is carried out in full, whatever
      is pressed meanwhile but the key. */
  lemma CommandCompletes(s: State, key: Key, ins: nat -> Inputs, t: nat) returns (n: nat)
    requires Ready(s) && HeldUntilRest(Step(s, ins(t)), ins, t + 1, key)
    requires EncryptCommand(ins(t)) || DecryptCommand(ins(t))
    ensures RestsAfter(s, ins, t, n)
    ensures Run(s, ins, t, n).mem == if EncryptCommand(ins(t)) then Encrypt(s.mem, key) else Decrypt(s.mem, key)
    ensures Inv(Run(s, ins, t, n), Run(s, ins, t, n).mem, key)
  {
    var s' := Step(s, ins(t));
    CommandStarts(s, key, ins(t));
    hide Step, Inv, Encrypt, Decrypt, Ready, Busy, Encrypting;
    hide HeldUntilRest, EncryptCommand, DecryptCommand, RestsAfter;
    var m := Finishes(s', s.mem, key, ins, t + 1);
    n := m + 1;
    RestsLater(s, s', ins, t, t + 1, m);
  }

  /** The engine that first rests `m` edges after the next one, at time `u`. */
  lemma RestsLater(s: State, s': State, ins: nat -> Inputs, t: nat, u: nat, m: nat)
    requires s' == Step(s, ins(t)) && u == t + 1 && m > 0 && Run(s', ins, u, m).phase.Hiatus?
    requires forall k :: 0 <= k < m ==> Busy(Run(s', ins, u, k).phase)
    ensures RestsAfter(s, ins, t, m + 1) && Run(s, ins, t, m + 1) == Run(s', ins, u, m)
  {
    hide Step, Busy;
    forall k | 0 < k < m + 1 ensures Busy(Run(s, ins, t, k).phase) {
      assert Run(s, ins, t, k) == Run(s', ins, u, k - 1);
    }
  }

  lemma CommandStarts(s: State, key: Key, i: Inputs)
    requires Ready(s) && (EncryptCommand(i) || DecryptCommand(i))
    ensures Inv(Step(s, i), s.mem, key)
    ensures Busy(Step(s, i).phase) && (Encrypting(Step(s, i).phase) <==> EncryptCommand(i))
  {
    StepPhase(s, i);
    StepKeeps(s, s.mem, key, i);
    hide Step;
  }

  /** The engine rests for the first time at one moment only. */
  lemma RestsOnce(s: State, ins: nat -> Inputs, t: nat, n: nat, m: nat)
    requires RestsAfter(s, ins, t, n) && RestsAfter(s, ins, t, m)
    ensures n == m
  {
  }

  /** Encrypt, wait idle for any time, then decrypt with the same key: every
      word of the SRAM is what it was before.  The key switches are free while
      the engine is idle. */
  lemma EncryptThenDecrypt(s: State, key: Key, ins: nat -> Inputs, t: nat, n: nat, wait: nat) returns (m: nat)
    requires Ready(s) && HeldUntilRest(Step(s, ins(t)), ins, t + 1, key)
    requires EncryptCommand(ins(t)) && RestsAfter(s, ins, t, n)
    requires forall k :: n <= k <= n + wait ==> !Busy(Run(s, ins, t, k).phase)
    requires var d, t' := Run(s, ins, t, n + wait), t + n + wait;
             && d.phase.Display? && DecryptCommand(ins(t'))
             && HeldUntilRest(Step(d, ins(t')), ins, t' + 1, key)
    ensures RestsAfter(Run(s, ins, t, n + wait), ins, t + n + wait, m)
    ensures Run(s, ins, t, n + wait + m).mem == s.mem
  {
    hide Step, Inv, Encrypt, Decrypt, Ready, Busy, HeldUntilRest, RestsAfter;
    var n' := CommandCompletes(s, key, ins, t);
    RestsOnce(s, ins, t, n, n');
    var rested, shown := Run(s, ins, t, n), Run(s, ins, t, n + wait);
    WaitKeepsImage(s, ins, t, n, wait, key);
    DisplayReady(shown, rested.mem, key);
    m := CommandCompletes(shown, key, ins, t + n + wait);
    RunSplit(s, ins, t, n + wait, m);
    DecryptUndoesEncrypt(s.mem, key);
  }

  lemma WaitKeepsImage(s: State, ins: nat -> Inputs, t: nat, n: nat, wait: nat, key: Key)
    requires Inv(Run(s, ins, t, n), Run(s, ins, t, n).mem, key)
    requires forall k :: n <= k <= n + wait ==> !Busy(Run(s, ins, t, k).phase)
    ensures Inv(Run(s, ins, t, n + wait), Run(s, ins, t, n).mem, key)
  {
    hide Step, Inv, Busy;
    var rested, t' := Run(s, ins, t, n), t + n;
    forall k | 0 <= k <= wait ensures !Busy(Run(rested, ins, t', k).phase) {
      RunSplit(s, ins, t, n, k);
    }
    IdleRunKeepsImage(rested, ins, t', wait, key);
    RunSplit(s, ins, t, n, wait);
  }

  lemma DisplayReady(s: State, origin: Sram, key: Key)
    requires Inv(s, origin, key) && s.phase.Display?
    ensures Ready(s) && s.mem == origin
  {
  }
}
