/** The fan-fault latch across resets: RTC record, boot and actor together. */
module FaultLatch {
  import opened Esp
  import opened FaultRecord
  import opened FanControl
  import opened FanExecutions
  import FanRefinement
  import FanTransition
  import Hc238
  import Hc238Arming

  ghost predicate InForce(s: System) {
    s.life.latched && !s.life.torn
  }

  /** While a latch is in force - its function has returned since the last power-on and no reset
      has torn a later one - the actor knows of the fault from its first look at the record on,
      and the record is whole except inside another latching. */
  ghost predicate KnownInv(s: System) {
    var pc := s.actor.pc;
    && (InForce(s) ==> (!pc.Start? ==> s.actor.fan.fault) && (!MidLatch(pc) ==> Retained(s.hw.rtc).Some?))
    && (pc.Writes? ==> !s.actor.fan.fault)
    && (pc.Latch? ==> s.actor.fan.fault && !InForce(s))
  }

  ghost predicate RecordInv(s: System) {
    var pc := s.actor.pc;
    && (pc.BootLatch? || pc.Latch? ==> pc.stores <= STORES && Written(s.hw.rtc, pc.stores, pc.cause))
    && (s.hw.todo != [] ==> pc.InitWrites? || pc.OffWrites? || pc.Writes?)
  }

  lemma ActorKeepsRecord(s: System, env: Env)
    requires RecordInv(s)
    ensures RecordInv(ActorStep(s, env))
  {
  }

  ghost predicate Latching(pc: Pc) {
    pc.BootLatch? || pc.Latch?
  }

  lemma LatchKeepsKnown(s: System, env: Env)
    requires KnownInv(s) && RecordInv(s) && s.hw.todo == [] && Latching(s.actor.pc)
    ensures KnownInv(ActorStep(s, env))
  {
    if 0 < s.actor.pc.stores {
      WrittenRetains(s.hw.rtc, s.actor.pc.stores, s.actor.pc.cause);
    }
  }

  /** No other step touches the record ... */
  lemma OthersKeepRecord(s: System, env: Env)
    requires s.hw.todo == [] && !Latching(s.actor.pc)
    ensures var t := ActorStep(s, env); t.hw.rtc == s.hw.rtc && t.life == s.life
  {
  }

  lemma ReceiveKeepsFault(s: System)
    ensures DoReceive(s).actor.fan.fault == s.actor.fan.fault && DoReceive(s).actor.pc.Decide?
  {
  }

  lemma ReadingKeepsFault(s: System)
    ensures var t := DoReadFlag(s);
            t.actor.fan.fault == s.actor.fan.fault && (t.actor.pc.ClearAck? || t.actor.pc.Receive?)
  {
  }

  /** ... or makes the actor forget a fault. */
  lemma OthersKeepFault(s: System, env: Env)
    requires s.hw.todo == [] && !Latching(s.actor.pc) && !s.actor.pc.Start?
    ensures var t := ActorStep(s, env);
            && !t.actor.pc.Start? && !MidLatch(t.actor.pc) && (s.actor.fan.fault ==> t.actor.fan.fault)
            && (t.actor.pc.Writes? ==> s.actor.pc.Decide? && !t.actor.fan.fault)
            && (t.actor.pc.Latch? ==> s.actor.pc.Writes? && t.actor.fan.fault)
  {
    match s.actor.pc
    case Receive => ReceiveKeepsFault(s);
    case ReadFlag => ReadingKeepsFault(s);
    case _ =>
  }

  lemma OthersKeepKnown(s: System, env: Env)
    requires KnownInv(s) && s.hw.todo == [] && !Latching(s.actor.pc) && !s.actor.pc.Start?
    ensures KnownInv(ActorStep(s, env))
  {
    OthersKeepRecord(s, env);
    OthersKeepFault(s, env);
  }

  lemma ActorKeepsKnown(s: System, env: Env)
    requires KnownInv(s) && RecordInv(s)
    ensures KnownInv(ActorStep(s, env))
  {
    if s.hw.todo == [] {
      if Latching(s.actor.pc) {
        LatchKeepsKnown(s, env);
      } else if s.actor.pc.Start? {
        assert !Latching(ActorStep(s, env).actor.pc);
      } else {
        OthersKeepKnown(s, env);
      }
    }
  }

  lemma StepKeepsInv(s: System, step: Step)
    requires KnownInv(s) && RecordInv(s) && Enabled(s, step)
    ensures KnownInv(Next(s, step)) && RecordInv(Next(s, step))
  {
    if step.ActorRuns? {
      ActorKeepsRecord(s, step.env);
      ActorKeepsKnown(s, step.env);
    }
  }

  lemma {:induction false} RunKeepsInv(states: seq<System>, steps: seq<Step>, i: nat)
    requires Run(states, steps) && i < |states|
    ensures KnownInv(states[i]) && RecordInv(states[i])
  {
    if i > 0 {
      RunKeepsInv(states, steps, i - 1);
      assert StepAt(states, steps, i - 1);
      StepKeepsInv(states[i - 1], steps[i - 1]);
    }
  }

  // --- What it is for -----------------------------------------------------------------------------

  lemma {:induction false} StaysAtStart(states: seq<System>, steps: seq<Step>, i: nat, j: nat)
    requires Run(states, steps) && i < j < |states| && steps[i].Reset? && Untouched(steps, i, j)
    ensures states[j].actor == states[i + 1].actor && states[j].hw == states[i + 1].hw
  {
    if j > i + 1 {
      StaysAtStart(states, steps, i, j - 1);
      assert StepAt(states, steps, j - 1);
    }
  }

  lemma FirstLook(s: System, powerOn: bool, pads: seq<Hc238.Pad>)
    requires KnownInv(s) && RecordInv(s) && InForce(s)
    ensures Retained(DoReset(s, powerOn, pads).hw.rtc).Some? <==> !powerOn && !MidLatch(s.actor.pc)
  {
    if MidLatch(s.actor.pc) {
      WrittenRetains(s.hw.rtc, s.actor.pc.stores, s.actor.pc.cause);
    }
  }

  lemma StartReads(s: System, env: Env)
    requires s.actor.pc.Start? && s.hw.todo == [] && s.hw.board.log == []
    ensures ActorStep(s, env).actor.fan.fault <==> Retained(s.hw.rtc).Some?
  {
  }

  /** After any reset with a latch in force, the actor's first step in the new boot finds the fault
      unless that reset was a power-on reset or fell inside another latching. */
  lemma LatchEndsOnlyByPowerOnOrTear(states: seq<System>, steps: seq<Step>, i: nat, j: nat)
    requires Run(states, steps) && i < j < |steps| && InForce(states[i])
    requires steps[i].Reset? && Untouched(steps, i, j) && steps[j].ActorRuns?
    ensures states[j + 1].actor.fan.fault <==> !steps[i].powerOn && !MidLatch(states[i].actor.pc)
  {
    RunKeepsInv(states, steps, i);
    assert StepAt(states, steps, i) && StepAt(states, steps, j);
    FirstLook(states[i], steps[i].powerOn, steps[i].pads);
    StaysAtStart(states, steps, i, j);
    StartReads(states[j], steps[j].env);
  }

  /** The next actor step returns from diagnostics_latch_fan_fault. */
  ghost predicate Returning(s: System) {
    (s.actor.pc.BootLatch? || s.actor.pc.Latch?) && s.actor.pc.stores == STORES && s.hw.todo == []
  }

  lemma ActorKeepsForce(s: System, env: Env)
    requires InForce(s)
    ensures InForce(ActorStep(s, env))
  {
  }

  lemma ReturnPutsInForce(s: System, env: Env)
    requires Returning(s)
    ensures InForce(ActorStep(s, env))
  {
  }

  /** Once a latching has returned, then through any number of resets, as long as none of them is a
      power-on reset or falls inside another latching: the record holds a fault (but for the middle
      of another latching), and the actor reports one from its first step in each boot on. */
  lemma {:induction false} FaultOutlivesResets(states: seq<System>, steps: seq<Step>, a: nat, i: nat)
    requires Run(states, steps) && a < i < |states| && Returning(states[a]) && steps[a].ActorRuns?
    requires forall k | a < k < i && steps[k].Reset? :: !steps[k].powerOn && !MidLatch(states[k].actor.pc)
    ensures InForce(states[i])
    ensures !states[i].actor.pc.Start? ==> states[i].actor.fan.fault
    ensures !MidLatch(states[i].actor.pc) ==> Retained(states[i].hw.rtc).Some?
    decreases i
  {
    RunKeepsInv(states, steps, i);
    assert StepAt(states, steps, i - 1);
    if i == a + 1 {
      ReturnPutsInForce(states[a], steps[a].env);
    } else {
      FaultOutlivesResets(states, steps, a, i - 1);
      if steps[i - 1].ActorRuns? {
        ActorKeepsForce(states[i - 1], steps[i - 1].env);
      }
    }
  }

  /** The first store of a latching. */
  ghost predicate ZeroesMagic(s: System, step: Step) {
    step.ActorRuns? && (s.actor.pc.BootLatch? || s.actor.pc.Latch?) && s.actor.pc.stores == 0
  }

  predicate PowersOn(step: Step) {
    step.Reset? && step.powerOn
  }

  lemma ActorLosesRecord(s: System, env: Env)
    requires RecordInv(s) && Retained(s.hw.rtc).Some?
    ensures Retained(ActorStep(s, env).hw.rtc).None? <==> ZeroesMagic(s, ActorRuns(env))
  {
    if (s.actor.pc.BootLatch? || s.actor.pc.Latch?) && 0 < s.actor.pc.stores {
      WrittenRetains(s.hw.rtc, s.actor.pc.stores, s.actor.pc.cause);
    }
  }

  /** A fault that is in the record leaves it in exactly two ways: by a power-on reset, and by the
      first store of another latching. */
  lemma RecordIsLostExactly(states: seq<System>, steps: seq<Step>, i: nat)
    requires Run(states, steps) && i < |steps| && Retained(states[i].hw.rtc).Some?
    ensures Retained(states[i + 1].hw.rtc).None? <==> PowersOn(steps[i]) || ZeroesMagic(states[i], steps[i])
  {
    RunKeepsInv(states, steps, i);
    assert StepAt(states, steps, i);
    if steps[i].ActorRuns? {
      ActorLosesRecord(states[i], steps[i].env);
    }
  }

  // --- No enable write --------------------------------------------------------------------------------

  /** The writes the actor is still making set no enable to its active level. */
  ghost predicate WritesNothingActive(hw: Hardware) {
    |hw.todo| <= |hw.board.log| && Hc238Arming.ArmsNothing(hw.board.cfg, hw.board.log, |hw.board.log| - |hw.todo|)
  }

  ghost predicate ArmInv(s: System) {
    InForce(s) ==> WritesNothingActive(s.hw)
  }

  /** The writes that actor step begins set no enable to its active level. */
  ghost predicate AddsNothingActive(h: Hardware, g: Hardware) {
    g.board.cfg == h.board.cfg && Hc238Arming.ArmsNothing(h.board.cfg, g.board.log, |h.board.log|)
  }

  lemma BeginningArmsNothing(hw: Hardware, board: Hc238.Board)
    requires board.cfg == hw.board.cfg && Hc238Arming.ArmsNothing(hw.board.cfg, board.log, |hw.board.log|)
    ensures WritesNothingActive(BeginWrites(hw, board)) && AddsNothingActive(hw, BeginWrites(hw, board))
  {
  }

  lemma StartAddsNothing(s: System, env: Env)
    requires s.actor.pc.Start? && s.hw.todo == [] && Legit(s, env)
    ensures AddsNothingActive(s.hw, ActorStep(s, env).hw) && WritesNothingActive(ActorStep(s, env).hw)
  {
    Hc238Arming.InitArmsNothing(s.hw.board, OUTPUTS, env.fails);
    BeginningArmsNothing(s.hw, env.init);
  }

  lemma EndInitAddsNothing(s: System, env: Env)
    requires s.actor.pc.InitWrites? && s.hw.todo == [] && Legit(s, env) && FanRefinement.GoodBoard(s.hw.board)
    ensures AddsNothingActive(s.hw, ActorStep(s, env).hw) && WritesNothingActive(ActorStep(s, env).hw)
  {
    BoardPinsAreDistinct();
    FanTransition.TurningOffArmsNothing(s.hw.board, env.fails);
    BeginningArmsNothing(s.hw, env.outcome.board);
  }

  lemma BoardPinsAreDistinct()
    ensures Hc238.PinsDistinct(FanTransition.BOARD)
  {
  }

  /** Whether this actor step may begin writes. */
  ghost predicate Begins(s: System) {
    s.hw.todo == [] && (s.actor.pc.Start? || s.actor.pc.InitWrites? || (s.actor.pc.Decide? && !s.actor.fan.fault))
  }

  lemma OthersBeginNothing(s: System, env: Env)
    requires !Begins(s)
    ensures ActorStep(s, env).hw.board == s.hw.board
    ensures ActorStep(s, env).hw.todo == if s.hw.todo == [] then [] else s.hw.todo[1..]
  {
  }

  lemma ActorAddsNothing(s: System, env: Env)
    requires KnownInv(s) && FanRefinement.Inv(s) && ArmInv(s) && InForce(s) && Legit(s, env)
    ensures AddsNothingActive(s.hw, ActorStep(s, env).hw) && WritesNothingActive(ActorStep(s, env).hw)
  {
    if Begins(s) && s.actor.pc.Start? {
      StartAddsNothing(s, env);
    } else if Begins(s) && s.actor.pc.InitWrites? {
      EndInitAddsNothing(s, env);
    } else {
      OthersBeginNothing(s, env);
    }
  }

  lemma ReturnLeavesPins(s: System, env: Env)
    requires RecordInv(s) && !InForce(s) && InForce(ActorStep(s, env))
    ensures ActorStep(s, env).hw.todo == []
  {
  }

  lemma StepKeepsArm(s: System, step: Step)
    requires KnownInv(s) && RecordInv(s) && FanRefinement.Inv(s) && ArmInv(s) && Enabled(s, step)
    ensures ArmInv(Next(s, step))
  {
    if step.ActorRuns? {
      if InForce(s) {
        ActorAddsNothing(s, step.env);
      } else if InForce(ActorStep(s, step.env)) {
        ReturnLeavesPins(s, step.env);
      }
    }
  }

  lemma {:induction false} RunKeepsArm(states: seq<System>, steps: seq<Step>, i: nat)
    requires Run(states, steps) && i < |states|
    ensures ArmInv(states[i])
  {
    if i > 0 {
      RunKeepsArm(states, steps, i - 1);
      RunKeepsInv(states, steps, i - 1);
      FanRefinement.RunKeepsInv(states, steps, i - 1);
      assert StepAt(states, steps, i - 1);
      StepKeepsArm(states[i - 1], steps[i - 1]);
    }
  }

  // --- Nothing comes on -------------------------------------------------------------------------------

  lemma ActorNeverSwitchesOn(s: System, env: Env)
    requires KnownInv(s) && FanRefinement.Inv(s) && InForce(s)
    ensures var t := ActorStep(s, env); t.hw.out == Hc238.Off || t.hw.out == s.hw.out
  {
    if s.hw.todo != [] {
      assert FanRefinement.Booting(s.actor.pc);
      assert FanTransition.Sinks(s.hw.out, s.hw.todo);
    }
  }

  /** While a latch is in force, in this boot or a later one, no pin write under way or begun by
      anyone's step sets an enable to its active level - whether or not it would succeed - and no
      step selects an output: the decoder stays as it is or goes off. */
  lemma LatchedNeverSwitchesOn(states: seq<System>, steps: seq<Step>, i: nat)
    requires Run(states, steps) && i < |steps| && InForce(states[i])
    ensures WritesNothingActive(states[i].hw)
    ensures steps[i].Reset? || AddsNothingActive(states[i].hw, states[i + 1].hw)
    ensures states[i + 1].hw.out == Hc238.Off || states[i + 1].hw.out == states[i].hw.out
  {
    RunKeepsInv(states, steps, i);
    RunKeepsArm(states, steps, i);
    FanRefinement.RunKeepsInv(states, steps, i);
    assert StepAt(states, steps, i);
    if steps[i].ActorRuns? {
      ActorAddsNothing(states[i], steps[i].env);
      ActorNeverSwitchesOn(states[i], steps[i].env);
    }
  }

  /** While a latch is in force, through any number of warm resets: nothing but the output that was
      selected when it came into force is ever selected, and once that is off nothing is. */
  lemma {:induction false} LatchedBootStaysOff(states: seq<System>, steps: seq<Step>, i: nat, j: nat)
    requires Run(states, steps) && i <= j < |states|
    requires forall k | i <= k <= j :: InForce(states[k])
    ensures states[j].hw.out == Hc238.Off || states[j].hw.out == states[i].hw.out
    decreases j
  {
    if i < j {
      LatchedBootStaysOff(states, steps, i, j - 1);
      LatchedNeverSwitchesOn(states, steps, j - 1);
    }
  }

  /** In a boot that begins with a latch in force: past fan_init, an open driver shows nothing. */
  ghost predicate OpenIsOff(s: System) {
    s.hw.board.initialized && !s.actor.pc.InitWrites? ==> s.hw.out == Hc238.Off && FanRefinement.AllOff(s.hw.todo)
  }

  lemma ActorKeepsOpenOff(s: System, env: Env)
    requires KnownInv(s) && RecordInv(s) && FanRefinement.Inv(s) && OpenIsOff(s) && InForce(s) && Legit(s, env)
    ensures OpenIsOff(ActorStep(s, env))
  {
    var t := ActorStep(s, env);
    FanRefinement.StepKeepsInv(s, ActorRuns(env));
    if !FanRefinement.Booting(t.actor.pc) {
      LeavesBootOff(s, env);
    }
  }

  lemma LeavesBootOff(s: System, env: Env)
    requires KnownInv(s) && RecordInv(s) && FanRefinement.BootInv(s) && OpenIsOff(s) && InForce(s)
    requires !FanRefinement.Booting(ActorStep(s, env).actor.pc)
    ensures OpenIsOff(ActorStep(s, env))
  {
    if !Begins(s) {
      OthersBeginNothing(s, env);
    }
  }

  lemma StepKeepsOpenOff(s: System, step: Step)
    requires KnownInv(s) && RecordInv(s) && FanRefinement.Inv(s) && OpenIsOff(s) && InForce(s)
    requires Enabled(s, step) && !step.Reset?
    ensures OpenIsOff(Next(s, step))
  {
    if step.ActorRuns? {
      ActorKeepsOpenOff(s, step.env);
    }
  }

  /** And every such boot that can open the driver - whatever the reset left on the pads - has the
      decoder off from then on; one that cannot leaves it as the reset did, or off. */
  lemma {:induction false} LatchedBootTurnsOff(states: seq<System>, steps: seq<Step>, i: nat, j: nat)
    requires Run(states, steps) && i < j < |states| && steps[i].Reset?
    requires (forall k | i < k <= j :: InForce(states[k])) && (forall k | i < k < j :: !steps[k].Reset?)
    ensures states[j].hw.board.initialized && !states[j].actor.pc.InitWrites? ==> states[j].hw.out == Hc238.Off
    ensures OpenIsOff(states[j])
    decreases j
  {
    assert StepAt(states, steps, j - 1);
    if i + 1 < j {
      LatchedBootTurnsOff(states, steps, i, j - 1);
      RunKeepsInv(states, steps, j - 1);
      FanRefinement.RunKeepsInv(states, steps, j - 1);
      StepKeepsOpenOff(states[j - 1], steps[j - 1]);
    }
  }
}
