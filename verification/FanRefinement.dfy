/** What the actor believes against what the decoder shows: whole-run refinement of
    `applied` down to the pins. */
module FanRefinement {
  import opened Esp
  import opened FanPolicy
  import opened FaultRecord
  import opened FanControl
  import opened FanTransition
  import Hc238
  import Quiesce

  // --- What the driver calls show ---------------------------------------------------------------

  ghost predicate AllOff(shown: seq<Hc238.Output>) {
    forall k | 0 <= k < |shown| :: shown[k] == Hc238.Off
  }

  ghost predicate GoodBoard(b: Hc238.Board) {
    b.cfg == BOARD && |b.pads| == PAD_COUNT && Hc238.Ready(b)
  }

  /** fan_init, as far as the actor and an observer can tell. */
  ghost predicate Opens(b: Hc238.Board, q: Hc238.Board, err: EspErr) {
    && GoodBoard(q) && |b.log| <= |q.log| && (err == OK <==> q.initialized)
    && Sinks(b.Out(), Shown(q.log, |b.log|)) && Final(b.Out(), Shown(q.log, |b.log|)) == q.Out()
    && (err == OK ==> q.Out() == Hc238.Off)
  }

  lemma InitShows(b: Hc238.Board, fails: nat -> bool)
    requires GoodBoard(b)
    ensures var (q, err) := Hc238.Init(b, OUTPUTS, fails); Opens(b, q, err)
  {
    Hc238.InitOnlySwitchesOff(b, OUTPUTS, fails);
    var (q, err) := Hc238.Init(b, OUTPUTS, fails);
    SettlingSinks(b.cfg, b.Out(), q.log, |b.log|);
  }

  /** A transition of the actor, as far as the actor and an observer can tell. */
  ghost predicate Moves(b: Hc238.Board, o: Outcome, speed: Speed) {
    && |b.log| <= |o.board.log| && GoodBoard(o.board) && o.board.initialized == b.initialized
    && Final(b.Out(), Shown(o.board.log, |b.log|)) == o.board.Out()
    && Rises(b.Out(), Shown(o.board.log, |b.log|)) == (if o.err == OK && speed != OFF then 1 else 0)
    && (o.err == OK ==> b.initialized && o.board.Out() == SpeedOutput(speed))
    && (o.err != OK ==> o.board.Out() == Hc238.Off || (o.phase == DISABLE && o.board.Out() == b.Out()))
    && (o.err != OK && b.initialized && o.board.Out() != Hc238.Off ==> Hc238.FailedTwice(o.board.log, |b.log|))
  }

  lemma TransitionMoves(b: Hc238.Board, fails: nat -> bool, speed: Speed)
    requires GoodBoard(b)
    ensures Moves(b, Transition(b, fails, speed), speed)
  {
    var o := Transition(b, fails, speed);
    TransitionTransacts(b, fails, speed == OFF, OutputMap(speed));
    TransitionFailsSafely(b, fails, speed == OFF, OutputMap(speed));
    TransactionRises(b, o, speed == OFF, OutputMap(speed));
  }

  /** Turning off only switches off. */
  lemma TurningOffSinks(b: Hc238.Board, fails: nat -> bool)
    requires GoodBoard(b)
    ensures var o := Transition(b, fails, OFF); |b.log| <= |o.board.log| && Sinks(b.Out(), Shown(o.board.log, |b.log|))
  {
    TransitionTransacts(b, fails, true, OutputMap(OFF));
    SettlingSinks(b.cfg, b.Out(), Transition(b, fails, OFF).board.log, |b.log|);
  }

  // --- Invariants -------------------------------------------------------------------------------

  /** Pin writes go on only at the three program points that wait for them. */
  ghost predicate WritesInv(s: System) {
    && GoodBoard(s.hw.board)
    && Final(s.hw.out, s.hw.todo) == s.hw.board.Out()
    && (s.hw.todo != [] ==> s.actor.pc.InitWrites? || s.actor.pc.OffWrites? || s.actor.pc.Writes?)
  }

  ghost predicate Booting(pc: Pc) {
    pc.Start? || pc.InitWrites? || pc.OffWrites? || pc.BootLatch? || pc.BootPublish? || pc.Suspended?
  }

  /** Before the actor's loop begins the output only goes off, and once the driver is open it is
      off; the loop begins only on a driver that is open. */
  ghost predicate BootInv(s: System) {
    var pc, open := s.actor.pc, s.hw.board.initialized;
    && (Booting(pc) ==> Sinks(s.hw.out, s.hw.todo))
    && (Booting(pc) && open && !pc.InitWrites? ==> s.hw.out == Hc238.Off && AllOff(s.hw.todo))
    && (pc.Start? ==> !open)
    && (pc.InitWrites? ==> s.actor.initResult == pc.err && (pc.err == OK <==> open))
    && (pc.InitWrites? && open ==> s.hw.board.Out() == Hc238.Off)
    && (pc.OffWrites? ==> s.actor.initResult == pc.err && open)
    && (pc.BootLatch? ==> s.actor.initResult != OK)
    && (pc.BootPublish? && s.actor.initResult == OK ==> open)
    && (!Booting(pc) ==> open)
  }

  /** What it takes for an output to stay selected after an error. */
  ghost predicate StuckOn(hw: Hardware, disabling: bool) {
    disabling && Hc238.FailedTwice(hw.board.log, 0)
  }

  /** The refinement: outside a transition and without a fault, the selected output is the one
      the applied speed stands for. */
  ghost predicate OutputInv(s: System) {
    var f, pc := s.actor.fan, s.actor.pc;
    && (!Booting(pc) && !pc.Writes? && !f.fault ==> s.hw.out == SpeedOutput(f.applied))
    && (!Booting(pc) && f.fault ==> s.hw.out == Hc238.Off || StuckOn(s.hw, f.cause.phase == PhaseCode(DISABLE)))
    && (pc.Writes? ==> !f.fault)
    && (pc.Writes? && pc.err == OK ==> s.hw.board.Out() == SpeedOutput(f.desired))
    && (pc.Writes? && pc.err != OK ==> s.hw.board.Out() == Hc238.Off || StuckOn(s.hw, pc.phase == DISABLE))
    && (pc.Latch? ==> f.fault)
  }

  /** Rising edges so far, and those still to come in this transition, are accounted for. */
  ghost predicate RisesInv(s: System) {
    var pc := s.actor.pc;
    s.effects.rises + Rises(s.hw.out, s.hw.todo) ==
      s.effects.completedOn + (if pc.Writes? && pc.err == OK && s.actor.fan.desired != OFF then 1 else 0)
  }

  /** Every cycle ends with the fan as wanted and the last command settled. */
  ghost predicate SettledInv(s: System) {
    var f, pc := s.actor.fan, s.actor.pc;
    && (!f.fault && (Booting(pc) || pc.Sleep? || pc.ReadFlag? || pc.ClearAck? || pc.SetAck? || pc.Publish?) ==>
          f.desired == f.applied && f.accepted == f.appliedSeq)
    && (!f.fault && pc.Receive? ==> f.accepted == f.appliedSeq)
    && (!f.fault && (Booting(pc) || pc.Publish?) ==> !f.pending)
    && (!f.fault && pc.Decide? && f.accepted == 0 ==> f.appliedSeq == 0)
    && (s.shared.mailbox.Some? ==> s.shared.mailbox.value.sequence != 0)
    && (Booting(pc) ==> f.applied == OFF && f.desired == OFF && f.accepted == 0 && f.appliedSeq == 0 && !f.pending)
  }

  /** A fault stops everything: nothing runs, nothing is wanted and no timer is active. */
  ghost predicate StoppedInv(s: System) {
    var f, pc := s.actor.fan, s.actor.pc;
    && (Booting(pc) || f.fault ==> f.applied == OFF && f.desired == OFF && !f.active && f.mode == AlwaysOn)
    && (pc.Publish? ==> (f.pending <==> f.desired != f.applied || f.accepted != f.appliedSeq))
  }

  ghost predicate PublishedInv(s: System) {
    forall k | 0 <= k < |s.effects.published| :: Consistent(s.effects.published[k])
  }

  /** What a published snapshot promises its readers. */
  ghost predicate Consistent(f: Fan) {
    && f.desired == f.applied && (f.pending <==> f.accepted != f.appliedSeq) && (f.pending ==> f.fault)
    && (f.fault ==> f.desired == OFF && !f.active && f.mode == AlwaysOn)
  }

  ghost predicate Inv(s: System) {
    WritesInv(s) && BootInv(s) && OutputInv(s) && RisesInv(s) && SettledInv(s) && StoppedInv(s) && PublishedInv(s)
  }

  // --- Preservation -----------------------------------------------------------------------------

  lemma StartKeepsInv(s: System, env: Env)
    requires Inv(s) && s.actor.pc.Start? && s.hw.todo == [] && Legit(s, env)
    ensures Inv(ActorStep(s, env))
  {
    InitShows(s.hw.board, env.fails);
    SinkingNeverRises(s.hw.out, Shown(env.init.log, |s.hw.board.log|));
  }

  lemma EndInitKeepsInv(s: System, env: Env)
    requires Inv(s) && s.actor.pc.InitWrites? && s.hw.todo == [] && Legit(s, env)
    ensures Inv(ActorStep(s, env))
  {
    if s.actor.pc.err == OK {
      TransitionMoves(s.hw.board, env.fails, OFF);
      TurningOffSinks(s.hw.board, env.fails);
      SinkingNeverRises(s.hw.out, Shown(env.outcome.board.log, |s.hw.board.log|));
    }
  }

  ghost predicate MustMove(s: System) {
    s.actor.pc.Decide? && !s.actor.fan.fault && TransitionRequired(s.actor.fan.applied, s.actor.fan.desired)
  }

  lemma MoveKeepsInv(s: System, env: Env)
    requires Inv(s) && MustMove(s) && s.hw.todo == [] && Legit(s, env)
    ensures Inv(ActorStep(s, env))
  {
    TransitionMoves(s.hw.board, env.fails, s.actor.fan.desired);
  }

  lemma PinWriteKeepsInv(s: System)
    requires Inv(s) && s.hw.todo != []
    ensures Inv(DoPinWrite(s))
  {
  }

  /** Steps that do not call the driver. */
  ghost predicate Plain(s: System) {
    s.hw.todo == [] && !s.actor.pc.Start? && !s.actor.pc.InitWrites? && !MustMove(s)
  }

  /** Taking a command and expiring the timer touch neither the output nor what was applied. */
  ghost predicate Receives(s: System, t: System) {
    var f, g := s.actor.fan, t.actor.fan;
    && t.hw == s.hw && t.effects == s.effects && t.actor.pc == Decide
    && g.applied == f.applied && g.fault == f.fault && g.cause == f.cause && (f.fault ==> g == f)
    && ((g.accepted == f.accepted && g.appliedSeq == f.appliedSeq) || g.accepted != 0)
    && (t.shared.mailbox == s.shared.mailbox || t.shared.mailbox.None?)
  }

  lemma TakeReceives(s: System)
    requires s.shared.mailbox.Some? ==> s.shared.mailbox.value.sequence != 0
    ensures Receives(s, At(DoTake(s), Decide))
  {
  }

  lemma ReceiveReceives(s: System, env: Env)
    requires s.hw.todo == [] && s.actor.pc.Receive?
    requires s.shared.mailbox.Some? ==> s.shared.mailbox.value.sequence != 0
    ensures Receives(s, ActorStep(s, env))
  {
    TakeReceives(s);
    var t := DoTake(s);
    assert Receives(s, DoReceive(s));
  }

  lemma ReceivingKeepsInv(s: System, t: System)
    requires Inv(s) && s.actor.pc.Receive? && Receives(s, t)
    ensures Inv(t)
  {
  }

  lemma ReceiveKeepsInv(s: System, env: Env)
    requires Inv(s) && s.hw.todo == [] && s.actor.pc.Receive?
    ensures Inv(ActorStep(s, env))
  {
    ReceiveReceives(s, env);
    ReceivingKeepsInv(s, ActorStep(s, env));
  }

  lemma EndWritesKeepsInv(s: System, env: Env)
    requires Inv(s) && s.hw.todo == [] && s.actor.pc.Writes?
    ensures Inv(ActorStep(s, env))
  {
  }

  lemma BootStepKeepsInv(s: System, env: Env)
    requires Inv(s) && Plain(s) && Booting(s.actor.pc)
    ensures Inv(ActorStep(s, env))
  {
  }

  /** The other steps of the loop. */
  ghost predicate LoopStep(s: System) {
    Plain(s) && !Booting(s.actor.pc) && !s.actor.pc.Receive? && !s.actor.pc.Writes?
  }

  /** Such a step moves along the loop and touches no pin. */
  lemma LoopStepKeepsPins(s: System, env: Env)
    requires LoopStep(s)
    ensures var t := ActorStep(s, env);
            && !Booting(t.actor.pc) && !t.actor.pc.Writes?
            && t.hw.board == s.hw.board && t.hw.out == s.hw.out && t.hw.todo == []
            && t.effects.rises == s.effects.rises && t.effects.completedOn == s.effects.completedOn
  {
  }

  lemma LoopStepKeepsOutput(s: System, env: Env)
    requires OutputInv(s) && LoopStep(s)
    ensures OutputInv(ActorStep(s, env))
  {
    LoopStepKeepsPins(s, env);
  }

  lemma LoopStepKeepsSettled(s: System, env: Env)
    requires OutputInv(s) && SettledInv(s) && LoopStep(s)
    ensures SettledInv(ActorStep(s, env))
  {
  }

  lemma LoopStepKeepsStopped(s: System, env: Env)
    requires StoppedInv(s) && LoopStep(s)
    ensures StoppedInv(ActorStep(s, env))
  {
    match s.actor.pc
    case ReadFlag => ReadingKeepsStopped(s);
    case _ =>
  }

  lemma ReadingKeepsStopped(s: System)
    requires StoppedInv(s) && s.actor.pc.ReadFlag?
    ensures StoppedInv(DoReadFlag(s))
  {
  }

  lemma LoopStepKeepsPublished(s: System, env: Env)
    requires SettledInv(s) && StoppedInv(s) && PublishedInv(s) && LoopStep(s)
    ensures PublishedInv(ActorStep(s, env))
  {
  }

  lemma LoopStepKeepsInv(s: System, env: Env)
    requires Inv(s) && LoopStep(s)
    ensures Inv(ActorStep(s, env))
  {
    LoopStepKeepsPins(s, env);
    LoopStepKeepsOutput(s, env);
    LoopStepKeepsSettled(s, env);
    LoopStepKeepsStopped(s, env);
    LoopStepKeepsPublished(s, env);
  }

  lemma ActorKeepsInv(s: System, env: Env)
    requires Inv(s) && Legit(s, env)
    ensures Inv(ActorStep(s, env))
  {
    if s.hw.todo != [] {
      PinWriteKeepsInv(s);
    } else if s.actor.pc.Start? {
      StartKeepsInv(s, env);
    } else if s.actor.pc.InitWrites? {
      EndInitKeepsInv(s, env);
    } else if MustMove(s) {
      MoveKeepsInv(s, env);
    } else if s.actor.pc.Receive? {
      ReceiveKeepsInv(s, env);
    } else if s.actor.pc.Writes? {
      EndWritesKeepsInv(s, env);
    } else if Booting(s.actor.pc) {
      BootStepKeepsInv(s, env);
    } else {
      LoopStepKeepsInv(s, env);
    }
  }

  lemma OthersKeepInv(s: System, step: Step)
    requires Inv(s) && Enabled(s, step) && !step.ActorRuns? && !step.Reset?
    ensures Inv(Next(s, step))
  {
    var t := Next(s, step);
    assert t.hw == s.hw && t.effects == s.effects && t.actor == s.actor;
  }

  lemma RebootInv(rtc: Record, latched: bool, torn: bool, pads: seq<Hc238.Pad>)
    requires |pads| == PAD_COUNT
    ensures Inv(Reboot(rtc, latched, torn, pads))
  {
  }

  lemma StepKeepsInv(s: System, step: Step)
    requires Inv(s) && Enabled(s, step)
    ensures Inv(Next(s, step))
  {
    if step.ActorRuns? {
      ActorKeepsInv(s, step.env);
    } else if step.Reset? {
      var t := DoReset(s, step.powerOn, step.pads);
      RebootInv(t.hw.rtc, t.life.latched, t.life.torn, step.pads);
    } else {
      OthersKeepInv(s, step);
    }
  }

  lemma {:induction false} RunKeepsInv(states: seq<System>, steps: seq<Step>, i: nat)
    requires Run(states, steps) && i < |states|
    ensures Inv(states[i])
  {
    if i > 0 {
      RunKeepsInv(states, steps, i - 1);
      assert StepAt(states, steps, i - 1);
      StepKeepsInv(states[i - 1], steps[i - 1]);
    } else {
      RebootInv(CLEARED, false, false, ResetPads());
    }
  }

  // --- Over whole runs ----------------------------------------------------------------------------

  /** At the end of every cycle without a fault the decoder selects exactly what the applied speed
      stands for, the fan runs as wanted, and the last accepted command has been settled. */
  lemma CyclesEndRefined(states: seq<System>, steps: seq<Step>, i: nat)
    requires Run(states, steps) && i < |states|
    requires (states[i].actor.pc.Publish? || states[i].actor.pc.Sleep?) && !states[i].actor.fan.fault
    ensures var s, f := states[i], states[i].actor.fan;
            && s.hw.todo == [] && s.hw.out == SpeedOutput(f.applied) == s.hw.board.Out()
            && f.desired == f.applied && f.accepted == f.appliedSeq
  {
    RunKeepsInv(states, steps, i);
  }

  /** A fan with a latched fault is off down to the pins, past the boot, unless at least two pin writes
      of this boot have failed, and the fault is of the disable phase. */
  lemma FaultIsOff(states: seq<System>, steps: seq<Step>, i: nat)
    requires Run(states, steps) && i < |states| && states[i].actor.fan.fault && !Booting(states[i].actor.pc)
    ensures states[i].hw.todo == []
    ensures var s := states[i];
            s.hw.out != Hc238.Off ==>
              s.actor.fan.cause.phase == PhaseCode(DISABLE) && Hc238.FailedTwice(s.hw.board.log, 0)
  {
    RunKeepsInv(states, steps, i);
  }

  /** So a snapshot anyone can read has the fan as wanted - off and untimed after a fault - and is
      pending exactly if it has not settled the last accepted command, which takes a fault. */
  lemma PendingOnlyAfterFault(states: seq<System>, steps: seq<Step>, i: nat, k: nat)
    requires Run(states, steps) && i < |states| && k < |states[i].effects.published|
    ensures Consistent(states[i].effects.published[k])
  {
    RunKeepsInv(states, steps, i);
  }

  /** Whenever no transition is under way, the decoder has come on exactly as often since boot as
      a transition to a speed has completed. */
  lemma EdgesAreCompletions(states: seq<System>, steps: seq<Step>, i: nat)
    requires Run(states, steps) && i < |states| && !states[i].actor.pc.Writes? && states[i].hw.todo == []
    ensures states[i].effects.rises == states[i].effects.completedOn
  {
    RunKeepsInv(states, steps, i);
  }

  /** Whoever sees the acknowledgement sees the fan off, down to the pins, and wanted off; and under
      the flag no command waits. */
  lemma AcknowledgedIsOff(states: seq<System>, steps: seq<Step>, i: nat)
    requires Run(states, steps) && i < |states| && states[i].shared.ack
    ensures var s, f := states[i], states[i].actor.fan;
            && !f.fault && f.applied == OFF && f.desired == OFF
            && s.hw.out == Hc238.Off && s.hw.todo == [] && s.hw.board.Out() == Hc238.Off
            && (s.shared.flag ==> s.shared.mailbox == None)
  {
    RunKeepsInv(states, steps, i);
    Quiesce.RunKeepsInv(states, steps, i);
  }

  /** Quiesce safety at the pins: no output is selected, and no pin is being written. */
  lemma QuiescedDecoderIsOff(states: seq<System>, steps: seq<Step>, i: nat, q: nat)
    requires Run(states, steps) && i < |states|
    requires Quiesce.Current(states[i], q) && states[i].quiescers[q].Holding?
    ensures states[i].hw.out == Hc238.Off && states[i].hw.todo == [] && states[i].hw.board.Out() == Hc238.Off
  {
    RunKeepsInv(states, steps, i);
    Quiesce.QuiesceIsSafe(states, steps, i, q);
  }
}
