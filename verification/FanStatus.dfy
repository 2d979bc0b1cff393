/** What a snapshot says is so: state and fault, maintenance, the transition counters, and the
    retained fault record; and when pins move at all. */
module FanStatus {
  import opened Esp
  import opened FanPolicy
  import opened FaultRecord
  import opened FanControl
  import FanRefinement
  import FanTransition
  import FaultLatch
  import Hc238

  ghost predicate InLoop(pc: Pc) {
    !FanRefinement.Booting(pc) && !pc.Suspended?
  }

  /** State, fault and maintenance agree. */
  predicate Truthful(f: Fan) {
    && (f.fault <==> f.state == FAULT_LATCHED)
    && (!f.fault ==> f.state == if f.maintenance then IN_MAINTENANCE else READY)
    && (!f.fault && f.maintenance ==> f.desired == OFF && f.source == MAINTENANCE && !f.active)
  }

  ghost predicate StateInv(s: System) {
    var f, pc := s.actor.fan, s.actor.pc;
    && (InLoop(pc) ==> Truthful(f) && (!f.fault ==> f.maintenance == s.actor.maintenance))
    && (FanRefinement.Booting(pc) ==> !f.maintenance && !s.actor.maintenance)
  }

  /** Without a fault every attempted transition has completed, but for one under way. */
  ghost predicate CountInv(s: System) {
    var f, pc := s.actor.fan, s.actor.pc;
    && (FanRefinement.Booting(pc) ==> f.attempted == f.completed == 0)
    && (if pc.Writes? then f.attempted == Wrap(f.completed + 1) else !f.fault ==> f.attempted == f.completed)
    && (f.attempted == f.completed || f.attempted == Wrap(f.completed + 1))
  }

  /** The record in RTC memory holds the fault the actor knows, or none. */
  ghost predicate RetainedInv(s: System) {
    var f, pc := s.actor.fan, s.actor.pc;
    !pc.Start? && !pc.BootLatch? && !pc.Latch? ==> Retained(s.hw.rtc) == if f.fault then Some(f.cause) else None
  }

  ghost predicate LatchCauseInv(s: System) {
    && (s.actor.pc.Latch? ==> s.actor.fan.fault && s.actor.fan.cause == s.actor.pc.cause)
    && (s.hw.todo != [] ==> s.actor.pc.InitWrites? || s.actor.pc.OffWrites? || s.actor.pc.Writes?)
  }

  ghost predicate Reported(f: Fan) {
    f.state == STARTING || (Truthful(f) && (!f.fault ==> f.attempted == f.completed))
  }

  ghost predicate ReportInv(s: System) {
    forall k | 0 <= k < |s.effects.published| :: Reported(s.effects.published[k])
  }

  ghost predicate Inv(s: System) {
    StateInv(s) && CountInv(s) && RetainedInv(s) && LatchCauseInv(s) && ReportInv(s)
  }

  // --- Preservation --------------------------------------------------------------------------------

  ghost predicate CoreInv(s: System) {
    StateInv(s) && CountInv(s)
  }

  lemma ReadFlagKeepsCore(s: System)
    requires CoreInv(s) && s.actor.pc.ReadFlag?
    ensures CoreInv(DoReadFlag(s))
  {
  }

  /** What a command and the timer leave alone. */
  predicate SameStatus(f: Fan, g: Fan) {
    && g.state == f.state && g.fault == f.fault && g.maintenance == f.maintenance && g.cause == f.cause
    && g.attempted == f.attempted && g.completed == f.completed
  }

  /** Under maintenance nothing is taken and no timer fires. */
  lemma MaintenanceTakesNothing(s: System)
    requires s.actor.maintenance
    ensures DoReceive(s).actor.fan == s.actor.fan
  {
  }

  lemma InterpretLeaves(f: Fan, c: Command, now: Word, started: Word)
    ensures SameStatus(f, Interpret(f, c, now, started).0)
  {
  }

  lemma ExpireLeaves(f: Fan, now: Word, started: Word)
    ensures SameStatus(f, Expire(f, now, started))
  {
  }

  lemma TakeLeaves(s: System)
    ensures var t := DoTake(s);
            SameStatus(s.actor.fan, t.actor.fan) && t.actor.maintenance == s.actor.maintenance && t.hw == s.hw
  {
    if s.shared.mailbox.Some? {
      InterpretLeaves(s.actor.fan, s.shared.mailbox.value, s.actor.now, s.actor.started);
    }
  }

  lemma ReceiveLeaves(s: System)
    ensures var t := DoReceive(s);
            && SameStatus(s.actor.fan, t.actor.fan) && t.actor.maintenance == s.actor.maintenance
            && t.actor.pc.Decide? && t.hw == s.hw
  {
    TakeLeaves(s);
    var t := DoTake(s);
    ExpireLeaves(t.actor.fan, t.actor.now, t.actor.started);
  }

  lemma DecideKeepsCore(s: System, o: FanTransition.Outcome)
    requires CoreInv(s) && s.actor.pc.Decide?
    ensures CoreInv(DoDecide(s, o))
  {
  }

  lemma EndWritesKeepsCore(s: System, err: EspErr, phase: FanTransition.Phase)
    requires CoreInv(s) && s.actor.pc.Writes? && !s.actor.fan.fault
    ensures CoreInv(DoEndWrites(s, err, phase))
  {
  }

  lemma EndOfCycleKeepsCore(s: System)
    requires CoreInv(s) && InLoop(s.actor.pc) && !s.actor.pc.Writes?
    ensures CoreInv(DoSetAck(s)) && CoreInv(DoWake(s))
  {
  }

  lemma BootKeepsCore(s: System, env: Env)
    requires CoreInv(s) && FanRefinement.Booting(s.actor.pc)
    ensures CoreInv(ActorStep(s, env))
  {
  }

  lemma ActorKeepsCore(s: System, env: Env)
    requires CoreInv(s) && (s.actor.pc.Writes? ==> !s.actor.fan.fault)
    ensures CoreInv(ActorStep(s, env))
  {
    if FanRefinement.Booting(s.actor.pc) {
      BootKeepsCore(s, env);
    } else if s.hw.todo == [] {
      match s.actor.pc
      case Sleep => EndOfCycleKeepsCore(s);
      case ReadFlag => ReadFlagKeepsCore(s);
      case Receive =>
        ReceiveLeaves(s);
        if s.actor.maintenance {
          MaintenanceTakesNothing(s);
        }
      case Decide => DecideKeepsCore(s, env.outcome);
      case Writes(err, phase) => EndWritesKeepsCore(s, err, phase);
      case SetAck => EndOfCycleKeepsCore(s);
      case _ =>
    }
  }

  /** Where neither the fault nor the record can change. */
  ghost predicate Keeps(pc: Pc) {
    !pc.Start? && !pc.BootLatch? && !pc.Latch? && !pc.Writes? && !pc.InitWrites? && !pc.OffWrites?
  }

  lemma QuietKeepsFault(s: System, env: Env)
    requires Keeps(s.actor.pc) && s.hw.todo == []
    ensures var t := ActorStep(s, env);
            && t.actor.fan.fault == s.actor.fan.fault && t.actor.fan.cause == s.actor.fan.cause && t.hw.rtc == s.hw.rtc
            && !t.actor.pc.Start? && !t.actor.pc.BootLatch? && !t.actor.pc.Latch?
            && (t.hw.todo != [] ==> t.actor.pc.Writes?)
  {
    match s.actor.pc
    case Receive => ReceiveLeaves(s);
    case ReadFlag => ReadFlagLeaves(s);
    case Decide => DecideLeaves(s, env.outcome);
    case _ =>
  }

  lemma ReadFlagLeaves(s: System)
    ensures var t := DoReadFlag(s);
            && t.actor.fan.fault == s.actor.fan.fault && t.actor.fan.cause == s.actor.fan.cause && t.hw == s.hw
            && (t.actor.pc.ClearAck? || t.actor.pc.Receive?)
  {
  }

  lemma DecideLeaves(s: System, o: FanTransition.Outcome)
    requires s.actor.pc.Decide? && s.hw.todo == []
    ensures var t := DoDecide(s, o);
            && t.actor.fan.fault == s.actor.fan.fault && t.actor.fan.cause == s.actor.fan.cause && t.hw.rtc == s.hw.rtc
            && (t.actor.pc.Decide? || t.actor.pc.SetAck? || t.actor.pc.Writes?)
              && (t.hw.todo != [] ==> t.actor.pc.Writes?)
  {
  }

  lemma LatchingKeepsRetained(s: System, env: Env)
    requires RetainedInv(s) && LatchCauseInv(s) && FaultLatch.RecordInv(s) && !Keeps(s.actor.pc)
    ensures RetainedInv(ActorStep(s, env)) && LatchCauseInv(ActorStep(s, env))
  {
    if s.hw.todo == [] && (s.actor.pc.BootLatch? || s.actor.pc.Latch?) && 0 < s.actor.pc.stores {
      WrittenRetains(s.hw.rtc, s.actor.pc.stores, s.actor.pc.cause);
    }
  }

  lemma ActorKeepsRetained(s: System, env: Env)
    requires RetainedInv(s) && LatchCauseInv(s) && FaultLatch.RecordInv(s)
    ensures RetainedInv(ActorStep(s, env)) && LatchCauseInv(ActorStep(s, env))
  {
    if Keeps(s.actor.pc) {
      QuietKeepsFault(s, env);
    } else {
      LatchingKeepsRetained(s, env);
    }
  }

  lemma ActorKeepsReport(s: System, env: Env)
    requires ReportInv(s) && StateInv(s) && CountInv(s)
    ensures ReportInv(ActorStep(s, env))
  {
  }

  lemma ActorKeepsInv(s: System, env: Env)
    requires Inv(s) && FaultLatch.RecordInv(s) && FaultLatch.KnownInv(s)
    ensures Inv(ActorStep(s, env))
  {
    ActorKeepsCore(s, env);
    ActorKeepsRetained(s, env);
    ActorKeepsReport(s, env);
  }

  lemma OthersKeepInv(s: System, step: Step)
    requires Inv(s) && Enabled(s, step) && !step.ActorRuns? && !step.Reset?
    ensures Inv(Next(s, step))
  {
    var t := Next(s, step);
    assert t.hw == s.hw && t.effects == s.effects && t.actor == s.actor;
  }

  lemma RebootInv(rtc: Record, latched: bool, torn: bool, pads: seq<Hc238.Pad>)
    ensures Inv(Reboot(rtc, latched, torn, pads))
  {
  }

  lemma StepKeepsInv(s: System, step: Step)
    requires Inv(s) && Enabled(s, step) && FaultLatch.RecordInv(s) && FaultLatch.KnownInv(s)
    ensures Inv(Next(s, step))
  {
    if step.ActorRuns? {
      ActorKeepsInv(s, step.env);
    } else if step.Reset? {
      var t := DoReset(s, step.powerOn, step.pads);
      RebootInv(t.hw.rtc, t.life.latched, t.life.torn, step.pads);
    } else {
      OthersKeepInv(s, step);
    }
  }

  lemma {:induction false} RunKeepsInv(states: seq<System>, steps: seq<Step>, i: nat)
    requires Run(states, steps) && i < |states|
    ensures Inv(states[i])
  {
    if i > 0 {
      RunKeepsInv(states, steps, i - 1);
      FaultLatch.RunKeepsInv(states, steps, i - 1);
      assert StepAt(states, steps, i - 1);
      StepKeepsInv(states[i - 1], steps[i - 1]);
    } else {
      RebootInv(CLEARED, false, false, ResetPads());
    }
  }

  // --- The theorems ---------------------------------------------------------------------------------

  /** Every snapshot published after start-up reports a fault exactly as state FAULT_LATCHED,
      maintenance exactly as state MAINTENANCE, and, without a fault, as many transitions completed
      as attempted. */
  lemma SnapshotsAreTruthful(states: seq<System>, steps: seq<Step>, i: nat, k: nat)
    requires Run(states, steps) && i < |states| && k < |states[i].effects.published|
    ensures Reported(states[i].effects.published[k])
  {
    RunKeepsInv(states, steps, i);
  }

  /** Except while a latching is being written, the record in RTC memory holds exactly the fault the
      actor reports, in this boot and after every reset. */
  lemma RecordMatchesReport(states: seq<System>, steps: seq<Step>, i: nat)
    requires Run(states, steps) && i < |states|
    requires !states[i].actor.pc.Start? && !states[i].actor.pc.BootLatch? && !states[i].actor.pc.Latch?
    ensures var f := states[i].actor.fan; Retained(states[i].hw.rtc) == if f.fault then Some(f.cause) else None
  {
    RunKeepsInv(states, steps, i);
  }

  lemma ActorMovesBoard(s: System, env: Env)
    requires InLoop(s.actor.pc) && ActorStep(s, env).hw.board != s.hw.board
    ensures s.actor.pc.Decide? && !s.actor.fan.fault && s.actor.fan.applied != s.actor.fan.desired
  {
  }

  /** Once the loop runs, pins are written only to change the speed: a request for the speed that
      is already applied, and every request after a fault, performs no GPIO write. */
  lemma PinsMoveOnlyToChangeSpeed(states: seq<System>, steps: seq<Step>, i: nat)
    requires Run(states, steps) && i < |steps| && !steps[i].Reset? && InLoop(states[i].actor.pc)
    requires states[i + 1].hw.board != states[i].hw.board
    ensures var f := states[i].actor.fan; states[i].actor.pc.Decide? && !f.fault && f.applied != f.desired
  {
    assert StepAt(states, steps, i);
    if steps[i].ActorRuns? {
      ActorMovesBoard(states[i], steps[i].env);
    }
  }

  /** A boot whose fan_init or OFF transition failed, or whose watchdog registration does, never enters
      the loop: until the next reset the actor is suspended and no pin moves again. */
  lemma {:induction false} FailedBootSuspends(states: seq<System>, steps: seq<Step>, i: nat, j: nat)
    requires Run(states, steps) && i < j < |states| && states[i].actor.pc.BootPublish? && states[i].hw.todo == []
    requires steps[i].ActorRuns? && (states[i].actor.initResult != OK || !steps[i].env.watchdogOk)
    requires forall k | i < k < j :: !steps[k].Reset?
    ensures states[j].actor.pc.Suspended? && states[j].actor.initResult != OK && states[j].hw == states[i].hw
    ensures states[j].actor.fan.fault == states[i].actor.fan.fault
    decreases j
  {
    assert StepAt(states, steps, j - 1);
    if i + 1 < j {
      FailedBootSuspends(states, steps, i, j - 1);
    }
  }
}
