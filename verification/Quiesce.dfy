/** The maintenance handshake of main/fan_control.c: once fan_control_quiesce has returned ESP_OK
    the fan stays off while the flag stays set - although the acknowledgement bit it saw may be
    left over from an earlier maintenance period. */
module Quiesce {
  import opened Esp
  import opened FanPolicy
  import opened FanControl
  import FanTransition

  /** Between cycles, or in a cycle that has nothing to write. */
  ghost predicate Resting(pc: Pc) {
    pc.Sleep? || pc.ReadFlag? || pc.ClearAck? || pc.Receive? || pc.Decide? || pc.SetAck? || pc.Publish?
  }

  /** The fan is off and the actor has no reason to turn it on. */
  ghost predicate Quiet(s: System) {
    var f := s.actor.fan;
    !f.fault && f.applied == OFF && f.desired == OFF && !f.active && Resting(s.actor.pc) && s.hw.todo == []
  }

  /** A mailbox command was accepted with the flag clear, and the flag has not been set since. */
  ghost predicate MailboxInv(s: System) {
    s.shared.mailbox.Some? ==> !s.shared.flag && s.epoch.mailboxSet == s.epoch.sets
  }

  /** The bit is only ever set while the fan is quiet; past ClearAck it stands only in a cycle
      that itself saw the flag. */
  ghost predicate AckInv(s: System) {
    && (s.shared.ack ==> Quiet(s))
    && (s.shared.ack && (s.actor.pc.Receive? || s.actor.pc.Decide? || s.actor.pc.SetAck? || s.actor.pc.Publish?) ==>
      s.actor.maintenance)
  }

  /** A cycle that saw the flag wants the fan off, and has it off once its transition is done. */
  ghost predicate CycleInv(s: System) {
    var f, pc := s.actor.fan, s.actor.pc;
    && (s.actor.maintenance && !f.fault && (pc.Receive? || pc.Decide? || pc.Writes? || pc.SetAck? || pc.Publish?) ==>
          f.desired == OFF && !f.active)
    && (s.actor.maintenance && !f.fault && (pc.SetAck? || pc.Publish?) ==> f.applied == OFF)
  }

  /** Which program points go with pin writes under way and with a fault. */
  ghost predicate ShapeInv(s: System) {
    var f, pc := s.actor.fan, s.actor.pc;
    && (pc.Writes? ==> !f.fault)
    && (s.hw.todo != [] ==> pc.InitWrites? || pc.OffWrites? || pc.Writes?)
    && (pc.Latch? ==> f.fault)
    && (pc.ClearAck? ==> !s.actor.maintenance)
  }

  /** Quiescers whose flag has not been cleared since they set it. */
  ghost predicate Current(s: System, q: nat) {
    q in s.quiescers && s.quiescers[q].clears == s.epoch.clears
  }

  ghost predicate HolderInv(s: System) {
    && (forall q | q in s.quiescers :: s.quiescers[q].clears <= s.epoch.clears)
    && (forall q | Current(s, q) :: s.shared.flag)
    && (forall q | Current(s, q) && s.quiescers[q].Holding? :: Quiet(s))
  }

  ghost predicate Inv(s: System) {
    MailboxInv(s) && AckInv(s) && CycleInv(s) && ShapeInv(s) && HolderInv(s)
  }

  lemma ActorKeepsShape(s: System, env: Env)
    requires ShapeInv(s)
    ensures ShapeInv(ActorStep(s, env))
  {
    if s.hw.todo == [] {
      match s.actor.pc
      case ReadFlag => ReadFlagKeepsShape(s);
      case Receive => ReceiveKeepsShape(s);
      case Decide => DecideKeepsShape(s, env.outcome);
      case _ =>
    }
  }

  lemma ReadFlagKeepsShape(s: System)
    requires ShapeInv(s) && s.actor.pc.ReadFlag?
    ensures ShapeInv(DoReadFlag(s))
  {
  }

  lemma ReceiveKeepsShape(s: System)
    requires ShapeInv(s) && s.actor.pc.Receive?
    ensures ShapeInv(DoReceive(s))
  {
  }

  lemma DecideKeepsShape(s: System, o: FanTransition.Outcome)
    requires ShapeInv(s) && s.actor.pc.Decide?
    ensures ShapeInv(DoDecide(s, o))
  {
  }

  lemma ActorKeepsCycle(s: System, env: Env)
    requires CycleInv(s) && ShapeInv(s)
    ensures CycleInv(ActorStep(s, env))
  {
  }

  lemma ActorKeepsAck(s: System, env: Env)
    requires AckInv(s) && CycleInv(s) && ShapeInv(s)
    ensures AckInv(ActorStep(s, env))
  {
  }

  /** With the flag set and the mailbox empty, no step of the actor ends the quiet. */
  lemma ActorStaysQuiet(s: System, env: Env)
    requires Quiet(s) && s.shared.mailbox.None?
    ensures Quiet(ActorStep(s, env))
  {
  }

  lemma ActorKeepsInv(s: System, env: Env)
    requires Inv(s)
    ensures Inv(ActorStep(s, env))
  {
    var t := ActorStep(s, env);
    ActorKeepsShape(s, env);
    ActorKeepsCycle(s, env);
    ActorKeepsAck(s, env);
    ActorLeavesFlag(s, env);
    ActorLeavesEpoch(s, env);
    forall q | Current(t, q) ensures t.shared.flag && (t.quiescers[q].Holding? ==> Quiet(t)) {
      assert Current(s, q);
      if t.quiescers[q].Holding? {
        ActorStaysQuiet(s, env);
      }
    }
  }

  ghost predicate LeavesFlag(s: System, t: System) {
    && t.shared.flag == s.shared.flag && t.quiescers == s.quiescers
    && (t.shared.mailbox == s.shared.mailbox || t.shared.mailbox.None?)
  }

  lemma ReceiveLeavesFlag(s: System)
    ensures LeavesFlag(s, DoReceive(s))
  {
    assert LeavesFlag(s, DoTake(s));
  }

  lemma DecideLeavesFlag(s: System, o: FanTransition.Outcome)
    ensures LeavesFlag(s, DoDecide(s, o))
  {
  }

  lemma FlagStepsLeaveFlag(s: System)
    ensures LeavesFlag(s, DoReadFlag(s)) && LeavesFlag(s, DoSetAck(s))
  {
  }

  lemma EndWritesLeavesFlag(s: System, err: EspErr, phase: FanTransition.Phase)
    ensures LeavesFlag(s, DoEndWrites(s, err, phase))
  {
  }

  /** The actor reads the flag and takes from the mailbox; it writes neither. */
  lemma ActorLeavesFlag(s: System, env: Env)
    ensures LeavesFlag(s, ActorStep(s, env))
  {
    if s.hw.todo == [] {
      match s.actor.pc
      case Receive => ReceiveLeavesFlag(s);
      case Decide => DecideLeavesFlag(s, env.outcome);
      case ReadFlag => FlagStepsLeaveFlag(s);
      case SetAck => FlagStepsLeaveFlag(s);
      case Writes(err, phase) => EndWritesLeavesFlag(s, err, phase);
      case _ =>
    }
  }

  lemma ActorLeavesEpoch(s: System, env: Env)
    ensures ActorStep(s, env).epoch == s.epoch
  {
  }

  lemma StepKeepsInv(s: System, step: Step)
    requires Inv(s) && Enabled(s, step)
    ensures Inv(Next(s, step))
  {
    var t := Next(s, step);
    if step.ActorRuns? {
      ActorKeepsInv(s, step.env);
    } else {
      forall q | Current(t, q) ensures t.shared.flag && (t.quiescers[q].Holding? ==> Quiet(t)) {
        assert step == QuiesceSet(q) || Current(s, q);
      }
    }
  }

  lemma {:induction false} RunKeepsInv(states: seq<System>, steps: seq<Step>, i: nat)
    requires Run(states, steps) && i < |states|
    ensures Inv(states[i])
  {
    if i > 0 {
      RunKeepsInv(states, steps, i - 1);
      assert StepAt(states, steps, i - 1);
      StepKeepsInv(states[i - 1], steps[i - 1]);
    }
  }

  /** Quiesce safety, over every interleaving: while a quiescer that returned ESP_OK has had its
      flag left alone, the flag is still set, nothing is in the mailbox, applied and desired
      speed are off, and the actor is not writing pins - so it starts no transition at all. */
  lemma QuiesceIsSafe(states: seq<System>, steps: seq<Step>, i: nat, q: nat)
    requires Run(states, steps) && i < |states|
    requires Current(states[i], q) && states[i].quiescers[q].Holding?
    ensures Quiet(states[i]) && states[i].shared.flag && states[i].shared.mailbox.None?
  {
    RunKeepsInv(states, steps, i);
  }

  // --- No replay ----------------------------------------------------------------------------

  ghost predicate NoReset(steps: seq<Step>, i: nat, j: nat) {
    forall k | i <= k < j && k < |steps| :: !steps[k].Reset?
  }

  /** What is known at `t` of commands that were around when the flag was set at `s`. */
  ghost predicate Purged(s: System, t: System) {
    && |t.book.submitted| >= |s.book.submitted|
    && t.epoch.clears >= s.epoch.clears
    && (t.shared.mailbox.Some? ==> |t.book.submitted| > |s.book.submitted|)
    && (t.epoch.clears == s.epoch.clears ==> t.shared.flag && |t.book.submitted| == |s.book.submitted|)
  }

  lemma ActorKeepsPurged(s: System, t: System, env: Env)
    requires Purged(s, t)
    ensures Purged(s, ActorStep(t, env))
  {
    ActorLeavesFlag(t, env);
    ActorLeavesEpoch(t, env);
    ActorSubmitsNothing(t, env);
  }

  lemma ActorSubmitsNothing(s: System, env: Env)
    ensures ActorStep(s, env).book.submitted == s.book.submitted
  {
  }

  lemma StepKeepsPurged(s: System, t: System, step: Step)
    requires Purged(s, t) && Enabled(t, step) && !step.Reset?
    ensures Purged(s, Next(t, step))
  {
    if step.ActorRuns? {
      ActorKeepsPurged(s, t, step.env);
    }
  }

  lemma SettingPurges(s: System, q: nat)
    ensures Purged(DoQuiesceSet(s, q), DoQuiesceSet(s, q))
  {
  }

  lemma {:induction false} StaysPurged(states: seq<System>, steps: seq<Step>, i: nat, j: nat)
    requires Run(states, steps) && i < j < |states| && steps[i].QuiesceSet? && NoReset(steps, i, j)
    ensures Purged(states[i + 1], states[j])
  {
    if j > i + 1 {
      StaysPurged(states, steps, i, j - 1);
      assert StepAt(states, steps, j - 1);
      StepKeepsPurged(states[i + 1], states[j - 1], steps[j - 1]);
    } else {
      assert StepAt(states, steps, i);
      SettingPurges(states[i], steps[i].q);
    }
  }

  /** A command the actor takes after the flag was set at step `i` was submitted after that, and
      after the flag was next cleared: while it is not cleared, no command is numbered at all. */
  lemma NoReplay(states: seq<System>, steps: seq<Step>, i: nat, j: nat)
    requires Run(states, steps) && i < j < |steps| && steps[i].QuiesceSet? && NoReset(steps, i, j + 1)
    requires |states[j + 1].book.taken| > |states[j].book.taken|
    ensures var n := states[j + 1].book.taken[|states[j + 1].book.taken| - 1];
            && n > |states[i + 1].book.submitted|
            && states[j].epoch.clears > states[i + 1].epoch.clears
            && forall k | i < k <= j && states[k].epoch.clears ==
              states[i + 1].epoch.clears :: n > |states[k].book.submitted|
  {
    StaysPurged(states, steps, i, j);
    assert StepAt(states, steps, j);
    TakesFromMailbox(states[j], steps[j]);
    forall k | i < k <= j && states[k].epoch.clears == states[i + 1].epoch.clears
      ensures |states[k].book.submitted| == |states[i + 1].book.submitted|
    {
      StaysPurged(states, steps, i, k);
    }
  }

  lemma OthersTakeNothing(s: System, env: Env)
    requires !s.actor.pc.Start? && !s.actor.pc.Receive?
    ensures ActorStep(s, env).book.taken == s.book.taken
  {
    if s.hw.todo == [] && s.actor.pc.Decide? {
      assert DoDecide(s, env.outcome).book.taken == s.book.taken;
    }
  }

  lemma ReceiveTakes(s: System)
    ensures var taken := DoReceive(s).book.taken;
            taken == s.book.taken || (s.shared.mailbox.Some? && taken == s.book.taken + [|s.book.submitted|])
  {
    assert DoReceive(s).book == DoTake(s).book;
  }

  lemma ActorTakesFromMailbox(s: System, env: Env)
    ensures var taken := ActorStep(s, env).book.taken;
            taken == s.book.taken || (s.shared.mailbox.Some? && taken == s.book.taken + [|s.book.submitted|])
  {
    if s.actor.pc.Receive? {
      ReceiveTakes(s);
    } else if !s.actor.pc.Start? {
      OthersTakeNothing(s, env);
    }
  }

  lemma TakesFromMailbox(s: System, step: Step)
    requires Enabled(s, step) && !step.Reset? && |Next(s, step).book.taken| > |s.book.taken|
    ensures s.shared.mailbox.Some? && Next(s, step).book.taken == s.book.taken + [|s.book.submitted|]
  {
    if step.ActorRuns? {
      ActorTakesFromMailbox(s, step.env);
    }
  }

  // --- Bounded acknowledgement ------------------------------------------------------------------

  /** Acknowledged, or never to be: a fault. */
  ghost predicate Answered(s: System) {
    s.shared.ack || s.actor.fan.fault
  }

  /** Where a cycle stands that began at `s`, between cycles, under a flag that has stayed set. */
  ghost predicate Acknowledging(s: System, t: System) {
    var pc := t.actor.pc;
    && t.shared.flag && (Resting(pc) || pc.Writes? || pc.Latch?) && !pc.ClearAck?
    && |t.effects.published| >= |s.effects.published|
    && (if |t.effects.published| > |s.effects.published| then Answered(t)
        else pc.Sleep? || pc.ReadFlag? || (t.actor.maintenance && (pc.Publish? ==> Answered(t))))
  }

  lemma ActorKeepsAcknowledging(s: System, t: System, env: Env)
    requires Acknowledging(s, t) && CycleInv(t) && ShapeInv(t)
    ensures Acknowledging(s, ActorStep(t, env))
  {
  }

  lemma StepKeepsAcknowledging(s: System, t: System, step: Step, next: System)
    requires Acknowledging(s, t) && Inv(t) && Enabled(t, step) && !step.Reset? && next == Next(t, step)
        && next.shared.flag
    ensures Acknowledging(s, next)
  {
    if step.ActorRuns? {
      ActorKeepsAcknowledging(s, t, step.env);
    }
  }

  lemma {:induction false} StaysAcknowledging(states: seq<System>, steps: seq<Step>, i: nat, j: nat)
    requires Run(states, steps) && i <= j < |states| && NoReset(steps, i, j)
    requires states[i].actor.pc.Sleep? && forall k | i <= k <= j :: states[k].shared.flag
    ensures Acknowledging(states[i], states[j])
  {
    if j > i {
      StaysAcknowledging(states, steps, i, j - 1);
      RunKeepsInv(states, steps, j - 1);
      assert StepAt(states, steps, j - 1);
      StepKeepsAcknowledging(states[i], states[j - 1], steps[j - 1], states[j]);
    }
  }

  /** While the flag stays set, the first full actor cycle (one that starts with the flag set and
      ends by publishing) leaves the acknowledgement set or a fault latched. */
  lemma FirstFullCycleAnswers(states: seq<System>, steps: seq<Step>, i: nat, j: nat)
    requires Run(states, steps) && i <= j < |states| && NoReset(steps, i, j)
    requires states[i].actor.pc.Sleep? && forall k | i <= k <= j :: states[k].shared.flag
    requires |states[j].effects.published| > |states[i].effects.published|
    ensures states[j].shared.ack || states[j].actor.fan.fault
  {
    StaysAcknowledging(states, steps, i, j);
  }

  /** With a fault latched no quiesce call can return ESP_OK. */
  lemma FaultNeverAnswers(states: seq<System>, steps: seq<Step>, i: nat, q: nat)
    requires Run(states, steps) && i < |states| && states[i].actor.fan.fault
    ensures !states[i].shared.ack && !Enabled(states[i], QuiesceReturn(q))
  {
    RunKeepsInv(states, steps, i);
  }
}
