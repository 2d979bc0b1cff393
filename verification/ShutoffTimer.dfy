/** The automatic shutoff on wrapping 32-bit ticks, against unbounded time. */
module ShutoffTimer {
  import opened Esp
  import opened FanPolicy
  import opened FanControl
  import FanRefinement
  import Quiesce

  /** The timer runs exactly when a timed mode is selected, and only for a fan that is wanted on;
      tick values are the wrapped true times. */
  ghost predicate ModeInv(s: System) {
    var f := s.actor.fan;
    && (f.active <==> f.mode != AlwaysOn)
    && (f.active ==> f.desired != OFF && !f.fault)
    && (f.active && s.actor.pc.Receive? ==> !s.actor.maintenance)
    && (s.actor.pc.ClearAck? ==> !s.actor.maintenance)
    && (FanRefinement.Booting(s.actor.pc) ==> !f.active)
  }

  ghost predicate ClockInv(s: System) {
    && s.actor.now == Wrap(s.time.nowTrue)
    && s.actor.started == Wrap(s.time.startedTrue)
    && s.time.startedTrue <= s.time.nowTrue <= s.time.clock
  }

  /** True time since the timer was started. */
  ghost function Running(s: System): nat
    requires ClockInv(s)
  {
    s.time.nowTrue - s.time.startedTrue
  }

  ghost predicate AfterLook(pc: Pc) {
    !pc.ReadFlag? && !pc.ClearAck? && !pc.Receive?
  }

  /** As long as cycles come closely enough, a timer that is still active when a cycle has looked
      at it has not run its course, and none is ever a full wrap old. */
  ghost predicate DueInv(s: System) {
    ClockInv(s) && s.time.gapsOk && s.actor.fan.active ==>
      && (AfterLook(s.actor.pc) ==> Running(s) < Duration(s.actor.fan.mode))
      && Running(s) < WORD
  }

  ghost predicate Inv(s: System) {
    ModeInv(s) && ClockInv(s) && DueInv(s)
  }

  lemma DurationsFit(mode: Mode)
    ensures mode != AlwaysOn ==> 0 < Duration(mode) < WORD
  {
  }

  /** Firing, read in true time: never early, and exact while the start is less than a wrap old. */
  lemma FiresOnTime(s: System)
    requires ClockInv(s) && s.actor.fan.active && s.actor.fan.desired != OFF
    ensures TimerFires(s.actor.fan, s.actor.now, s.actor.started) ==> Running(s) >= Duration(s.actor.fan.mode)
    ensures Running(s) < WORD ==>
              (TimerFires(s.actor.fan, s.actor.now, s.actor.started) <==> Running(s) >= Duration(s.actor.fan.mode))
  {
    SinceIsTrueTime(s.time.nowTrue, s.time.startedTrue);
  }

  lemma TakeKeepsMode(s: System)
    requires ModeInv(s) && ClockInv(s) && s.actor.pc.Receive?
    ensures ModeInv(DoTake(s)) && ClockInv(DoTake(s))
  {
  }

  lemma TakeKeepsDue(s: System)
    requires Inv(s) && s.actor.pc.Receive?
    ensures DueInv(DoTake(s))
  {
    TakeKeepsMode(s);
  }

  lemma ReceiveKeepsInv(s: System, env: Env)
    requires Inv(s) && s.actor.pc.Receive? && s.hw.todo == []
    ensures Inv(ActorStep(s, env))
  {
    var t := DoTake(s);
    TakeKeepsMode(s);
    TakeKeepsDue(s);
    if t.actor.fan.active {
      FiresOnTime(t);
    }
  }

  ghost predicate Wakes(s: System) {
    s.actor.pc.Sleep? && s.hw.todo == []
  }

  /** Nothing but waking up and taking a command touches the times. */
  lemma ActorKeepsTime(s: System, env: Env)
    requires !s.actor.pc.Receive? && !Wakes(s)
    ensures var t := ActorStep(s, env);
            t.time == s.time && t.actor.now == s.actor.now && t.actor.started == s.actor.started
  {
  }

  /** The steps that may change what the timer depends on. */
  ghost predicate Touches(pc: Pc) {
    pc.Start? || pc.ReadFlag? || pc.Receive? || pc.Writes? || pc.BootLatch?
  }

  ghost predicate SameTimer(f: Fan, g: Fan) {
    g.active == f.active && g.mode == f.mode && g.desired == f.desired && g.fault == f.fault
  }

  lemma OthersKeepTimer(s: System, env: Env)
    requires !Touches(s.actor.pc)
    ensures SameTimer(s.actor.fan, ActorStep(s, env).actor.fan)
  {
    if s.hw.todo == [] {
      match s.actor.pc
      case Decide => assert SameTimer(s.actor.fan, DoDecide(s, env.outcome).actor.fan);
      case SetAck => assert SameTimer(s.actor.fan, DoSetAck(s).actor.fan);
      case _ =>
    }
  }

  lemma OthersKeepPlace(s: System, env: Env)
    requires ModeInv(s) && !Touches(s.actor.pc)
    ensures var t := ActorStep(s, env);
            && t.actor.maintenance == s.actor.maintenance && (t.actor.pc.ClearAck? ==> s.actor.pc.ClearAck?)
            && (t.actor.pc.Receive? ==> s.actor.pc.ClearAck?)
            && (AfterLook(t.actor.pc) ==> AfterLook(s.actor.pc))
            && (FanRefinement.Booting(t.actor.pc) ==> FanRefinement.Booting(s.actor.pc))
  {
  }

  /** Nothing but taking a command starts the timer or changes a running one. */
  lemma TouchKeepsInv(s: System, env: Env)
    requires Inv(s) && Touches(s.actor.pc) && !s.actor.pc.Receive?
    ensures Inv(ActorStep(s, env))
  {
    ActorKeepsTime(s, env);
  }

  lemma WakeKeepsInv(s: System)
    requires Inv(s) && s.actor.pc.Sleep?
    ensures Inv(DoWake(s))
  {
    DurationsFit(s.actor.fan.mode);
  }

  lemma ActorKeepsInv(s: System, env: Env)
    requires Inv(s) && !s.actor.pc.Receive?
    ensures Inv(ActorStep(s, env))
  {
    if Wakes(s) {
      WakeKeepsInv(s);
    } else if Touches(s.actor.pc) {
      TouchKeepsInv(s, env);
    } else {
      ActorKeepsTime(s, env);
      OthersKeepTimer(s, env);
      OthersKeepPlace(s, env);
    }
  }

  lemma StepKeepsInv(s: System, step: Step)
    requires Inv(s) && Enabled(s, step) && (s.hw.todo != [] ==> !s.actor.pc.Receive?)
    ensures Inv(Next(s, step))
  {
    if step.ActorRuns? {
      if s.actor.pc.Receive? {
        ReceiveKeepsInv(s, step.env);
      } else {
        ActorKeepsInv(s, step.env);
      }
    }
  }

  lemma {:induction false} RunKeepsInv(states: seq<System>, steps: seq<Step>, i: nat)
    requires Run(states, steps) && i < |states|
    ensures Inv(states[i])
  {
    if i > 0 {
      RunKeepsInv(states, steps, i - 1);
      Quiesce.RunKeepsInv(states, steps, i - 1);
      assert StepAt(states, steps, i - 1);
      StepKeepsInv(states[i - 1], steps[i - 1]);
    }
  }

  // --- The theorems ---------------------------------------------------------------------------------

  /** In every reachable state the timer is active exactly when the mode is not always-on, and an
      active timer means the fan is wanted on. */
  lemma TimerMeansOn(states: seq<System>, steps: seq<Step>, i: nat)
    requires Run(states, steps) && i < |states|
    ensures var f := states[i].actor.fan; (f.active <==> f.mode != AlwaysOn) && (f.active ==> f.desired != OFF)
  {
    RunKeepsInv(states, steps, i);
  }

  /** A cycle in which the timer turns the fan off comes no sooner than its full duration of true
      time after the timer was started, however often the tick counter wrapped. */
  lemma NeverEarly(states: seq<System>, steps: seq<Step>, i: nat)
    requires Run(states, steps) && i < |states| && states[i].actor.pc.Receive?
    requires var t := DoTake(states[i]); TimerFires(t.actor.fan, t.actor.now, t.actor.started)
    ensures var t := DoTake(states[i]);
            t.time.nowTrue - t.time.startedTrue >= Duration(t.actor.fan.mode)
  {
    RunKeepsInv(states, steps, i);
    TakeKeepsMode(states[i]);
    FiresOnTime(DoTake(states[i]));
  }

  /** And never late: if since the timer was started the gaps between cycles have all been less than
      2^32 ticks minus its duration, the first cycle that looks at an expired timer turns the fan off, and no
      cycle ends with one still running. */
  lemma NeverLate(states: seq<System>, steps: seq<Step>, i: nat)
    requires Run(states, steps) && i < |states| && states[i].time.gapsOk && states[i].actor.fan.active
    ensures AfterLook(states[i].actor.pc) ==>
              states[i].time.nowTrue - states[i].time.startedTrue < Duration(states[i].actor.fan.mode)
    ensures states[i].actor.pc.Receive? && states[i].shared.mailbox.None? && states[i].hw.todo == []
            && states[i].time.nowTrue - states[i].time.startedTrue >= Duration(states[i].actor.fan.mode) ==>
              var f := DoReceive(states[i]).actor.fan; f.desired == OFF && f.source == TIMER && !f.active
  {
    RunKeepsInv(states, steps, i);
    FiresOnTime(states[i]);
  }
}
