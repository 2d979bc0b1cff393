/** Particular runs of the fan system from power-on: one that shows that the acknowledgement bit can
    be stale, and one that shows how a latched fault can be lost. */
module FanRuns {
  import opened Esp
  import opened FanPolicy
  import opened FanExecutions
  import FanControl
  import FanRefinement
  import FanSolo
  import FanTransition
  import FaultLatch
  import FaultRecord
  import Hc238
  import Quiesce

  const POWER_ON: FanControl.System := FanControl.Reboot(FaultRecord.CLEARED, false, false, FanControl.ResetPads())

  /** A warm reset that clears the pads. */
  const WARM: FanControl.Step := FanControl.Reset(false, FanControl.ResetPads())

  lemma WarmIsEnabled(s: FanControl.System)
    ensures FanControl.Enabled(s, WARM)
  {
    assert FanTransition.BOARD[Hc238.E3].gpio == 16;
  }

  /** A boot in which no GPIO write fails. */
  const NEVER: nat -> bool := (n: nat) => false

  // --- The fan boots --------------------------------------------------------------------------------

  /** Nobody has asked for anything, the fan is off, and nothing has failed. */
  ghost predicate Fresh(s: FanControl.System) {
    && s.shared == FanControl.Shared(false, false, None, 0, 0, 0) && s.quiescers == map[]
    && !s.actor.fan.fault && s.actor.fan.applied == OFF && s.actor.fan.desired == OFF
    && FanRefinement.GoodBoard(s.hw.board)
  }

  lemma Start(s: FanControl.System, env: FanControl.Env)
    requires Fresh(s) && s.actor.pc.Start? && s.hw.todo == [] && s.hw.rtc == FaultRecord.CLEARED
    requires env.initErr == OK && FanRefinement.GoodBoard(env.init) && |s.hw.board.log| <= |env.init.log|
    ensures var t := FanControl.ActorStep(s, env);
            Fresh(t) && t.actor.pc == FanControl.InitWrites(OK) && t.hw.board == env.init
  {
  }

  lemma EndInit(s: FanControl.System, env: FanControl.Env)
    requires Fresh(s) && s.actor.pc == FanControl.InitWrites(OK) && s.hw.todo == []
    requires env.outcome.err == OK && FanRefinement.GoodBoard(env.outcome.board)
        && |s.hw.board.log| <= |env.outcome.board.log|
    ensures var t := FanControl.ActorStep(s, env);
            Fresh(t) && t.actor.pc == FanControl.OffWrites(OK, env.outcome.phase) && t.actor.initResult == OK
  {
  }

  lemma Publish(s: FanControl.System, env: FanControl.Env)
    requires Fresh(s) && s.actor.pc.BootPublish? && s.hw.todo == [] && s.actor.initResult == OK && env.watchdogOk
    ensures var t := FanControl.ActorStep(s, env); Fresh(t) && t.actor.pc.Sleep? && t.hw.todo == []
  {
  }

  lemma Drained(s: FanControl.System)
    requires Fresh(s)
    ensures var t := FanSolo.Drain(s);
            && Fresh(t) && t.actor == s.actor && t.hw.todo == []
            && t.hw.board == s.hw.board && t.hw.rtc == s.hw.rtc
  {
    FanSolo.DrainKeeps(s);
  }

  lemma NaturesInit(s: FanControl.System)
    requires FanRefinement.GoodBoard(s.hw.board)
    ensures var env := FanSolo.Nature(s, NEVER);
            && env.initErr == OK && FanRefinement.GoodBoard(env.init) && |s.hw.board.log| <= |env.init.log|
              && env.init.initialized
  {
    FanControl.BoardIsValid();
    Hc238.InitWorks(s.hw.board, FanControl.OUTPUTS, NEVER);
    FanRefinement.InitShows(s.hw.board, NEVER);
  }

  lemma NaturesOff(s: FanControl.System)
    requires FanRefinement.GoodBoard(s.hw.board) && s.hw.board.initialized && !s.actor.pc.Decide?
    ensures var o := FanSolo.Nature(s, NEVER).outcome;
            o.err == OK && FanRefinement.GoodBoard(o.board) && |s.hw.board.log| <= |o.board.log|
  {
    FanTransition.TransitionWorks(s.hw.board, NEVER, true, FanTransition.OutputMap(OFF));
    FanRefinement.TransitionMoves(s.hw.board, NEVER, OFF);
  }

  lemma BootsUp() returns (steps: seq<FanControl.Step>, t: FanControl.System)
    ensures OnlyActor(steps) && Leads(POWER_ON, steps, t)
    ensures Fresh(t) && t.actor.pc.Sleep? && t.hw.todo == []
  {
    var s0 := POWER_ON;
    FanRefinement.RebootInv(FaultRecord.CLEARED, false, false, FanControl.ResetPads());
    NaturesInit(s0);
    Start(s0, FanSolo.Nature(s0, NEVER));
    var s1 := FanControl.ActorStep(s0, FanSolo.Nature(s0, NEVER));
    var s2 := FanSolo.Drain(s1);
    Drained(s1);
    NaturesOff(s2);
    EndInit(s2, FanSolo.Nature(s2, NEVER));
    var s3 := FanControl.ActorStep(s2, FanSolo.Nature(s2, NEVER));
    var s4 := FanSolo.Drain(s3);
    Drained(s3);
    var rest := FinishBoot(s4);
    t := rest.1;
    steps := FanSolo.DrainIsSteps(s3, NEVER);
    steps := Chain(s3, steps, s4, rest.0, t);
    steps := FanSolo.Prepend(s2, NEVER, s3, steps, t);
    var first := FanSolo.DrainIsSteps(s1, NEVER);
    steps := Chain(s1, first, s2, steps, t);
    steps := FanSolo.Prepend(s0, NEVER, s1, steps, t);
  }

  lemma FinishBoot(s: FanControl.System) returns (r: (seq<FanControl.Step>, FanControl.System))
    requires Fresh(s) && s.hw.todo == [] && s.actor.pc.OffWrites? && s.actor.pc.err == OK && s.actor.initResult == OK
    ensures OnlyActor(r.0) && Leads(s, r.0, r.1)
    ensures Fresh(r.1) && r.1.actor.pc.Sleep? && r.1.hw.todo == []
  {
    var s1 := FanControl.At(s, FanControl.BootPublish);
    assert FanControl.ActorStep(s, FanSolo.Nature(s, NEVER)) == s1;
    Publish(s1, FanSolo.Nature(s1, NEVER));
    var t := FanControl.ActorStep(s1, FanSolo.Nature(s1, NEVER));
    var steps := FanSolo.Prepend(s1, NEVER, t, [], t);
    steps := FanSolo.Prepend(s, NEVER, s1, steps, t);
    r := (steps, t);
  }

  // --- A cycle under the flag -------------------------------------------------------------------------

  /** An undisturbed cycle of a fan that is off acknowledges the flag. */
  lemma CycleAcknowledges(s: FanControl.System)
    requires s.actor.pc.Sleep? && s.hw.todo == [] && s.shared.flag && !s.actor.fan.fault && s.actor.fan.applied == OFF
    ensures var t := FanSolo.SoloCycle(s, NEVER);
            t.shared.ack && t.shared.flag && t.quiescers == s.quiescers
  {
    var r := FanSolo.SoloReceive(s);
    ReceivesNothing(s);
    var d := FanSolo.SoloDecide(r, NEVER);
    DecidesNothing(r, FanTransition.Transition(r.hw.board, NEVER, r.actor.fan.desired));
    assert FanSolo.SoloWrites(d) == d;
  }

  lemma ReceivesNothing(s: FanControl.System)
    requires s.actor.pc.Sleep? && s.hw.todo == [] && s.shared.flag && !s.actor.fan.fault && s.actor.fan.applied == OFF
    ensures var r := FanSolo.SoloReceive(s);
            && r.actor.pc.Decide? && r.hw == s.hw && r.shared == s.shared && r.quiescers == s.quiescers
            && r.actor.maintenance && !r.actor.fan.fault && r.actor.fan.applied == OFF && r.actor.fan.desired == OFF
  {
  }

  lemma DecidesNothing(r: FanControl.System, o: FanTransition.Outcome)
    requires !r.actor.fan.fault && r.actor.fan.applied == OFF && r.actor.fan.desired == OFF
    ensures var d := FanControl.DoDecide(r, o);
            && d.actor.pc.SetAck? && d.hw == r.hw && d.shared == r.shared && d.quiescers == r.quiescers
            && d.actor.maintenance == r.actor.maintenance && !d.actor.fan.fault && d.actor.fan.applied == OFF
  {
  }

  /** From rest a quiescer sets the flag and the actor acknowledges it. */
  lemma FlagIsAcknowledged(f: FanControl.System) returns (steps: seq<FanControl.Step>, t: FanControl.System)
    requires Fresh(f) && f.actor.pc.Sleep? && f.hw.todo == []
    ensures Leads(f, steps, t) && t.shared.ack && t.quiescers.Keys == {0}
  {
    var g := FanControl.DoQuiesceSet(f, 0);
    assert g.quiescers.Keys == {0};
    var cycle := FanSolo.SoloCycleIsARun(g, NEVER);
    CycleAcknowledges(g);
    t := FanSolo.SoloCycle(g, NEVER);
    var sets := FanControl.QuiesceSet(0);
    assert FanControl.Enabled(f, sets) && FanControl.Next(f, sets) == g;
    steps := [sets] + cycle;
    assert steps[1..] == cycle;
  }

  /** The bit is set, and nothing has cleared it. */
  lemma QuiescesOnce() returns (states: seq<FanControl.System>, steps: seq<FanControl.Step>)
    ensures FanControl.Run(states, steps)
    ensures states[|steps|].shared.ack && states[|steps|].quiescers.Keys == {0}
  {
    var s := POWER_ON;
    var boot, f := BootsUp();
    var more, t := FlagIsAcknowledged(f);
    LeadsConcat(s, boot, f, more, t);
    states := Extend([s], [], boot + more, t);
    steps := [] + (boot + more);
  }

  lemma TakeStep(states: seq<FanControl.System>, steps: seq<FanControl.Step>, step: FanControl.Step)
      returns (all: seq<FanControl.System>)
    requires FanControl.Run(states, steps) && FanControl.Enabled(states[|steps|], step)
    ensures FanControl.Run(all, steps + [step]) && |all| == |states| + 1 && all[..|states|] == states
    ensures all[|steps| + 1] == FanControl.Next(states[|steps|], step)
  {
    var more, t := [step], FanControl.Next(states[|steps|], step);
    assert Leads(FanControl.Next(states[|steps|], more[0]), more[1..], t);
    all := Extend(states, steps, more, t);
  }

  /** The acknowledgement bit can be stale: in this run a second fan_control_quiesce sets the flag
      and returns ESP_OK, and the actor takes no step from before the flag was set until after. */
  lemma StaleAckCanAnswer() returns (states: seq<FanControl.System>, steps: seq<FanControl.Step>)
    ensures FanControl.Run(states, steps) && |steps| >= 3
    ensures steps[|steps| - 3..] == [FanControl.EndMaintenance, FanControl.QuiesceSet(1), FanControl.QuiesceReturn(1)]
    ensures Quiesce.Current(states[|steps|], 1) && states[|steps|].quiescers[1].Holding?
  {
    states, steps := QuiescesOnce();
    states := TakeStep(states, steps, FanControl.EndMaintenance);
    steps := steps + [FanControl.EndMaintenance];
    assert 1 !in states[|steps|].quiescers.Keys;
    states := TakeStep(states, steps, FanControl.QuiesceSet(1));
    steps := steps + [FanControl.QuiesceSet(1)];
    states := TakeStep(states, steps, FanControl.QuiesceReturn(1));
    steps := steps + [FanControl.QuiesceReturn(1)];
  }

  // --- A lost fault ---------------------------------------------------------------------------------

  /** A boot in which every GPIO write fails. */
  const ALWAYS: nat -> bool := (n: nat) => true

  lemma InitFails(b: Hc238.Board)
    requires b.cfg == FanTransition.BOARD
    ensures Hc238.Init(b, FanControl.OUTPUTS, ALWAYS).1 == FAIL
  {
    FanControl.BoardIsValid();
    var r0 := Hc238.Run(b.(initialized := false), true);
    assert !Hc238.Put(r0, ALWAYS, Hc238.E3, false).ok;
  }

  ghost predicate AtReset(s: FanControl.System) {
    s.actor.pc.Start? && s.hw.todo == [] && FanRefinement.GoodBoard(s.hw.board)
  }

  lemma ResetIsAtReset(s: FanControl.System)
    ensures FanControl.Enabled(s, WARM) && AtReset(FanControl.Next(s, WARM))
  {
    WarmIsEnabled(s);
    var t := FanControl.Next(s, WARM);
    FanRefinement.RebootInv(t.hw.rtc, t.life.latched, t.life.torn, WARM.pads);
  }

  lemma StartFails(s: FanControl.System)
    requires AtReset(s)
    ensures var t := FanControl.ActorStep(s, FanSolo.Nature(s, ALWAYS)); t.actor.pc == FanControl.InitWrites(FAIL)
  {
    FanRefinement.InitShows(s.hw.board, ALWAYS);
    InitFails(s.hw.board);
  }

  /** Such a boot comes to diagnostics_latch_fan_fault. */
  lemma BootFails(s: FanControl.System) returns (steps: seq<FanControl.Step>, t: FanControl.System)
    requires AtReset(s)
    ensures OnlyActor(steps) && Leads(s, steps, t)
    ensures t.actor.pc.BootLatch? && t.actor.pc.stores == 0 && t.hw.todo == []
  {
    StartFails(s);
    var s1 := FanControl.ActorStep(s, FanSolo.Nature(s, ALWAYS));
    var s2 := FanSolo.Drain(s1);
    var drain := FanSolo.DrainIsSteps(s1, ALWAYS);
    t := FanControl.At(s2, FanControl.BootLatch(0, FanControl.Cause(FAIL, FanTransition.DISABLE)));
    assert FanControl.ActorStep(s2, FanSolo.Nature(s2, ALWAYS)) == t;
    steps := FanSolo.Prepend(s2, ALWAYS, t, [], t);
    steps := Chain(s1, drain, s2, steps, t);
    steps := FanSolo.Prepend(s, ALWAYS, s1, steps, t);
  }

  /** And makes its stores. */
  lemma {:induction false} LatchesAll(s: FanControl.System) returns (steps: seq<FanControl.Step>, t: FanControl.System)
    requires s.actor.pc.BootLatch? && s.actor.pc.stores <= FaultRecord.STORES && s.hw.todo == []
    ensures OnlyActor(steps) && Leads(s, steps, t) && t.actor.pc.BootLatch? && FaultLatch.Returning(t)
    decreases FaultRecord.STORES - s.actor.pc.stores
  {
    if s.actor.pc.stores == FaultRecord.STORES {
      steps, t := [], s;
    } else {
      var next := FanControl.DoBootLatch(s, s.actor.pc.stores, s.actor.pc.cause);
      assert FanControl.ActorStep(s, FanSolo.Nature(s, ALWAYS)) == next;
      steps, t := LatchesAll(next);
      steps := FanSolo.Prepend(s, ALWAYS, next, steps, t);
    }
  }

  lemma LatchStep(s: FanControl.System)
    requires s.actor.pc.BootLatch? && s.actor.pc.stores <= FaultRecord.STORES && s.hw.todo == []
    ensures var t := FanControl.ActorStep(s, FanSolo.Nature(s, ALWAYS));
            t.actor.pc == if s.actor.pc.stores == FaultRecord.STORES then FanControl.BootPublish
                          else FanControl.BootLatch(s.actor.pc.stores + 1, s.actor.pc.cause)
  {
  }

  /** From power-on to the return of a latching, and a warm reset. */
  lemma LatchesOnce() returns (states: seq<FanControl.System>, steps: seq<FanControl.Step>, a: nat)
    ensures FanControl.Run(states, steps) && |steps| == a + 2
    ensures FaultLatch.Returning(states[a]) && steps[a].ActorRuns? && states[a + 1].actor.pc.BootPublish?
    ensures steps[a + 1] == WARM && AtReset(states[|steps|])
  {
    var s := POWER_ON;
    FanRefinement.RebootInv(FaultRecord.CLEARED, false, false, FanControl.ResetPads());
    var boot, b := BootFails(s);
    var latch, t := LatchesAll(b);
    steps := Chain(s, boot, b, latch, t);
    states := Extend([s], [], steps, t);
    steps := [] + steps;
    a := |steps|;
    var finish := FanControl.ActorRuns(FanSolo.Nature(t, ALWAYS));
    LatchStep(t);
    states := TakeStep(states, steps, finish);
    steps := steps + [finish];
    ResetIsAtReset(states[|steps|]);
    states := TakeStep(states, steps, WARM);
    steps := steps + [WARM];
  }

  /** The next boot gets no further than the first store of its latching. */
  lemma StartsToLatch(s: FanControl.System) returns (steps: seq<FanControl.Step>, t: FanControl.System)
    requires AtReset(s)
    ensures OnlyActor(steps) && Leads(s, steps, t) && FanControl.MidLatch(t.actor.pc)
  {
    var boot, b := BootFails(s);
    LatchStep(b);
    t := FanControl.ActorStep(b, FanSolo.Nature(b, ALWAYS));
    var store := FanSolo.Prepend(b, ALWAYS, t, [], t);
    steps := Chain(s, boot, b, store, t);
  }

  lemma Kept(all: seq<FanControl.System>, first: seq<FanControl.System>, k: nat)
    requires k < |first| <= |all| && all[..|first|] == first
    ensures all[k] == first[k]
  {
    assert all[k] == all[..|first|][k];
  }

  /** A second latching in the next boot, cut by a warm reset after its first store. */
  lemma LatchIsTorn() returns (states: seq<FanControl.System>, steps: seq<FanControl.Step>, a: nat)
    ensures FanControl.Run(states, steps) && a + 2 < |steps|
    ensures FaultLatch.Returning(states[a]) && steps[a].ActorRuns? && states[a + 1].actor.pc.BootPublish?
    ensures steps[a + 1] == WARM && steps[|steps| - 1] == WARM
    ensures forall k | a + 1 < k < |steps| - 1 :: steps[k].ActorRuns?
    ensures FanControl.MidLatch(states[|steps| - 1].actor.pc) && AtReset(states[|steps|])
  {
    var first, begun;
    first, begun, a := LatchesOnce();
    var more, t := StartsToLatch(first[|begun|]);
    assert more != [];
    ResetIsAtReset(t);
    states, steps := Continue(first, begun, more, t);
    var last := WARM;
    var all := TakeStep(states, steps, last);
    Kept(all, states, a);
    Kept(all, states, a + 1);
    Kept(all, states, |steps|);
    states, steps := all, steps + [last];
  }

  lemma Continue(first: seq<FanControl.System>, begun: seq<FanControl.Step>, more: seq<FanControl.Step>,
        t: FanControl.System)
      returns (states: seq<FanControl.System>, steps: seq<FanControl.Step>)
    requires FanControl.Run(first, begun) && Leads(first[|begun|], more, t)
    ensures FanControl.Run(states, steps) && steps == begun + more && states[|steps|] == t
    ensures forall k | 0 <= k < |first| :: states[k] == first[k]
  {
    states := Extend(first, begun, more, t);
    steps := begun + more;
    assert forall k | 0 <= k < |first| :: states[k] == states[..|first|][k];
  }

  /** One more step of the actor, its first since a reset. */
  lemma LooksAtRecord(first: seq<FanControl.System>, begun: seq<FanControl.Step>)
      returns (states: seq<FanControl.System>, steps: seq<FanControl.Step>)
    requires FanControl.Run(first, begun) && AtReset(first[|begun|])
    ensures FanControl.Run(states, steps) && |steps| == |begun| + 1 && steps[..|begun|] == begun
    ensures states[..|first|] == first && steps[|begun|].ActorRuns? && !states[|steps|].actor.pc.Start?
  {
    var t := first[|begun|];
    StartFails(t);
    var look := FanControl.ActorRuns(FanSolo.Nature(t, ALWAYS));
    states := TakeStep(first, begun, look);
    steps := begun + [look];
  }

  /** The actor's first look after such a reset finds no fault. */
  lemma TearLosesFault(states: seq<FanControl.System>, steps: seq<FanControl.Step>, a: nat, i: nat)
    requires FanControl.Run(states, steps) && a + 1 < i && |steps| == i + 2
    requires FaultLatch.Returning(states[a]) && steps[a].ActorRuns? && states[a + 1].actor.pc.BootPublish?
    requires steps[a + 1] == WARM && (forall k | a + 1 < k < i :: steps[k].ActorRuns?)
    requires steps[i] == WARM && FanControl.MidLatch(states[i].actor.pc) && steps[i + 1].ActorRuns?
    ensures !states[i + 2].actor.fan.fault
    ensures forall k | a < k < |steps| && steps[k].Reset? :: !steps[k].powerOn
  {
    FaultLatch.FaultOutlivesResets(states, steps, a, i);
    FaultLatch.LatchEndsOnlyByPowerOnOrTear(states, steps, i, i + 1);
  }

  /** A latched fault can be lost without a power-on reset: in this run a latching returns, only warm
      resets follow, and the actor begins a boot with no fault. */
  lemma TornLatchIsLost() returns (states: seq<FanControl.System>, steps: seq<FanControl.Step>, a: nat)
    ensures FanControl.Run(states, steps) && a < |steps|
    ensures FaultLatch.Returning(states[a]) && steps[a].ActorRuns?
    ensures forall k | a < k < |steps| && steps[k].Reset? :: !steps[k].powerOn
    ensures !states[|steps|].actor.pc.Start? && !states[|steps|].actor.fan.fault
  {
    var torn, begun;
    torn, begun, a := LatchIsTorn();
    states, steps := LooksAtRecord(torn, begun);
    Kept(states, torn, a);
    Kept(states, torn, a + 1);
    Kept(states, torn, |begun| - 1);
    assert forall k | 0 <= k < |begun| :: steps[k] == steps[..|begun|][k];
    TearLosesFault(states, steps, a, |begun| - 1);
  }
}
