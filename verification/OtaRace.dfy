/** The exception of module `OtaSafety` is reachable: a run, from power-on, to a confirmation of the
    running image with the maintenance flag clear. */
module OtaRace {
  import FanControl
  import FanExecutions
  import FanRuns
  import FanSolo
  import opened OtaSafety

  function Lifted(steps: seq<FanControl.Step>): seq<Step> {
    if steps == [] then [] else [Fan(steps[0])] + Lifted(steps[1..])
  }

  lemma {:induction false} Lift(s: System, steps: seq<FanControl.Step>, f: FanControl.System)
    requires FanExecutions.OnlyActor(steps) && FanExecutions.Leads(s.fan, steps, f)
    ensures Leads(s, Lifted(steps), s.(fan := f))
    decreases |steps|
  {
    if steps != [] {
      var next := s.(fan := FanControl.Next(s.fan, steps[0]));
      Lift(next, steps[1..], f);
      Prepend(s, Fan(steps[0]), Lifted(steps[1..]), s.(fan := f));
    }
  }

  /** The confirmation is asked for and the flag set, with the handler about to end the maintenance. */
  const ASKED: Ota :=
    Ota(Releasing, MainWaits(CONFIRM), AwaitingAck(CONFIRM, 0), false, false, true, true, 1, 0, false, false)

  /** The main loop asks for confirmation and the worker sets the flag, while the rollback handler
      is on its way to fan_control_end_maintenance. */
  lemma AsksForConfirmation(s: System) returns (steps: seq<Step>)
    requires s == Boot(s.fan, true) && s.fan.quiescers == map[]
    ensures Leads(s, steps, System(FanControl.DoQuiesceSet(s.fan, 0), ASKED))
  {
    var s1 := Next(s, HttpGoesToRelease);
    var s2 := Next(s1, MainCalls(CONFIRM));
    var s3 := Next(s2, WorkerTakes(CONFIRM));
    var s4 := Next(s3, WorkerSetsFlag);
    Prepend(s3, WorkerSetsFlag, [], s4);
    Prepend(s2, WorkerTakes(CONFIRM), [WorkerSetsFlag], s4);
    Prepend(s1, MainCalls(CONFIRM), [WorkerTakes(CONFIRM)] + [WorkerSetsFlag], s4);
    steps := [HttpGoesToRelease] + ([MainCalls(CONFIRM)] + ([WorkerTakes(CONFIRM)] + [WorkerSetsFlag]));
    Prepend(s, HttpGoesToRelease, [MainCalls(CONFIRM)] + ([WorkerTakes(CONFIRM)] + [WorkerSetsFlag]), s4);
  }

  /** The worker is answered, and only then does the handler clear the flag. */
  lemma LosesTheFlag(s: System) returns (steps: seq<Step>, t: System)
    requires s.ota == ASKED
    requires 0 in s.fan.quiescers && s.fan.quiescers[0].Waiting? && s.fan.shared.ack
    ensures Leads(s, steps, t)
    ensures Calls(t.ota, MarkValid) && !t.fan.shared.flag
  {
    var s1 := Next(s, WorkerSeesAck);
    t := Next(s1, HttpReleases);
    Prepend(s1, HttpReleases, [], t);
    Prepend(s, WorkerSeesAck, [HttpReleases], t);
    steps := [WorkerSeesAck] + [HttpReleases];
  }

  /** From power-on with a pending image, and with no hardware failing, the system can get to the
      flash call that marks the image valid with the maintenance flag clear - so that fan commands
      are accepted again while it runs. */
  lemma ConfirmationCanLoseTheFlag() returns (s: System, steps: seq<Step>, t: System)
    ensures Initial(s) && Leads(s, steps, t)
    ensures Calls(t.ota, MarkValid) && !t.fan.shared.flag
  {
    s := Boot(FanRuns.POWER_ON, true);
    var boot, f := FanRuns.BootsUp();
    Lift(s, boot, f);
    var s1 := s.(fan := f);
    var ask := AsksForConfirmation(s1);
    var s2 := System(FanControl.DoQuiesceSet(f, 0), ASKED);
    var cycle := FanSolo.SoloCycleIsARun(s2.fan, FanRuns.NEVER);
    var g := FanSolo.SoloCycle(s2.fan, FanRuns.NEVER);
    FanRuns.CycleAcknowledges(s2.fan);
    Lift(s2, cycle, g);
    var s3 := s2.(fan := g);
    var rest;
    rest, t := LosesTheFlag(s3);
    LeadsConcat(s, Lifted(boot), s1, ask, s2);
    LeadsConcat(s, Lifted(boot) + ask, s2, Lifted(cycle), s3);
    LeadsConcat(s, Lifted(boot) + ask + Lifted(cycle), s3, rest, t);
    steps := Lifted(boot) + ask + Lifted(cycle) + rest;
  }
}
