/** The fan actor undisturbed: a cycle, and a boot, as functions of the system and as executions of
    its steps. */
module FanSolo {
  import opened Esp
  import opened FanPolicy
  import opened FaultRecord
  import opened FanControl
  import opened FanExecutions
  import FanRefinement
  import FanTransition
  import Hc238

  // --- One cycle without interference, in the system's steps ----------------------------------

  function Drain(s: System): System
    decreases |s.hw.todo|
  {
    if s.hw.todo == [] then s else Drain(DoPinWrite(s))
  }

  function LatchAll(s: System): System
    decreases if s.actor.pc.Latch? then STORES + 1 - s.actor.pc.stores else 0
  {
    if s.actor.pc.Latch? then
      if s.actor.pc.stores <= STORES then LatchAll(DoLatch(s, s.actor.pc.stores, s.actor.pc.cause)) else s
    else s
  }

  function SoloReceive(s: System): System {
    var t := DoReadFlag(DoWake(s));
    DoReceive(if t.actor.pc.ClearAck? then DoClearAck(t) else t)
  }

  function SoloWrites(s: System): System {
    var t := Drain(s);
    LatchAll(if t.actor.pc.Writes? then DoEndWrites(t, t.actor.pc.err, t.actor.pc.phase) else t)
  }

  function SoloCycle(s: System, fails: nat -> bool): System {
    var t := SoloReceive(s);
    DoPublish(DoSetAck(SoloWrites(SoloDecide(t, fails))))
  }

  /** The environment that lets an actor step go as `fails` says. */
  function Nature(s: System, fails: nat -> bool): (env: Env)
    ensures Legit(s, env) && env.fails == fails
  {
    var (init, err) := Hc238.Init(s.hw.board, OUTPUTS, fails);
    var speed := if s.actor.pc.Decide? then s.actor.fan.desired else OFF;
    Env(fails, init, err, FanTransition.Transition(s.hw.board, fails, speed), true)
  }

  lemma OneStep(s: System, fails: nat -> bool)
    ensures Leads(s, [ActorRuns(Nature(s, fails))], ActorStep(s, Nature(s, fails)))
  {
    var steps := [ActorRuns(Nature(s, fails))];
    assert Leads(Next(s, steps[0]), steps[1..], ActorStep(s, Nature(s, fails)));
  }

  lemma {:induction false} DrainIsSteps(s: System, fails: nat -> bool) returns (steps: seq<Step>)
    ensures OnlyActor(steps) && Leads(s, steps, Drain(s))
    ensures Drain(s).actor == s.actor && Drain(s).hw.todo == []
    decreases |s.hw.todo|
  {
    if s.hw.todo == [] {
      steps := [];
    } else {
      OneStep(s, fails);
      var rest := DrainIsSteps(DoPinWrite(s), fails);
      var first := [ActorRuns(Nature(s, fails))];
      LeadsConcat(s, first, DoPinWrite(s), rest, Drain(s));
      steps := first + rest;
    }
  }

  lemma {:induction false} LatchAllIsSteps(s: System, fails: nat -> bool) returns (steps: seq<Step>)
    requires s.hw.todo == [] && (s.actor.pc.Latch? ==> s.actor.pc.stores <= STORES)
    ensures OnlyActor(steps) && Leads(s, steps, LatchAll(s))
    ensures LatchAll(s).hw.todo == [] && (s.actor.pc.Latch? ==> LatchAll(s).actor.pc == SetAck)
        && (!s.actor.pc.Latch? ==> LatchAll(s) == s)
    decreases if s.actor.pc.Latch? then STORES + 1 - s.actor.pc.stores else 0
  {
    if s.actor.pc.Latch? {
      OneStep(s, fails);
      var t := DoLatch(s, s.actor.pc.stores, s.actor.pc.cause);
      assert ActorStep(s, Nature(s, fails)) == t;
      var rest := LatchAllIsSteps(t, fails);
      var first := [ActorRuns(Nature(s, fails))];
      LeadsConcat(s, first, t, rest, LatchAll(s));
      steps := first + rest;
    } else {
      steps := [];
    }
  }

  lemma Prepend(s: System, fails: nat -> bool, t: System, rest: seq<Step>, u: System) returns (steps: seq<Step>)
    requires ActorStep(s, Nature(s, fails)) == t && OnlyActor(rest) && Leads(t, rest, u)
    ensures OnlyActor(steps) && Leads(s, steps, u)
  {
    OneStep(s, fails);
    LeadsConcat(s, [ActorRuns(Nature(s, fails))], t, rest, u);
    steps := [ActorRuns(Nature(s, fails))] + rest;
  }

  lemma ReceiveEnds(s: System)
    ensures DoReceive(s).actor.pc == Decide && DoReceive(s).hw == s.hw
  {
  }

  lemma WakeStep(s: System, env: Env)
    requires s.actor.pc.Sleep? && s.hw.todo == []
    ensures ActorStep(s, env) == DoWake(s) && DoWake(s).actor.pc.ReadFlag? && DoWake(s).hw == s.hw
  {
  }

  lemma FlagStep(s: System, env: Env)
    requires s.actor.pc.ReadFlag? && s.hw.todo == []
    ensures var r := DoReadFlag(s);
            ActorStep(s, env) == r && (r.actor.pc.ClearAck? || r.actor.pc.Receive?) && r.hw == s.hw
  {
  }

  lemma ClearStep(s: System, env: Env)
    requires s.actor.pc.ClearAck? && s.hw.todo == []
    ensures ActorStep(s, env) == DoClearAck(s) && DoClearAck(s).actor.pc.Receive? && DoClearAck(s).hw == s.hw
  {
  }

  lemma ReceiveStep(s: System, env: Env)
    requires s.actor.pc.Receive? && s.hw.todo == []
    ensures ActorStep(s, env) == DoReceive(s)
  {
  }

  lemma FromFlagIsSteps(w: System, fails: nat -> bool) returns (steps: seq<Step>)
    requires w.actor.pc.ReadFlag? && w.hw.todo == []
    ensures var r := DoReadFlag(w); var t := DoReceive(if r.actor.pc.ClearAck? then DoClearAck(r) else r);
            OnlyActor(steps) && Leads(w, steps, t) && t.actor.pc == Decide && t.hw == w.hw
  {
    var r := DoReadFlag(w);
    FlagStep(w, Nature(w, fails));
    var c := if r.actor.pc.ClearAck? then DoClearAck(r) else r;
    if r.actor.pc.ClearAck? {
      ClearStep(r, Nature(r, fails));
    }
    ReceiveEnds(c);
    ReceiveStep(c, Nature(c, fails));
    steps := Prepend(c, fails, DoReceive(c), [], DoReceive(c));
    if r.actor.pc.ClearAck? {
      steps := Prepend(r, fails, c, steps, DoReceive(c));
    }
    steps := Prepend(w, fails, r, steps, DoReceive(c));
  }

  lemma SoloReceiveIsSteps(s: System, fails: nat -> bool) returns (steps: seq<Step>)
    requires s.actor.pc.Sleep? && s.hw.todo == []
    ensures OnlyActor(steps) && Leads(s, steps, SoloReceive(s))
    ensures SoloReceive(s).actor.pc == Decide && SoloReceive(s).hw == s.hw
  {
    var w := DoWake(s);
    WakeStep(s, Nature(s, fails));
    steps := FromFlagIsSteps(w, fails);
    steps := Prepend(s, fails, w, steps, SoloReceive(s));
  }

  /** Begins by writing pins, latching or acknowledging. */
  ghost predicate Deciding(pc: Pc) {
    pc.Writes? || pc.SetAck?
  }

  lemma SoloWritesIsSteps(s: System, fails: nat -> bool) returns (steps: seq<Step>)
    requires Deciding(s.actor.pc)
    ensures OnlyActor(steps) && Leads(s, steps, SoloWrites(s))
    ensures SoloWrites(s).actor.pc == SetAck && SoloWrites(s).hw.todo == []
  {
    var t := Drain(s);
    steps := DrainIsSteps(s, fails);
    if t.actor.pc.Writes? {
      var u := DoEndWrites(t, t.actor.pc.err, t.actor.pc.phase);
      var rest := LatchAllIsSteps(u, fails);
      rest := Prepend(t, fails, u, rest, SoloWrites(s));
      LeadsConcat(s, steps, t, rest, SoloWrites(s));
      steps := steps + rest;
    } else {
      var rest := LatchAllIsSteps(t, fails);
      LeadsConcat(s, steps, t, rest, SoloWrites(s));
      steps := steps + rest;
    }
  }

  lemma SoloTailIsSteps(s: System, fails: nat -> bool) returns (steps: seq<Step>)
    requires s.actor.pc.SetAck? && s.hw.todo == []
    ensures OnlyActor(steps) && Leads(s, steps, DoPublish(DoSetAck(s)))
  {
    var a := DoSetAck(s);
    steps := Prepend(a, fails, DoPublish(a), [], DoPublish(a));
    steps := Prepend(s, fails, a, steps, DoPublish(a));
  }

  function SoloDecide(s: System, fails: nat -> bool): System {
    DoDecide(s, FanTransition.Transition(s.hw.board, fails, s.actor.fan.desired))
  }

  lemma DecideEnds(s: System, o: FanTransition.Outcome)
    requires s.actor.pc.Decide? && s.hw.todo == [] && |s.hw.board.log| <= |o.board.log|
    ensures Deciding(DoDecide(s, o).actor.pc) && (DoDecide(s, o).actor.pc.SetAck? ==> DoDecide(s, o).hw.todo == [])
  {
  }

  lemma DecideStep(s: System, env: Env)
    requires s.actor.pc.Decide? && s.hw.todo == []
    ensures ActorStep(s, env) == DoDecide(s, env.outcome)
  {
  }

  lemma SoloDecideIsStep(s: System, fails: nat -> bool)
    requires s.actor.pc.Decide? && s.hw.todo == [] && FanRefinement.GoodBoard(s.hw.board)
    ensures ActorStep(s, Nature(s, fails)) == SoloDecide(s, fails) && Deciding(SoloDecide(s, fails).actor.pc)
    ensures SoloDecide(s, fails).actor.pc.SetAck? ==> SoloDecide(s, fails).hw.todo == []
  {
    FanRefinement.TransitionMoves(s.hw.board, fails, s.actor.fan.desired);
    DecideEnds(s, FanTransition.Transition(s.hw.board, fails, s.actor.fan.desired));
    DecideStep(s, Nature(s, fails));
  }

  /** An undisturbed cycle is an execution of the actor's own steps. */
  lemma SoloCycleIsARun(s: System, fails: nat -> bool) returns (steps: seq<Step>)
    requires s.actor.pc.Sleep? && s.hw.todo == [] && FanRefinement.GoodBoard(s.hw.board)
    ensures OnlyActor(steps) && Leads(s, steps, SoloCycle(s, fails))
  {
    var t := SoloReceive(s);
    steps := SoloReceiveIsSteps(s, fails);
    SoloDecideIsStep(t, fails);
    var u := SoloDecide(t, fails);
    var rest := SoloWritesIsSteps(u, fails);
    var tail := SoloTailIsSteps(SoloWrites(u), fails);
    rest := Chain(u, rest, SoloWrites(u), tail, SoloCycle(s, fails));
    rest := Prepend(t, fails, u, rest, SoloCycle(s, fails));
    steps := Chain(s, steps, t, rest, SoloCycle(s, fails));
  }

  // --- Booting, in the system's steps --------------------------------------------------------------

  function BootLatchAll(s: System): System
    decreases if s.actor.pc.BootLatch? then STORES + 1 - s.actor.pc.stores else 0
  {
    if s.actor.pc.BootLatch? && s.actor.pc.stores <= STORES then
      BootLatchAll(DoBootLatch(s, s.actor.pc.stores, s.actor.pc.cause))
    else s
  }

  function SoloInit(s: System, fails: nat -> bool): System {
    var (board, err) := Hc238.Init(s.hw.board, OUTPUTS, fails);
    Drain(DoStart(s, board, err))
  }

  function SoloOff(s: System, err: EspErr, o: FanTransition.Outcome): System {
    var t := DoEndInit(s, err, o);
    if t.actor.pc.OffWrites? then DoEndOff(Drain(t), t.actor.pc.err, t.actor.pc.phase) else t
  }

  function SoloTurnOff(s: System, fails: nat -> bool): System {
    if s.actor.pc.InitWrites? then SoloOff(s, s.actor.pc.err, FanTransition.Transition(s.hw.board, fails, OFF)) else s
  }

  function SoloBoot(s: System, fails: nat -> bool, watchdogOk: bool): System {
    DoBootPublish(BootLatchAll(SoloTurnOff(SoloInit(s, fails), fails)), watchdogOk)
  }

  lemma {:induction false} BootLatchAllIsSteps(s: System, fails: nat -> bool) returns (steps: seq<Step>)
    requires s.hw.todo == [] && (s.actor.pc.BootPublish? || (s.actor.pc.BootLatch? && s.actor.pc.stores <= STORES))
    ensures OnlyActor(steps) && Leads(s, steps, BootLatchAll(s))
    ensures BootLatchAll(s).hw.todo == [] && BootLatchAll(s).actor.pc == BootPublish
    decreases if s.actor.pc.BootLatch? then STORES + 1 - s.actor.pc.stores else 0
  {
    if s.actor.pc.BootLatch? {
      var t := DoBootLatch(s, s.actor.pc.stores, s.actor.pc.cause);
      assert ActorStep(s, Nature(s, fails)) == t;
      steps := BootLatchAllIsSteps(t, fails);
      steps := Prepend(s, fails, t, steps, BootLatchAll(s));
    } else {
      steps := [];
    }
  }

  lemma OffIsSteps(s: System, fails: nat -> bool) returns (steps: seq<Step>)
    requires s.actor.pc.InitWrites? && s.hw.todo == [] && FanRefinement.GoodBoard(s.hw.board)
    ensures var t := SoloTurnOff(s, fails);
            && OnlyActor(steps) && Leads(s, steps, t) && t.hw.todo == []
            && (t.actor.pc.BootPublish? || (t.actor.pc.BootLatch? && t.actor.pc.stores == 0))
  {
    FanRefinement.TransitionMoves(s.hw.board, fails, OFF);
    steps := OffSteps(s, fails, s.actor.pc.err, Nature(s, fails).outcome);
  }

  lemma OffSteps(s: System, fails: nat -> bool, err: EspErr, o: FanTransition.Outcome) returns (steps: seq<Step>)
    requires s.actor.pc == InitWrites(err) && s.hw.todo == [] && |s.hw.board.log| <= |o.board.log|
        && Nature(s, fails).outcome == o
    ensures var t := SoloOff(s, err, o);
            && OnlyActor(steps) && Leads(s, steps, t) && t.hw.todo == []
            && (t.actor.pc.BootPublish? || (t.actor.pc.BootLatch? && t.actor.pc.stores == 0))
  {
    var t := DoEndInit(s, err, o);
    assert ActorStep(s, Nature(s, fails)) == t;
    if t.actor.pc.OffWrites? {
      var u := Drain(t);
      DrainKeeps(t);
      var v := DoEndOff(u, t.actor.pc.err, t.actor.pc.phase);
      var writes := DrainIsSteps(t, fails);
      steps := Prepend(u, fails, v, [], v);
      steps := Chain(t, writes, u, steps, v);
      steps := Prepend(s, fails, t, steps, v);
    } else {
      steps := Prepend(s, fails, t, [], t);
    }
  }

  lemma InitIsSteps(s: System, fails: nat -> bool) returns (steps: seq<Step>)
    requires s.actor.pc.Start? && s.hw.todo == [] && FanRefinement.GoodBoard(s.hw.board)
    ensures var t := SoloInit(s, fails);
            && OnlyActor(steps) && Leads(s, steps, t)
            && t.hw.todo == [] && t.actor.pc.InitWrites? && FanRefinement.GoodBoard(t.hw.board)
  {
    FanRefinement.InitShows(s.hw.board, fails);
    var env := Nature(s, fails);
    var t := DoStart(s, env.init, env.initErr);
    assert ActorStep(s, env) == t;
    DrainKeeps(t);
    steps := DrainIsSteps(t, fails);
    steps := Prepend(s, fails, t, steps, Drain(t));
  }

  lemma SoloBootLeadsToPublish(s: System, fails: nat -> bool) returns (v: System, steps: seq<Step>)
    requires s.actor.pc.Start? && s.hw.todo == [] && FanRefinement.GoodBoard(s.hw.board)
    ensures v == BootLatchAll(SoloTurnOff(SoloInit(s, fails), fails)) && v.actor.pc.BootPublish? && v.hw.todo == []
    ensures OnlyActor(steps) && Leads(s, steps, v)
  {
    var t := SoloInit(s, fails);
    steps := InitIsSteps(s, fails);
    var u := SoloTurnOff(t, fails);
    var off := OffIsSteps(t, fails);
    steps := Chain(s, steps, t, off, u);
    v := BootLatchAll(u);
    var latch := BootLatchAllIsSteps(u, fails);
    steps := Chain(s, steps, u, latch, v);
  }

  /** An undisturbed boot only switches off. */
  lemma SoloBootSinks(s: System, fails: nat -> bool)
    requires s.actor.pc.Start? && s.hw.todo == [] && FanRefinement.GoodBoard(s.hw.board)
    ensures var v := BootLatchAll(SoloTurnOff(SoloInit(s, fails), fails));
            v.hw.board.Out() == Hc238.Off || v.hw.board.Out() == s.hw.board.Out()
  {
    var t := SoloInit(s, fails);
    InitSinks(s, fails);
    var u := SoloTurnOff(t, fails);
    OffSinks(t, fails);
    if u.actor.pc.BootLatch? {
      if u.actor.pc.stores <= STORES {
        BootLatchAllStores(u, u.actor.pc.stores);
      }
    }
  }

  lemma InitSinks(s: System, fails: nat -> bool)
    requires s.actor.pc.Start? && FanRefinement.GoodBoard(s.hw.board)
    ensures var t := SoloInit(s, fails);
            && t.actor.pc.InitWrites? && FanRefinement.GoodBoard(t.hw.board)
            && (t.hw.board.Out() == Hc238.Off || t.hw.board.Out() == s.hw.board.Out())
  {
    FanRefinement.InitShows(s.hw.board, fails);
    var (q, err) := Hc238.Init(s.hw.board, OUTPUTS, fails);
    SinksTo(s.hw.board.Out(), FanTransition.Shown(q.log, |s.hw.board.log|));
    DrainKeeps(DoStart(s, q, err));
  }

  lemma {:induction false} SinksTo(prev: Hc238.Output, shown: seq<Hc238.Output>)
    requires FanTransition.Sinks(prev, shown)
    ensures FanTransition.Final(prev, shown) == Hc238.Off || FanTransition.Final(prev, shown) == prev
    decreases |shown|
  {
    if shown != [] {
      SinksTo(shown[0], shown[1..]);
    }
  }

  lemma OffSinks(t: System, fails: nat -> bool)
    requires t.actor.pc.InitWrites? && FanRefinement.GoodBoard(t.hw.board)
    ensures var u := SoloTurnOff(t, fails); u.hw.board.Out() == Hc238.Off || u.hw.board.Out() == t.hw.board.Out()
  {
    FanRefinement.TransitionMoves(t.hw.board, fails, OFF);
    OffEnds(t, t.actor.pc.err, FanTransition.Transition(t.hw.board, fails, OFF));
  }

  lemma OffEnds(t: System, err: EspErr, o: FanTransition.Outcome)
    requires |t.hw.board.log| <= |o.board.log|
    ensures var u := SoloOff(t, err, o); u.hw.board == o.board || u.hw.board == t.hw.board
  {
    DrainKeeps(DoEndInit(t, err, o));
  }

  /** An undisturbed boot is an execution of the actor's own steps. */
  lemma SoloBootIsARun(s: System, fails: nat -> bool, watchdogOk: bool) returns (steps: seq<Step>)
    requires s.actor.pc.Start? && s.hw.todo == [] && FanRefinement.GoodBoard(s.hw.board)
    ensures OnlyActor(steps) && Leads(s, steps, SoloBoot(s, fails, watchdogOk))
  {
    var v;
    v, steps := SoloBootLeadsToPublish(s, fails);
    var last := PublishIsStep(v, fails, watchdogOk);
    steps := Chain(s, steps, v, last, DoBootPublish(v, watchdogOk));
  }

  lemma PublishIsStep(v: System, fails: nat -> bool, watchdogOk: bool) returns (steps: seq<Step>)
    requires v.actor.pc.BootPublish? && v.hw.todo == []
    ensures OnlyActor(steps) && Leads(v, steps, DoBootPublish(v, watchdogOk))
  {
    steps := [ActorRuns(Nature(v, fails).(watchdogOk := watchdogOk))];
    assert Leads(Next(v, steps[0]), steps[1..], DoBootPublish(v, watchdogOk));
  }

  // --- What they leave alone -----------------------------------------------------------------------

  lemma {:induction false} BootLatchAllStores(s: System, k: nat)
    requires s.actor.pc.BootLatch? && s.actor.pc.stores == k <= STORES
    ensures var t, f := BootLatchAll(s), s.actor.fan.(fault := true, cause := s.actor.pc.cause);
            && t == s.(hw := s.hw.(rtc := t.hw.rtc), actor := s.actor.(pc := BootPublish, fan := f),
              life := Life(true, false))
            && (forall r :: s.hw.rtc == AfterStores(r, k, s.actor.pc.cause) ==>
              t.hw.rtc == AfterStores(r, STORES, s.actor.pc.cause))
    decreases STORES - k
  {
    if k < STORES {
      BootLatchAllStores(DoBootLatch(s, k, s.actor.pc.cause), k + 1);
    }
  }

  /** The six stores of a latching, one after the other. */
  lemma StoresInOrder(r: Record, f: Fault)
    ensures AfterStores(r, STORES, f) == Record(FAN_FAULT_MAGIC, !FAN_FAULT_MAGIC, f.error, f.phase,
        Checksum(f.error, f.phase))
  {
    var r1 := AfterStores(r, 1, f);
    var r2 := AfterStores(r, 2, f);
    var r3 := AfterStores(r, 3, f);
    var r4 := AfterStores(r, 4, f);
    var r5 := AfterStores(r, 5, f);
    assert r5 == Record(0, !FAN_FAULT_MAGIC, f.error, f.phase, Checksum(f.error, f.phase));
  }

  lemma {:induction false} DrainKeeps(s: System)
    ensures Drain(s) == s.(hw := Drain(s).hw, effects := Drain(s).effects)
    ensures Drain(s).hw.todo == [] && Drain(s).hw.board == s.hw.board && Drain(s).hw.rtc == s.hw.rtc
    ensures Drain(Drain(s)) == Drain(s)
    decreases |s.hw.todo|
  {
    if s.hw.todo != [] {
      DrainKeeps(DoPinWrite(s));
    }
  }

  /** The remaining stores of a latching, and its return. */
  lemma {:induction false} LatchAllStores(s: System, k: nat)
    requires s.actor.pc.Latch? && s.actor.pc.stores == k <= STORES
    ensures LatchAll(s) == s.(hw := LatchAll(s).hw, actor := s.actor.(pc := SetAck), life := Life(true, false))
    ensures LatchAll(s).hw == s.hw.(rtc := LatchAll(s).hw.rtc)
    ensures forall r :: s.hw.rtc == AfterStores(r, k, s.actor.pc.cause) ==>
        LatchAll(s).hw.rtc == AfterStores(r, STORES, s.actor.pc.cause)
    decreases STORES - k
  {
    if k < STORES {
      LatchAllStores(DoLatch(s, k, s.actor.pc.cause), k + 1);
    }
  }

  // --- A cycle answers -------------------------------------------------------------------------------

  /** Under the flag: wanted off, or a fault. */
  ghost predicate Answering(s: System) {
    s.actor.maintenance && (s.actor.fan.fault || s.actor.fan.desired == OFF)
  }

  lemma ReceiveAnswers(s: System)
    requires s.shared.flag
    ensures Answering(SoloReceive(s)) && SoloReceive(s).shared.flag
  {
  }

  lemma ReceiveKeepsFlag(s: System)
    ensures SoloReceive(s).shared.flag == s.shared.flag
  {
  }

  lemma DecideAnswers(s: System, o: FanTransition.Outcome)
    requires Answering(s) && s.actor.pc.Decide?
    ensures var d := DoDecide(s, o);
            && Answering(d) && d.shared == s.shared
            && (d.actor.pc.SetAck? && !d.actor.fan.fault ==> d.actor.fan.applied == OFF)
  {
  }

  lemma WritesAnswer(s: System)
    requires Answering(s) && Deciding(s.actor.pc) && (s.actor.pc.SetAck? && !s.actor.fan.fault ==>
        s.actor.fan.applied == OFF)
    ensures var w := SoloWrites(s);
            w.actor.maintenance && w.shared == s.shared && (!w.actor.fan.fault ==> w.actor.fan.applied == OFF)
  {
    DrainKeeps(s);
    var t := Drain(s);
    if t.actor.pc.Writes? {
      var d := DoEndWrites(t, t.actor.pc.err, t.actor.pc.phase);
      if d.actor.pc.Latch? {
        LatchAllStores(d, 0);
      }
    }
  }

  lemma WritesKeepFlag(s: System)
    requires Deciding(s.actor.pc)
    ensures SoloWrites(s).shared == s.shared
  {
    DrainKeeps(s);
    var t := Drain(s);
    if t.actor.pc.Writes? {
      var d := DoEndWrites(t, t.actor.pc.err, t.actor.pc.phase);
      if d.actor.pc.Latch? {
        LatchAllStores(d, 0);
      }
    }
  }

  /** An undisturbed cycle leaves the flag alone, reports truly whether anything is pending, and
      under the flag ends acknowledged or with a fault. */
  lemma SoloCycleAnswers(s: System, fails: nat -> bool)
    requires s.actor.pc.Sleep? && s.hw.todo == [] && FanRefinement.GoodBoard(s.hw.board)
    ensures var t := SoloCycle(s, fails); var f := t.actor.fan;
            && t.actor.pc.Sleep? && t.shared.flag == s.shared.flag
            && f.pending == (f.desired != f.applied || f.accepted != f.appliedSeq)
            && (s.shared.flag ==> f.fault || (t.shared.ack && f.applied == OFF))
  {
    var r := SoloReceive(s);
    var steps := SoloReceiveIsSteps(s, fails);
    ReceiveKeepsFlag(s);
    SoloDecideIsStep(r, fails);
    var d := SoloDecide(r, fails);
    WritesKeepFlag(d);
    if s.shared.flag {
      ReceiveAnswers(s);
      DecideAnswers(r, FanTransition.Transition(r.hw.board, fails, r.actor.fan.desired));
      WritesAnswer(d);
    }
    SettingAck(SoloWrites(d));
    DecideKeepsFlag(r, FanTransition.Transition(r.hw.board, fails, r.actor.fan.desired));
  }

  lemma DecideKeepsFlag(s: System, o: FanTransition.Outcome)
    ensures DoDecide(s, o).shared == s.shared
  {
  }

  lemma SettingAck(w: System)
    ensures var t := DoPublish(DoSetAck(w)); var f := t.actor.fan;
            && t.actor.pc.Sleep? && t.shared.flag == w.shared.flag
            && f.pending == (f.desired != f.applied || f.accepted != f.appliedSeq)
            && f.fault == w.actor.fan.fault && f.applied == w.actor.fan.applied
            && (w.actor.maintenance && !f.fault && f.applied == OFF ==> t.shared.ack)
  {
  }

  // --- Without failing writes -----------------------------------------------------------------------

  /** No pin write fails, and the driver is open. */
  ghost predicate Healthy(b: Hc238.Board, fails: nat -> bool) {
    Hc238.Works(fails) && FanRefinement.GoodBoard(b) && b.initialized
  }

  lemma SpeedsWork(b: Hc238.Board, fails: nat -> bool, speed: Speed)
    requires Healthy(b, fails)
    ensures var o := FanTransition.Transition(b, fails, speed);
            o.err == OK && |b.log| <= |o.board.log| && Healthy(o.board, fails)
  {
    FanTransition.SpeedsAreDistinctAndReachable(speed, speed);
    FanTransition.TransitionWorks(b, fails, speed == OFF, FanTransition.OutputMap(speed));
    FanTransition.TransitionTransacts(b, fails, speed == OFF, FanTransition.OutputMap(speed));
    FanRefinement.TransitionMoves(b, fails, speed);
  }

  /** The actor has decided, its fan is `f`, and if anything is to be written it went well. */
  ghost predicate DecidedWell(d: System, f: Fan) {
    && d.actor.fan == f && !f.fault
    && (|| (d.actor.pc.Writes? && d.actor.pc.err == OK)
        || (d.actor.pc.SetAck? && d.hw.todo == [] && f.applied == f.desired))
  }

  lemma DecidesWell(r: System, o: FanTransition.Outcome)
    requires r.hw.todo == [] && !r.actor.fan.fault && o.err == OK && |r.hw.board.log| <= |o.board.log|
    ensures var d := DoDecide(r, o); var f := d.actor.fan;
            && DecidedWell(d, f) && f.desired == r.actor.fan.desired && f.accepted == r.actor.fan.accepted
            && f.source == r.actor.fan.source && f.state == r.actor.fan.state
            && (d.hw.board == o.board || d.hw.board == r.hw.board)
  {
  }

  lemma EndsWell(d: System, f: Fan)
    requires DecidedWell(d, f)
    ensures var w := SoloWrites(d); var g := w.actor.fan;
            && !g.fault && g.applied == f.desired && g.accepted == f.accepted && w.hw.board == d.hw.board
            && g.source == f.source && g.state == f.state
  {
    DrainKeeps(d);
    var t := Drain(d);
    if t.actor.pc.Writes? {
      var e := DoEndWrites(t, OK, t.actor.pc.phase);
      assert e.actor.pc.SetAck? && LatchAll(e) == e;
    } else {
      assert t == d;
    }
  }

  lemma PublishesWell(w: System)
    ensures var t := DoPublish(DoSetAck(w)); var f := t.actor.fan;
            && f.fault == w.actor.fan.fault && f.applied == w.actor.fan.applied && f.accepted == w.actor.fan.accepted
            && f.cause == w.actor.fan.cause && f.source == w.actor.fan.source && f.state == w.actor.fan.state
            && t.hw == w.hw
  {
  }

  /** A cycle in which no write fails ends without a fault, at the speed wanted once the command is taken. */
  lemma SoloCycleObeys(s: System, fails: nat -> bool)
    requires s.actor.pc.Sleep? && s.hw.todo == [] && Healthy(s.hw.board, fails) && !s.actor.fan.fault
    ensures var t := SoloCycle(s, fails); var f := t.actor.fan; var r := SoloReceive(s).actor.fan;
            && Healthy(t.hw.board, fails) && !f.fault && f.applied == r.desired && f.accepted == r.accepted
            && f.source == r.source && f.state == r.state
  {
    var r := SoloReceive(s);
    ReceiveKeepsHealth(s);
    SpeedsWork(r.hw.board, fails, r.actor.fan.desired);
    DecidesWell(r, FanTransition.Transition(r.hw.board, fails, r.actor.fan.desired));
    var d := SoloDecide(r, fails);
    EndsWell(d, d.actor.fan);
    PublishesWell(SoloWrites(d));
  }

  lemma ReceiveKeepsHealth(s: System)
    ensures var r := SoloReceive(s); r.hw == s.hw && r.actor.fan.fault == s.actor.fan.fault
  {
  }

  /** The speed a command asks for. */
  function Wanted(desired: Speed, c: Command): Speed {
    match c.action
    case SetSpeed => c.speed
    case CycleNormal => NextNormalSpeed(desired)
    case ToggleTurbo => FanPolicy.ToggleTurbo(desired)
    case CycleTimer => desired
  }

  /** The source shown once a command is taken: key 6 is not about the speed. */
  function Sender(source: Source, c: Command): Source {
    if c.action.SetSpeed? then c.source else if c.action.CycleTimer? then source else TOUCH
  }

  /** The timer is running, and its time is up. */
  predicate Overdue(f: Fan, now: Word, started: Word) {
    f.active && TickElapsed(now, started, Duration(f.mode))
  }

  lemma InterpretsTo(f: Fan, c: Command, now: Word, started: Word)
    ensures var (g, start) := Interpret(f, c, now, started);
            && g.desired == Wanted(f.desired, c) && g.accepted == c.sequence && g.source == Sender(f.source, c)
            && (TimerFires(g, now, start) ==> Overdue(f, now, started))
  {
    match c.action
    case CycleTimer =>
    case CycleNormal =>
    case ToggleTurbo =>
    case SetSpeed =>
  }

  lemma WakesReady(s: System)
    requires !s.actor.fan.fault && !s.shared.flag
    ensures var w := DoReadFlag(DoWake(s)); var t := DoClearAck(w); var f := s.actor.fan; var g := t.actor.fan;
            && w.actor.pc.ClearAck? && t.shared.mailbox == s.shared.mailbox && t.actor.now == Wrap(s.time.clock)
            && t.actor.started == s.actor.started && !t.actor.maintenance
            && !g.fault && g.desired == f.desired && g.mode == f.mode && g.active == f.active
            && g.source == f.source && g.accepted == f.accepted && g.state == READY
  {
  }

  lemma TakesCommand(t: System)
    requires !t.actor.fan.fault && !t.actor.maintenance && t.shared.mailbox.Some?
    ensures var (f, started) := Interpret(t.actor.fan, t.shared.mailbox.value, t.actor.now, t.actor.started);
            DoReceive(t).actor.fan == Expire(f, t.actor.now, started)
  {
  }

  /** The command that waits is interpreted, unless the flag is set; what it asks for is wanted then,
      unless an older timer has just run out. */
  lemma ReceiveInterprets(s: System)
    requires !s.actor.fan.fault && !s.shared.flag && s.shared.mailbox.Some?
    ensures var f, c, r := s.actor.fan, s.shared.mailbox.value, SoloReceive(s).actor.fan;
            && r.accepted == c.sequence
            && ((r.desired == Wanted(f.desired, c) && r.source == Sender(f.source, c))
                || (r.desired == OFF && r.source == TIMER && Overdue(f, Wrap(s.time.clock), s.actor.started)))
  {
    var t := DoClearAck(DoReadFlag(DoWake(s)));
    WakesReady(s);
    TakesCommand(t);
    InterpretsTo(t.actor.fan, t.shared.mailbox.value, t.actor.now, t.actor.started);
  }

  /** With no command waiting only the timer can change what is wanted. */
  lemma ReceiveExpires(s: System)
    requires !s.actor.fan.fault && !s.shared.flag && s.shared.mailbox.None?
    ensures var f, r := s.actor.fan, SoloReceive(s).actor.fan;
            && r.accepted == f.accepted && r.state == READY
            && if f.desired != OFF && Overdue(f, Wrap(s.time.clock), s.actor.started)
               then r.desired == OFF && r.source == TIMER && !r.active
               else r.desired == f.desired && r.source == f.source && r.active == f.active
  {
    var t := DoClearAck(DoReadFlag(DoWake(s)));
    WakesReady(s);
    TakesNothing(t);
  }

  lemma TakesNothing(t: System)
    requires !t.actor.fan.fault && !t.actor.maintenance && t.shared.mailbox.None?
    ensures DoReceive(t).actor.fan == Expire(t.actor.fan, t.actor.now, t.actor.started)
  {
  }

  /** Under the flag the fan is wanted off, on behalf of maintenance. */
  lemma ReceiveQuiesces(s: System)
    requires !s.actor.fan.fault && s.shared.flag
    ensures var f, r := s.actor.fan, SoloReceive(s).actor.fan;
            && r.accepted == f.accepted && r.desired == OFF && r.source == MAINTENANCE
            && r.state == IN_MAINTENANCE && !r.active
  {
  }

  // --- The counters a cycle reports ---------------------------------------------------------------

  predicate SameCounts(f: Fan, g: Fan) {
    f.coalesced == g.coalesced && f.rejected == g.rejected
  }

  lemma ReceiveCounts(s: System)
    ensures var f := SoloReceive(s).actor.fan;
            f.coalesced == s.shared.coalesced && f.rejected == s.shared.rejected
  {
    var w := DoReadFlag(DoWake(s));
    var t := if w.actor.pc.ClearAck? then DoClearAck(w) else w;
    WakeCounts(s);
    TakeCounts(t);
  }

  lemma WakeCounts(s: System)
    ensures var w := DoReadFlag(DoWake(s)); var f := w.actor.fan;
            && f.coalesced == s.shared.coalesced && f.rejected == s.shared.rejected
            && DoClearAck(w).actor.fan == f
  {
  }

  lemma InterpretCounts(f: Fan, c: Command, now: Word, started: Word)
    ensures SameCounts(f, Interpret(f, c, now, started).0)
  {
  }

  lemma TakeCounts(t: System)
    ensures SameCounts(t.actor.fan, DoReceive(t).actor.fan)
  {
    if t.shared.mailbox.Some? {
      InterpretCounts(t.actor.fan, t.shared.mailbox.value, t.actor.now, t.actor.started);
    }
  }

  lemma WritesCount(d: System)
    requires Deciding(d.actor.pc)
    ensures SameCounts(d.actor.fan, SoloWrites(d).actor.fan)
  {
    DrainKeeps(d);
    var t := Drain(d);
    if t.actor.pc.Writes? {
      var e := DoEndWrites(t, t.actor.pc.err, t.actor.pc.phase);
      if e.actor.pc.Latch? {
        LatchAllStores(e, 0);
      }
    }
  }

  lemma EndCounts(r: System, w: System, o: FanTransition.Outcome)
    ensures SameCounts(r.actor.fan, DoDecide(r, o).actor.fan)
    ensures SameCounts(w.actor.fan, DoPublish(DoSetAck(w)).actor.fan)
  {
  }

  /** The snapshot published at the end of a cycle has the counters as they were at its beginning. */
  lemma SoloCycleCounts(s: System, fails: nat -> bool)
    requires s.actor.pc.Sleep? && s.hw.todo == [] && FanRefinement.GoodBoard(s.hw.board)
    ensures var f := SoloCycle(s, fails).actor.fan;
            f.coalesced == s.shared.coalesced && f.rejected == s.shared.rejected
  {
    var r := SoloReceive(s);
    var steps := SoloReceiveIsSteps(s, fails);
    ReceiveCounts(s);
    SoloDecideIsStep(r, fails);
    WritesCount(SoloDecide(r, fails));
    EndCounts(r, SoloWrites(SoloDecide(r, fails)), FanTransition.Transition(r.hw.board, fails, r.actor.fan.desired));
  }

  lemma InitWorks(s: System, fails: nat -> bool)
    requires s.actor.pc.Start? && s.hw.todo == [] && FanRefinement.GoodBoard(s.hw.board) && Hc238.Works(fails)
    ensures var t := SoloInit(s, fails); var retained := Retained(s.hw.rtc);
            && t.actor == s.actor.(pc := InitWrites(OK), initResult := OK, fan := t.actor.fan)
            && t.actor.fan == BOOT_FAN.(fault := retained.Some?,
                                        cause := if retained.Some? then retained.value else Fault(0, 0))
            && Healthy(t.hw.board, fails) && t.hw.todo == [] && t.shared == s.shared && t.time == s.time
  {
    BoardIsValid();
    Hc238.InitWorks(s.hw.board, OUTPUTS, fails);
    FanRefinement.InitShows(s.hw.board, fails);
    var (board, err) := Hc238.Init(s.hw.board, OUTPUTS, fails);
    DrainKeeps(DoStart(s, board, err));
  }

  /** A boot in which no write fails enters the loop in no time, with no fault but a retained one. */
  lemma SoloBootWorks(s: System, fails: nat -> bool)
    requires s.actor.pc.Start? && s.hw.todo == [] && FanRefinement.GoodBoard(s.hw.board) && Hc238.Works(fails)
    ensures var t := SoloBoot(s, fails, true); var f := t.actor.fan;
            && t.actor.pc.Sleep? && Healthy(t.hw.board, fails) && t.shared == s.shared && t.time == s.time
            && f.fault == Retained(s.hw.rtc).Some? && f.desired == OFF && !f.active
  {
    var t := SoloInit(s, fails);
    InitWorks(s, fails);
    SpeedsWork(t.hw.board, fails, OFF);
    var o := FanTransition.Transition(t.hw.board, fails, OFF);
    DrainKeeps(DoEndInit(t, OK, o));
  }

  // --- With failing writes --------------------------------------------------------------------------

  /** The number of the phase in which an entry of the log was written: 1 sets an enable inactive, 2 an
      address input, 3 an enable active. */
  predicate WrittenIn(phase: bv32, op: Hc238.Op) {
    || (phase == 1 && Hc238.SetsEnable(FanTransition.BOARD, op, false))
    || (phase == 2 && Hc238.IsAddressPin(FanTransition.BOARD, op.gpio))
    || (phase == 3 && Hc238.SetsEnable(FanTransition.BOARD, op, true))
  }

  /** The fault is ESP_FAIL in the phase of the first write since `from` that failed. */
  ghost predicate Names(cause: Fault, log: seq<Hc238.Entry>, from: nat) {
    && cause.error == 0xffff_ffff
    && exists j: nat :: FanTransition.FirstFailure(log, from, j) && WrittenIn(cause.phase, log[j].op)
  }

  lemma FailureIsNamed(b: Hc238.Board, fails: nat -> bool, speed: Speed)
    requires FanRefinement.GoodBoard(b) && b.initialized && FanTransition.Transition(b, fails, speed).err != OK
    ensures var o := FanTransition.Transition(b, fails, speed); Names(Cause(o.err, o.phase), o.board.log, |b.log|)
  {
    FanTransition.SpeedsAreDistinctAndReachable(speed, speed);
    var j := FanTransition.PhaseNamesTheFailure(b, fails, speed == OFF, FanTransition.OutputMap(speed));
  }

  /** A cycle that faults leaves an output selected only if two of its own writes failed, and names the
      first of them. */
  lemma SoloCycleFailsSafely(s: System, fails: nat -> bool)
    requires s.actor.pc.Sleep? && s.hw.todo == [] && FanRefinement.GoodBoard(s.hw.board) && s.hw.board.initialized
    requires !s.actor.fan.fault && SoloCycle(s, fails).actor.fan.fault
    ensures var b := SoloCycle(s, fails).hw.board;
            && (b.Out() != Hc238.Off ==> Hc238.FailedTwice(b.log, |s.hw.board.log|))
            && Names(SoloCycle(s, fails).actor.fan.cause, b.log, |s.hw.board.log|)
  {
    var r := SoloReceive(s);
    ReceiveKeepsHealth(s);
    FanRefinement.TransitionMoves(r.hw.board, fails, r.actor.fan.desired);
    DecidesBadly(r, FanTransition.Transition(r.hw.board, fails, r.actor.fan.desired));
    PublishesWell(SoloWrites(SoloDecide(r, fails)));
    FailureIsNamed(r.hw.board, fails, r.actor.fan.desired);
  }

  lemma DecidesBadly(r: System, o: FanTransition.Outcome)
    requires r.actor.pc.Decide? && r.hw.todo == [] && !r.actor.fan.fault && |r.hw.board.log| <= |o.board.log|
    ensures var w := SoloWrites(DoDecide(r, o));
            w.actor.fan.fault ==> o.err != OK && w.hw.board == o.board && w.actor.fan.cause == Cause(o.err, o.phase)
  {
    var d := DoDecide(r, o);
    if d.actor.pc.Writes? && o.err != OK {
      DrainKeeps(d);
      LatchAllStores(DoEndWrites(Drain(d), o.err, o.phase), 0);
    } else if d.actor.pc.Writes? {
      DecidesWell(r, o);
      EndsWell(d, d.actor.fan);
    } else {
      DrainKeeps(d);
    }
  }

  lemma InitTells(s: System, fails: nat -> bool)
    requires s.actor.pc.Start? && s.hw.todo == [] && FanRefinement.GoodBoard(s.hw.board)
    ensures var t := SoloInit(s, fails); var b := t.hw.board; var retained := Retained(s.hw.rtc);
            && t.actor.pc.InitWrites? && t.actor.initResult == t.actor.pc.err && t.hw.rtc == s.hw.rtc
            && Hc238.StopsAtFailure(Hc238.Run(b, t.actor.pc.err == OK), |s.hw.board.log|)
            && (t.actor.pc.err != OK ==> t.actor.pc.err == FAIL) && (t.actor.pc.err == OK ==> b.initialized)
            && t.actor.fan.fault == retained.Some? && (retained.Some? ==> t.actor.fan.cause == retained.value)
  {
    BoardIsValid();
    Hc238.InitStops(s.hw.board, OUTPUTS, fails);
    FanRefinement.InitShows(s.hw.board, fails);
    var (board, err) := Hc238.Init(s.hw.board, OUTPUTS, fails);
    DrainKeeps(DoStart(s, board, err));
  }

  /** A boot reports ESP_FAIL in phase 1 exactly if one of its pin writes has failed, and else what the
      record holds. */
  lemma SoloBootTells(s: System, fails: nat -> bool, watchdogOk: bool)
    requires s.actor.pc.Start? && s.hw.todo == [] && FanRefinement.GoodBoard(s.hw.board)
    ensures var t := SoloBoot(s, fails, watchdogOk); var f, retained := t.actor.fan, Retained(s.hw.rtc);
            && |s.hw.board.log| <= |t.hw.board.log|
            && (if Hc238.FailedOnce(t.hw.board.log, |s.hw.board.log|) then
                  f.fault && f.cause == Fault(0xffff_ffff, 1) && t.actor.initResult == FAIL
                else
                  && f.fault == retained.Some? && (retained.Some? ==> f.cause == retained.value)
                  && t.actor.initResult == if watchdogOk then OK else FAIL)
  {
    var t := SoloInit(s, fails);
    InitTells(s, fails);
    if t.actor.pc.err != OK {
      BootLatchAllStores(SoloTurnOff(t, fails), 0);
      assert Hc238.FailedOnce(t.hw.board.log, |s.hw.board.log|);
    } else {
      OffTells(s, t, fails);
    }
  }

  lemma OffTells(s: System, t: System, fails: nat -> bool)
    requires t.actor.pc == InitWrites(OK) && t.actor.initResult == OK && t.hw.board.initialized
    requires Hc238.StopsAtFailure(Hc238.Run(t.hw.board, true), |s.hw.board.log|)
    ensures var u := BootLatchAll(SoloTurnOff(t, fails));
            && |s.hw.board.log| <= |u.hw.board.log|
            && if Hc238.FailedOnce(u.hw.board.log, |s.hw.board.log|) then
                 u.actor.fan.fault && u.actor.fan.cause == Fault(0xffff_ffff, 1) && u.actor.initResult == FAIL
               else
                 u.actor.fan == t.actor.fan && u.actor.initResult == OK
  {
    var o := FanTransition.Transition(t.hw.board, fails, OFF);
    FanTransition.TurningOffFails(t.hw.board, fails);
    LaterFailure(t.hw.board.log, o.board.log, |s.hw.board.log|);
    DrainKeeps(DoEndInit(t, OK, o));
    if o.err != OK {
      BootLatchAllStores(SoloTurnOff(t, fails), 0);
    }
  }

  lemma LaterFailure(first: seq<Hc238.Entry>, log: seq<Hc238.Entry>, from: nat)
    requires from <= |first| <= |log| && log[..|first|] == first && forall k | from <= k < |first| :: first[k].ok
    ensures Hc238.FailedOnce(log, from) <==> Hc238.FailedOnce(log, |first|)
  {
    assert forall k | 0 <= k < |first| :: log[k] == log[..|first|][k];
  }
}
