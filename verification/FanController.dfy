/** main/fan_control.c as imperative code. The fields are the file's statics and the actor's
    locals; the ghost field `sys` is the corresponding state of the transition system, and every
    method is shown to take exactly that system's steps. */
module FanController {
  import opened Esp
  import opened FanPolicy
  import opened FaultRecord
  import opened FanControl
  import opened FanExecutions
  import opened FanSolo
  import FanRefinement
  import FanStatus
  import FanTransition
  import Hc238
  import Hc238Driver

  // --- The code ---------------------------------------------------------------------------------

  /** The actor's part of the state, with no pin write under way. */
  ghost predicate Mirrors(s: System,
        f: Fan, started: Word, maintenance: bool, now: Word, b: Hc238.Board, r: Record) {
    && s.actor.fan == f && s.actor.started == started && s.actor.maintenance == maintenance && s.actor.now == now
    && s.hw.board == b && s.hw.rtc == r && s.hw.todo == []
  }

  /** Beginning a transition, and its pin writes. */
  lemma DecideMirrors(s: System, o: FanTransition.Outcome,
        f: Fan, started: Word, maintenance: bool, now: Word, b: Hc238.Board, r: Record)
    requires Mirrors(s, f, started, maintenance, now, b, r) && |b.log| <= |o.board.log|
    requires !f.fault && TransitionRequired(f.applied, f.desired)
    ensures var d := DoDecide(s, o); var t := Drain(d);
            && Mirrors(t, f.(attempted := Wrap(f.attempted + 1)), started, maintenance, now, o.board, r)
            && t.shared == s.shared && t.actor.pc == Writes(o.err, o.phase) && SoloWrites(d) == SoloWrites(t)
  {
    DrainKeeps(DoDecide(s, o));
  }

  /** A command that asks for what is already applied is settled as a duplicate. */
  function Settled(f: Fan): Fan {
    if !f.fault && f.accepted != 0 && f.appliedSeq != f.accepted then
      f.(duplicates := Wrap(f.duplicates + 1), appliedSeq := f.accepted)
    else f
  }

  /** A cycle without a transition; the outcome of one that is not made does not matter. */
  lemma SettleMirrors(s: System, o: FanTransition.Outcome,
        f: Fan, started: Word, maintenance: bool, now: Word, b: Hc238.Board, r: Record)
    requires Mirrors(s, f, started, maintenance, now, b, r) && (f.fault || !TransitionRequired(f.applied, f.desired))
    ensures var t := DoDecide(s, o);
            Mirrors(t, Settled(f), started, maintenance, now, b, r) && t.shared == s.shared && t.actor.pc.SetAck?
  {
  }

  lemma WritesDone(s: System, err: EspErr, phase: FanTransition.Phase)
    requires s.actor.pc == Writes(err, phase) && s.hw.todo == []
    ensures SoloWrites(s) == LatchAll(DoEndWrites(s, err, phase))
    ensures err == OK ==> SoloWrites(s) == DoEndWrites(s, err, phase)
  {
    assert Drain(s) == s;
  }

  lemma NothingToWrite(s: System)
    requires s.actor.pc.SetAck? && s.hw.todo == []
    ensures SoloWrites(s) == s
  {
  }

  /** A failed transition, up to the return of the latching. */
  lemma FailureMirrors(s: System, err: EspErr, phase: FanTransition.Phase,
        f: Fan, started: Word, maintenance: bool, now: Word, b: Hc238.Board, r: Record)
    requires Mirrors(s, f, started, maintenance, now, b, r) && s.actor.pc == Writes(err, phase) && err != OK
    ensures var cause := Cause(err, phase); var t := LatchAll(DoEndWrites(s, err, phase));
            && Mirrors(t, Failed(f, cause), started, maintenance, now, b, AfterStores(r, STORES, cause))
            && t.shared == s.shared && t.actor.pc == SetAck
  {
    var d := DoEndWrites(s, err, phase);
    LatchAllStores(d, 0);
    assert d.hw.rtc == AfterStores(r, 0, d.actor.pc.cause);
  }

  /** The look at the fault record and the writes of fan_init. */
  lemma StartMirrors(s: System, board: Hc238.Board, err: EspErr,
        f: Fan, started: Word, maintenance: bool, now: Word, b: Hc238.Board, r: Record)
    requires Mirrors(s, f, started, maintenance, now, b, r) && |b.log| <= |board.log|
    ensures var t := Drain(DoStart(s, board, err));
            && Mirrors(t, BootFan(Retained(r)), started, maintenance, now, board, r)
            && t.shared == s.shared && t.actor.pc == InitWrites(err) && t.actor.initResult == err
  {
    DrainKeeps(DoStart(s, board, err));
  }

  function BootFan(retained: Option<Fault>): Fan {
    BOOT_FAN.(fault := retained.Some?, cause := if retained.Some? then retained.value else Fault(0, 0))
  }

  /** The boot-time OFF transition. */
  lemma OffMirrors(s: System, o: FanTransition.Outcome,
        f: Fan, started: Word, maintenance: bool, now: Word, b: Hc238.Board, r: Record)
    requires Mirrors(s, f, started, maintenance, now, b, r) && s.actor.pc == InitWrites(OK) && |b.log| <= |o.board.log|
    ensures var t := SoloOff(s, OK, o);
            && Mirrors(t, f, started, maintenance, now, o.board, r) && t.shared == s.shared
              && t.actor.initResult == o.err
            && t.actor.pc == if o.err != OK then BootLatch(0, Cause(o.err, o.phase)) else BootPublish
  {
    DrainKeeps(DoEndInit(s, OK, o));
  }

  lemma TurnsOff(s: System, fails: nat -> bool)
    requires s.actor.pc == InitWrites(OK)
    ensures SoloTurnOff(s, fails) == SoloOff(s, OK, FanTransition.Transition(s.hw.board, fails, OFF))
  {
  }

  lemma BootLatchMirrors(s: System, cause: Fault,
        f: Fan, started: Word, maintenance: bool, now: Word, b: Hc238.Board, r: Record)
    requires Mirrors(s, f, started, maintenance, now, b, r) && s.actor.pc == BootLatch(0, cause)
    ensures var t := BootLatchAll(s);
            && Mirrors(t, f.(fault := true, cause := cause), started, maintenance, now, b,
              AfterStores(r, STORES, cause))
            && t.shared == s.shared && t.actor.pc == BootPublish && t.actor.initResult == s.actor.initResult
  {
    BootLatchAllStores(s, 0);
    assert s.hw.rtc == AfterStores(r, 0, cause);
  }

  // --- What reached states promise ------------------------------------------------------------------

  lemma ReachedRecord(s: System)
    requires Reached(s) && (s.actor.pc.Sleep? || s.actor.pc.Suspended?)
    ensures Retained(s.hw.rtc) == if s.actor.fan.fault then Some(s.actor.fan.cause) else None
  {
    var states, steps :| Reaches(states, steps, s);
    FanStatus.RecordMatchesReport(states, steps, |steps|);
  }

  lemma ReachedAcknowledged(s: System)
    requires Reached(s) && s.shared.ack
    ensures var f := s.actor.fan; !f.fault && f.applied == OFF && f.desired == OFF && s.hw.board.Out() == Hc238.Off
    ensures s.shared.flag ==> s.shared.mailbox == None
  {
    var states, steps :| Reaches(states, steps, s);
    FanRefinement.AcknowledgedIsOff(states, steps, |steps|);
  }

  lemma ReachedOpen(s: System)
    requires Reached(s) && s.actor.pc.Sleep?
    ensures s.hw.board.initialized
  {
    var states, steps :| Reaches(states, steps, s);
    FanRefinement.RunKeepsInv(states, steps, |steps|);
  }

  lemma ReachedFault(s: System)
    requires Reached(s) && s.actor.fan.fault
    ensures var f := s.actor.fan; f.applied == OFF && f.desired == OFF && !f.active && f.mode == AlwaysOn
  {
    var states, steps :| Reaches(states, steps, s);
    FanRefinement.RunKeepsInv(states, steps, |steps|);
  }

  lemma ReachedCycleEnd(s: System)
    requires Reached(s) && s.actor.pc.Sleep? && !s.actor.fan.fault
    ensures var f := s.actor.fan;
            s.hw.board.Out() == FanTransition.SpeedOutput(f.applied) && f.desired == f.applied
              && f.accepted == f.appliedSeq
  {
    var states, steps :| Reaches(states, steps, s);
    FanRefinement.CyclesEndRefined(states, steps, |steps|);
  }

  lemma SoloBootReaches(s: System, fails: nat -> bool, watchdogOk: bool)
    requires Reached(s) && s.actor.pc.Start? && s.hw.todo == [] && FanRefinement.GoodBoard(s.hw.board)
    ensures var t := SoloBoot(s, fails, watchdogOk);
            && Reached(t) && (t.hw.board.initialized ==> t.hw.board.Out() == Hc238.Off)
            && (t.hw.board.Out() == Hc238.Off || t.hw.board.Out() == s.hw.board.Out())
            && (t.actor.initResult == OK ==> t.hw.board.initialized)
  {
    SoloBootSinks(s, fails);
    var v, steps := SoloBootLeadsToPublish(s, fails);
    LeadsStaysReached(s, steps, v);
    var states, taken :| Reaches(states, taken, v);
    FanRefinement.RunKeepsInv(states, taken, |taken|);
    var last := PublishIsStep(v, fails, watchdogOk);
    LeadsStaysReached(v, last, DoBootPublish(v, watchdogOk));
  }

  lemma SoloCycleReaches(s: System, fails: nat -> bool)
    requires Reached(s) && s.actor.pc.Sleep? && s.hw.todo == [] && FanRefinement.GoodBoard(s.hw.board)
    ensures var t := SoloCycle(s, fails); var f := t.actor.fan;
            && Reached(t) && t.shared.flag == s.shared.flag
            && (!f.fault ==>
                  && t.hw.board.Out() == FanTransition.SpeedOutput(f.applied)
                  && f.desired == f.applied && f.accepted == f.appliedSeq && !f.pending)
            && (t.shared.flag ==> f.fault || (t.shared.ack && f.applied == OFF))
            && (f.fault ==> f.applied == OFF && f.desired == OFF && !f.active && f.mode == AlwaysOn)
            && LastPublished(t) == Some(f)
            && (f.fault && !s.actor.fan.fault && t.hw.board.Out() != Hc238.Off ==>
                  Hc238.FailedTwice(t.hw.board.log, |s.hw.board.log|))
            && (f.fault && !s.actor.fan.fault ==> Names(f.cause, t.hw.board.log, |s.hw.board.log|))
  {
    var steps := SoloCycleIsARun(s, fails);
    var t := SoloCycle(s, fails);
    LeadsStaysReached(s, steps, t);
    SoloCycleAnswers(s, fails);
    if t.actor.fan.fault {
      ReachedFault(t);
      ReachedOpen(s);
      if !s.actor.fan.fault {
        SoloCycleFailsSafely(s, fails);
      }
    } else {
      ReachedCycleEnd(t);
    }
  }

  /** The newest snapshot that fan_control_get_snapshot can return. */
  ghost function LastPublished(s: System): Option<Fan> {
    var p := s.effects.published;
    if p == [] then None else Some(p[|p| - 1])
  }

  class Controller {
    const driver: Hc238Driver.Driver
    // statics
    var maintenanceRequested: bool
    var quiesced: bool // EVENT_QUIESCED
    var mailbox: Option<Command>
    var commandSequence: Word
    var coalescedCommands: Word
    var rejectedCommands: Word
    var faultRecord: Record // in RTC memory
    // locals of fan_control_task
    var state: Fan
    var timerStarted: Word
    var maintenance: bool
    var now: Word

    var initResult: EspErr // s_init_result

    ghost var sys: System

    /** A run of the system has come to this state. */
    ghost predicate Valid()
      reads this, driver, driver.pads
    {
      Mirrored() && Reached(sys)
    }

    /** The fields are the system's state, and no pin write is under way. */
    ghost predicate Mirrored()
      reads this, driver, driver.pads
    {
      && driver.Valid() && FanRefinement.GoodBoard(driver.View())
      && sys.shared == Shared(maintenanceRequested, quiesced, mailbox, commandSequence, coalescedCommands,
        rejectedCommands)
      && Mirrors(sys, state, timerStarted, maintenance, now, driver.View(), faultRecord)
    }

    /** RAM as a reset leaves it; the fault record is whatever RTC memory holds, and the pads are
        whatever the reset has left. */
    constructor (driver: Hc238Driver.Driver, record: Record, ghost latched: bool, ghost torn: bool)
      requires driver.Valid() && driver.View() == Reboot(record, latched, torn, driver.pads[..]).hw.board
      requires driver.pads.Length == PAD_COUNT && Reached(Reboot(record, latched, torn, driver.pads[..]))
      ensures Valid() && sys == Reboot(record, latched, torn, driver.pads[..]) && this.driver == driver
    {
      this.driver := driver;
      maintenanceRequested, quiesced, mailbox := false, false, None;
      commandSequence, coalescedCommands, rejectedCommands := 0, 0, 0;
      faultRecord := record;
      state, timerStarted, maintenance, now := BOOT_FAN, 0, false, 0;
      initResult := INVALID_STATE;
      sys := Reboot(record, latched, torn, driver.pads[..]);
    }

    /** cancel_timer */
    method CancelTimer()
      modifies this`state
      ensures state == FanControl.CancelTimer(old(state))
    {
      state := state.(mode := AlwaysOn);
      state := state.(active := false);
    }

    /** interpret_command */
    method InterpretCommand(command: Command)
      modifies this`state, this`timerStarted
      ensures (state, timerStarted) == Interpret(old(state), command, now, old(timerStarted))
    {
      state := state.(accepted := command.sequence);
      match command.action {
        case CycleNormal =>
          state := state.(desired := NextNormalSpeed(state.desired));
          state := state.(source := TOUCH);
        case ToggleTurbo =>
          state := state.(desired := FanPolicy.ToggleTurbo(state.desired));
          state := state.(source := TOUCH);
        case CycleTimer =>
          if state.desired != OFF {
            state := state.(mode := NextMode(state.mode));
            state := state.(active := state.mode != AlwaysOn);
            timerStarted := now;
          }
          state := state.(appliedSeq := command.sequence);
          return;
        case SetSpeed =>
          state := state.(desired := command.speed);
          state := state.(source := command.source);
          if command.cancelTimer || command.speed == OFF {
            CancelTimer();
          }
      }
      if state.desired == OFF {
        CancelTimer();
      }
    }

    /** timer_expired */
    method TimerExpired() returns (expired: bool)
      modifies this`state
      ensures expired == TimerFires(old(state), now, timerStarted)
      ensures state == Expire(old(state), now, timerStarted)
    {
      if !state.active || state.desired == OFF {
        return false;
      }
      if !TickElapsed(now, timerStarted, Duration(state.mode)) {
        return false;
      }
      state := state.(desired := OFF);
      state := state.(source := TIMER);
      CancelTimer();
      return true;
    }

    /** diagnostics_latch_fan_fault, store by store */
    method LatchFanFault(cause: Fault)
      modifies this`faultRecord
      ensures faultRecord == AfterStores(old(faultRecord), STORES, cause)
    {
      faultRecord := faultRecord.(magic := 0);
      faultRecord := faultRecord.(error := cause.error);
      faultRecord := faultRecord.(phase := cause.phase);
      faultRecord := faultRecord.(checksum := Checksum(cause.error, cause.phase));
      faultRecord := faultRecord.(inverse := !FAN_FAULT_MAGIC);
      faultRecord := faultRecord.(magic := FAN_FAULT_MAGIC);
      StoresInOrder(old(faultRecord), cause);
    }

    /** fan_control_task up to its loop; `watchdogOk` is the outcome of the watchdog registration.
        It returns whether the loop is entered. The output has only gone off, and with the driver
        open it is off; a fault is reported exactly if the record holds one, and a fault the record
        held is not forgotten. If nothing fails the loop is entered with no other fault. */
    method Boot(watchdogOk: bool) returns (runs: bool)
      requires Valid() && sys.actor.pc.Start? && driver.outputs == OUTPUTS
      modifies this, driver, driver.pads
      ensures Valid() && sys == SoloBoot(old(sys), driver.fails, watchdogOk)
      ensures runs == (initResult == OK) && sys.actor.pc == if runs then Sleep else Suspended
      ensures driver.View().Out() == Hc238.Off || driver.View().Out() == old(driver.View().Out())
      ensures driver.initialized ==> driver.View().Out() == Hc238.Off
      ensures runs ==> driver.initialized
      ensures Retained(faultRecord) == if state.fault then Some(state.cause) else None
      ensures old(Retained(faultRecord).Some?) ==> state.fault
      ensures watchdogOk && Hc238.Works(driver.fails) ==>
                && runs && state.fault == old(Retained(faultRecord).Some?) && state.desired == OFF && !state.active
                && sys.shared == old(sys.shared) && sys.time == old(sys.time)
      ensures LastPublished(sys) == Some(state)
      ensures old(|driver.log|) <= |driver.log|
      ensures if Hc238.FailedOnce(driver.log, old(|driver.log|)) then
                !runs && initResult == FAIL && state.fault && state.cause == Fault(0xffff_ffff, 1)
              else
                && state.fault == old(Retained(faultRecord).Some?)
                && (state.fault ==> state.cause == old(Retained(faultRecord).value))
                && runs == watchdogOk && (!watchdogOk ==> initResult == FAIL)
    {
      ghost var s := sys;
      BootSteps(watchdogOk);
      SoloBootTells(s, driver.fails, watchdogOk);
      SoloBootReaches(s, driver.fails, watchdogOk);
      ReachedRecord(sys);
      runs := initResult == OK;
      if watchdogOk && Hc238.Works(driver.fails) {
        SoloBootWorks(s, driver.fails);
      }
    }

    method BootSteps(watchdogOk: bool)
      requires Mirrored() && sys.actor.pc.Start? && driver.outputs == OUTPUTS
      modifies this, driver, driver.pads
      ensures Mirrored() && sys == SoloBoot(old(sys), driver.fails, watchdogOk)
      ensures initResult == sys.actor.initResult && sys.actor.pc == if initResult == OK then Sleep else Suspended
      ensures old(Retained(faultRecord).Some?) ==> state.fault
    {
      ghost var s, before := sys, driver.View();
      ghost var board;
      var err;
      err, board := RunInit();
      assert SoloInit(s, driver.fails) == Drain(DoStart(s, board, err));
      StartActor(err, before);
      FinishBoot(watchdogOk);
    }

    method FinishBoot(watchdogOk: bool)
      requires Mirrored() && sys.actor.pc == InitWrites(initResult) && sys.actor.initResult == initResult
      modifies this, driver`writes, driver`log, driver.pads
      ensures Mirrored() && sys == DoBootPublish(BootLatchAll(SoloTurnOff(old(sys), driver.fails)), watchdogOk)
      ensures old(state.fault) ==> state.fault
      ensures initResult == sys.actor.initResult && sys.actor.pc == if initResult == OK then Sleep else Suspended
    {
      var failed, cause := TurnOff();
      ghost var t := sys;
      if failed {
        BootLatchMirrors(sys, cause, state, timerStarted, maintenance, now, driver.View(), faultRecord);
        LatchAtBoot(cause, BootLatchAll(sys));
      }
      assert sys == BootLatchAll(t);
      EnterLoop(watchdogOk);
    }

    method EnterLoop(watchdogOk: bool)
      requires Mirrored() && sys.actor.pc.BootPublish? && sys.actor.initResult == initResult
      modifies this`initResult, this`state, this`sys
      ensures Mirrored() && sys == DoBootPublish(old(sys), watchdogOk) && state.fault == old(state.fault)
      ensures initResult == sys.actor.initResult && sys.actor.pc == if initResult == OK then Sleep else Suspended
    {
      if initResult == OK && !watchdogOk {
        initResult := FAIL;
      }
      state := state.(state := if state.fault then FAULT_LATCHED else READY);
      sys := DoBootPublish(sys, watchdogOk);
    }

    /** The system catches up with fan_init, which has taken the board from `before` to where it is. */
    method StartActor(err: EspErr, ghost before: Hc238.Board)
      requires driver.Valid() && FanRefinement.GoodBoard(driver.View()) && |before.log| <= |driver.View().log|
      requires sys.shared == Shared(maintenanceRequested, quiesced, mailbox, commandSequence, coalescedCommands,
          rejectedCommands)
      requires Mirrors(sys, state, timerStarted, maintenance, now, before, faultRecord)
      modifies this`state, this`initResult, this`sys
      ensures Mirrored() && sys == Drain(DoStart(old(sys), driver.View(), err))
      ensures sys.actor.pc == InitWrites(err) && sys.actor.initResult == err == initResult
      ensures state.fault == Retained(faultRecord).Some?
    {
      StartMirrors(sys, driver.View(), err, state, timerStarted, maintenance, now, before, faultRecord);
      ReadFault();
      initResult := err;
      sys := Drain(DoStart(sys, driver.View(), err));
    }

    /** The initial state, with the fault RTC memory has retained. */
    method ReadFault()
      modifies this`state
      ensures state == BootFan(Retained(faultRecord))
    {
      var retained := Retained(faultRecord);
      state := BOOT_FAN.(fault := retained.Some?);
      state := state.(cause := if retained.Some? then retained.value else Fault(0, 0));
    }

    /** fan_init */
    method RunInit() returns (err: EspErr, ghost board: Hc238.Board)
      requires driver.Valid() && FanRefinement.GoodBoard(driver.View())
      requires driver.outputs == OUTPUTS
      modifies driver, driver.pads
      ensures driver.Valid() && FanRefinement.GoodBoard(driver.View())
      ensures (board, err) == Hc238.Init(old(driver.View()), OUTPUTS, driver.fails)
      ensures board == driver.View() && |old(driver.View()).log| <= |board.log|
    {
      FanRefinement.InitShows(driver.View(), driver.fails);
      err := driver.Init(FanTransition.BOARD);
      board := driver.View();
    }

    method TurnOff() returns (failed: bool, cause: Fault)
      requires Mirrored() && sys.actor.pc == InitWrites(initResult) && sys.actor.initResult == initResult
      modifies this`initResult, this`sys, driver`writes, driver`log, driver.pads
      ensures Mirrored() && sys == SoloTurnOff(old(sys), driver.fails) && sys.actor.initResult == initResult
      ensures state == old(state)
      ensures sys.actor.pc == if failed then BootLatch(0, cause) else BootPublish
    {
      if initResult != OK {
        failed, cause := true, Cause(initResult, FanTransition.DISABLE);
        sys := SoloTurnOff(sys, driver.fails);
      } else {
        failed, cause := BootOff();
      }
    }

    method BootOff() returns (failed: bool, cause: Fault)
      requires Mirrored() && sys.actor.pc == InitWrites(OK)
      modifies this`initResult, this`sys, driver`writes, driver`log, driver.pads
      ensures Mirrored() && sys == SoloTurnOff(old(sys), driver.fails) && sys.actor.initResult == initResult
      ensures state == old(state)
      ensures sys.actor.pc == if failed then BootLatch(0, cause) else BootPublish
    {
      ghost var s, before := sys, driver.View();
      ghost var o;
      var err, phase;
      err, phase, o := RunTransition(OFF);
      TurnsOff(s, driver.fails);
      OffMirrors(s, o, state, timerStarted, maintenance, now, before, faultRecord);
      initResult := err;
      failed, cause := err != OK, Cause(err, phase);
      sys := SoloOff(s, OK, o);
    }

    method LatchAtBoot(cause: Fault, ghost t: System)
      requires Mirrored() && t.shared == sys.shared
      requires Mirrors(t, state.(fault := true, cause := cause), timerStarted, maintenance, now, driver.View(),
                       AfterStores(faultRecord, STORES, cause))
      modifies this`faultRecord, this`state, this`sys
      ensures Mirrored() && sys == t && state.fault
    {
      LatchFanFault(cause);
      state := state.(fault := true, cause := cause);
      sys := t;
    }

    /** The head of the loop: wake up, look at the flag, take a command, look at the timer. */
    method BeginCycle(tick: Word)
      requires Mirrored() && sys.actor.pc.Sleep? && tick == Wrap(sys.time.clock)
      modifies this
      ensures Mirrored() && sys == SoloReceive(old(sys)) && sys.actor.pc.Decide?
    {
      now := tick;
      state := state.(coalesced := coalescedCommands, rejected := rejectedCommands);
      sys := DoWake(sys);
      LookAtFlag();
      TakeCommand();
    }

    method LookAtFlag()
      requires Mirrored() && sys.actor.pc.ReadFlag?
      modifies this`maintenance, this`quiesced, this`state, this`sys
      ensures Mirrored() && sys.actor.pc.Receive?
      ensures var t := DoReadFlag(old(sys)); sys == if t.actor.pc.ClearAck? then DoClearAck(t) else t
    {
      maintenance := maintenanceRequested;
      if maintenance && !state.fault {
        state := state.(state := IN_MAINTENANCE);
        state := state.(maintenance := true);
        state := state.(desired := OFF);
        state := state.(source := MAINTENANCE);
        CancelTimer();
        sys := DoReadFlag(sys);
      } else if !maintenance && !state.fault {
        state := state.(state := READY);
        state := state.(maintenance := false);
        quiesced := false;
        sys := DoClearAck(DoReadFlag(sys));
      } else {
        sys := DoReadFlag(sys);
      }
    }

    method TakeCommand()
      requires Mirrored() && sys.actor.pc.Receive?
      modifies this`mailbox, this`state, this`timerStarted, this`sys
      ensures Mirrored() && sys == DoReceive(old(sys)) && sys.actor.pc.Decide?
    {
      if !state.fault && !maintenance && mailbox.Some? {
        var command := mailbox.value;
        mailbox := None;
        InterpretCommand(command);
      }
      ghost var taken := DoTake(sys);
      assert taken.actor.fan == state && taken.actor.started == timerStarted;
      if !state.fault && !maintenance {
        var _ := TimerExpired();
      }
      sys := DoReceive(sys);
    }

    /** No fault, the driver open, and no write that fails. */
    ghost predicate Runs()
      reads this, driver, driver.pads
    {
      !state.fault && Healthy(driver.View(), driver.fails)
    }

    /** The body of the loop: one cycle while nobody else runs. It ends with the decoder at what the
        state says, unless a fault is latched, and that is in the record; under the flag it ends
        acknowledged and off, or with a fault. If nothing fails there is no fault, and a command that
        waits has been carried out, unless an older timer has just run out. */
    method ControlCycle(tick: Word)
      requires Valid() && sys.actor.pc.Sleep? && tick == Wrap(sys.time.clock)
      modifies this, driver`writes, driver`log, driver.pads
      ensures Valid() && sys.actor.pc.Sleep? && sys == SoloCycle(old(sys), driver.fails)
      ensures !state.fault ==> driver.View().Out() == FanTransition.SpeedOutput(state.applied)
      ensures !state.fault ==> state.desired == state.applied && state.accepted == state.appliedSeq && !state.pending
      ensures state.fault ==>
                state.applied == OFF && state.desired == OFF && !state.active && state.mode == AlwaysOn
      ensures state.fault && !old(state.fault) && driver.View().Out() != Hc238.Off ==>
                Hc238.FailedTwice(driver.log, old(|driver.log|))
      ensures state.fault && !old(state.fault) ==> Names(state.cause, driver.log, old(|driver.log|))
      ensures LastPublished(sys) == Some(state)
      ensures Retained(faultRecord) == if state.fault then Some(state.cause) else None
      ensures maintenanceRequested == old(maintenanceRequested)
      ensures maintenanceRequested ==>
                state.fault || (quiesced && state.applied == OFF && driver.View().Out() == Hc238.Off)
      ensures old(Runs()) ==> Runs()
      ensures old(Runs() && !maintenanceRequested && mailbox.Some?) ==>
                && state.accepted == old(mailbox.value.sequence)
                && ((state.applied == old(Wanted(state.desired, mailbox.value))
                     && state.source == old(Sender(state.source, mailbox.value)))
                    || (state.applied == OFF && state.source == TIMER && old(Overdue(state, tick, timerStarted))))
      ensures old(Runs() && !maintenanceRequested && mailbox.None?) ==>
                && state.accepted == old(state.accepted) && state.state == READY
                && if old(state.desired != OFF && Overdue(state, tick, timerStarted))
                   then state.applied == OFF && state.source == TIMER
                   else state.applied == old(state.desired) && state.source == old(state.source)
      ensures old(Runs() && maintenanceRequested) ==>
                && state.accepted == old(state.accepted) && state.state == IN_MAINTENANCE
                && state.applied == OFF && state.source == MAINTENANCE
      ensures state.coalesced == old(coalescedCommands) && state.rejected == old(rejectedCommands)
    {
      ghost var s := sys;
      CycleSteps(tick);
      SoloCycleReaches(s, driver.fails);
      SoloCycleCounts(s, driver.fails);
      ReachedRecord(sys);
      if Healthy(s.hw.board, driver.fails) && !s.actor.fan.fault {
        SoloCycleObeys(s, driver.fails);
        if s.shared.flag {
          ReceiveQuiesces(s);
        } else if s.shared.mailbox.Some? {
          ReceiveInterprets(s);
        } else {
          ReceiveExpires(s);
        }
      }
    }

    method CycleSteps(tick: Word)
      requires Mirrored() && sys.actor.pc.Sleep? && tick == Wrap(sys.time.clock)
      modifies this, driver`writes, driver`log, driver.pads
      ensures Mirrored() && sys.actor.pc.Sleep?
      ensures sys == SoloCycle(old(sys), driver.fails)
    {
      BeginCycle(tick);
      ApplySpeed();
      Acknowledge();
    }

    /** The end of the loop. */
    method Acknowledge()
      requires Mirrored() && sys.actor.pc.SetAck?
      modifies this`quiesced, this`state, this`sys
      ensures Mirrored() && sys.actor.pc.Sleep? && sys == DoPublish(DoSetAck(old(sys)))
    {
      state := state.(pending := state.desired != state.applied || state.accepted != state.appliedSeq);
      if maintenance && state.applied == OFF && !state.fault {
        quiesced := true;
      }
      sys := DoPublish(DoSetAck(sys));
    }

    /** The transition block of the loop. */
    method ApplySpeed()
      requires Mirrored() && sys.actor.pc.Decide?
      modifies this, driver`writes, driver`log, driver.pads
      ensures Mirrored() && sys.actor.pc.SetAck?
      ensures sys == SoloWrites(SoloDecide(old(sys), driver.fails))
    {
      if !state.fault && TransitionRequired(state.applied, state.desired) {
        var err, phase := BeginTransition();
        EndTransition(err, phase);
      } else {
        ghost var t := SoloDecide(sys, driver.fails);
        SettleMirrors(sys, FanTransition.Transition(sys.hw.board, driver.fails, state.desired), state,
                      timerStarted, maintenance, now, driver.View(), faultRecord);
        CountDuplicate(t);
        NothingToWrite(t);
      }
    }

    /** Its other branch; `t` is where the system goes. */
    method CountDuplicate(ghost t: System)
      requires Mirrored() && t.shared == sys.shared
      requires Mirrors(t, Settled(state), timerStarted, maintenance, now, driver.View(), faultRecord)
      modifies this`state, this`sys
      ensures Mirrored() && sys == t
    {
      if !state.fault && state.accepted != 0 && state.appliedSeq != state.accepted {
        state := state.(duplicates := Wrap(state.duplicates + 1));
        state := state.(appliedSeq := state.accepted);
      }
      sys := t;
    }

    /** fan_transition */
    method RunTransition(speed: Speed) returns (err: EspErr, phase: FanTransition.Phase, ghost o: FanTransition.Outcome)
      requires driver.Valid() && FanRefinement.GoodBoard(driver.View())
      modifies driver`writes, driver`log, driver.pads
      ensures driver.Valid() && FanRefinement.GoodBoard(driver.View())
      ensures o == FanTransition.Transition(old(driver.View()), driver.fails, speed)
      ensures o.board == driver.View() && err == o.err && phase == o.phase && |old(driver.View()).log| <= |o.board.log|
    {
      FanRefinement.TransitionMoves(driver.View(), driver.fails, speed);
      o := FanTransition.Transition(driver.View(), driver.fails, speed);
      err, phase := FanTransition.TransitionOn(driver, speed);
    }

    method BeginTransition() returns (err: EspErr, phase: FanTransition.Phase)
      requires Mirrored() && sys.actor.pc.Decide? && !state.fault && TransitionRequired(state.applied, state.desired)
      modifies this, driver`writes, driver`log, driver.pads
      ensures Mirrored() && sys.actor.pc == Writes(err, phase)
      ensures SoloWrites(sys) == SoloWrites(SoloDecide(old(sys), driver.fails))
    {
      ghost var s, before := sys, driver.View();
      ghost var o;
      err, phase, o := RunTransition(state.desired);
      assert SoloDecide(s, driver.fails) == DoDecide(s, o);
      CountAttempt(o, before);
    }

    /** The system catches up with a transition, which has taken the board from `before` to where it is. */
    method CountAttempt(ghost o: FanTransition.Outcome, ghost before: Hc238.Board)
      requires driver.Valid() && FanRefinement.GoodBoard(driver.View()) && o.board == driver.View()
          && |before.log| <= |o.board.log|
      requires sys.shared == Shared(maintenanceRequested, quiesced, mailbox, commandSequence, coalescedCommands,
          rejectedCommands)
      requires Mirrors(sys, state, timerStarted, maintenance, now, before, faultRecord)
      requires !state.fault && TransitionRequired(state.applied, state.desired)
      modifies this`state, this`sys
      ensures Mirrored() && sys.actor.pc == Writes(o.err, o.phase)
      ensures SoloWrites(sys) == SoloWrites(DoDecide(old(sys), o))
    {
      DecideMirrors(sys, o, state, timerStarted, maintenance, now, before, faultRecord);
      state := state.(attempted := Wrap(state.attempted + 1));
      sys := Drain(DoDecide(sys, o));
    }

    /** What follows fan_transition. */
    method EndTransition(err: EspErr, phase: FanTransition.Phase)
      requires Mirrored() && sys.actor.pc == Writes(err, phase)
      modifies this
      ensures Mirrored() && sys.actor.pc.SetAck?
      ensures sys == SoloWrites(old(sys))
    {
      WritesDone(sys, err, phase);
      if err == OK {
        state := state.(applied := state.desired);
        state := state.(appliedSeq := state.accepted);
        state := state.(completed := Wrap(state.completed + 1));
        sys := DoEndWrites(sys, err, phase);
      } else {
        FailureMirrors(sys, err, phase, state, timerStarted, maintenance, now, driver.View(), faultRecord);
        FailTransition(Cause(err, phase), LatchAll(DoEndWrites(sys, err, phase)));
      }
    }

    method RecordFailure(cause: Fault)
      modifies this`state
      ensures state == Failed(old(state), cause)
    {
      state := state.(applied := OFF, desired := OFF);
      state := state.(fault := true, state := FAULT_LATCHED);
      state := state.(cause := cause);
      CancelTimer();
    }

    /** The failure branch; `t` is where the system goes. */
    method FailTransition(cause: Fault, ghost t: System)
      requires Mirrored() && t.shared == sys.shared
      requires Mirrors(t, Failed(state, cause), timerStarted, maintenance, now, driver.View(),
                       AfterStores(faultRecord, STORES, cause))
      modifies this`state, this`faultRecord, this`sys
      ensures Mirrored() && sys == t
    {
      RecordFailure(cause);
      LatchFanFault(cause);
      sys := t;
    }

    /** submit_command; `seen` is what fan_control_get_snapshot returned, the k-th snapshot published. */
    method SubmitCommand(command: Command, seen: Fan, ghost k: nat) returns (err: EspErr, sequence: Word)
      requires Valid() && Submittable(command) && k < |sys.effects.published| && sys.effects.published[k] == seen
      modifies this`commandSequence, this`coalescedCommands, this`rejectedCommands, this`mailbox, this`sys
      ensures Valid() && sys == DoSubmit(old(sys), command, seen)
      ensures err == (if seen.fault then INVALID_STATE else if old(maintenanceRequested) then NOT_ALLOWED else OK)
      ensures err == OK ==> mailbox == Some(command.(sequence := sequence)) && sequence == commandSequence != 0
      ensures err != OK ==> mailbox == old(mailbox) && commandSequence == old(commandSequence)
    {
      ghost var s := sys;
      err, sequence := TrySubmit(command, seen);
      StepStaysReached(s, Submit(command, k));
    }

    method TrySubmit(command: Command, seen: Fan) returns (err: EspErr, sequence: Word)
      requires Mirrored()
      modifies this`commandSequence, this`coalescedCommands, this`rejectedCommands, this`mailbox, this`sys
      ensures Mirrored() && sys == DoSubmit(old(sys), command, seen)
      ensures err == (if seen.fault then INVALID_STATE else if old(maintenanceRequested) then NOT_ALLOWED else OK)
      ensures err == OK ==> mailbox == Some(command.(sequence := sequence)) && sequence == commandSequence != 0
      ensures err != OK ==> mailbox == old(mailbox) && commandSequence == old(commandSequence)
    {
      sequence := 0;
      if seen.fault || maintenanceRequested {
        err := if seen.fault then INVALID_STATE else NOT_ALLOWED;
        rejectedCommands := Wrap(rejectedCommands + 1);
        sys := DoSubmit(sys, command, seen);
      } else {
        err := OK;
        sequence := AcceptCommand(command, seen);
      }
    }

    /** The accepting end of the critical section. */
    method AcceptCommand(command: Command, ghost seen: Fan) returns (sequence: Word)
      requires Mirrored() && !maintenanceRequested && !seen.fault
      modifies this`commandSequence, this`coalescedCommands, this`mailbox, this`sys
      ensures Mirrored() && sys == DoSubmit(old(sys), command, seen)
      ensures mailbox == Some(command.(sequence := sequence)) && sequence == commandSequence != 0
    {
      sequence := NextSequence(commandSequence);
      commandSequence := sequence;
      if mailbox.Some? {
        coalescedCommands := Wrap(coalescedCommands + 1);
      }
      mailbox := Some(command.(sequence := sequence));
      sys := DoSubmit(sys, command, seen);
    }

    /** fan_control_quiesce up to its wait: the flag is set, and no command is left to be taken. */
    method RequestQuiesce(ghost q: nat)
      requires Valid() && q !in sys.quiescers
      modifies this
      ensures Valid() && sys == DoQuiesceSet(old(sys), q) && maintenanceRequested && mailbox == None
    {
      ghost var s := sys;
      SetFlag(q);
      StepStaysReached(s, QuiesceSet(q));
    }

    method SetFlag(ghost q: nat)
      requires Mirrored()
      modifies this`maintenanceRequested, this`coalescedCommands, this`mailbox, this`sys
      ensures Mirrored() && sys == DoQuiesceSet(old(sys), q) && maintenanceRequested && mailbox == None
    {
      maintenanceRequested := true;
      if mailbox.Some? {
        coalescedCommands := Wrap(coalescedCommands + 1);
      }
      mailbox := None;
      sys := DoQuiesceSet(sys, q);
    }

    /** The end of fan_control_quiesce, when its wait is over. ESP_OK means that the fan is off, down
        to the pins, and wanted off; and that no command waits, if the flag is still set. */
    method FinishQuiesce(ghost q: nat) returns (err: EspErr)
      requires Valid() && q in sys.quiescers && sys.quiescers[q].Waiting?
      modifies this
      ensures Valid()
      ensures if old(quiesced) then err == OK && sys == DoQuiesceReturn(old(sys), q)
              else err == TIMEOUT && !maintenanceRequested && sys == DoEndMaintenance(Next(old(sys), QuiesceTimeout(q)))
      ensures err == OK ==>
                && !state.fault && state.applied == OFF && state.desired == OFF && driver.View().Out() == Hc238.Off
                && maintenanceRequested == old(maintenanceRequested) && (maintenanceRequested ==> mailbox == None)
    {
      if !quiesced {
        StepStaysReached(sys, QuiesceTimeout(q));
        sys := Next(sys, QuiesceTimeout(q));
        var _ := EndMaintenance();
        return TIMEOUT;
      }
      ReachedAcknowledged(sys);
      StepStaysReached(sys, QuiesceReturn(q));
      sys := DoQuiesceReturn(sys, q);
      return OK;
    }

    /** fan_control_end_maintenance */
    method EndMaintenance() returns (wasActive: bool)
      requires Valid()
      modifies this`maintenanceRequested, this`sys
      ensures Valid() && sys == DoEndMaintenance(old(sys))
      ensures !maintenanceRequested && wasActive == old(maintenanceRequested)
    {
      StepStaysReached(sys, FanControl.EndMaintenance);
      wasActive := maintenanceRequested;
      maintenanceRequested := false;
      sys := DoEndMaintenance(sys);
    }

    /** Time passes. */
    ghost method Pass(ticks: nat)
      requires Valid()
      modifies this`sys
      ensures Valid() && sys == old(sys).(time := old(sys).time.(clock := old(sys).time.clock + ticks))
    {
      StepStaysReached(sys, Tick(ticks));
      sys := Next(sys, Tick(ticks));
    }
  }

  /** The controller as power-on finds it. */
  method PowerOn(fails: nat -> bool) returns (controller: Controller)
    ensures controller.Valid() && fresh(controller) && fresh(controller.driver) && fresh(controller.driver.pads)
    ensures controller.driver.outputs == OUTPUTS && controller.driver.fails == fails
    ensures controller.sys == Reboot(CLEARED, false, false, ResetPads())
  {
    var pads := new Hc238.Pad[PAD_COUNT](_ => Hc238.Pad(false, false));
    assert pads[..] == ResetPads();
    var driver := new Hc238Driver.Driver(pads, OUTPUTS, fails, FanTransition.BOARD);
    PowerOnIsReached(Reboot(CLEARED, false, false, pads[..]));
    controller := new Controller(driver, CLEARED, false, false);
  }

  /** And as the boot leaves it when nothing fails. */
  method FirstBoot(fails: nat -> bool) returns (controller: Controller)
    requires Hc238.Works(fails)
    ensures controller.Valid() && controller.Runs() && controller.sys.actor.pc.Sleep?
    ensures fresh(controller) && fresh(controller.driver) && fresh(controller.driver.pads)
    ensures controller.state.desired == OFF && !controller.state.active && !controller.maintenanceRequested
    ensures controller.sys.time.clock == 0 && LastPublished(controller.sys) == Some(controller.state)
  {
    controller := PowerOn(fails);
    var _ := controller.Boot(true);
  }

  /** Key 1 is pressed, some time passes, and one cycle later the fan runs at its first speed - however
      long that took, if only nothing fails. */
  method FirstPress(fails: nat -> bool, ticks: nat) returns (controller: Controller)
    requires Hc238.Works(fails)
    ensures controller.Valid() && controller.Runs()
    ensures controller.state.applied == 1 && controller.driver.View().Out() == FanTransition.SpeedOutput(1)
  {
    controller := FirstBoot(fails);
    ghost var newest := |controller.sys.effects.published| - 1;
    var _, _ := controller.SubmitCommand(Command(CycleNormal, OFF, TOUCH, false, 0), controller.state, newest);
    assert controller.sys.actor.pc.Sleep? && controller.sys.time.clock == 0;
    controller.Pass(ticks);
    controller.ControlCycle(Wrap(ticks));
  }
}
