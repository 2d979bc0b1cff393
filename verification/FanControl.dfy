/** The fan actor of main/fan_control.c and everything that runs beside it, as a transition
    system: one step per access to shared memory, to the decoder pins or to the RTC record.
    Critical sections are one step. History variables only remember; no step depends on them. */
module FanControl {
  import opened Esp
  import opened FanPolicy
  import opened FaultRecord
  import Hc238
  import FanTransition

  // --- Commands and the actor's state struct --------------------------------------------------

  datatype Action = SetSpeed | CycleNormal | ToggleTurbo | CycleTimer
  datatype Source = BOOT | TOUCH | REST | TIMER | MAINTENANCE
  datatype Mode = H2 | H4 | H8 | AlwaysOn
  datatype ControlState = STARTING | READY | IN_MAINTENANCE | FAULT_LATCHED

  datatype Command = Command(action: Action, speed: Speed, source: Source, cancelTimer: bool, sequence: Word)

  /** fan_control_snapshot_t, without its timing and stack statistics. */
  datatype Fan = Fan(
    applied: Speed, desired: Speed, source: Source, state: ControlState,
    mode: Mode, active: bool, pending: bool, fault: bool, maintenance: bool,
    accepted: Word, appliedSeq: Word,
    attempted: Word, completed: Word, duplicates: Word, coalesced: Word, rejected: Word,
    cause: Fault)

  const BOOT_FAN := Fan(OFF, OFF, BOOT, STARTING, AlwaysOn, false, false, false, false,
                        0, 0, 0, 0, 0, 0, 0, Fault(0, 0))

  /** ESP-IDF's default tick rate, which sdkconfig.defaults leaves alone. */
  const HZ: nat := 100

  /** pdMS_TO_TICKS, in 32-bit arithmetic */
  function MsToTicks(ms: nat): Word {
    Wrap(ms * HZ) / 1000
  }

  function Duration(mode: Mode): Word {
    match mode
    case H2 => MsToTicks(2 * 60 * 60 * 1000)
    case H4 => MsToTicks(4 * 60 * 60 * 1000)
    case H8 => MsToTicks(8 * 60 * 60 * 1000)
    case AlwaysOn => 0
  }

  function NextMode(mode: Mode): Mode {
    match mode
    case H2 => H4
    case H4 => H8
    case H8 => AlwaysOn
    case AlwaysOn => H2
  }

  function CancelTimer(f: Fan): Fan {
    f.(mode := AlwaysOn, active := false)
  }

  /** interpret_command; the second result is the new timer_started. */
  function Interpret(f: Fan, c: Command, now: Word, started: Word): (Fan, Word) {
    var f := f.(accepted := c.sequence);
    match c.action
    case CycleTimer =>
      if f.desired != OFF then
        var mode := NextMode(f.mode);
        (f.(mode := mode, active := mode != AlwaysOn, appliedSeq := c.sequence), now)
      else
        (f.(appliedSeq := c.sequence), started)
    case CycleNormal => (OffCancels(f.(desired := NextNormalSpeed(f.desired), source := TOUCH)), started)
    case ToggleTurbo => (OffCancels(f.(desired := FanPolicy.ToggleTurbo(f.desired), source := TOUCH)), started)
    case SetSpeed =>
      var f := f.(desired := c.speed, source := c.source);
      (OffCancels(if c.cancelTimer || c.speed == OFF then CancelTimer(f) else f), started)
  }

  function OffCancels(f: Fan): Fan {
    if f.desired == OFF then CancelTimer(f) else f
  }

  /** The condition of timer_expired. */
  predicate TimerFires(f: Fan, now: Word, started: Word) {
    f.active && f.desired != OFF && TickElapsed(now, started, Duration(f.mode))
  }

  /** timer_expired */
  function Expire(f: Fan, now: Word, started: Word): Fan {
    if TimerFires(f, now, started) then CancelTimer(f.(desired := OFF, source := TIMER)) else f
  }

  // --- The system ------------------------------------------------------------------------------

  /** Where the actor stands. */
  datatype Pc =
    | Start // after a reset
    | InitWrites(err: EspErr) // fan_init is writing pins
    | OffWrites(err: EspErr, phase: FanTransition.Phase) // the boot-time OFF transition is
    | BootLatch(stores: nat, cause: Fault)
    | BootPublish
    | Suspended
    | Sleep
    | ReadFlag
    | ClearAck
    | Receive
    | Decide
    | Writes(err: EspErr, phase: FanTransition.Phase)
    | Latch(stores: nat, cause: Fault)
    | SetAck
    | Publish

  datatype Actor = Actor(pc: Pc, fan: Fan, initResult: EspErr, maintenance: bool, now: Word, started: Word)

  datatype Shared = Shared(flag: bool, ack: bool, mailbox: Option<Command>, sequence: Word, coalesced: Word,
        rejected: Word)

  /** `board` already holds the pads as they will be once the writes under way are done; `out` is
      the output selected right now and `todo` the outputs each remaining write will show. */
  datatype Hardware = Hardware(board: Hc238.Board, out: Hc238.Output, todo: seq<Hc238.Output>, rtc: Record)

  /** A call of fan_control_quiesce, with the number of flag clearings before it set the flag. */
  datatype Quiescer = Waiting(clears: nat) | Holding(clears: nat)

  // History: unbounded time; commands (`taken` holds the ordinal numbers of the interpreted ones
  // among all submitted); sets and clears of the flag; effects; and, since the last power-on,
  // whether a fault latching has returned and whether a reset tore one after that.
  datatype Time = Time(clock: nat, nowTrue: nat, startedTrue: nat, gapsOk: bool)
  datatype Book = Book(submitted: seq<Command>, taken: seq<nat>, dropped: nat, burstsOk: bool, newCommand: bool,
                       handled: nat, spontaneous: nat, attempts: nat, duplicates: nat, refused: nat)
  datatype Epoch = Epoch(sets: nat, clears: nat, mailboxSet: nat)
  datatype Effects = Effects(published: seq<Fan>, rises: nat, completedOn: nat)
  datatype Life = Life(latched: bool, torn: bool)

  datatype System = System(shared: Shared, actor: Actor, hw: Hardware, quiescers: map<nat, Quiescer>,
                           time: Time, book: Book, epoch: Epoch, effects: Effects, life: Life)

  const PAD_COUNT: nat := 47

  /** GPIO_IS_VALID_OUTPUT_GPIO; anything that includes the board's three pins would do. */
  const OUTPUTS: set<int> := set g: int | 0 <= g < PAD_COUNT - 1

  lemma BoardIsValid()
    ensures Hc238.ValidConfig(OUTPUTS, FanTransition.BOARD)
  {
    var cfg := FanTransition.BOARD;
    assert cfg[Hc238.E3].Controlled();
    assert forall i | 0 <= i < 6 :: Hc238.PinValid(OUTPUTS, cfg[i]);
  }

  function ResetPads(): (pads: seq<Hc238.Pad>)
    ensures |pads| == PAD_COUNT
  {
    seq(PAD_COUNT, _ => Hc238.Pad(false, false))
  }

  /** RAM after any reset; only the RTC record and its bookkeeping carry over, and the pads are as
      the reset has left them. */
  function Reboot(rtc: Record, latched: bool, torn: bool, pads: seq<Hc238.Pad>): System {
    System(
      Shared(false, false, None, 0, 0, 0),
      Actor(Start, BOOT_FAN, INVALID_STATE, false, 0, 0),
      Hardware(Hc238.Board(FanTransition.BOARD, pads, false, []), Hc238.Decode(FanTransition.BOARD, pads), [], rtc),
      map[],
      Time(0, 0, 0, true),
      Book([], [], 0, true, false, 0, 0, 0, 0, 0),
      Epoch(0, 0, 0),
      Effects([BOOT_FAN], 0, 0),
      Life(latched, torn))
  }

  predicate Initial(s: System) {
    s == Reboot(CLEARED, false, false, ResetPads())
  }

  // --- Actor steps -------------------------------------------------------------------------------

  function ErrorCode(err: EspErr): bv32 {
    match err
    case OK => 0
    case FAIL => 0xffff_ffff
    case INVALID_ARG => 0x102
    case INVALID_STATE => 0x103
    case INVALID_SIZE => 0x104
    case NOT_FOUND => 0x105
    case NOT_ALLOWED => 0x10d
    case TIMEOUT => 0x107
    case VALIDATE_FAILED => 0x1503
    case ROLLBACK_INVALID_STATE => 0x1506
  }

  function PhaseCode(phase: FanTransition.Phase): bv32 {
    match phase
    case NONE => 0
    case DISABLE => 1
    case ADDRESS => 2
    case ENABLE => 3
  }

  function Cause(err: EspErr, phase: FanTransition.Phase): Fault {
    Fault(ErrorCode(err), PhaseCode(phase))
  }

  function At(s: System, pc: Pc): System {
    s.(actor := s.actor.(pc := pc))
  }

  function WithFan(s: System, f: Fan, pc: Pc): System {
    s.(actor := s.actor.(fan := f, pc := pc))
  }

  /** The board moves on; its writes become visible one by one. */
  function BeginWrites(hw: Hardware, board: Hc238.Board): Hardware
    requires |hw.board.log| <= |board.log|
  {
    hw.(board := board, todo := FanTransition.Shown(board.log, |hw.board.log|))
  }

  /** The environment's part in an actor step: which pin writes fail, what fan_init and
      fan_transition then do (`Legit`), and whether the watchdog accepts the actor. */
  datatype Env = Env(fails: nat -> bool, init: Hc238.Board, initErr: EspErr, outcome: FanTransition.Outcome,
        watchdogOk: bool)

  predicate Legit(s: System, env: Env) {
    && (s.actor.pc.Start? ==> (env.init, env.initErr) == Hc238.Init(s.hw.board, OUTPUTS, env.fails))
    && (s.actor.pc.InitWrites? ==> env.outcome == FanTransition.Transition(s.hw.board, env.fails, OFF))
    && (s.actor.pc.Decide? ==> env.outcome == FanTransition.Transition(s.hw.board, env.fails, s.actor.fan.desired))
  }

  /** Reads the retained fault and calls fan_init. */
  function DoStart(s: System, board: Hc238.Board, err: EspErr): System {
    var retained := Retained(s.hw.rtc);
    if |board.log| < |s.hw.board.log| then s
    else s.(
      actor := s.actor.(
        fan := BOOT_FAN.(fault := retained.Some?, cause := if retained.Some? then retained.value else Fault(0, 0)),
        initResult := err,
        pc := InitWrites(err)),
      hw := BeginWrites(s.hw, board))
  }

  function DoPinWrite(s: System): System
    requires s.hw.todo != []
  {
    var next := s.hw.todo[0];
    s.(
      hw := s.hw.(out := next, todo := s.hw.todo[1..]),
      effects := s.effects.(rises := s.effects.rises + if s.hw.out == Hc238.Off && next != Hc238.Off then 1 else 0))
  }

  /** fan_init is done; on success the boot-time OFF transition follows. */
  function DoEndInit(s: System, err: EspErr, o: FanTransition.Outcome): System {
    if err != OK then At(s, BootLatch(0, Cause(err, FanTransition.DISABLE)))
    else
      if |o.board.log| < |s.hw.board.log| then s
      else s.(actor := s.actor.(initResult := o.err, pc := OffWrites(o.err, o.phase)), hw := BeginWrites(s.hw, o.board))
  }

  function DoEndOff(s: System, err: EspErr, phase: FanTransition.Phase): System {
    At(s, if err != OK then BootLatch(0, Cause(err, phase)) else BootPublish)
  }

  /** One store of diagnostics_latch_fan_fault, or its return. */
  function DoBootLatch(s: System, stores: nat, cause: Fault): System {
    if stores < STORES then
      At(s.(hw := s.hw.(rtc := Store(s.hw.rtc, stores, cause))), BootLatch(stores + 1, cause))
    else
      WithFan(s.(life := Life(true, false)), s.actor.fan.(fault := true, cause := cause), BootPublish)
  }

  /** Registers with the watchdog, publishes, and enters the loop or suspends. */
  function DoBootPublish(s: System, watchdogOk: bool): System {
    var result := if s.actor.initResult == OK && !watchdogOk then FAIL else s.actor.initResult;
    var f := s.actor.fan.(state := if s.actor.fan.fault then FAULT_LATCHED else READY);
    s.(
      actor := s.actor.(fan := f, initResult := result, pc := if result == OK then Sleep else Suspended),
      effects := s.effects.(published := s.effects.published + [f]))
  }

  function DoWake(s: System): System {
    s.(
      actor := s.actor.(
        now := Wrap(s.time.clock),
        fan := s.actor.fan.(coalesced := s.shared.coalesced, rejected := s.shared.rejected),
        pc := ReadFlag),
      time := s.time.(
        nowTrue := s.time.clock,
        gapsOk := s.time.gapsOk && s.time.clock - s.time.nowTrue < WORD - Duration(s.actor.fan.mode)))
  }

  function DoReadFlag(s: System): System {
    var f := s.actor.fan;
    var t := s.(actor := s.actor.(maintenance := s.shared.flag));
    if s.shared.flag && !f.fault then
      WithFan(t, CancelTimer(f.(state := IN_MAINTENANCE, maintenance := true, desired := OFF, source := MAINTENANCE)),
        Receive)
    else if !s.shared.flag && !f.fault then
      WithFan(t, f.(state := READY, maintenance := false), ClearAck)
    else
      At(t, Receive)
  }

  function DoClearAck(s: System): System {
    At(s.(shared := s.shared.(ack := false)), Receive)
  }

  /** Takes the command, if any. */
  function DoTake(s: System): System {
    if !s.actor.fan.fault && !s.actor.maintenance && s.shared.mailbox.Some? then
      var c := s.shared.mailbox.value;
      var (f, started) := Interpret(s.actor.fan, c, s.actor.now, s.actor.started);
      s.(
        shared := s.shared.(mailbox := None),
        actor := s.actor.(fan := f, started := started),
        time :=
          if c.action.CycleTimer? && s.actor.fan.desired != OFF then
            s.time.(startedTrue := s.time.nowTrue, gapsOk := true)
          else s.time,
        book := s.book.(
          burstsOk := s.book.burstsOk && (s.book.taken == []
            || |s.book.submitted| - s.book.taken[|s.book.taken| - 1] < WORD - 1),
          newCommand := !c.action.CycleTimer?,
          handled := s.book.handled + if c.action.CycleTimer? then 0 else 1,
          taken := s.book.taken + [|s.book.submitted|]))
    else
      s.(book := s.book.(newCommand := false))
  }

  /** Takes the command, if any, and looks at the shutoff timer. */
  function DoReceive(s: System): System {
    var t := DoTake(s);
    if !t.actor.fan.fault && !t.actor.maintenance then
      WithFan(t, Expire(t.actor.fan, t.actor.now, t.actor.started), Decide)
    else
      At(t, Decide)
  }

  function DoDecide(s: System, o: FanTransition.Outcome): System {
    var f := s.actor.fan;
    if !f.fault && TransitionRequired(f.applied, f.desired) then
      if |o.board.log| < |s.hw.board.log| then s
      else
        WithFan(
          s.(hw := BeginWrites(s.hw, o.board),
             book := s.book.(attempts := s.book.attempts + 1,
                             spontaneous := s.book.spontaneous + if s.book.newCommand then 0 else 1)),
          f.(attempted := Wrap(f.attempted + 1)), Writes(o.err, o.phase))
    else if !f.fault && f.accepted != 0 && f.appliedSeq != f.accepted then
      WithFan(s.(book := s.book.(duplicates := s.book.duplicates + 1)),
              f.(duplicates := Wrap(f.duplicates + 1), appliedSeq := f.accepted), SetAck)
    else
      At(s, SetAck)
  }

  function Failed(f: Fan, cause: Fault): Fan {
    CancelTimer(f.(applied := OFF, desired := OFF, fault := true, state := FAULT_LATCHED, cause := cause))
  }

  function DoEndWrites(s: System, err: EspErr, phase: FanTransition.Phase): System {
    var f := s.actor.fan;
    if err == OK then
      WithFan(s.(effects := s.effects.(completedOn := s.effects.completedOn + if f.desired != OFF then 1 else 0)),
              f.(applied := f.desired, appliedSeq := f.accepted, completed := Wrap(f.completed + 1)), SetAck)
    else
      WithFan(s, Failed(f, Cause(err, phase)), Latch(0, Cause(err, phase)))
  }

  function DoLatch(s: System, stores: nat, cause: Fault): System {
    if stores < STORES then
      At(s.(hw := s.hw.(rtc := Store(s.hw.rtc, stores, cause))), Latch(stores + 1, cause))
    else
      At(s.(life := Life(true, false)), SetAck)
  }

  function DoSetAck(s: System): System {
    var f := s.actor.fan.(pending := s.actor.fan.desired != s.actor.fan.applied
      || s.actor.fan.accepted != s.actor.fan.appliedSeq);
    WithFan(
      s.(shared := s.shared.(ack := s.shared.ack || (s.actor.maintenance && f.applied == OFF && !f.fault))),
      f, Publish)
  }

  function DoPublish(s: System): System {
    At(s.(effects := s.effects.(published := s.effects.published + [s.actor.fan])), Sleep)
  }

  /** What the actor does next. */
  function ActorStep(s: System, env: Env): System {
    if s.hw.todo != [] then DoPinWrite(s)
    else match s.actor.pc
      case Start => DoStart(s, env.init, env.initErr)
      case InitWrites(err) => DoEndInit(s, err, env.outcome)
      case OffWrites(err, phase) => DoEndOff(s, err, phase)
      case BootLatch(stores, cause) => DoBootLatch(s, stores, cause)
      case BootPublish => DoBootPublish(s, env.watchdogOk)
      case Suspended => s
      case Sleep => DoWake(s)
      case ReadFlag => DoReadFlag(s)
      case ClearAck => DoClearAck(s)
      case Receive => DoReceive(s)
      case Decide => DoDecide(s, env.outcome)
      case Writes(err, phase) => DoEndWrites(s, err, phase)
      case Latch(stores, cause) => DoLatch(s, stores, cause)
      case SetAck => DoSetAck(s)
      case Publish => DoPublish(s)
  }

  // --- Everybody else ------------------------------------------------------------------------------

  /** submit_command, from its critical section on; `seen` is the snapshot its check read before. */
  function DoSubmit(s: System, c: Command, seen: Fan): System {
    if seen.fault || s.shared.flag then
      s.(shared := s.shared.(rejected := Wrap(s.shared.rejected + 1)), book := s.book.(refused := s.book.refused + 1))
    else
      var next := NextSequence(s.shared.sequence);
      var c := c.(sequence := next);
      var full := if s.shared.mailbox.Some? then 1 else 0;
      s.(
        shared := s.shared.(mailbox := Some(c), sequence := next, coalesced := Wrap(s.shared.coalesced + full)),
        book := s.book.(submitted := s.book.submitted + [c], dropped := s.book.dropped + full),
        epoch := s.epoch.(mailboxSet := s.epoch.sets))
  }

  /** The critical section of fan_control_quiesce. */
  function DoQuiesceSet(s: System, q: nat): System {
    var full := if s.shared.mailbox.Some? then 1 else 0;
    s.(
      shared := s.shared.(flag := true, mailbox := None, coalesced := Wrap(s.shared.coalesced + full)),
      quiescers := s.quiescers[q := Waiting(s.epoch.clears)],
      book := s.book.(dropped := s.book.dropped + full),
      epoch := s.epoch.(sets := s.epoch.sets + 1))
  }

  /** fan_control_quiesce sees the acknowledgement and returns ESP_OK. */
  function DoQuiesceReturn(s: System, q: nat): System
    requires q in s.quiescers
  {
    s.(quiescers := s.quiescers[q := Holding(s.quiescers[q].clears)])
  }

  /** fan_control_end_maintenance, by anyone: a holder, a timed-out quiescer or a third party. */
  function DoEndMaintenance(s: System): System {
    s.(shared := s.shared.(flag := false), epoch := s.epoch.(clears := s.epoch.clears + 1))
  }

  /** What a reset may make of the pads. A warm reset may keep them, clear them or anything in
      between, as long as that selects no other output; a power-on reset leaves none selected. */
  predicate Leaves(s: System, powerOn: bool, pads: seq<Hc238.Pad>) {
    var out := Hc238.Decode(FanTransition.BOARD, pads);
    |pads| == PAD_COUNT && (out == Hc238.Off || (!powerOn && out == s.hw.out))
  }

  function DoReset(s: System, powerOn: bool, pads: seq<Hc238.Pad>): System {
    if powerOn then Reboot(CLEARED, false, false, pads)
    else Reboot(s.hw.rtc, s.life.latched, s.life.torn || (s.life.latched && MidLatch(s.actor.pc)), pads)
  }

  /** Inside diagnostics_latch_fan_fault, with the record not whole. */
  predicate MidLatch(pc: Pc) {
    (pc.BootLatch? || pc.Latch?) && 0 < pc.stores < STORES
  }

  datatype Step =
    | ActorRuns(env: Env)
    | Tick(ticks: nat)
    | Submit(command: Command, seen: nat)
    | QuiesceSet(q: nat)
    | QuiesceReturn(q: nat)
    | QuiesceTimeout(q: nat)
    | EndMaintenance
    | Reset(powerOn: bool, pads: seq<Hc238.Pad>)

  /** Only what fan_control_submit_speed and fan_control_submit_action let through. */
  predicate Submittable(c: Command) {
    c.action.SetSpeed? || (c.speed == OFF && c.source == TOUCH && !c.cancelTimer)
  }

  predicate Enabled(s: System, step: Step) {
    match step
    case ActorRuns(env) => Legit(s, env)
    case Tick(_) => true
    case Submit(c, seen) => Submittable(c) && seen < |s.effects.published|
    case QuiesceSet(q) => q !in s.quiescers
    case QuiesceReturn(q) => q in s.quiescers && s.quiescers[q].Waiting? && s.shared.ack
    case QuiesceTimeout(q) => q in s.quiescers && s.quiescers[q].Waiting?
    case EndMaintenance => true
    case Reset(powerOn, pads) => Leaves(s, powerOn, pads)
  }

  function Next(s: System, step: Step): System
    requires Enabled(s, step)
  {
    match step
    case ActorRuns(env) => ActorStep(s, env)
    case Tick(ticks) => s.(time := s.time.(clock := s.time.clock + ticks))
    case Submit(c, seen) => DoSubmit(s, c, s.effects.published[seen])
    case QuiesceSet(q) => DoQuiesceSet(s, q)
    case QuiesceReturn(q) => DoQuiesceReturn(s, q)
    case QuiesceTimeout(q) => s.(quiescers := s.quiescers - {q})
    case EndMaintenance => DoEndMaintenance(s)
    case Reset(powerOn, pads) => DoReset(s, powerOn, pads)
  }

  predicate StepAt(states: seq<System>, steps: seq<Step>, i: nat)
    requires i < |steps| < |states|
  {
    Enabled(states[i], steps[i]) && states[i + 1] == Next(states[i], steps[i])
  }

  /** `states` is an execution driven by `steps`. */
  predicate Run(states: seq<System>, steps: seq<Step>) {
    && |states| == |steps| + 1
    && Initial(states[0])
    && (forall i | 0 <= i < |steps| :: StepAt(states, steps, i))
  }
}
