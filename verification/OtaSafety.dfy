/** The OTA worker's flash calls against the fan: main/ota_worker.c and main/ota_update.c under the
    HTTP server task (main/network.c) and the main loop (main/main.c), on top of the system of
    module `FanControl`. Commands reach the worker one at a time and their results go back to
    their callers, as module `Rendezvous` proves. */
module OtaSafety {
  import FanControl
  import FanRefinement
  import Hc238
  import Quiesce

  datatype Command = BEGIN | WRITE | FINISH | ABORT | SELECT | CONFIRM | ROLLBACK

  predicate FromMain(c: Command) {
    c.CONFIRM? || c.ROLLBACK?
  }

  predicate Quiesces(c: Command) {
    c.BEGIN? || c.SELECT? || FromMain(c)
  }

  datatype Result = Ok | TimedOut | NotFound | Other

  datatype FlashCall = Erase | Write | End | SetBoot | MarkValid | MarkInvalid

  /** The HTTP server task: between requests; in the receive loop of an upload; waiting for the
      worker; on the way to ota_worker_abort in ota_failure; and about to call
      fan_control_end_maintenance after it, or in the rollback handler. */
  datatype Http = Between | Streaming | HttpWaits(c: Command) | GivingUp | Releasing

  datatype Main = Looping | MainWaits(c: Command)

  /** The worker task: before, in and after fan_control_quiesce; at the flash calls of a command,
      `stage` counting the ones that have to succeed first; in fail_maintenance; done. */
  datatype Worker =
    | Idle
    | SettingFlag(c: Command)
    | AwaitingAck(c: Command, q: nat)
    | TimingOut(c: Command)
    | Acting(c: Command, stage: nat, q: nat)
    | Aborting(c: Command, result: Result)
    | Ending(c: Command, result: Result)
    | Unbusying(c: Command, result: Result)
    | Done(c: Command, result: Result)
    | Rebooting

  /** `busy` and `session` are s_busy of the worker and of ota_update.c, `pending` is the running
      image's state in flash, `mainPending` the main loop's ota_pending. `holder` remembers the
      quiescer of the open session; `released` whether the HTTP task has ended maintenance since
      the worker last set the flag; `stranded` whether the flag is what a failed rollback has left. */
  datatype Ota = Ota(http: Http, main: Main, worker: Worker, busy: bool, session: bool,
                     pending: bool, mainPending: bool, nextQ: nat, holder: nat, released: bool, stranded: bool)

  datatype System = System(fan: FanControl.System, ota: Ota)

  function Boot(fan: FanControl.System, pending: bool): System {
    System(fan, Ota(Between, Looping, Idle, false, false, pending, pending, 0, 0, false, false))
  }

  predicate Initial(s: System) {
    FanControl.Initial(s.fan) && s == Boot(s.fan, s.ota.pending)
  }

  datatype Step =
    | Fan(step: FanControl.Step)
    | HttpCalls(c: Command)
    | HttpGoesToRelease // the rollback handler, when the cached validation is negative
    | HttpReleases
    | MainCalls(c: Command)
    | WorkerTakes(c: Command)
    | WorkerSetsFlag
    | WorkerSeesAck
    | WorkerTimesOut
    | WorkerGivesUp
    | WorkerRefuses(result: Result)
    | WorkerFlash(call: FlashCall, ok: bool, more: bool)
    | WorkerAborts
    | WorkerEnds
    | WorkerUnbusies
    | WorkerAnswers
    | Reset(powerOn: bool, pads: seq<Hc238.Pad>, pending: bool)

  /** The fan's own steps; everything about the flag goes through the OTA side, since no
      provisioning request overlaps. */
  predicate FansOwn(step: FanControl.Step) {
    step.ActorRuns? || step.Tick? || step.Submit?
  }

  /** The flash call of a command at a stage, if it comes to one. */
  predicate Calls(o: Ota, call: FlashCall) {
    o.worker.Acting? &&
    match o.worker.c
    case BEGIN => call == (if o.worker.stage < 2 then Erase else Write) && (o.worker.stage == 1 ==> !o.pending)
    case WRITE => o.session && call == Write
    case FINISH => (o.session || o.worker.stage == 1) && call == (if o.worker.stage == 0 then End else SetBoot)
    case ABORT => false
    case SELECT => !o.session && call == SetBoot
    case CONFIRM => call == MarkValid && o.worker.stage == 0
    case ROLLBACK => call == MarkInvalid
  }

  predicate Enabled(s: System, step: Step) {
    var o := s.ota;
    match step
    case Fan(step) => FansOwn(step) && FanControl.Enabled(s.fan, step)
    case HttpCalls(c) =>
      match o.http {
        case Between => !o.busy && (c.BEGIN? || c.SELECT? || c.ABORT?)
        case Streaming => c.WRITE? || c.FINISH? || c.ABORT?
        case GivingUp => c.ABORT?
        case _ => false
      }
    case HttpGoesToRelease => o.http.Between? && !o.busy
    case HttpReleases => o.http.Releasing?
    case MainCalls(c) => o.main.Looping? && o.mainPending && FromMain(c)
    case WorkerTakes(c) => o.worker.Idle? && (o.http == HttpWaits(c) || o.main == MainWaits(c))
    case WorkerSetsFlag => o.worker.SettingFlag?
    case WorkerSeesAck => o.worker.AwaitingAck? && FanControl.Enabled(s.fan, FanControl.QuiesceReturn(o.worker.q))
    case WorkerTimesOut => o.worker.AwaitingAck? && FanControl.Enabled(s.fan, FanControl.QuiesceTimeout(o.worker.q))
    case WorkerGivesUp => o.worker.TimingOut?
    case WorkerRefuses(_) => o.worker.Acting? && !FromMain(o.worker.c) && !(o.worker.c.FINISH? && o.worker.stage == 1)
    case WorkerFlash(call, _, _) => Calls(o, call)
    case WorkerAborts => o.worker.Aborting?
    case WorkerEnds => o.worker.Ending?
    case WorkerUnbusies => o.worker.Unbusying?
    case WorkerAnswers => o.worker.Done?
    case Reset(powerOn, pads, _) => FanControl.Leaves(s.fan, powerOn, pads)
  }

  /** Where a command starts. */
  function Begun(c: Command): Worker {
    if Quiesces(c) then SettingFlag(c) else if c.ABORT? then Aborting(c, Ok) else Acting(c, 0, 0)
  }

  /** After a flash call of the current command. */
  function AfterFlash(o: Ota, ok: bool, more: bool): Ota
    requires o.worker.Acting?
  {
    var c, stage, q := o.worker.c, o.worker.stage, o.worker.q;
    match c
    case BEGIN =>
      if !ok then o.(worker := Aborting(c, Other))
      else if stage == 0 then o.(worker := Acting(c, if more then 0 else 1, q))
      else if stage == 1 then o.(worker := Acting(c, 2, q), session := true, holder := q)
      else o.(worker := Done(c, Ok))
    case FINISH =>
      if stage == 0 then o.(session := false, worker := if ok then Acting(c, 1, q) else Aborting(c, Other))
      else o.(worker := if ok then Done(c, Ok) else Aborting(c, Other))
    case CONFIRM => o.(pending := o.pending && !ok, worker := Ending(c, if ok then Ok else Other))
    case ROLLBACK => o.(worker := if ok then Rebooting else Done(c, Other))
    case _ => o.(worker := if ok then Done(c, Ok) else Aborting(c, Other))
  }

  /** What the caller does with the answer. */
  function Answered(o: Ota, c: Command, result: Result): Ota {
    var o := o.(worker := Idle);
    if FromMain(c) then o.(main := Looping, mainPending := o.mainPending && !(c.CONFIRM? && result.Ok?))
    else
      o.(http := match c
                 case BEGIN => if result.Ok? then Streaming else GivingUp
                 case WRITE => if result.Ok? then Streaming else GivingUp
                 case FINISH => if result.Ok? then Between else GivingUp
                 case ABORT => Releasing
                 case SELECT => if result.Ok? then Between else if result.NotFound? then Releasing else GivingUp
                 case _ => o.http)
  }

  function Next(s: System, step: Step): System
    requires Enabled(s, step)
  {
    var o := s.ota;
    match step
    case Fan(step) => s.(fan := FanControl.Next(s.fan, step))
    case HttpCalls(c) => s.(ota := o.(http := HttpWaits(c)))
    case HttpGoesToRelease => s.(ota := o.(http := Releasing))
    case HttpReleases =>
      System(FanControl.DoEndMaintenance(s.fan), o.(http := Between, released := true, stranded := false))
    case MainCalls(c) => s.(ota := o.(main := MainWaits(c)))
    case WorkerTakes(c) => s.(ota := o.(worker := Begun(c)))
    case WorkerSetsFlag =>
      System(FanControl.DoQuiesceSet(s.fan, o.nextQ), o.(worker := AwaitingAck(o.worker.c, o.nextQ),
        nextQ := o.nextQ + 1, released := false, stranded := false))
    case WorkerSeesAck =>
      System(FanControl.DoQuiesceReturn(s.fan, o.worker.q),
             o.(worker := Acting(o.worker.c, 0, o.worker.q), busy := o.busy || !FromMain(o.worker.c)))
    case WorkerTimesOut =>
      System(FanControl.Next(s.fan, FanControl.QuiesceTimeout(o.worker.q)), o.(worker := TimingOut(o.worker.c)))
    case WorkerGivesUp =>
      System(FanControl.DoEndMaintenance(s.fan), o.(worker := Done(o.worker.c, TimedOut), stranded := false))
    case WorkerRefuses(result) => s.(ota := o.(worker := Aborting(o.worker.c, if result.Ok? then Other else result)))
    case WorkerFlash(call, ok, more) =>
      var left := call.MarkInvalid? && !ok;
      s.(ota := AfterFlash(o, ok, more).(stranded := if left then s.fan.shared.flag else o.stranded))
    case WorkerAborts => s.(ota := o.(session := false, worker := Ending(o.worker.c, o.worker.result)))
    case WorkerEnds =>
      System(FanControl.DoEndMaintenance(s.fan),
             o.(worker := if FromMain(o.worker.c) then Done(o.worker.c, o.worker.result)
                else Unbusying(o.worker.c, o.worker.result), stranded := false))
    case WorkerUnbusies => s.(ota := o.(busy := false, worker := Done(o.worker.c, o.worker.result)))
    case WorkerAnswers => s.(ota := Answered(o, o.worker.c, o.worker.result))
    case Reset(powerOn, pads, pending) => Boot(FanControl.DoReset(s.fan, powerOn, pads), pending)
  }

  // --- Who can be where ----------------------------------------------------------------------------

  /** The confirmation has gone through but its caller does not know yet. */
  predicate JustConfirmed(w: Worker) {
    (w.Ending? || w.Done?) && w.c.CONFIRM? && w.result.Ok?
  }

  predicate PcInv(o: Ota) {
    var w := o.worker;
    && (!w.Idle? && !w.Rebooting? ==> if FromMain(w.c) then o.main == MainWaits(w.c) else o.http == HttpWaits(w.c))
    && (o.http.HttpWaits? ==> !FromMain(o.http.c)) && (o.main.MainWaits? ==> FromMain(o.main.c) && o.mainPending)
    && (o.mainPending ==> o.pending || JustConfirmed(w)) && (o.pending ==> o.mainPending)
    && (JustConfirmed(w) ==> o.mainPending && !o.pending)
    && (w.SettingFlag? || w.AwaitingAck? || w.TimingOut? ==> Quiesces(w.c))
    && (w.Aborting? || w.Unbusying? ==> !FromMain(w.c)) && (w.Ending? ==> !FromMain(w.c) || w.c.CONFIRM?)
    && (w.Acting? ==> !w.c.ABORT? && w.stage <= (if w.c.BEGIN? then 2 else if w.c.FINISH? then 1 else 0))
    && (w.Aborting? || w.Unbusying? || w.Ending? ==> FromMain(w.c) || w.c.ABORT? || !w.result.Ok?)
    && (w.Rebooting? ==> o.main.MainWaits?)
  }

  /** A session is open only in an upload, never while an image is pending. */
  predicate SessionInv(o: Ota) {
    var w, h := o.worker, o.http;
    && (o.session ==> !o.pending && !o.mainPending && o.busy)
    && (o.session ==> h.Streaming? || h.GivingUp? || (h.HttpWaits? && !h.c.SELECT?))
    && (o.session && h.HttpWaits? && h.c.BEGIN? ==>
          (w.Acting? && w.stage == 2) || w.Aborting? || (w.Done? && w.result.Ok?))
    && (w.Ending? || w.Unbusying? ==> !o.session || FromMain(w.c))
    && (w.Acting? && w.c.BEGIN? ==> o.busy && (w.stage == 2 ==> o.session))
    && (w.Acting? && w.c.FINISH? && w.stage == 1 ==> o.busy && !o.session && !o.pending && !o.mainPending)
    && (w.Acting? && w.c.SELECT? ==> o.busy)
    && (h.Streaming? ==> o.session)
    && (w.Done? && (w.c.BEGIN? || w.c.WRITE?) && w.result.Ok? ==> o.session)
    && (w.Done? && (w.c.ABORT? || (w.c.SELECT? && w.result.NotFound?) || (w.c.FINISH? && w.result.Ok?)) ==> !o.session)
  }

  predicate OtaInv(o: Ota) {
    PcInv(o) && SessionInv(o)
  }

  lemma FlashKeepsOta(o: Ota, call: FlashCall, ok: bool, more: bool)
    requires OtaInv(o) && Calls(o, call)
    ensures OtaInv(AfterFlash(o, ok, more))
  {
  }

  lemma AnswerKeepsOta(o: Ota)
    requires OtaInv(o) && o.worker.Done?
    ensures OtaInv(Answered(o, o.worker.c, o.worker.result))
  {
  }

  /** A step of one of the two callers. */
  predicate Callers(step: Step) {
    step.HttpCalls? || step.HttpGoesToRelease? || step.HttpReleases? || step.MainCalls?
  }

  lemma CallersKeepOta(s: System, step: Step)
    requires OtaInv(s.ota) && Enabled(s, step) && Callers(step)
    ensures OtaInv(Next(s, step).ota)
  {
  }

  lemma TakingKeepsOta(s: System, c: Command)
    requires OtaInv(s.ota) && Enabled(s, WorkerTakes(c))
    ensures OtaInv(Next(s, WorkerTakes(c)).ota)
  {
  }

  /** The worker inside fan_control_quiesce. */
  predicate Quiescing(step: Step) {
    step.WorkerSetsFlag? || step.WorkerSeesAck? || step.WorkerTimesOut? || step.WorkerGivesUp?
  }

  lemma QuiescingKeepsOta(s: System, step: Step)
    requires OtaInv(s.ota) && Enabled(s, step) && Quiescing(step)
    ensures OtaInv(Next(s, step).ota)
  {
  }

  /** The worker in fail_maintenance, or on the way to it. */
  predicate Failing(step: Step) {
    step.WorkerRefuses? || step.WorkerAborts? || step.WorkerEnds? || step.WorkerUnbusies?
  }

  lemma FailingKeepsOta(s: System, step: Step)
    requires OtaInv(s.ota) && Enabled(s, step) && Failing(step)
    ensures OtaInv(Next(s, step).ota)
  {
  }

  lemma StepKeepsOta(s: System, step: Step)
    requires OtaInv(s.ota) && Enabled(s, step)
    ensures OtaInv(Next(s, step).ota)
  {
    if Callers(step) {
      CallersKeepOta(s, step);
    } else if Quiescing(step) {
      QuiescingKeepsOta(s, step);
    } else if Failing(step) {
      FailingKeepsOta(s, step);
    } else {
      match step
      case WorkerTakes(c) => TakingKeepsOta(s, c);
      case WorkerFlash(call, ok, more) => FlashKeepsOta(s.ota, call, ok, more);
      case WorkerAnswers => AnswerKeepsOta(s.ota);
      case Fan(_) =>
      case Reset(_, _, _) =>
    }
  }

  // --- The flag ---------------------------------------------------------------------------------------

  ghost predicate Guarded(f: FanControl.System, q: nat) {
    Quiesce.Current(f, q) && f.quiescers[q].Holding?
  }

  /** The worker's quiescer, from the setting of the flag to the end of the command. */
  ghost predicate Follows(f: FanControl.System, q: nat, released: bool) {
    && q in f.quiescers && (released ==> !f.shared.flag)
    && (!released ==> Quiesce.Current(f, q))
  }

  ghost predicate FlagInv(s: System) {
    var f, o, w := s.fan, s.ota, s.ota.worker;
    && (forall q | q in f.quiescers :: q < o.nextQ)
    && (o.session || (w.Acting? && w.c.FINISH? && w.stage == 1) ==> Guarded(f, o.holder))
    && (w.AwaitingAck? || (w.Acting? && Quiesces(w.c)) ==>
          Follows(f, w.q, o.released) && (o.released ==> FromMain(w.c)))
    && (w.Acting? && Quiesces(w.c) ==> f.quiescers[w.q].Holding?)
  }

  /** An aborted upload, or a command of the HTTP task that failed for good. */
  predicate GivenUp(w: Worker)
    requires w.Done?
  {
    !FromMain(w.c) && (w.c.ABORT? || (!w.result.Ok? && !w.result.TimedOut?))
  }

  /** The flag outside a command: it belongs to an upload or selection, which is busy, or is left over. */
  predicate LeakInv(s: System) {
    var f, o, w := s.fan, s.ota, s.ota.worker;
    && (o.stranded ==> f.shared.flag)
    && ((w.Idle? || w.SettingFlag? || w.Done?) && !o.busy && f.shared.flag ==> o.stranded)
    && (w.Unbusying? ==> !f.shared.flag)
    && (w.Done? && GivenUp(w) ==> !o.busy && !f.shared.flag)
  }

  lemma FlashKeepsLeak(s: System, call: FlashCall, ok: bool, more: bool)
    requires OtaInv(s.ota) && LeakInv(s) && Calls(s.ota, call)
    ensures LeakInv(Next(s, WorkerFlash(call, ok, more)))
  {
  }

  lemma StepKeepsLeak(s: System, step: Step)
    requires OtaInv(s.ota) && LeakInv(s) && Enabled(s, step)
    ensures LeakInv(Next(s, step))
  {
    match step
    case Fan(step) => FansOwnLeaveFlag(s.fan, step);
    case WorkerFlash(call, ok, more) => FlashKeepsLeak(s, call, ok, more);
    case _ =>
  }

  ghost predicate FanInv(f: FanControl.System) {
    Quiesce.Inv(f) && FanRefinement.Inv(f)
  }

  lemma FanStepKeepsInv(f: FanControl.System, step: FanControl.Step)
    requires FanInv(f) && FanControl.Enabled(f, step)
    ensures FanInv(FanControl.Next(f, step))
  {
    Quiesce.StepKeepsInv(f, step);
    FanRefinement.StepKeepsInv(f, step);
  }

  lemma FansOwnLeaveFlag(f: FanControl.System, step: FanControl.Step)
    requires FansOwn(step) && FanControl.Enabled(f, step)
    ensures var g := FanControl.Next(f, step);
            g.shared.flag == f.shared.flag && g.quiescers == f.quiescers && g.epoch.clears == f.epoch.clears
  {
    if step.ActorRuns? {
      Quiesce.ActorLeavesFlag(f, step.env);
      Quiesce.ActorLeavesEpoch(f, step.env);
    }
  }

  /** Ending the maintenance finds nobody in need of it but a command of the main loop. */
  lemma EndKeepsFlagInv(s: System, t: System)
    requires OtaInv(s.ota) && FlagInv(s) && OtaInv(t.ota) && t.fan == FanControl.DoEndMaintenance(s.fan)
    requires !t.ota.session && t.ota.nextQ == s.ota.nextQ && !(t.ota.worker.Acting? && t.ota.worker.c.FINISH?)
    requires t.ota.released && t.ota.worker == s.ota.worker && (t.ota.worker.AwaitingAck? || t.ota.worker.Acting? ==>
        FromMain(t.ota.worker.c))
    ensures FlagInv(t)
  {
  }

  lemma FlashKeepsFlag(s: System, call: FlashCall, ok: bool, more: bool)
    requires OtaInv(s.ota) && FlagInv(s) && Calls(s.ota, call)
    ensures FlagInv(Next(s, WorkerFlash(call, ok, more)))
  {
  }

  lemma CallersKeepFlag(s: System, step: Step)
    requires OtaInv(s.ota) && FlagInv(s) && Enabled(s, step) && Callers(step)
    ensures FlagInv(Next(s, step))
  {
    if step.HttpReleases? {
      CallersKeepOta(s, step);
      EndKeepsFlagInv(s, Next(s, step));
    }
  }

  lemma FailingKeepsFlag(s: System, step: Step)
    requires OtaInv(s.ota) && FlagInv(s) && Enabled(s, step) && Failing(step)
    ensures FlagInv(Next(s, step))
  {
  }

  lemma TimingOutKeepsFlag(s: System, step: Step)
    requires OtaInv(s.ota) && FlagInv(s) && Enabled(s, step) && (step.WorkerTimesOut? || step.WorkerGivesUp?)
    ensures FlagInv(Next(s, step))
  {
  }

  lemma TakingKeepsFlag(s: System, c: Command)
    requires OtaInv(s.ota) && FlagInv(s) && Enabled(s, WorkerTakes(c))
    ensures FlagInv(Next(s, WorkerTakes(c)))
  {
  }

  lemma AnswerKeepsFlag(s: System)
    requires FlagInv(s) && s.ota.worker.Done?
    ensures FlagInv(Next(s, WorkerAnswers))
  {
  }

  lemma SettingKeepsFlag(s: System)
    requires OtaInv(s.ota) && FlagInv(s) && s.ota.worker.SettingFlag?
    ensures FlagInv(Next(s, WorkerSetsFlag))
  {
  }

  lemma SeeingKeepsFlag(s: System)
    requires OtaInv(s.ota) && FlagInv(s) && Enabled(s, WorkerSeesAck)
    ensures FlagInv(Next(s, WorkerSeesAck))
  {
  }

  lemma StepKeepsFlag(s: System, step: Step)
    requires OtaInv(s.ota) && FlagInv(s) && Enabled(s, step)
    ensures FlagInv(Next(s, step))
  {
    if Callers(step) {
      CallersKeepFlag(s, step);
    } else if Failing(step) {
      FailingKeepsFlag(s, step);
    } else {
      match step
      case Fan(step) => FansOwnLeaveFlag(s.fan, step);
      case WorkerTakes(c) => TakingKeepsFlag(s, c);
      case WorkerSetsFlag => SettingKeepsFlag(s);
      case WorkerSeesAck => SeeingKeepsFlag(s);
      case WorkerTimesOut => TimingOutKeepsFlag(s, step);
      case WorkerGivesUp => TimingOutKeepsFlag(s, step);
      case WorkerFlash(call, ok, more) => FlashKeepsFlag(s, call, ok, more);
      case WorkerAnswers => AnswerKeepsFlag(s);
      case Reset(_, _, _) =>
    }
  }

  lemma StepKeepsFan(s: System, step: Step)
    requires FanInv(s.fan) && FlagInv(s) && Enabled(s, step)
    ensures FanInv(Next(s, step).fan)
  {
    match step
    case Fan(step) => FanStepKeepsInv(s.fan, step);
    case HttpReleases => FanStepKeepsInv(s.fan, FanControl.EndMaintenance);
    case WorkerSetsFlag => FanStepKeepsInv(s.fan, FanControl.QuiesceSet(s.ota.nextQ));
    case WorkerSeesAck => FanStepKeepsInv(s.fan, FanControl.QuiesceReturn(s.ota.worker.q));
    case WorkerTimesOut => FanStepKeepsInv(s.fan, FanControl.QuiesceTimeout(s.ota.worker.q));
    case WorkerGivesUp => FanStepKeepsInv(s.fan, FanControl.EndMaintenance);
    case WorkerEnds => FanStepKeepsInv(s.fan, FanControl.EndMaintenance);
    case Reset(powerOn, pads, _) => FanStepKeepsInv(s.fan, FanControl.Reset(powerOn, pads));
    case _ =>
  }

  // --- Executions ---------------------------------------------------------------------------------------

  /** `steps` lead from `s` to `t`, each enabled where it is taken. */
  predicate Leads(s: System, steps: seq<Step>, t: System)
    decreases |steps|
  {
    if steps == [] then s == t
    else Enabled(s, steps[0]) && Leads(Next(s, steps[0]), steps[1..], t)
  }

  lemma {:induction false} LeadsConcat(s: System, a: seq<Step>, t: System, b: seq<Step>, u: System)
    requires Leads(s, a, t) && Leads(t, b, u)
    ensures Leads(s, a + b, u)
    decreases |a|
  {
    if a == [] {
      assert a + b == b;
    } else {
      assert (a + b)[1..] == a[1..] + b;
      LeadsConcat(Next(s, a[0]), a[1..], t, b, u);
    }
  }

  lemma Prepend(s: System, step: Step, steps: seq<Step>, t: System)
    requires Enabled(s, step) && Leads(Next(s, step), steps, t)
    ensures Leads(s, [step] + steps, t)
  {
    assert ([step] + steps)[1..] == steps;
  }

  ghost predicate Inv(s: System) {
    OtaInv(s.ota) && FlagInv(s) && LeakInv(s) && FanInv(s.fan)
  }

  lemma StepKeepsInv(s: System, step: Step)
    requires Inv(s) && Enabled(s, step)
    ensures Inv(Next(s, step))
  {
    StepKeepsOta(s, step);
    StepKeepsFlag(s, step);
    StepKeepsLeak(s, step);
    StepKeepsFan(s, step);
  }

  lemma {:induction false} LeadsKeepsInv(s: System, steps: seq<Step>, t: System)
    requires Inv(s) && Leads(s, steps, t)
    ensures Inv(t)
    decreases |steps|
  {
    if steps != [] {
      StepKeepsInv(s, steps[0]);
      LeadsKeepsInv(Next(s, steps[0]), steps[1..], t);
    }
  }

  lemma InitialInv(s: System)
    requires Initial(s)
    ensures Inv(s)
  {
    FanRefinement.RebootInv(s.fan.hw.rtc, false, false, FanControl.ResetPads());
  }

  predicate DecoderIsOff(f: FanControl.System) {
    f.hw.out == Hc238.Off && f.hw.todo == [] && f.hw.board.Out() == Hc238.Off
  }

  lemma GuardedIsOff(f: FanControl.System, q: nat)
    requires FanInv(f) && Guarded(f, q)
    ensures f.shared.flag && DecoderIsOff(f)
  {
  }

  /** At every flash-changing call of an upload or of the selection of the previous image the
      maintenance flag is set, and no decoder output is selected or about to be. The same goes for
      the main loop's confirmation and rollback of a pending image - exactly if no HTTP handler
      has ended maintenance since the worker set the flag; and so for every call outside
      probation. */
  lemma FlashCallsAreQuiesced(s: System, steps: seq<Step>, t: System, call: FlashCall)
    requires Initial(s) && Leads(s, steps, t) && Calls(t.ota, call)
    ensures FromMain(t.ota.worker.c) ==> (t.fan.shared.flag <==> !t.ota.released) && t.ota.mainPending
    ensures !FromMain(t.ota.worker.c) || !t.ota.released ==> t.fan.shared.flag && DecoderIsOff(t.fan)
  {
    InitialInv(s);
    LeadsKeepsInv(s, steps, t);
    var w := t.ota.worker;
    if Quiesces(w.c) && !t.ota.released {
      GuardedIsOff(t.fan, w.q);
    } else if !FromMain(w.c) {
      GuardedIsOff(t.fan, t.ota.holder);
    }
  }

  predicate FailedRollback(step: Step) {
    step.WorkerFlash? && step.call.MarkInvalid? && !step.ok
  }

  /** The flag does not leak: between commands, with no upload or selection in hand, it is set exactly
      if a rollback of the running image has failed and nobody has quiesced or released since. */
  lemma {:induction false} FlagDoesNotLeak(s: System, steps: seq<Step>, t: System)
    requires Initial(s) && Leads(s, steps, t) && t.ota.worker.Idle? && !t.ota.busy
    ensures t.fan.shared.flag <==> t.ota.stranded
    ensures (forall k | 0 <= k < |steps| :: !FailedRollback(steps[k])) ==> !t.fan.shared.flag
  {
    InitialInv(s);
    LeadsKeepsInv(s, steps, t);
    if forall k | 0 <= k < |steps| :: !FailedRollback(steps[k]) {
      NeverStranded(s, steps, t);
    }
  }

  /** A rollback that fails under the flag leaves it set, with the worker ready to answer. */
  lemma FailedRollbackStrands(s: System, steps: seq<Step>, t: System, more: bool)
    requires Initial(s) && Leads(s, steps, t) && Calls(t.ota, MarkInvalid) && !t.ota.released
    ensures var u := Next(t, WorkerFlash(MarkInvalid, false, more));
            u.fan.shared.flag && u.ota.stranded && u.ota.worker == Done(ROLLBACK, Other)
  {
    FlashCallsAreQuiesced(s, steps, t, MarkInvalid);
  }

  lemma {:induction false} NeverStranded(s: System, steps: seq<Step>, t: System)
    requires !s.ota.stranded && Leads(s, steps, t) && forall k | 0 <= k < |steps| :: !FailedRollback(steps[k])
    ensures !t.ota.stranded
    decreases |steps|
  {
    if steps != [] {
      assert !Next(s, steps[0]).ota.stranded;
      NeverStranded(Next(s, steps[0]), steps[1..], t);
    }
  }

  /** Whatever the answer, a command of the HTTP task that has failed or aborted leaves no session, a
      worker that is not busy, and the flag clear. */
  lemma FailureReleasesEverything(s: System, steps: seq<Step>, t: System)
    requires Initial(s) && Leads(s, steps, t) && t.ota.worker.Done? && GivenUp(t.ota.worker)
    ensures !t.ota.busy && !t.ota.session && !t.fan.shared.flag
  {
    InitialInv(s);
    LeadsKeepsInv(s, steps, t);
    GivenUpIsOver(t);
  }

  lemma GivenUpIsOver(t: System)
    requires OtaInv(t.ota) && LeakInv(t) && t.ota.worker.Done? && GivenUp(t.ota.worker)
    ensures !t.ota.busy && !t.ota.session && !t.fan.shared.flag
  {
  }

  /** The main loop goes on about its pending image exactly until it has been told that the image is
      marked valid. */
  lemma MainLoopKnows(s: System, steps: seq<Step>, t: System)
    requires Initial(s) && Leads(s, steps, t)
    ensures t.ota.mainPending <==> t.ota.pending || JustConfirmed(t.ota.worker)
  {
    InitialInv(s);
    LeadsKeepsInv(s, steps, t);
  }

  // --- What the main loop can check ---------------------------------------------------------------------

  /** The HTTP task is between requests and starts none, and the command is not answered. */
  predicate KeepsQuiet(step: Step) {
    !step.HttpCalls? && !step.HttpGoesToRelease? && !step.WorkerAnswers? && !step.Reset?
  }

  /** A command of the main loop under way, with no HTTP handler that could release the flag. */
  predicate Undisturbed(o: Ota) {
    && o.http.Between?
    && (o.worker.Rebooting? || (!o.worker.Idle? && FromMain(o.worker.c) && (o.worker.SettingFlag? || !o.released)))
  }

  lemma StepStaysUndisturbed(s: System, step: Step)
    requires OtaInv(s.ota) && Undisturbed(s.ota) && Enabled(s, step) && KeepsQuiet(step)
    ensures Undisturbed(Next(s, step).ota)
  {
  }

  lemma {:induction false} StaysUndisturbed(s: System, steps: seq<Step>, t: System)
    requires Inv(s) && Undisturbed(s.ota) && Leads(s, steps, t) && forall k | 0 <= k < |steps| :: KeepsQuiet(steps[k])
    ensures Inv(t) && Undisturbed(t.ota)
    decreases |steps|
  {
    if steps != [] {
      StepKeepsInv(s, steps[0]);
      StepStaysUndisturbed(s, steps[0]);
      StaysUndisturbed(Next(s, steps[0]), steps[1..], t);
    }
  }

  /** A confirmation or rollback is safe if the HTTP task is between requests when the worker starts
      on it, and takes up none until the answer: its flash call is made with the flag set and the
      decoder off. */
  lemma QuietHttpKeepsTheFlag(s: System, before: seq<Step>, u: System, steps: seq<Step>, t: System, call: FlashCall)
    requires Initial(s) && Leads(s, before, u) && u.ota.http.Between?
    requires u.ota.worker.SettingFlag? && FromMain(u.ota.worker.c)
    requires Leads(u, steps, t) && (forall k | 0 <= k < |steps| :: KeepsQuiet(steps[k])) && Calls(t.ota, call)
    ensures t.fan.shared.flag && DecoderIsOff(t.fan)
  {
    InitialInv(s);
    LeadsKeepsInv(s, before, u);
    StaysUndisturbed(u, steps, t);
    GuardedIsOff(t.fan, t.ota.worker.q);
  }
}
