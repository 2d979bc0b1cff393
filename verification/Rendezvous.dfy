/** submit and ota_worker_task of main/ota_worker.c with any number of callers: who gets whose
    result, how full the queue can be, and where the two buffers are. One step per access to the
    mutex, the event bit, a queue or the result variable. */
module Rendezvous {
  import opened Esp

  const OTA_COMMAND_QUEUE_LENGTH: nat := 4
  const OTA_BUFFER_COUNT: nat := 2

  /** A command with the ordinal number of the call that submits it, and the buffer it carries. */
  datatype Command = Command(ticket: nat, buffer: Option<nat>)

  datatype Pc =
    | Outside
    | AtMutex(c: Command)
    | AtClear(c: Command)
    | AtSend(c: Command)
    | AtWait(c: Command)
    | AtRead(c: Command)
    | AtGive(c: Command, result: EspErr, sent: bool)

  datatype Caller = Caller(pc: Pc, held: set<nat>)

  datatype Worker = Idle | Executing(c: Command) | Releasing(c: Command) | Signalling(c: Command)

  datatype Answer = Answer(ticket: nat, result: EspErr, sent: bool)

  /** Where a buffer is: in the pool, with a caller, or in the command of a call. */
  datatype Place = Free | Held(caller: nat) | InCommand(ticket: nat)

  /** `executed`, `answers` and `places` only remember; no step depends on them. */
  datatype System = System(
    mutex: Option<nat>, done: bool, queue: seq<Command>, result: EspErr, worker: Worker, free: seq<nat>,
    callers: map<nat, Caller>, tickets: nat,
    executed: map<nat, EspErr>, answers: seq<Answer>, places: seq<Place>)

  /** After ota_worker_init. */
  predicate Initial(s: System) {
    && s.mutex == None && !s.done && s.queue == [] && s.worker == Idle && s.free == [0, 1]
    && s.callers == map[] && s.executed == map[] && s.answers == [] && s.places == [Free, Free]
  }

  datatype Step =
    | Arrive(who: nat)
    | Acquire(who: nat)
    | GiveBack(who: nat, buffer: nat)
    | Call(who: nat, carries: Option<nat>)
    | TakeMutex(who: nat)
    | ClearBit(who: nat)
    | Send(who: nat)
    | SendTimesOut(who: nat)
    | WaitBit(who: nat)
    | ReadResult(who: nat)
    | GiveMutex(who: nat)
    | Receive
    | Execute(err: EspErr)
    | Release
    | Signal

  predicate Enabled(s: System, step: Step) {
    match step
    case Arrive(w) => w !in s.callers
    case Acquire(w) => w in s.callers && s.callers[w].pc.Outside? && s.free != []
    case GiveBack(w, b) => w in s.callers && s.callers[w].pc.Outside? && b in s.callers[w].held
    case Call(w, b) => w in s.callers && s.callers[w].pc.Outside? && (b.Some? ==> b.value in s.callers[w].held)
    case TakeMutex(w) => w in s.callers && s.callers[w].pc.AtMutex? && s.mutex == None
    case ClearBit(w) => w in s.callers && s.callers[w].pc.AtClear?
    case Send(w) => w in s.callers && s.callers[w].pc.AtSend? && |s.queue| < OTA_COMMAND_QUEUE_LENGTH
    case SendTimesOut(w) => w in s.callers && s.callers[w].pc.AtSend? && |s.queue| >= OTA_COMMAND_QUEUE_LENGTH
    case WaitBit(w) => w in s.callers && s.callers[w].pc.AtWait? && s.done
    case ReadResult(w) => w in s.callers && s.callers[w].pc.AtRead?
    case GiveMutex(w) => w in s.callers && s.callers[w].pc.AtGive?
    case Receive => s.worker.Idle? && s.queue != []
    case Execute(_) => s.worker.Executing?
    case Release => s.worker.Releasing? && (s.worker.c.buffer.Some? ==> |s.free| < OTA_BUFFER_COUNT)
    case Signal => s.worker.Signalling?
  }

  function Move(s: System, w: nat, pc: Pc): System
    requires w in s.callers
  {
    s.(callers := s.callers[w := s.callers[w].(pc := pc)])
  }

  function Put(places: seq<Place>, b: nat, p: Place): seq<Place> {
    if b < |places| then places[b := p] else places
  }

  function DoAcquire(s: System, w: nat): System
    requires Enabled(s, Acquire(w))
  {
    var b := s.free[0];
    s.(free := s.free[1..], callers := s.callers[w := s.callers[w].(held := s.callers[w].held + {b})],
       places := Put(s.places, b, Held(w)))
  }

  /** ota_worker_release_buffer: a full pool drops the return. */
  function DoGiveBack(s: System, w: nat, b: nat): System
    requires Enabled(s, GiveBack(w, b))
  {
    s.(free := if |s.free| < OTA_BUFFER_COUNT then s.free + [b] else s.free,
       callers := s.callers[w := s.callers[w].(held := s.callers[w].held - {b})],
       places := Put(s.places, b, Free))
  }

  function DoCall(s: System, w: nat, b: Option<nat>): System
    requires Enabled(s, Call(w, b))
  {
    var held := s.callers[w].held;
    s.(callers := s.callers[w := Caller(AtMutex(Command(s.tickets, b)), if b.Some? then held - {b.value} else held)],
       tickets := s.tickets + 1,
       places := if b.Some? then Put(s.places, b.value, InCommand(s.tickets)) else s.places)
  }

  function DoGiveMutex(s: System, w: nat): System
    requires Enabled(s, GiveMutex(w))
  {
    var pc := s.callers[w].pc;
    Move(s.(mutex := None, answers := s.answers + [Answer(pc.c.ticket, pc.result, pc.sent)]), w, Outside)
  }

  function DoRelease(s: System): System
    requires Enabled(s, Release)
  {
    var c := s.worker.c;
    if c.buffer.Some? then
      s.(free := s.free + [c.buffer.value], worker := Signalling(c), places := Put(s.places, c.buffer.value, Free))
    else s.(worker := Signalling(c))
  }

  function Next(s: System, step: Step): System
    requires Enabled(s, step)
  {
    match step
    case Arrive(w) => s.(callers := s.callers[w := Caller(Outside, {})])
    case Acquire(w) => DoAcquire(s, w)
    case GiveBack(w, b) => DoGiveBack(s, w, b)
    case Call(w, b) => DoCall(s, w, b)
    case TakeMutex(w) => Move(s.(mutex := Some(w)), w, AtClear(s.callers[w].pc.c))
    case ClearBit(w) => Move(s.(done := false), w, AtSend(s.callers[w].pc.c))
    case Send(w) => Move(s.(queue := s.queue + [s.callers[w].pc.c]), w, AtWait(s.callers[w].pc.c))
    case SendTimesOut(w) => Move(s, w, AtGive(s.callers[w].pc.c, TIMEOUT, false))
    case WaitBit(w) => Move(s.(done := false), w, AtRead(s.callers[w].pc.c))
    case ReadResult(w) => Move(s, w, AtGive(s.callers[w].pc.c, s.result, true))
    case GiveMutex(w) => DoGiveMutex(s, w)
    case Receive => s.(queue := s.queue[1..], worker := Executing(s.queue[0]))
    case Execute(err) => s.(result := err, executed := s.executed[s.worker.c.ticket := err],
      worker := Releasing(s.worker.c))
    case Release => DoRelease(s)
    case Signal => s.(done := true, worker := Idle)
  }

  // --- The rendezvous ----------------------------------------------------------------------------

  predicate InCriticalSection(pc: Pc) {
    !pc.Outside? && !pc.AtMutex?
  }

  /** Nothing of anybody's is on its way. */
  predicate Quiet(s: System) {
    s.queue == [] && s.worker == Idle
  }

  predicate ResultIs(s: System, c: Command) {
    c.ticket in s.executed && s.executed[c.ticket] == s.result
  }

  /** Where the waiting caller's command has got to. */
  predicate InProgress(s: System, c: Command) {
    if s.queue != [] then s.queue == [c] && s.worker == Idle && !s.done
    else match s.worker
         case Executing(d) => d == c && !s.done
         case Releasing(d) => d == c && !s.done && ResultIs(s, c)
         case Signalling(d) => d == c && !s.done && ResultIs(s, c)
         case Idle => s.done && ResultIs(s, c)
  }

  predicate HolderInv(s: System, pc: Pc) {
    match pc
    case Outside => false
    case AtMutex(_) => false
    case AtClear(_) => Quiet(s)
    case AtSend(_) => Quiet(s) && !s.done
    case AtWait(c) => InProgress(s, c)
    case AtRead(c) => Quiet(s) && ResultIs(s, c)
    case AtGive(c, result, sent) => Quiet(s) && sent && c.ticket in s.executed && s.executed[c.ticket] == result
  }

  /** The critical section belongs to the holder of the mutex, and nothing is on its way unless the
      holder waits for it. */
  predicate MutexInv(s: System) {
    && (forall w | w in s.callers && InCriticalSection(s.callers[w].pc) :: s.mutex == Some(w))
    && (if s.mutex.Some? then s.mutex.value in s.callers && HolderInv(s, s.callers[s.mutex.value].pc) else Quiet(s))
  }

  function TicketOf(pc: Pc): Option<nat> {
    if pc.Outside? then None else Some(pc.c.ticket)
  }

  /** Calls are told apart by their tickets. */
  predicate TicketInv(s: System) {
    && (forall w | w in s.callers && TicketOf(s.callers[w].pc).Some? :: TicketOf(s.callers[w].pc).value < s.tickets)
    && (forall w, v | w in s.callers && v in s.callers && w != v ::
          TicketOf(s.callers[w].pc).Some? ==> TicketOf(s.callers[w].pc) != TicketOf(s.callers[v].pc))
    && (forall k | 0 <= k < |s.answers| :: s.answers[k].ticket < s.tickets)
    && (forall j, k | 0 <= j < k < |s.answers| :: s.answers[j].ticket != s.answers[k].ticket)
    && (forall k, w | 0 <= k < |s.answers| && w in s.callers :: TicketOf(s.callers[w].pc) != Some(s.answers[k].ticket))
  }

  /** Every call that returned had been sent, and returned what its own command came to. */
  predicate ReturnInv(s: System) {
    forall k | 0 <= k < |s.answers| ::
      s.answers[k].sent && s.answers[k].ticket in s.executed && s.executed[s.answers[k].ticket] == s.answers[k].result
  }

  lemma StepKeepsMutex(s: System, step: Step)
    requires MutexInv(s) && Enabled(s, step)
    ensures MutexInv(Next(s, step))
  {
  }

  /** A step moves at most one call along, and only Call opens a new one. */
  lemma TicketsStay(s: System, step: Step, w: nat)
    requires Enabled(s, step) && w in Next(s, step).callers
    ensures var t := Next(s, step); var now := TicketOf(t.callers[w].pc);
            && s.tickets <= t.tickets
            && (now.Some? ==>
                  || (step.Call? && step.who == w && now.value == s.tickets && t.tickets == s.tickets + 1)
                  || (w in s.callers && now == TicketOf(s.callers[w].pc)))
  {
  }

  lemma StepKeepsTickets(s: System, step: Step)
    requires TicketInv(s) && Enabled(s, step)
    ensures TicketInv(Next(s, step))
  {
    var t := Next(s, step);
    forall w | w in t.callers && TicketOf(t.callers[w].pc).Some? ensures TicketOf(t.callers[w].pc).value < t.tickets {
      TicketsStay(s, step, w);
    }
    forall w, v | w in t.callers && v in t.callers && w != v && TicketOf(t.callers[w].pc).Some?
      ensures TicketOf(t.callers[w].pc) != TicketOf(t.callers[v].pc)
    {
      TicketsStay(s, step, w);
      TicketsStay(s, step, v);
    }
    forall k, w | 0 <= k < |t.answers| && w in t.callers
      ensures t.answers[k].ticket < t.tickets && TicketOf(t.callers[w].pc) != Some(t.answers[k].ticket)
    {
      TicketsStay(s, step, w);
    }
  }

  lemma StepKeepsReturns(s: System, step: Step)
    requires MutexInv(s) && TicketInv(s) && ReturnInv(s) && Enabled(s, step)
    ensures ReturnInv(Next(s, step))
  {
    if step.Execute? {
      assert s.mutex.Some? && TicketOf(s.callers[s.mutex.value].pc) == Some(s.worker.c.ticket);
    }
  }

  /** The call's command is still to be executed. */
  predicate Unexecuted(s: System, pc: Pc) {
    pc.AtMutex? || pc.AtClear? || pc.AtSend? || (pc.AtWait? && (s.queue != [] || s.worker.Executing?))
  }

  /** What is still to be executed has not been. */
  predicate OnceInv(s: System) {
    && (forall w | w in s.callers && Unexecuted(s, s.callers[w].pc) :: s.callers[w].pc.c.ticket !in s.executed)
    && (forall ticket | ticket in s.executed :: ticket < s.tickets)
  }

  /** Nothing else becomes unexecuted but a new call. */
  lemma UnexecutedWas(s: System, step: Step, w: nat)
    requires MutexInv(s) && Enabled(s, step)
    requires w in Next(s, step).callers && Unexecuted(Next(s, step), Next(s, step).callers[w].pc)
    requires !(step.Call? && step.who == w)
    ensures w in s.callers && Unexecuted(s, s.callers[w].pc)
            && Next(s, step).callers[w].pc.c == s.callers[w].pc.c
    ensures step.Execute? ==> s.mutex.Some? && s.mutex.value != w
  {
  }

  lemma StepKeepsOnce(s: System, step: Step)
    requires MutexInv(s) && TicketInv(s) && OnceInv(s) && Enabled(s, step)
    ensures OnceInv(Next(s, step))
  {
    var t := Next(s, step);
    if step.Execute? {
      assert s.mutex.Some? && TicketOf(s.callers[s.mutex.value].pc) == Some(s.worker.c.ticket);
    }
    forall w | w in t.callers && Unexecuted(t, t.callers[w].pc) ensures t.callers[w].pc.c.ticket !in t.executed {
      if !(step.Call? && step.who == w) {
        UnexecutedWas(s, step, w);
      }
    }
  }

  // --- The buffers ---------------------------------------------------------------------------------

  /** The call's command has not been released by the worker yet. */
  predicate Pending(s: System, pc: Pc) {
    pc.AtMutex? || pc.AtClear? || pc.AtSend?
    || (pc.AtWait? && (s.queue != [] || s.worker.Executing? || s.worker.Releasing?))
  }

  predicate CarriedBy(s: System, w: nat, b: nat) {
    w in s.callers && Pending(s, s.callers[w].pc) && s.callers[w].pc.c.buffer == Some(b)
  }

  /** The pool lists the free buffers, each once. */
  predicate PoolLists(free: seq<nat>, places: seq<Place>) {
    && |places| == OTA_BUFFER_COUNT
    && (forall i | 0 <= i < |free| :: free[i] < OTA_BUFFER_COUNT && places[free[i]] == Free)
    && (forall i, j | 0 <= i < j < |free| :: free[i] != free[j])
    && (forall b: nat | b < OTA_BUFFER_COUNT && places[b] == Free :: b in free)
  }

  predicate HeldBy(s: System, w: nat, b: nat) {
    w in s.callers && b in s.callers[w].held
  }

  ghost predicate HeldInv(s: System) {
    && |s.places| == OTA_BUFFER_COUNT
    && (forall w: nat, b: nat | HeldBy(s, w, b) :: b < OTA_BUFFER_COUNT && s.places[b] == Held(w))
    && (forall b: nat | b < OTA_BUFFER_COUNT && s.places[b].Held? :: HeldBy(s, s.places[b].caller, b))
  }

  ghost predicate CarriedInv(s: System) {
    && |s.places| == OTA_BUFFER_COUNT
    && (forall w: nat, b: nat | CarriedBy(s, w, b) ::
          b < OTA_BUFFER_COUNT && s.places[b] == InCommand(s.callers[w].pc.c.ticket))
    && (forall b: nat | b < OTA_BUFFER_COUNT && s.places[b].InCommand? ::
          exists w: nat :: CarriedBy(s, w, b) && TicketOf(s.callers[w].pc) == Some(s.places[b].ticket))
  }

  ghost predicate PlacesInv(s: System) {
    PoolLists(s.free, s.places) && HeldInv(s) && CarriedInv(s)
  }

  ghost predicate Inv(s: System) {
    MutexInv(s) && TicketInv(s) && ReturnInv(s) && OnceInv(s) && PlacesInv(s)
  }

  lemma PoolTake(free: seq<nat>, places: seq<Place>, p: Place)
    requires PoolLists(free, places) && free != [] && p != Free
    ensures PoolLists(free[1..], places[free[0] := p])
  {
    var rest := free[1..];
    assert forall i | 0 <= i < |rest| :: rest[i] == free[i + 1];
    forall b: nat | b < OTA_BUFFER_COUNT && places[free[0] := p][b] == Free ensures b in rest {
      assert b in free;
    }
  }

  lemma PoolAdd(free: seq<nat>, places: seq<Place>, b: nat)
    requires PoolLists(free, places) && b < OTA_BUFFER_COUNT && places[b] != Free
    ensures |free| < OTA_BUFFER_COUNT && PoolLists(free + [b], places[b := Free])
  {
    assert |free| >= 2 ==> free[0] != free[1];
    assert forall i | 0 <= i < |free| :: free[i] != b;
  }

  lemma HeldPlace(s: System, w: nat, b: nat)
    requires HeldInv(s) && w in s.callers && b in s.callers[w].held
    ensures b < OTA_BUFFER_COUNT && s.places[b] == Held(w)
  {
    assert HeldBy(s, w, b);
  }

  lemma StepKeepsPool(s: System, step: Step)
    requires MutexInv(s) && PlacesInv(s) && Enabled(s, step)
    ensures PoolLists(Next(s, step).free, Next(s, step).places)
  {
    if step.Acquire? {
      PoolTake(s.free, s.places, Held(step.who));
    } else if step.GiveBack? {
      HeldPlace(s, step.who, step.buffer);
      PoolAdd(s.free, s.places, step.buffer);
    } else if step.Call? && step.carries.Some? {
      HeldPlace(s, step.who, step.carries.value);
    } else if step.Release? && s.worker.c.buffer.Some? {
      WorkerCarries(s);
      PoolAdd(s.free, s.places, s.worker.c.buffer.value);
    }
  }

  lemma WorkerCarries(s: System)
    requires MutexInv(s) && s.worker.Releasing? && s.worker.c.buffer.Some?
    ensures s.mutex.Some? && CarriedBy(s, s.mutex.value, s.worker.c.buffer.value)
  {
  }

  lemma HeldStaysHeld(s: System, step: Step, w: nat, b: nat)
    requires MutexInv(s) && PlacesInv(s) && Enabled(s, step)
    requires HeldBy(Next(s, step), w, b)
    ensures b < OTA_BUFFER_COUNT && Next(s, step).places[b] == Held(w)
  {
    if HeldBy(s, w, b) {
      HeldPlace(s, w, b);
    }
    if step.Acquire? {
      assert s.places[s.free[0]] == Free;
    } else if step.GiveBack? {
      HeldPlace(s, step.who, step.buffer);
    } else if step.Call? && step.carries.Some? {
      HeldPlace(s, step.who, step.carries.value);
    } else if step.Release? && s.worker.c.buffer.Some? {
      WorkerCarries(s);
    }
  }

  lemma PlaceStaysHeld(s: System, step: Step, b: nat)
    requires PlacesInv(s) && Enabled(s, step)
    requires b < OTA_BUFFER_COUNT && |Next(s, step).places| == OTA_BUFFER_COUNT && Next(s, step).places[b].Held?
    ensures HeldBy(Next(s, step), Next(s, step).places[b].caller, b)
  {
    if Moved(s, step) != Some(b) {
      OthersStay(s, step, b);
      assert HeldBy(s, s.places[b].caller, b);
    }
  }

  lemma StepKeepsHeld(s: System, step: Step)
    requires MutexInv(s) && PlacesInv(s) && Enabled(s, step)
    ensures HeldInv(Next(s, step))
  {
    var t := Next(s, step);
    StepKeepsPool(s, step);
    forall w: nat, b: nat | HeldBy(t, w, b) ensures b < OTA_BUFFER_COUNT && t.places[b] == Held(w) {
      HeldStaysHeld(s, step, w, b);
    }
    forall b: nat | b < OTA_BUFFER_COUNT && t.places[b].Held? ensures HeldBy(t, t.places[b].caller, b) {
      PlaceStaysHeld(s, step, b);
    }
  }

  /** No step but Call puts a buffer into a command. */
  lemma CarriedWasCarried(s: System, step: Step, w: nat, b: nat)
    requires MutexInv(s) && Enabled(s, step) && CarriedBy(Next(s, step), w, b) && !(step.Call? && step.who == w)
    ensures CarriedBy(s, w, b) && Next(s, step).callers[w].pc.c == s.callers[w].pc.c
  {
  }

  /** No step but Release takes it out. */
  lemma CarriedIsKept(s: System, step: Step, w: nat, b: nat)
    requires MutexInv(s) && Enabled(s, step) && CarriedBy(s, w, b)
    ensures (step.Release? && s.mutex == Some(w)) || (CarriedBy(Next(s, step), w, b)
        && Next(s, step).callers[w].pc.c == s.callers[w].pc.c)
  {
  }

  /** A buffer changes place only when it is acquired, given back, handed to a call or released. */
  function Moved(s: System, step: Step): Option<nat>
    requires Enabled(s, step)
  {
    match step
    case Acquire(_) => Some(s.free[0])
    case GiveBack(_, b) => Some(b)
    case Call(_, b) => b
    case Release => s.worker.c.buffer
    case _ => None
  }

  lemma OthersStay(s: System, step: Step, b: nat)
    requires Enabled(s, step) && |s.places| == OTA_BUFFER_COUNT && b < OTA_BUFFER_COUNT && Moved(s, step) != Some(b)
    ensures |Next(s, step).places| == OTA_BUFFER_COUNT && Next(s, step).places[b] == s.places[b]
  {
  }

  /** What moves was not in a pending command, except when the worker releases it. */
  lemma MovedIsNotCarried(s: System, step: Step, w: nat, b: nat)
    requires MutexInv(s) && TicketInv(s) && PlacesInv(s) && Enabled(s, step)
    requires CarriedBy(s, w, b) && Moved(s, step) == Some(b)
    ensures step.Release? && s.mutex == Some(w)
  {
    assert s.free != [] ==> s.places[s.free[0]] == Free;
    match step
    case GiveBack(v, _) => HeldPlace(s, v, b);
    case Call(v, _) => HeldPlace(s, v, b);
    case Release =>
      WorkerCarries(s);
      assert TicketOf(s.callers[w].pc) == TicketOf(s.callers[s.mutex.value].pc);
    case _ =>
  }

  /** What moves into a command is what a call carries. */
  lemma MovedIntoCommand(s: System, step: Step, b: nat)
    requires Enabled(s, step) && |s.places| == OTA_BUFFER_COUNT && b < OTA_BUFFER_COUNT && Moved(s, step) == Some(b)
    ensures |Next(s, step).places| == OTA_BUFFER_COUNT
    ensures Next(s, step).places[b].InCommand? ==> step.Call?
  {
  }

  lemma PlaceStaysCarried(s: System, step: Step, b: nat) returns (w: nat)
    requires MutexInv(s) && PlacesInv(s) && Enabled(s, step)
    requires b < OTA_BUFFER_COUNT && Next(s, step).places[b].InCommand?
    ensures var t := Next(s, step); CarriedBy(t, w, b) && TicketOf(t.callers[w].pc) == Some(t.places[b].ticket)
  {
    if Moved(s, step) == Some(b) {
      MovedIntoCommand(s, step, b);
      w := step.who;
    } else {
      OthersStay(s, step, b);
      w :| CarriedBy(s, w, b) && TicketOf(s.callers[w].pc) == Some(s.places[b].ticket);
      CarriedIsKept(s, step, w, b);
    }
  }

  lemma CarriedStaysPlaced(s: System, step: Step, w: nat, b: nat)
    requires MutexInv(s) && TicketInv(s) && PlacesInv(s) && Enabled(s, step) && CarriedBy(Next(s, step), w, b)
    ensures b < OTA_BUFFER_COUNT && Next(s, step).places[b] == InCommand(Next(s, step).callers[w].pc.c.ticket)
  {
    if step.Call? && step.who == w {
      HeldPlace(s, w, b);
    } else {
      CarriedWasCarried(s, step, w, b);
      if Moved(s, step) == Some(b) {
        MovedIsNotCarried(s, step, w, b);
        WorkerCarries(s);
      } else {
        OthersStay(s, step, b);
      }
    }
  }

  lemma StepKeepsCarried(s: System, step: Step)
    requires MutexInv(s) && TicketInv(s) && PlacesInv(s) && Enabled(s, step)
    ensures CarriedInv(Next(s, step))
  {
    var t := Next(s, step);
    forall b: nat | b < OTA_BUFFER_COUNT && t.places[b].InCommand?
      ensures exists w: nat :: CarriedBy(t, w, b) && TicketOf(t.callers[w].pc) == Some(t.places[b].ticket)
    {
      var w := PlaceStaysCarried(s, step, b);
    }
    forall w: nat, b: nat | CarriedBy(t, w, b)
      ensures b < OTA_BUFFER_COUNT && t.places[b] == InCommand(t.callers[w].pc.c.ticket)
    {
      CarriedStaysPlaced(s, step, w, b);
    }
  }

  lemma StepKeepsInv(s: System, step: Step)
    requires Inv(s) && Enabled(s, step)
    ensures Inv(Next(s, step))
  {
    StepKeepsMutex(s, step);
    StepKeepsTickets(s, step);
    StepKeepsReturns(s, step);
    StepKeepsOnce(s, step);
    StepKeepsPool(s, step);
    StepKeepsHeld(s, step);
    StepKeepsCarried(s, step);
  }

  // --- Executions ------------------------------------------------------------------------------------

  /** `steps` lead from `s` to `t`, each enabled where it is taken. */
  predicate Leads(s: System, steps: seq<Step>, t: System)
    decreases |steps|
  {
    if steps == [] then s == t
    else Enabled(s, steps[0]) && Leads(Next(s, steps[0]), steps[1..], t)
  }

  lemma {:induction false} LeadsKeepsInv(s: System, steps: seq<Step>, t: System)
    requires Inv(s) && Leads(s, steps, t)
    ensures Inv(t)
    decreases |steps|
  {
    if steps != [] {
      StepKeepsInv(s, steps[0]);
      LeadsKeepsInv(Next(s, steps[0]), steps[1..], t);
    }
  }

  lemma InitialInv(s: System)
    requires Initial(s)
    ensures Inv(s)
  {
    assert s.free[0] in s.free && s.free[1] in s.free;
  }

  /** In every interleaving: each call that returned had its command queued, the worker executed
      exactly that command, and the call returned that command's own result, and returned once. */
  lemma EveryCallGetsItsOwnResult(s: System, steps: seq<Step>, t: System, k: nat)
    requires Initial(s) && Leads(s, steps, t) && k < |t.answers|
    ensures var a := t.answers[k]; a.sent && a.ticket in t.executed && a.result == t.executed[a.ticket]
    ensures forall j | 0 <= j < |t.answers| && j != k :: t.answers[j].ticket != t.answers[k].ticket
  {
    InitialInv(s);
    LeadsKeepsInv(s, steps, t);
  }

  /** The command the worker is about to execute has not been executed before, and somebody waits for it. */
  lemma EachCommandIsExecutedOnce(s: System, steps: seq<Step>, t: System, err: EspErr)
    requires Initial(s) && Leads(s, steps, t) && Enabled(t, Execute(err))
    ensures t.worker.c.ticket !in t.executed
    ensures t.mutex.Some? && t.mutex.value in t.callers && t.callers[t.mutex.value].pc == AtWait(t.worker.c)
  {
    InitialInv(s);
    LeadsKeepsInv(s, steps, t);
    assert Unexecuted(t, t.callers[t.mutex.value].pc);
  }

  /** The queue of four never holds more than one command: a call never gives up on a full queue -
      which would strand the buffer it carries - and the worker never waits for room in the pool. */
  lemma NobodyBlocksOnAQueue(s: System, steps: seq<Step>, t: System, w: nat)
    requires Initial(s) && Leads(s, steps, t)
    ensures |t.queue| <= 1 && !Enabled(t, SendTimesOut(w))
    ensures t.worker.Releasing? ==> Enabled(t, Release)
  {
    InitialInv(s);
    LeadsKeepsInv(s, steps, t);
    if t.worker.Releasing? && t.worker.c.buffer.Some? {
      WorkerCarries(t);
      PoolAdd(t.free, t.places, t.worker.c.buffer.value);
    }
  }

  /** Each buffer is at every time in exactly one place: once in the pool, or with one caller, or
      in the command of one call that the worker has yet to release. */
  lemma BuffersArePartitioned(s: System, steps: seq<Step>, t: System, b: nat)
    requires Initial(s) && Leads(s, steps, t) && b < OTA_BUFFER_COUNT
    ensures b in t.free || (exists w: nat :: HeldBy(t, w, b) || CarriedBy(t, w, b))
    ensures b in t.free ==> forall w: nat :: !HeldBy(t, w, b) && !CarriedBy(t, w, b)
    ensures forall w: nat, v: nat :: HeldBy(t, w, b) && HeldBy(t, v, b) ==> w == v
    ensures forall w: nat, v: nat :: CarriedBy(t, w, b) && CarriedBy(t, v, b) ==> w == v
    ensures forall w: nat, v: nat :: HeldBy(t, w, b) ==> !CarriedBy(t, v, b)
    ensures forall i, j | 0 <= i < j < |t.free| :: t.free[i] != t.free[j]
    ensures forall i | 0 <= i < |t.free| :: t.free[i] < OTA_BUFFER_COUNT
  {
    InitialInv(s);
    LeadsKeepsInv(s, steps, t);
    if b in t.free {
      var i :| 0 <= i < |t.free| && t.free[i] == b;
      assert t.places[b] == Free;
    } else if t.places[b].Held? {
      assert HeldBy(t, t.places[b].caller, b);
    } else {
      var w: nat :| CarriedBy(t, w, b);
    }
    forall w: nat, v: nat | CarriedBy(t, w, b) && CarriedBy(t, v, b) ensures w == v {
      assert TicketOf(t.callers[w].pc) == TicketOf(t.callers[v].pc);
    }
    forall w: nat | HeldBy(t, w, b) ensures t.places[b] == Held(w) {
      HeldPlace(t, w, b);
    }
  }
}
