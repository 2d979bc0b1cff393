/** main/ota_worker.c seen by one caller at a time: command execution and the buffer pool. That
    calls do not get mixed up when there are more is module `Rendezvous`. */
module OtaWorker {
  import opened Esp
  import opened OtaUpdate

  const OTA_BUFFER_SIZE: nat := 4096
  const OTA_BUFFER_COUNT: nat := 2

  datatype Command =
    | BeginAndWrite(buffer: nat, length: nat, imageSize: nat)
    | Write(buffer: nat, length: nat)
    | Finish
    | Abort
    | SelectPrevious
    | ConfirmRunning
    | RollbackRunning

  predicate Carries(c: Command) {
    c.BeginAndWrite? || c.Write?
  }

  predicate Distinct(s: seq<nat>) {
    forall i, j | 0 <= i < j < |s| :: s[i] != s[j]
  }

  class Worker {
    const session: Session
    const buffer0: array<Byte>
    const buffer1: array<Byte>
    /** Which calls of fan_control_quiesce are acknowledged in time. */
    const acknowledged: nat -> bool
    const rollbackPossible: bool
    var quiesces: nat
    var freeQueue: seq<nat>
    var busy: bool // s_busy
    var maintenance: bool // the fan actor's maintenance flag
    var result: EspErr // s_result
    var rebooting: bool

    ghost predicate Valid()
      reads this, session, session.flash, session.flash.slot
    {
      && session.Valid() && Shaped()
      && (session.busy ==> busy && session.clean)
      && Distinct(freeQueue) && |freeQueue| <= OTA_BUFFER_COUNT
        && forall i | 0 <= i < |freeQueue| :: freeQueue[i] < OTA_BUFFER_COUNT
    }

    ghost predicate Shaped()
    {
      && buffer0.Length == OTA_BUFFER_SIZE && buffer1.Length == OTA_BUFFER_SIZE
      && buffer0 != buffer1 && buffer0 != session.flash.slot && buffer1 != session.flash.slot
    }

    /** ota_worker_init */
    constructor (session: Session, buffer0: array<Byte>, buffer1: array<Byte>, acknowledged: nat -> bool,
          rollbackPossible: bool)
      requires session.Valid() && !session.busy
      requires buffer0.Length == OTA_BUFFER_SIZE && buffer1.Length == OTA_BUFFER_SIZE
      requires buffer0 != buffer1 && buffer0 != session.flash.slot && buffer1 != session.flash.slot
      ensures Valid() && freeQueue == [0, 1] && !busy && !maintenance && this.session == session
      ensures this.buffer0 == buffer0 && this.buffer1 == buffer1 && quiesces == 0 && !rebooting
      ensures this.acknowledged == acknowledged && this.rollbackPossible == rollbackPossible
    {
      this.session, this.buffer0, this.buffer1 := session, buffer0, buffer1;
      this.acknowledged, this.rollbackPossible := acknowledged, rollbackPossible;
      quiesces, freeQueue, busy, maintenance, result, rebooting := 0, [0, 1], false, false, OK, false;
    }

    function Buffer(index: nat): array<Byte> {
      if index == 0 then buffer0 else buffer1
    }

    /** fan_control_quiesce: on a timeout it has ended the maintenance again. */
    method Quiesce() returns (err: EspErr)
      modifies this`quiesces, this`maintenance
      ensures quiesces == old(quiesces) + 1 && maintenance == (err == OK)
      ensures err == if acknowledged(old(quiesces)) then OK else TIMEOUT
    {
      err := if acknowledged(quiesces) then OK else TIMEOUT;
      quiesces := quiesces + 1;
      maintenance := err == OK;
    }

    /** No session, nobody busy, the fan released. */
    ghost predicate Closed()
      reads this, session
    {
      !session.busy && !busy && !maintenance
    }

    /** fail_maintenance */
    method FailMaintenance()
      requires session.Valid() && Shaped()
      modifies session, session.flash`calls, this`busy, this`maintenance
      ensures session.Valid() && Closed()
    {
      session.Abort();
      maintenance := false;
      busy := false;
    }

    /** What an acknowledged begin comes to with flash that works, given what the checks before the
        first flash call say. The slot is lost to a begin that the pending image then prevents. */
    ghost predicate Begun(err: EspErr, refusal: EspErr, fits: bool, before: seq<Byte>, after: seq<Byte>)
      reads session.flash
    {
      if refusal != OK then err == refusal && after == before
      else if session.flash.pending then err == ROLLBACK_INVALID_STATE && after == Erased(|before|)
      else fits ==> err == OK
    }

    method ExecuteBegin(buffer: nat, length: nat, imageSize: nat) returns (err: EspErr)
      requires Valid() && buffer < OTA_BUFFER_COUNT && length <= OTA_BUFFER_SIZE
      modifies session, session.flash`calls, session.flash.slot, this`quiesces, this`busy, this`maintenance
      ensures Valid()
      ensures err == OK ==>
                && session.busy && busy && maintenance && !session.flash.pending
                && session.accepted == Buffer(buffer)[..length] && session.expected == imageSize
      ensures err != OK ==>
                || Closed()
                || (err == TIMEOUT && !maintenance && session.busy == old(session.busy) && busy == old(busy))
      ensures !acknowledged(old(quiesces)) ==>
                && err == TIMEOUT && session.flash.calls == old(session.flash.calls)
                && session.flash.slot[..] == old(session.flash.slot[..])
      ensures acknowledged(old(quiesces)) && session.flash.Healthy() ==>
                Begun(err, old(session.Refusal(Buffer(buffer)[..length], imageSize)), length <= imageSize,
                      old(session.flash.slot[..]), session.flash.slot[..])
    {
      err := Quiesce();
      if err != OK {
        return;
      }
      busy := true;
      err := session.Begin(Buffer(buffer), length, imageSize);
      if err == OK {
        err := session.Write(Buffer(buffer), length);
      }
      if err != OK {
        FailMaintenance();
      }
    }

    method ExecuteWrite(buffer: nat, length: nat) returns (err: EspErr)
      requires Valid() && buffer < OTA_BUFFER_COUNT && length <= OTA_BUFFER_SIZE
      modifies session, session.flash`calls, session.flash.slot, this`busy, this`maintenance
      ensures Valid()
      ensures err == OK ==>
                && session.busy && maintenance == old(maintenance) && session.expected == old(session.expected)
                && session.accepted == old(session.accepted) + Buffer(buffer)[..length]
      ensures err != OK ==> Closed()
      ensures old(session.busy) && 0 < length <= old(session.expected - |session.accepted|) && session.flash.Healthy()
              ==> err == OK
    {
      err := session.Write(Buffer(buffer), length);
      if err != OK {
        FailMaintenance();
      }
    }

    method ExecuteFinish() returns (err: EspErr)
      requires Valid()
      modifies session, session.flash`calls, session.flash`boot, session.flash`bootCalls, this`busy, this`maintenance
      ensures Valid() && !session.busy
      ensures old(session.busy) && old(|session.accepted|) == old(session.expected) && session.flash.Healthy() ==>
                err == OK
      ensures session.flash.bootCalls == old(session.flash.bootCalls) ||
              (FullyAccepted(old(session.busy), old(session.accepted), old(session.expected), session.flash.slot[..])
               && session.flash.bootCalls == old(session.flash.bootCalls) + [session.flash.slot[..]])
      ensures if err == OK then
                && session.flash.boot == OtherSlot && session.flash.bootCalls != old(session.flash.bootCalls)
                && busy == old(busy) && maintenance == old(maintenance)
              else session.flash.boot == old(session.flash.boot) && Closed()
    {
      err := session.Finish();
      if err != OK {
        FailMaintenance();
      }
    }

    method ExecuteSelectPrevious() returns (err: EspErr)
      requires Valid()
      modifies session, session.flash`calls, session.flash`boot, session.flash`bootCalls, this`quiesces, this`busy,
        this`maintenance
      ensures Valid()
      ensures err == OK ==> session.flash.boot == OtherSlot && busy && maintenance
      ensures err != OK ==>
                && session.flash.boot == old(session.flash.boot)
                && (Closed() || (err == TIMEOUT && !maintenance && busy == old(busy)))
      ensures acknowledged(old(quiesces)) && old(session.busy) ==> err == INVALID_STATE
      ensures acknowledged(old(quiesces)) && !old(session.busy) && session.flash.Healthy() ==>
                err == if rollbackPossible && session.slotExists then OK else NOT_FOUND
      ensures !acknowledged(old(quiesces)) ==> err == TIMEOUT && session.flash.calls == old(session.flash.calls)
    {
      err := Quiesce();
      if err != OK {
        return;
      }
      busy := true;
      err := session.SelectPrevious(rollbackPossible);
      if err != OK {
        FailMaintenance();
      }
    }

    method ExecuteConfirm() returns (err: EspErr)
      requires Valid()
      modifies session.flash`calls, session.flash`pending, this`quiesces, this`maintenance
      ensures Valid() && !maintenance
      ensures session.flash.pending == (old(session.flash.pending) && err != OK)
      ensures !acknowledged(old(quiesces)) ==> err == TIMEOUT && session.flash.calls == old(session.flash.calls)
      ensures acknowledged(old(quiesces)) ==> err == session.flash.verdict(old(session.flash.calls))
    {
      err := Quiesce();
      if err != OK {
        return;
      }
      err := session.flash.Ask();
      if err == OK {
        session.flash.pending := false;
      }
      maintenance := false;
    }

    method ExecuteRollback() returns (err: EspErr)
      requires Valid()
      modifies session.flash`calls, this`quiesces, this`maintenance, this`rebooting
      ensures Valid()
      ensures maintenance == acknowledged(old(quiesces)) && (!maintenance ==> err == TIMEOUT)
      ensures !acknowledged(old(quiesces)) ==> err == TIMEOUT && session.flash.calls == old(session.flash.calls)
      ensures acknowledged(old(quiesces)) ==>
                err == session.flash.verdict(old(session.flash.calls)) && rebooting == (old(rebooting) || err == OK)
    {
      err := Quiesce();
      if err != OK {
        return TIMEOUT;
      }
      err := session.flash.Ask();
      rebooting := rebooting || err == OK;
    }

    /** release_command_buffer */
    method ReleaseCommandBuffer(c: Command)
      requires Valid() && (Carries(c) ==> c.buffer < OTA_BUFFER_COUNT && c.buffer !in freeQueue)
      modifies this`freeQueue
      ensures Valid()
      ensures freeQueue == if Carries(c) then old(freeQueue) + [c.buffer] else old(freeQueue)
    {
      if Carries(c) {
        TwoDistinct(freeQueue, c.buffer);
        freeQueue := freeQueue + [c.buffer];
      }
    }

    /** ota_worker_begin_and_write: whatever comes of the command, its buffer is back in the pool. */
    method BeginAndWrite(buffer: nat, headerLength: nat, imageSize: nat) returns (err: EspErr)
      requires Valid() && buffer < OTA_BUFFER_COUNT && buffer !in freeQueue
      modifies session, session.flash`calls, session.flash.slot, this`quiesces, this`busy, this`maintenance,
        this`freeQueue, this`result
      ensures Valid()
      ensures if headerLength == 0 || headerLength > 4096 then err == INVALID_ARG
          && freeQueue == old(freeQueue)
              else freeQueue == old(freeQueue) + [buffer]
      ensures err == OK ==>
                && headerLength <= OTA_BUFFER_SIZE && session.busy && busy && maintenance && !session.flash.pending
                && session.accepted == Buffer(buffer)[..headerLength] && session.expected == imageSize
      ensures 0 < headerLength <= OTA_BUFFER_SIZE && acknowledged(old(quiesces)) && session.flash.Healthy() ==>
                Begun(err, old(session.Refusal(Buffer(buffer)[..headerLength], imageSize)), headerLength <= imageSize,
                      old(session.flash.slot[..]), session.flash.slot[..])
      ensures 0 < headerLength <= OTA_BUFFER_SIZE && !acknowledged(old(quiesces)) ==>
                err == TIMEOUT && session.flash.slot[..] == old(session.flash.slot[..])
    {
      if headerLength == 0 || headerLength > OTA_BUFFER_SIZE {
        return INVALID_ARG;
      }
      result := ExecuteBegin(buffer, headerLength, imageSize);
      ReleaseCommandBuffer(Command.BeginAndWrite(buffer, headerLength, imageSize));
      err := result;
    }

    /** ota_worker_write */
    method Write(buffer: nat, length: nat) returns (err: EspErr)
      requires Valid() && buffer < OTA_BUFFER_COUNT && buffer !in freeQueue
      modifies session, session.flash`calls, session.flash.slot, this`busy, this`maintenance, this`freeQueue,
        this`result
      ensures Valid()
      ensures if length == 0 || length > 4096 then err == INVALID_ARG && freeQueue == old(freeQueue)
              else freeQueue == old(freeQueue) + [buffer]
      ensures err == OK ==>
                && length <= OTA_BUFFER_SIZE && session.busy && maintenance == old(maintenance)
                  && session.expected == old(session.expected)
                && session.accepted == old(session.accepted) + Buffer(buffer)[..length]
      ensures && old(session.busy) && 0 < length <= old(session.expected - |session.accepted|)
              && length <= OTA_BUFFER_SIZE && session.flash.Healthy()
              ==> err == OK
    {
      if length == 0 || length > OTA_BUFFER_SIZE {
        return INVALID_ARG;
      }
      result := ExecuteWrite(buffer, length);
      ReleaseCommandBuffer(Command.Write(buffer, length));
      err := result;
    }

    /** ota_worker_finish */
    method FinishImage() returns (err: EspErr)
      requires Valid()
      modifies session, session.flash`calls, session.flash`boot, session.flash`bootCalls, this`busy, this`maintenance,
        this`result
      ensures Valid() && !session.busy
      ensures old(session.busy) && old(|session.accepted|) == old(session.expected) && session.flash.Healthy() ==>
                err == OK
      ensures session.flash.bootCalls == old(session.flash.bootCalls) ||
              (FullyAccepted(old(session.busy), old(session.accepted), old(session.expected), session.flash.slot[..])
               && session.flash.bootCalls == old(session.flash.bootCalls) + [session.flash.slot[..]])
      ensures if err == OK then
                && session.flash.boot == OtherSlot && session.flash.bootCalls != old(session.flash.bootCalls)
                && busy == old(busy) && maintenance == old(maintenance)
              else session.flash.boot == old(session.flash.boot) && Closed()
    {
      result := ExecuteFinish();
      err := result;
    }

    /** ota_worker_acquire_buffer; with an empty pool it gives up after its timeout. */
    method AcquireBuffer() returns (index: Option<nat>)
      requires Valid()
      modifies this`freeQueue
      ensures Valid()
      ensures if old(freeQueue) == [] then index == None && freeQueue == []
              else index == Some(old(freeQueue)[0]) && freeQueue == old(freeQueue)[1..]
      ensures index.Some? ==> index.value < OTA_BUFFER_COUNT && index.value !in freeQueue
      ensures index.Some? ==> multiset(old(freeQueue)) == multiset(freeQueue) + multiset{index.value}
    {
      if freeQueue == [] {
        return None;
      }
      assert freeQueue == [freeQueue[0]] + freeQueue[1..];
      index := Some(freeQueue[0]);
      freeQueue := freeQueue[1..];
    }

    /** ota_worker_release_buffer; a full pool drops the return. */
    method ReleaseBuffer(index: nat)
      requires Valid() && index < OTA_BUFFER_COUNT && index !in freeQueue
      modifies this`freeQueue
      ensures Valid() && freeQueue == old(freeQueue) + [index]
    {
      TwoDistinct(freeQueue, index);
      if |freeQueue| < OTA_BUFFER_COUNT {
        freeQueue := freeQueue + [index];
      }
    }
  }

  /** The image is complete, and it is all that is in the slot. */
  ghost predicate FullyAccepted(busy: bool, accepted: seq<Byte>, expected: nat, slot: seq<Byte>) {
    busy && |accepted| == expected && HoldsOnly(slot, accepted)
  }

  /** A buffer index that is not in the pool leaves room for itself. */
  lemma TwoDistinct(pool: seq<nat>, index: nat)
    requires Distinct(pool) && |pool| <= OTA_BUFFER_COUNT && (forall i | 0 <= i < |pool| :: pool[i] < OTA_BUFFER_COUNT)
    requires index < OTA_BUFFER_COUNT && index !in pool
    ensures |pool| < OTA_BUFFER_COUNT && Distinct(pool + [index])
  {
    assert |pool| == 2 ==> pool[0] != pool[1];
    forall i | 0 <= i < |pool| ensures pool[i] != index {
      assert pool[i] in pool;
    }
  }
}
