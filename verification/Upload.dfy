/** The client side of an upload: ota_post_handler and ota_failure of main/network.c, from the
    receives on the connection down to the flash slot. */
module Upload {
  import opened Esp
  import opened OtaUpdate
  import opened OtaWorker

  const OTA_PREFLIGHT_BUFFER_SIZE: nat := 512

  datatype Status = Accepted | Conflict409 | TooLarge413 | Unprocessable422 | Error500 | Unavailable503

  /** The status line ota_failure chooses. */
  function FailureStatus(cause: EspErr): Status {
    match cause
    case INVALID_STATE => Conflict409
    case ROLLBACK_INVALID_STATE => Conflict409
    case INVALID_SIZE => TooLarge413
    case VALIDATE_FAILED => Unprocessable422
    case INVALID_ARG => Unprocessable422
    case _ => Error500
  }

  /** The request body as the server hands it out: the n-th receive offers `offer(n)` bytes, or
      fails if that is not positive. */
  class Connection {
    const body: seq<Byte>
    const offer: nat -> int
    var receives: nat
    var position: nat

    constructor (body: seq<Byte>, offer: nat -> int)
      ensures this.body == body && this.offer == offer && position == 0 && receives == 0
    {
      this.body, this.offer, receives, position := body, offer, 0, 0;
    }

    /** No receive fails. */
    ghost predicate Flowing() {
      forall n :: 0 < offer(n)
    }

    /** httpd_req_recv into `buffer` from index `at` on */
    method Receive(buffer: array<Byte>, at: nat, wanted: nat) returns (count: int)
      requires at + wanted <= buffer.Length && position + wanted <= |body| && wanted > 0
      modifies this`receives, this`position, buffer
      ensures count == if offer(old(receives)) > wanted then wanted else offer(old(receives))
      ensures receives == old(receives) + 1
      ensures buffer[..at] == old(buffer[..at])
      ensures if count <= 0 then position == old(position)
              else position == old(position) + count && buffer[at..at + count] == body[old(position)..position]
    {
      count := offer(receives);
      receives := receives + 1;
      if count > wanted {
        count := wanted;
      }
      if count > 0 {
        forall i | at <= i < at + count {
          buffer[i] := body[position + i - at];
        }
        position := position + count;
      }
    }
  }

  class Handler {
    const worker: Worker
    /** Whether the task that restarts the device after an accepted upload can be created. */
    const restartTaskStarts: bool
    var requestActive: bool // s_ota_request_active

    constructor (worker: Worker, restartTaskStarts: bool)
      ensures this.worker == worker && this.restartTaskStarts == restartTaskStarts && !requestActive
    {
      this.worker, this.restartTaskStarts, requestActive := worker, restartTaskStarts, false;
    }

    ghost predicate Valid()
      reads worker, worker.session, worker.session.flash, worker.session.flash.slot
    {
      worker.Valid()
    }

    /** The free buffers, in whatever order they came back. */
    ghost function Pool(): multiset<nat>
      reads worker
    {
      multiset(worker.freeQueue)
    }

    /** ota_failure: closes the session whatever state it is in, and releases the fan. */
    method Fail(cause: EspErr) returns (status: Status)
      requires Valid()
      modifies this, worker`busy, worker`maintenance, worker.session, worker.session.flash`calls
      ensures Valid() && worker.Closed() && !requestActive
      ensures status == FailureStatus(cause)
      ensures status == Conflict409 <==> cause == INVALID_STATE || cause == ROLLBACK_INVALID_STATE
      ensures status == TooLarge413 <==> cause == INVALID_SIZE
      ensures status == Unprocessable422 <==> cause == VALIDATE_FAILED || cause == INVALID_ARG
      ensures status != Accepted && status != Unavailable503
    {
      worker.FailMaintenance();
      worker.maintenance := false;
      requestActive := false;
      status := FailureStatus(cause);
    }

    /** Fills the first bytes of the buffer with the first bytes of the body. */
    method ReceivePreflight(request: Connection, buffer: array<Byte>, wanted: nat) returns (received: nat)
      requires request.position == 0 && 0 < wanted <= |request.body| && wanted <= buffer.Length
      modifies request`receives, request`position, buffer
      ensures received <= wanted
      ensures received == wanted ==> request.position == wanted && buffer[..wanted] == request.body[..wanted]
      ensures request.Flowing() ==> received == wanted
      ensures request.offer(old(request.receives)) <= 0 ==> received == 0
    {
      received := 0;
      while received < wanted
        invariant received == request.position <= wanted
        invariant buffer[..received] == request.body[..received]
        invariant received == 0 ==> request.receives == old(request.receives)
        invariant request.offer(old(request.receives)) <= 0 ==> received == 0
      {
        var count := request.Receive(buffer, received, wanted - received);
        if count <= 0 {
          return;
        }
        ghost var before := received;
        received := received + count;
        assert buffer[..received] == buffer[..before] + buffer[before..received];
      }
    }

    /** An upload is under way: what the worker has accepted is the body as far as it was received. */
    ghost predicate Streaming(request: Connection, total: nat)
      reads worker, worker.session, request
    {
      && worker.session.busy && worker.busy && worker.maintenance
      && total == request.position <= |request.body| == worker.session.expected
      && worker.session.accepted == request.body[..total]
    }

    /** One turn of the receive loop. */
    method ReceiveChunk(request: Connection, total: nat) returns (err: EspErr, count: nat)
      requires Valid() && Streaming(request, total) && total < |request.body|
      modifies request`receives, request`position, worker, worker.buffer0, worker.buffer1
      modifies worker.session, worker.session.flash`calls, worker.session.flash.slot
      ensures Valid() && Pool() == old(Pool())
      ensures err == OK ==> 0 < count && Streaming(request, total + count)
      ensures old(worker.freeQueue) != [] && request.Flowing() && worker.session.flash.Healthy() ==> err == OK
      ensures old(worker.freeQueue) == [] ==> err == TIMEOUT
      ensures old(worker.freeQueue) != [] && request.offer(old(request.receives)) <= 0 ==> err == FAIL
    {
      count := 0;
      var index := worker.AcquireBuffer();
      if index.None? {
        err := TIMEOUT;
        return;
      }
      var wanted := |request.body| - total;
      if wanted > OTA_BUFFER_SIZE {
        wanted := OTA_BUFFER_SIZE;
      }
      err, count := ForwardChunk(request, total, index.value, wanted);
    }

    /** Fills an acquired buffer and passes it on. */
    method ForwardChunk(request: Connection, total: nat, index: nat, wanted: nat) returns (err: EspErr, count: nat)
      requires Valid() && Streaming(request, total) && index < OTA_BUFFER_COUNT && index !in worker.freeQueue
      requires 0 < wanted <= OTA_BUFFER_SIZE && total + wanted <= |request.body|
      modifies request`receives, request`position, worker, worker.buffer0, worker.buffer1
      modifies worker.session, worker.session.flash`calls, worker.session.flash.slot
      ensures Valid() && Pool() == old(Pool()) + multiset{index}
      ensures err == OK ==> 0 < count && Streaming(request, total + count)
      ensures request.Flowing() && worker.session.flash.Healthy() ==> err == OK
      ensures request.offer(old(request.receives)) <= 0 ==> err == FAIL
    {
      var buffer := worker.Buffer(index);
      var got := request.Receive(buffer, 0, wanted);
      if got <= 0 {
        worker.ReleaseBuffer(index);
        return FAIL, 0;
      }
      count := got;
      assert buffer[..count] == request.body[total..total + count];
      err := worker.Write(index, count);
      assert request.body[..total] + request.body[total..total + count] == request.body[..total + count];
    }

    /** The receive loop. */
    method ReceiveRest(request: Connection, received: nat) returns (err: EspErr, total: nat)
      requires Valid() && Streaming(request, received)
      modifies request`receives, request`position, worker, worker.buffer0, worker.buffer1
      modifies worker.session, worker.session.flash`calls, worker.session.flash.slot
      ensures Valid() && Pool() == old(Pool())
      ensures err == OK ==> Streaming(request, |request.body|)
      ensures old(worker.freeQueue) != [] && request.Flowing() && worker.session.flash.Healthy() ==> err == OK
    {
      err, total := OK, received;
      while err == OK && total < |request.body|
        invariant Valid() && Pool() == old(Pool())
        invariant err == OK ==> Streaming(request, total)
        invariant old(worker.freeQueue) != [] && request.Flowing() && worker.session.flash.Healthy() ==> err == OK
        decreases |request.body| - total, if err == OK then 1 else 0
      {
        var count;
        assert |Pool()| == |worker.freeQueue| && |old(Pool())| == old(|worker.freeQueue|);
        err, count := ReceiveChunk(request, total);
        total := total + count;
      }
    }

    /** Neither an upload nor a restart under way. */
    ghost predicate Free()
      reads this, worker
    {
      !requestActive && !worker.busy
    }

    /** Nothing has been touched. */
    twostate predicate Unchanged()
      reads this, worker, worker.session.flash.slot
    {
      && worker.session.flash.slot[..] == old(worker.session.flash.slot[..])
      && requestActive == old(requestActive) && worker.busy == old(worker.busy)
      && worker.maintenance == old(worker.maintenance)
    }

    /** How many bytes the handler collects before it asks the worker to begin. */
    static function PreflightLength(body: seq<Byte>): (n: nat)
      ensures n <= |body| && n <= OTA_PREFLIGHT_BUFFER_SIZE
    {
      if |body| < OTA_PREFLIGHT_BUFFER_SIZE then |body| else OTA_PREFLIGHT_BUFFER_SIZE
    }

    /** The body is longer than a header and starts with one the session takes. */
    predicate HeaderValid(body: seq<Byte>) {
      OTA_HEADER_LENGTH < |body| && worker.session.headerOk(body[..PreflightLength(body)])
    }

    /** Neither the connection nor the flash fails, and the fan acknowledges. */
    ghost predicate Smooth(request: Connection)
      reads worker
    {
      request.Flowing() && worker.session.flash.Healthy() && worker.acknowledged(worker.quiesces)
    }

    /** What an upload the handler takes on comes to when nothing fails: it is installed, unless its
        header is refused, or the running image is pending; then the other slot is lost all the same. */
    ghost predicate SmoothOutcome(body: seq<Byte>, status: Status, before: seq<Byte>, after: seq<Byte>)
      reads worker.session.flash
    {
      if !HeaderValid(body) then status == Unprocessable422 && after == before
      else if worker.session.flash.pending then status == Conflict409 && after == Erased(|before|)
      else status == Accepted
    }

    /** ota_post_handler. However the body is cut into receives and whatever fails, the other slot
        is only ever made the boot partition while it holds the request body, in order, and erased
        bytes to its end; a failing upload leaves the boot choice alone and the session closed; and
        the buffer pool is whole again. */
    method Post(request: Connection) returns (status: Status)
      requires Valid() && request.position == 0
      modifies this, request, worker, worker.buffer0, worker.buffer1
      modifies worker.session, worker.session.flash`calls, worker.session.flash`boot, worker.session.flash`bootCalls,
        worker.session.flash.slot
      ensures Valid() && Pool() == old(Pool())
      ensures !old(Free()) ==> status == Conflict409 && Unchanged()
      ensures old(Free()) && |request.body| == 0 ==> status == Unprocessable422 && Unchanged()
      ensures old(Free()) && |request.body| > 0 && !worker.session.slotExists ==> status == Error500 && Unchanged()
      ensures old(Free()) && worker.session.slotExists && |request.body| > worker.session.flash.slot.Length ==>
                status == TooLarge413 && Unchanged()
      ensures old(Free()) && worker.session.slotExists && 0 < |request.body| <= worker.session.flash.slot.Length ==>
                if old(worker.freeQueue) == [] then status == Unavailable503 && Unchanged()
                else status == Accepted || (worker.Closed() && !requestActive)
      ensures worker.session.flash.bootCalls == old(worker.session.flash.bootCalls) ||
              (worker.session.flash.bootCalls == old(worker.session.flash.bootCalls) + [worker.session.flash.slot[..]]
               && HoldsOnly(worker.session.flash.slot[..], request.body))
      ensures if status == Accepted then
                && worker.session.flash.boot == OtherSlot
                && worker.session.flash.bootCalls != old(worker.session.flash.bootCalls)
              else worker.session.flash.boot == old(worker.session.flash.boot)
      ensures status == Accepted ==>
                && !worker.session.flash.pending && worker.maintenance && worker.busy && !worker.session.busy
                && requestActive == restartTaskStarts
      ensures old(Free()) && worker.session.slotExists && 0 < |request.body| <= worker.session.flash.slot.Length
              && old(worker.freeQueue) != [] && old(Smooth(request)) ==>
                SmoothOutcome(request.body, status, old(worker.session.flash.slot[..]),
                              worker.session.flash.slot[..])
      ensures old(Free()) && worker.session.slotExists && 0 < |request.body| <= worker.session.flash.slot.Length
              && old(worker.freeQueue) != [] && request.Flowing() && !worker.acknowledged(old(worker.quiesces)) ==>
                status == Error500 && worker.session.flash.slot[..] == old(worker.session.flash.slot[..])
      ensures old(Free()) && worker.session.slotExists && 0 < |request.body| <= worker.session.flash.slot.Length
              && old(worker.freeQueue) != [] && request.offer(old(request.receives)) <= 0 ==>
                status == Error500 && worker.session.flash.slot[..] == old(worker.session.flash.slot[..])
    {
      if requestActive || worker.busy {
        return Conflict409;
      }
      if |request.body| == 0 {
        return Unprocessable422;
      }
      if !worker.session.slotExists {
        return Error500;
      }
      if |request.body| > worker.session.flash.slot.Length {
        return TooLarge413;
      }
      requestActive := true;
      var index := worker.AcquireBuffer();
      if index.None? {
        requestActive := false;
        return Unavailable503;
      }
      status := Install(request, index.value);
    }

    ghost predicate Fits(body: seq<Byte>)
      reads worker.session
    {
      !worker.session.busy && worker.session.slotExists && |body| <= worker.session.flash.slot.Length
    }

    /** An upload that passed the checks, with its first buffer. */
    method Install(request: Connection, index: nat) returns (status: Status)
      requires Valid() && request.position == 0 && 0 < |request.body| && index < OTA_BUFFER_COUNT
          && index !in worker.freeQueue
      modifies this, request, worker, worker.buffer0, worker.buffer1
      modifies worker.session, worker.session.flash`calls, worker.session.flash`boot, worker.session.flash`bootCalls,
        worker.session.flash.slot
      ensures Valid() && Pool() == old(Pool()) + multiset{index}
      ensures worker.session.flash.bootCalls == old(worker.session.flash.bootCalls) ||
              (worker.session.flash.bootCalls == old(worker.session.flash.bootCalls) + [worker.session.flash.slot[..]]
               && HoldsOnly(worker.session.flash.slot[..], request.body))
      ensures if status == Accepted then
                && worker.session.flash.boot == OtherSlot
                  && worker.session.flash.bootCalls != old(worker.session.flash.bootCalls)
                && worker.maintenance && worker.busy && !worker.session.busy && requestActive == restartTaskStarts
                && !worker.session.flash.pending
              else worker.session.flash.boot == old(worker.session.flash.boot) && worker.Closed() && !requestActive
      ensures old(Fits(request.body) && Smooth(request)) ==>
                SmoothOutcome(request.body, status, old(worker.session.flash.slot[..]),
                              worker.session.flash.slot[..])
      ensures request.Flowing() && !worker.acknowledged(old(worker.quiesces)) ==>
                status == Error500 && worker.session.flash.slot[..] == old(worker.session.flash.slot[..])
      ensures request.offer(old(request.receives)) <= 0 ==>
                status == Error500 && worker.session.flash.slot[..] == old(worker.session.flash.slot[..])
    {
      var err := Transfer(request, index);
      if err != OK {
        status := Fail(err);
        return;
      }
      requestActive := restartTaskStarts;
      status := Accepted;
    }

    ghost predicate SmoothEnd(body: seq<Byte>, err: EspErr, before: seq<Byte>, after: seq<Byte>)
      reads worker.session.flash
    {
      if !HeaderValid(body) then err == VALIDATE_FAILED && after == before
      else if worker.session.flash.pending then err == ROLLBACK_INVALID_STATE && after == Erased(|before|)
      else err == OK
    }

    /** From the first receive to the end of ota_worker_finish, beginning with an acquired buffer. */
    method Transfer(request: Connection, index: nat) returns (err: EspErr)
      requires Valid() && request.position == 0 && 0 < |request.body| && index < OTA_BUFFER_COUNT
          && index !in worker.freeQueue
      modifies request, worker, worker.buffer0, worker.buffer1
      modifies worker.session, worker.session.flash`calls, worker.session.flash`boot, worker.session.flash`bootCalls,
        worker.session.flash.slot
      ensures Valid() && Pool() == old(Pool()) + multiset{index}
      ensures worker.session.flash.bootCalls == old(worker.session.flash.bootCalls) ||
              (worker.session.flash.bootCalls == old(worker.session.flash.bootCalls) + [worker.session.flash.slot[..]]
               && HoldsOnly(worker.session.flash.slot[..], request.body))
      ensures if err == OK then
                && worker.session.flash.boot == OtherSlot
                  && worker.session.flash.bootCalls != old(worker.session.flash.bootCalls)
                && worker.maintenance && worker.busy && !worker.session.busy && !worker.session.flash.pending
              else worker.session.flash.boot == old(worker.session.flash.boot)
      ensures old(Fits(request.body) && Smooth(request)) ==>
                SmoothEnd(request.body, err, old(worker.session.flash.slot[..]), worker.session.flash.slot[..])
      ensures request.Flowing() && !worker.acknowledged(old(worker.quiesces)) ==>
                err == TIMEOUT && worker.session.flash.slot[..] == old(worker.session.flash.slot[..])
      ensures request.offer(old(request.receives)) <= 0 ==>
                err == FAIL && worker.session.flash.slot[..] == old(worker.session.flash.slot[..])
    {
      err := ReceiveImage(request, index);
      if err == OK {
        assert request.body[..|request.body|] == request.body;
        err := worker.FinishImage();
      }
    }

    /** From the first receive to the last ota_worker_write, beginning with an acquired buffer. */
    method ReceiveImage(request: Connection, index: nat) returns (err: EspErr)
      requires Valid() && request.position == 0 && 0 < |request.body| && index < OTA_BUFFER_COUNT
          && index !in worker.freeQueue
      modifies request, worker, worker.buffer0, worker.buffer1
      modifies worker.session, worker.session.flash`calls, worker.session.flash.slot
      ensures Valid() && Pool() == old(Pool()) + multiset{index}
      ensures err == OK ==> Streaming(request, |request.body|) && !worker.session.flash.pending
      ensures old(Fits(request.body) && Smooth(request)) ==>
                SmoothEnd(request.body, err, old(worker.session.flash.slot[..]), worker.session.flash.slot[..])
      ensures request.Flowing() && !worker.acknowledged(old(worker.quiesces)) ==>
                err == TIMEOUT && worker.session.flash.slot[..] == old(worker.session.flash.slot[..])
      ensures request.offer(old(request.receives)) <= 0 ==>
                err == FAIL && worker.session.flash.slot[..] == old(worker.session.flash.slot[..])
    {
      var expected := |request.body|;
      var preflightLength := PreflightLength(request.body);
      var buffer := worker.Buffer(index);
      var received := ReceivePreflight(request, buffer, preflightLength);
      if received < preflightLength {
        worker.ReleaseBuffer(index);
        err := FAIL;
        return;
      }
      err := worker.BeginAndWrite(index, received, expected);
      if err != OK {
        return;
      }
      var total;
      err, total := ReceiveRest(request, received);
    }
  }

  /** A handler that nobody has used yet, over a slot of one sector, where nothing fails; it is to be
      shown a header of 512 bytes. */
  method FreshHandler(slot: array<Byte>, pending: bool) returns (handler: Handler)
    requires slot.Length == 4096
    ensures handler.Valid() && fresh(handler) && fresh(handler.worker) && fresh(handler.worker.session)
    ensures var worker := handler.worker;
            && fresh(worker.buffer0) && fresh(worker.buffer1) && fresh(worker.session.flash)
            && worker.session.flash.slot == slot && worker.session.flash.pending == pending
            && worker.session.flash.boot == RunningSlot && worker.session.flash.bootCalls == []
            && worker.freeQueue == [0, 1] && !worker.busy && !handler.requestActive
    ensures handler.worker.acknowledged(handler.worker.quiesces) && handler.worker.session.flash.Healthy()
    ensures handler.worker.session.slotExists && forall h :: handler.worker.session.headerOk(h) <==> |h| == 512
  {
    var buffer0, buffer1 := new Byte[OTA_BUFFER_SIZE](_ => 0), new Byte[OTA_BUFFER_SIZE](_ => 0);
    var flash := new Flash(slot, 4096, _ => OK, (_, _) => 0, pending);
    var session := new Session(flash, true, (h: seq<Byte>) => |h| == 512);
    var worker := new Worker(session, buffer0, buffer1, _ => true, true);
    handler := new Handler(worker, true);
  }

  /** Its first upload: 1000 bytes over zeros. The only difference that probation makes is that nothing
      is installed. */
  method UploadOnce(pending: bool) returns (status: Status, boot: Boot, body: seq<Byte>, before: seq<Byte>,
                                            after: seq<Byte>)
    ensures |before| == |after| == 4096 && before != Erased(4096)
    ensures if pending then status == Conflict409 && boot == RunningSlot && after == Erased(4096)
            else status == Accepted && boot == OtherSlot && HoldsOnly(after, body)
  {
    var slot := new Byte[4096](_ => 0);
    var handler := FreshHandler(slot, pending);
    body := seq(1000, _ => 0);
    var request := new Connection(body, _ => 512);
    before := slot[..];
    assert before[0] == 0 != Erased(4096)[0];
    status := handler.Post(request);
    boot, after := handler.worker.session.flash.boot, slot[..];
  }
}
