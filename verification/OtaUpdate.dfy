/** The flash session of main/ota_update.c over a flash slot that can only be erased and programmed. */
module OtaUpdate {
  import opened Esp

  type Byte = bv8
  const ERASED_BYTE: Byte := 0xff

  /** sizeof(esp_image_header_t) + sizeof(esp_image_segment_header_t) + sizeof(esp_app_desc_t) */
  const OTA_HEADER_LENGTH: nat := 24 + 8 + 256

  function Erased(n: nat): (s: seq<Byte>)
    ensures |s| == n && forall i | 0 <= i < n :: s[i] == ERASED_BYTE
  {
    seq(n, _ => ERASED_BYTE)
  }

  /** A slot that holds `image` and nothing else. */
  ghost predicate HoldsOnly(slot: seq<Byte>, image: seq<Byte>) {
    |image| <= |slot| && slot == image + Erased(|slot| - |image|)
  }

  datatype Boot = RunningSlot | OtherSlot

  /** The inactive slot and the flash calls ESP-IDF offers. The n-th call ends as `verdict(n)` says;
      one that fails may leave anything in the bytes it was to change, but nothing elsewhere. */
  class Flash {
    const slot: array<Byte>
    const sector: nat // erase_size
    const verdict: nat -> EspErr
    const garbage: (nat, nat) -> Byte
    var calls: nat
    var pending: bool // the running image is pending verification
    var boot: Boot
    /** What the slot held at each call that would make it the boot partition. */
    ghost var bootCalls: seq<seq<Byte>>

    constructor (slot: array<Byte>, sector: nat, verdict: nat -> EspErr, garbage: (nat, nat) -> Byte, pending: bool)
      ensures this.slot == slot && this.sector == sector && this.verdict == verdict && this.garbage == garbage
      ensures this.pending == pending && calls == 0 && boot == RunningSlot && bootCalls == []
    {
      this.slot, this.sector, this.verdict, this.garbage, this.pending := slot, sector, verdict, garbage, pending;
      calls, boot, bootCalls := 0, RunningSlot, [];
    }

    /** The slot is made of whole sectors, and no call fails. */
    ghost predicate Healthy() {
      sector != 0 && slot.Length % sector == 0 && forall n :: verdict(n) == OK
    }

    /** esp_partition_erase_range */
    method EraseRange(offset: nat, length: nat) returns (err: EspErr)
      requires offset + length <= slot.Length
      modifies this`calls, slot
      ensures forall i | 0 <= i < slot.Length && !(offset <= i < offset + length) :: slot[i] == old(slot[i])
      ensures err == OK ==> forall i | offset <= i < offset + length :: slot[i] == ERASED_BYTE
      ensures err == verdict(old(calls)) && calls == old(calls) + 1
    {
      err := verdict(calls);
      forall i | offset <= i < offset + length {
        slot[i] := if err == OK then ERASED_BYTE else garbage(calls, i);
      }
      calls := calls + 1;
    }

    /** Programming can only clear bits. */
    method Program(offset: nat, data: array<Byte>, length: nat) returns (err: EspErr)
      requires offset + length <= slot.Length && length <= data.Length && data != slot
      modifies this`calls, slot
      ensures forall i | 0 <= i < slot.Length && !(offset <= i < offset + length) :: slot[i] == old(slot[i])
      ensures err == OK ==> forall i | offset <= i < offset + length :: slot[i] == old(slot[i]) & data[i - offset]
      ensures err == verdict(old(calls)) && calls == old(calls) + 1
    {
      err := verdict(calls);
      forall i | offset <= i < offset + length {
        slot[i] := if err == OK then slot[i] & data[i - offset] else garbage(calls, i);
      }
      calls := calls + 1;
    }

    /** esp_ota_begin with one sector to erase; it refuses while the running image is pending. */
    method BeginSession() returns (err: EspErr)
      requires sector <= slot.Length
      modifies this`calls, slot
      ensures if pending then err == ROLLBACK_INVALID_STATE && slot[..] == old(slot[..])
              else err == verdict(old(calls))
      ensures err == OK ==> forall i | 0 <= i < slot.Length :: slot[i] == if i < sector then ERASED_BYTE
          else old(slot[i])
    {
      if pending {
        return ROLLBACK_INVALID_STATE;
      }
      err := EraseRange(0, sector);
    }

    /** Any call that changes no slot: esp_ota_end, esp_ota_abort and the like. */
    method Ask() returns (err: EspErr)
      modifies this`calls
      ensures err == verdict(old(calls)) && calls == old(calls) + 1
    {
      err := verdict(calls);
      calls := calls + 1;
    }

    /** esp_ota_set_boot_partition(target); a failing call leaves the choice as it was. */
    method SetBootOther() returns (err: EspErr)
      modifies this`calls, this`boot, this`bootCalls
      ensures err == verdict(old(calls)) && calls == old(calls) + 1
      ensures bootCalls == old(bootCalls) + [slot[..]]
      ensures boot == if err == OK then OtherSlot else old(boot)
    {
      err := verdict(calls);
      calls := calls + 1;
      bootCalls := bootCalls + [slot[..]];
      if err == OK {
        boot := OtherSlot;
      }
    }
  }

  lemma ErasedTakesData(d: Byte)
    ensures ERASED_BYTE & d == d
  {
  }

  class Session {
    const flash: Flash
    /** Whether ESP-IDF has an inactive slot to offer. */
    const slotExists: bool
    /** Magic bytes, chip and project name of an image header; their layout is ESP-IDF's. */
    const headerOk: seq<Byte> -> bool
    var target: bool // s_target != NULL
    var expected: nat
    var written: nat
    var busy: bool
    var offset: nat // what the ESP-IDF handle has written
    /** Everything accepted in this session, and whether no write of it has failed. */
    ghost var accepted: seq<Byte>
    ghost var clean: bool

    ghost predicate Valid()
      reads this, flash, flash.slot
    {
      busy ==>
        && target && written <= expected <= flash.slot.Length && offset == written == |accepted|
        && (clean ==> HoldsOnly(flash.slot[..], accepted))
    }

    constructor (flash: Flash, slotExists: bool, headerOk: seq<Byte> -> bool)
      ensures Valid() && !busy
      ensures this.flash == flash && this.slotExists == slotExists && this.headerOk == headerOk
    {
      this.flash, this.slotExists, this.headerOk := flash, slotExists, headerOk;
      target, expected, written, busy, offset := false, 0, 0, false, 0;
      accepted, clean := [], true;
    }

    /** erase_inactive_partition: sector by sector, to the very end of the slot. */
    method EraseInactivePartition() returns (err: EspErr)
      modifies flash`calls, flash.slot
      ensures err == OK ==> flash.sector != 0 && flash.slot.Length % flash.sector == 0
      ensures err == OK ==> flash.slot[..] == Erased(flash.slot.Length)
      ensures flash.Healthy() ==> err == OK
      ensures flash.sector == 0 ==> err == INVALID_ARG
      ensures flash.sector != 0 && flash.slot.Length % flash.sector != 0 ==> err == INVALID_SIZE
    {
      if flash.sector == 0 {
        return INVALID_ARG;
      }
      if flash.slot.Length % flash.sector != 0 {
        return INVALID_SIZE;
      }
      var offset := 0;
      ghost var sectors := 0;
      while offset < flash.slot.Length
        invariant offset == sectors * flash.sector <= flash.slot.Length
        invariant forall i | 0 <= i < offset :: flash.slot[i] == ERASED_BYTE
      {
        WholeSectors(flash.slot.Length, flash.sector, sectors);
        err := flash.EraseRange(offset, flash.sector);
        if err != OK {
          return;
        }
        offset := offset + flash.sector;
        sectors := sectors + 1;
      }
      return OK;
    }

    /** The checks of ota_update_begin, in its order, up to the first flash call. */
    function Refusal(header: seq<Byte>, imageSize: nat): (err: EspErr)
      reads this, flash
    {
      if busy then INVALID_STATE
      else if |header| < OTA_HEADER_LENGTH then VALIDATE_FAILED
      else if !headerOk(header) then VALIDATE_FAILED
      else if !slotExists then NOT_FOUND
      else if imageSize <= OTA_HEADER_LENGTH then VALIDATE_FAILED
      else if imageSize > flash.slot.Length then INVALID_SIZE
      else OK
    }

    /** ota_update_begin */
    method Begin(header: array<Byte>, headerLength: nat, imageSize: nat) returns (err: EspErr)
      requires Valid() && headerLength <= header.Length && header != flash.slot
      modifies this, flash`calls, flash.slot
      ensures Valid()
      ensures old(busy) ==> err == INVALID_STATE
      ensures !old(busy) && (headerLength < 288 || !headerOk(old(header[..headerLength]))) ==>
                err == VALIDATE_FAILED
      ensures !old(busy) && headerLength >= 288 && headerOk(old(header[..headerLength])) ==>
                && (!slotExists ==> err == NOT_FOUND)
                && (slotExists && imageSize <= 288 ==> err == VALIDATE_FAILED)
                && (slotExists && imageSize > 288 && imageSize > flash.slot.Length ==>
                      err == INVALID_SIZE)
                && (slotExists && 288 < imageSize <= flash.slot.Length && flash.Healthy() ==>
                      err == if flash.pending then ROLLBACK_INVALID_STATE else OK)
      ensures var r := old(Refusal(header[..headerLength], imageSize));
              r != OK ==> err == r && flash.slot[..] == old(flash.slot[..])
      ensures old(Refusal(header[..headerLength], imageSize)) == OK && flash.pending ==> err != OK
      ensures old(Refusal(header[..headerLength], imageSize)) == OK && flash.Healthy() ==>
                && err == (if flash.pending then ROLLBACK_INVALID_STATE else OK)
                && flash.slot[..] == Erased(flash.slot.Length)
      ensures flash.pending && flash.Healthy() ==>
                (flash.slot[..] == old(flash.slot[..]) <==>
                 || old(Refusal(header[..headerLength], imageSize)) != OK
                 || old(flash.slot[..]) == Erased(flash.slot.Length))
      ensures err == OK ==> !old(busy) && !flash.pending && busy && clean && accepted == [] && expected == imageSize
      ensures err != OK ==>
                && busy == old(busy)
                && (busy ==> accepted == old(accepted) && expected == old(expected) && clean == old(clean))
    {
      if busy {
        return INVALID_STATE;
      }
      if headerLength < OTA_HEADER_LENGTH {
        return VALIDATE_FAILED;
      }
      if !headerOk(header[..headerLength]) {
        return VALIDATE_FAILED;
      }
      target := slotExists;
      if !target {
        return NOT_FOUND;
      }
      if imageSize <= OTA_HEADER_LENGTH {
        return VALIDATE_FAILED;
      }
      if imageSize > flash.slot.Length {
        return INVALID_SIZE;
      }
      err := EraseInactivePartition();
      if err != OK {
        target := false;
        return;
      }
      WholeSectors(flash.slot.Length, flash.sector, 0);
      err := flash.BeginSession();
      if err != OK {
        target := false;
        return;
      }
      expected, written, busy := imageSize, 0, true;
      offset := 0;
      accepted, clean := [], true;
    }

    /** ota_update_write */
    method Write(data: array<Byte>, length: nat) returns (err: EspErr)
      requires Valid() && length <= data.Length && data != flash.slot
      modifies this`written, this`offset, this`accepted, this`clean, flash`calls, flash.slot
      ensures Valid()
      ensures !busy || length == 0 ==> err == INVALID_STATE
      ensures err == OK ==> busy && length > 0 && accepted == old(accepted) + data[..length] && clean == old(clean)
      ensures err != OK ==> accepted == old(accepted)
      ensures busy && 0 < length <= expected - |old(accepted)| && flash.Healthy() ==> err == OK
    {
      if !busy || length == 0 {
        return INVALID_STATE;
      }
      if length > expected - written {
        return INVALID_SIZE;
      }
      ghost var before, piece := flash.slot[..], data[..length];
      err := EspOtaWrite(data, length);
      if err != OK {
        clean := false;
        return;
      }
      if clean {
        DataFillsErased(before, flash.slot[..], accepted, piece);
      }
      written := written + length;
      accepted := accepted + piece;
    }

    /** esp_ota_write: programs the next bytes of the slot. */
    method EspOtaWrite(data: array<Byte>, length: nat) returns (err: EspErr)
      requires offset + length <= flash.slot.Length && length <= data.Length && data != flash.slot
      modifies this`offset, flash`calls, flash.slot
      ensures offset == old(offset) + (if err == OK then length else 0) && err == flash.verdict(old(flash.calls))
      ensures err == OK ==> Programmed(old(flash.slot[..]), flash.slot[..], old(offset), data[..length])
    {
      err := flash.Program(offset, data, length);
      if err == OK {
        offset := offset + length;
      }
    }

    /** ota_update_finish: whatever happens the session is over; the other slot is made the boot
        partition only once all of the declared image has been accepted, and after validation. */
    method Finish() returns (err: EspErr)
      requires Valid()
      modifies this, flash`calls, flash`boot, flash`bootCalls
      ensures Valid() && !busy
      ensures !old(busy) ==> err == INVALID_STATE
      ensures old(busy) && old(|accepted|) != old(expected) ==> err == INVALID_SIZE
      ensures old(busy) && old(|accepted|) == old(expected) && flash.verdict(old(flash.calls)) != OK ==>
                err == flash.verdict(old(flash.calls)) && flash.bootCalls == old(flash.bootCalls)
      ensures old(busy) && old(|accepted|) == old(expected) && flash.Healthy() ==> err == OK
      ensures flash.bootCalls == old(flash.bootCalls) ||
              (old(busy) && old(|accepted|) == old(expected)
                && flash.bootCalls == old(flash.bootCalls) + [flash.slot[..]])
      ensures if err == OK then flash.boot == OtherSlot && flash.bootCalls != old(flash.bootCalls)
          else flash.boot == old(flash.boot)
    {
      if !busy {
        return INVALID_STATE;
      }
      if written != expected {
        Abort();
        return INVALID_SIZE;
      }
      err := flash.Ask();
      busy, expected, written, offset := false, 0, 0, 0;
      if err != OK {
        target := false;
        return;
      }
      err := flash.SetBootOther();
      target := false;
    }

    /** ota_update_abort */
    method Abort()
      modifies this, flash`calls
      ensures Valid() && !busy && !target && expected == 0 && written == 0
      ensures flash.calls == old(flash.calls) + if old(busy) then 1 else 0
    {
      if busy {
        var _ := flash.Ask();
      }
      target, expected, written, busy, offset := false, 0, 0, false, 0;
    }

    /** ota_update_select_previous; `possible` is esp_ota_check_rollback_is_possible(). */
    method SelectPrevious(possible: bool) returns (err: EspErr)
      requires Valid()
      modifies flash`calls, flash`boot, flash`bootCalls
      ensures busy ==> err == INVALID_STATE
      ensures !busy && (!possible || !slotExists) ==> err == NOT_FOUND
      ensures !busy && possible && slotExists ==> err == flash.verdict(old(flash.calls))
      ensures if err == OK then flash.boot == OtherSlot else flash.boot == old(flash.boot)
    {
      if busy {
        return INVALID_STATE;
      }
      if !possible || !slotExists {
        return NOT_FOUND;
      }
      err := flash.SetBootOther();
    }
  }

  /** The bytes from `at` on have had `data` programmed over them, and no other byte has changed. */
  ghost predicate Programmed(before: seq<Byte>, after: seq<Byte>, at: nat, data: seq<Byte>) {
    && |after| == |before| && at + |data| <= |before|
    && (forall i | 0 <= i < |after| && !(at <= i < at + |data|) :: after[i] == before[i])
    && (forall i | at <= i < at + |data| :: after[i] == before[i] & data[i - at])
  }

  lemma DataFillsErased(before: seq<Byte>, after: seq<Byte>, image: seq<Byte>, data: seq<Byte>)
    requires HoldsOnly(before, image) && Programmed(before, after, |image|, data)
    ensures HoldsOnly(after, image + data)
  {
    var full := image + data + Erased(|after| - |image + data|);
    forall i | 0 <= i < |after| ensures after[i] == full[i] {
      if |image| <= i < |image| + |data| {
        assert before[i] == ERASED_BYTE;
        ErasedTakesData(data[i - |image|]);
      }
    }
  }

  /** A session asked to begin while the running image is pending: refused, and the other slot erased. */
  method RefusedButErased() returns (before: seq<Byte>, err: EspErr, after: seq<Byte>)
    ensures err == ROLLBACK_INVALID_STATE
    ensures |before| == |after| == 4096 && (forall i | 0 <= i < 4096 :: before[i] == 0)
    ensures after == Erased(4096)
  {
    var slot := new Byte[4096](_ => 0);
    var header := new Byte[512](_ => 0);
    var flash := new Flash(slot, 4096, _ => OK, (_, _) => 0, true);
    var session := new Session(flash, true, _ => true);
    before := slot[..];
    err := session.Begin(header, header.Length, 1000);
    after := slot[..];
  }

  lemma MulKeepsOrder(a: nat, b: nat, c: nat)
    ensures a <= b ==> a * c <= b * c
  {
  }

  /** In a slot of whole sectors there is room for one more sector anywhere short of the end. */
  lemma WholeSectors(size: nat, sector: nat, k: nat)
    requires sector != 0 && size % sector == 0 && k * sector < size
    ensures k * sector + sector <= size
  {
    var n := size / sector;
    assert size == n * sector;
    MulKeepsOrder(n, k, sector);
    MulKeepsOrder(k + 1, n, sector);
  }
}
