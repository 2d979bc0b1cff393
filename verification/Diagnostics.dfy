/** main/diagnostics.c as imperative code over RTC memory. */
module Diagnostics {
  import opened Esp
  import FaultRecord
  import RestartMarker
  import opened Breadcrumbs

  datatype ResetReason = POWERON | SW | BROWNOUT | PWR_GLITCH | OTHER(code: nat)

  const EVENT_BOOT: Word := 1

  lemma PerformOneMore(r: Ring, place: nat, stores: seq<Store>, store: Store)
    requires place < |r.slots|
    ensures PerformAll(r, place, stores + [store]) == Perform(PerformAll(r, place, stores), place, store)
  {
    assert (stores + [store])[..|stores|] == stores;
  }

  lemma WholeProgramRecords(r: Ring, d: Data)
    requires |r.slots| == BREADCRUMB_COUNT
    ensures PerformAll(r, Place(Number(r.next)), Program(r.next, d)) == Record(r, Attempt(d, ALL))
  {
    var p := Program(r.next, d);
    assert Cut(p, ALL) == p;
  }

  class RtcMemory {
    var marker: RestartMarker.Marker
    var fault: FaultRecord.Record
    var magic: Word
    var magicInverse: Word
    var nextSequence: Word
    const slots: array<Slot>

    /** The stores the latest recording has made so far, and the ring it began with. */
    ghost var done: seq<Store>
    ghost var since: Ring

    ghost predicate Valid()
      reads this
    {
      slots.Length == BREADCRUMB_COUNT
    }

    ghost function View(): (r: Ring)
      requires Valid()
      reads this, slots
      ensures |r.slots| == BREADCRUMB_COUNT
    {
      Ring(magic, magicInverse, nextSequence, slots[..])
    }

    /** Whatever a power-up leaves in RTC memory. */
    constructor (marker: RestartMarker.Marker, fault: FaultRecord.Record, ring: Ring, slots: array<Slot>)
      requires slots.Length == BREADCRUMB_COUNT && slots[..] == ring.slots
      ensures Valid() && View() == ring && this.marker == marker && this.fault == fault && this.slots == slots
    {
      this.marker, this.fault, this.slots := marker, fault, slots;
      magic, magicInverse, nextSequence := ring.magic, ring.magicInverse, ring.next;
      done, since := [], ring;
    }

    /** The recording under way is exactly as far as `done` says: a reset here finds this ring. */
    ghost predicate UnderWay()
      requires Valid()
      reads this, slots
    {
      |since.slots| == BREADCRUMB_COUNT && View() == PerformAll(since, Place(Number(since.next)), done)
    }

    method StoreNext(word: Word)
      requires Valid() && UnderWay()
      modifies this`nextSequence, this`done
      ensures UnderWay() && done == old(done) + [Next(word)] && nextSequence == word
    {
      nextSequence := word;
      PerformOneMore(since, Place(Number(since.next)), done, Next(word));
      done := done + [Next(word)];
    }

    /** One word of the slot. */
    method StoreSlot(place: nat, store: Store)
      requires Valid() && UnderWay() && !store.Next? && place == Place(Number(since.next))
      modifies this`done, slots
      ensures UnderWay() && done == old(done) + [store]
    {
      ghost var before := View();
      slots[place] := Put(slots[place], store);
      assert slots[..] == before.slots[place := Put(before.slots[place], store)];
      assert View() == Perform(before, place, store);
      PerformOneMore(since, place, done, store);
      done := done + [store];
    }

    method StoreValue(place: nat, sequence: Word, d: Data)
      requires Valid() && UnderWay() && place == Place(Number(since.next))
      modifies this`done, slots
      ensures UnderWay()
      ensures done == old(done) + [Sequence(sequence), Kind(d.event), Uptime(d.uptime), Value(d.value),
          Detail(d.detail)]
    {
      StoreSlot(place, Sequence(sequence));
      StoreSlot(place, Kind(d.event));
      StoreSlot(place, Uptime(d.uptime));
      StoreSlot(place, Value(d.value));
      StoreSlot(place, Detail(d.detail));
    }

    /** diagnostics_record_event. RTC memory runs through the stores of `Program`, one by one. */
    method RecordEvent(d: Data)
      requires Valid()
      modifies this`nextSequence, this`done, this`since, slots
      ensures if !IsValid(old(View())) then View() == old(View())
              else UnderWay() && since == old(View()) && done == Program(old(nextSequence), d)
      ensures IsValid(old(View())) ==> View() == Record(old(View()), Attempt(d, ALL))
      ensures old(magic) != 0x42524352 || old(magicInverse) != 0xffff_ffff - 0x42524352 ==> View() == old(View())
    {
      if magic != BREADCRUMB_MAGIC || magicInverse != Complement(BREADCRUMB_MAGIC) {
        return;
      }
      var sequence := AdvanceSequence();
      WriteSlot((sequence - 1) % BREADCRUMB_COUNT, sequence, d);
      WholeProgramRecords(since, d);
    }

    method AdvanceSequence() returns (sequence: Word)
      requires Valid()
      modifies this`nextSequence, this`done, this`since
      ensures UnderWay() && since == old(View()) && done == Header(since.next) && sequence == Number(since.next)
    {
      since, done := View(), [];
      sequence := nextSequence;
      StoreNext(Wrap(nextSequence + 1));
      if sequence == 0 {
        sequence := 1;
        StoreNext(2);
      }
    }

    method WriteSlot(place: nat, sequence: Word, d: Data)
      requires Valid() && UnderWay() && done == Header(since.next)
      requires sequence == Number(since.next) && place == Place(sequence)
      modifies this`done, slots
      ensures UnderWay() && done == Program(since.next, d)
    {
      StoreSlot(place, Commit(0));
      StoreSlot(place, CommitInverse(Complement(0)));
      StoreValue(place, sequence, d);
      StoreSlot(place, CommitInverse(Complement(sequence)));
      StoreSlot(place, Commit(sequence));
    }

    /** diagnostics_get_latest_event */
    method GetLatestEvent() returns (event: Option<Event>)
      requires Valid()
      ensures event == Latest(View())
      ensures magic != 0x42524352 || magicInverse != 0xffff_ffff - 0x42524352 ==> event == None
    {
      if magic != BREADCRUMB_MAGIC || magicInverse != Complement(BREADCRUMB_MAGIC) || nextSequence <= 1 {
        return None;
      }
      var sequence := nextSequence - 1;
      var slot := slots[(sequence - 1) % BREADCRUMB_COUNT];
      if slot.commit != sequence || slot.inverse != Complement(sequence) || slot.value.sequence != sequence {
        return None;
      }
      return Some(slot.value);
    }

    /** diagnostics_mark_planned_restart */
    method MarkPlannedRestart(reason: Word)
      modifies this`marker
      ensures marker == RestartMarker.Marked(old(marker), RestartMarker.Mark(reason, RestartMarker.STORES))
      ensures marker ==
                if 1 <= reason <= 3
                then RestartMarker.Marker(0x48504133, Complement(0x48504133), reason, Complement(reason))
                else old(marker)
    {
      if reason <= RestartMarker.NONE || reason > RestartMarker.PROVISIONING {
        return;
      }
      ghost var m := marker;
      marker := marker.(reason := reason);
      assert marker == RestartMarker.Store(RestartMarker.AfterStores(m, 0, reason), 0, reason) ==
        RestartMarker.AfterStores(m, 1, reason);
      marker := marker.(reasonInverse := Complement(marker.reason));
      assert marker == RestartMarker.AfterStores(m, 2, reason);
      marker := marker.(magicInverse := Complement(RestartMarker.RESTART_MARKER_MAGIC));
      assert marker == RestartMarker.AfterStores(m, 3, reason);
      marker := marker.(magic := RestartMarker.RESTART_MARKER_MAGIC);
      assert marker == RestartMarker.AfterStores(m, 4, reason);
    }

    method ClearRing()
      requires Valid()
      modifies this`magic, this`magicInverse, this`nextSequence, slots
      ensures View() == FRESH
    {
      magic, magicInverse, nextSequence := BREADCRUMB_MAGIC, Complement(BREADCRUMB_MAGIC), 1;
      forall i | 0 <= i < BREADCRUMB_COUNT {
        slots[i] := EMPTY_SLOT;
      }
      assert slots[..] == EmptySlots();
    }

    /** diagnostics_init: only a power-on reset clears a fan fault; the ring is started over then and
        whenever it is not valid; the marker is read after a software reset and always consumed. */
    method Init(reset: ResetReason, resetCode: Word, uptime: Word) returns (planned: Option<Word>)
      requires Valid()
      modifies this, slots
      ensures Valid()
      ensures planned == if reset == SW then RestartMarker.Planned(old(marker)) else None
      ensures marker == RestartMarker.ZERO
      ensures fault == if reset == POWERON then FaultRecord.CLEARED else old(fault)
      ensures var r := if reset == POWERON || !IsValid(old(View())) then FRESH else old(View());
              var detail := if reset != POWERON && FaultRecord.IsValid(old(fault)) then old(fault).error else 0;
              View() == Record(r, Attempt(Data(1, uptime, resetCode, detail), ALL))
      ensures reset == POWERON || old(magic) != 0x42524352 || old(magicInverse) != 0xffff_ffff - 0x42524352 ==>
                magic == 0x42524352 && magicInverse == 0xffff_ffff - 0x42524352 && nextSequence == 2
                && forall i | 1 <= i < 16 :: slots[i] == EMPTY_SLOT
    {
      planned := None;
      if reset == SW && RestartMarker.Planned(marker).Some? {
        planned := RestartMarker.Planned(marker);
      }
      if reset == POWERON {
        fault := FaultRecord.CLEARED;
      }
      if !IsValid(Ring(magic, magicInverse, nextSequence, [])) || reset == POWERON {
        ClearRing();
      }
      marker := RestartMarker.ZERO;
      ghost var started := View();
      RecordIsCrashConsistent(started, Attempt(Data(EVENT_BOOT, uptime, resetCode,
        if FaultRecord.IsValid(fault) then fault.error else 0), ALL));
      RecordEvent(Data(EVENT_BOOT, uptime, resetCode, if FaultRecord.IsValid(fault) then fault.error else 0));
    }
  }

  /** Each of the three reasons comes back from the boot after a software restart, and from no other. */
  method RestartPlanned(memory: RtcMemory, reason: Word, reset: ResetReason, resetCode: Word, uptime: Word)
      returns (planned: Option<Word>)
    requires memory.Valid() && memory.marker == RestartMarker.ZERO
    modifies memory, memory.slots
    ensures memory.Valid() && memory.marker == RestartMarker.ZERO
    ensures planned == if reset == SW && 1 <= reason <= 3 then Some(reason) else None
  {
    memory.MarkPlannedRestart(reason);
    planned := memory.Init(reset, resetCode, uptime);
  }
}
