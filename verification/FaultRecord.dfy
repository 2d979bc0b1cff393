/** The fan-fault latch in RTC memory (main/diagnostics.c), which outlives every reset but a
    power-on. Its stores are modelled one by one, since a reset may fall between any two. */
module FaultRecord {
  import opened Esp

  const FAN_FAULT_MAGIC: bv32 := 0x46414e46

  datatype Record = Record(magic: bv32, inverse: bv32, error: bv32, phase: bv32, checksum: bv32)

  /** What diagnostics_init leaves after a power-on reset. */
  const CLEARED: Record := Record(0, 0, 0, 0, 0)

  datatype Fault = Fault(error: bv32, phase: bv32)

  /** fan_fault_checksum */
  function Checksum(error: bv32, phase: bv32): bv32 {
    FAN_FAULT_MAGIC ^ error ^ phase ^ 0xa55aa55a
  }

  /** fan_fault_is_valid */
  predicate IsValid(r: Record) {
    r.magic == FAN_FAULT_MAGIC && r.inverse == !FAN_FAULT_MAGIC && r.checksum == Checksum(r.error, r.phase)
  }

  /** diagnostics_get_fan_fault */
  function Retained(r: Record): Option<Fault> {
    if IsValid(r) then Some(Fault(r.error, r.phase)) else None
  }

  const STORES: nat := 6

  /** The k-th store of diagnostics_latch_fan_fault. */
  function Store(r: Record, k: nat, f: Fault): Record {
    match k
    case 0 => r.(magic := 0)
    case 1 => r.(error := f.error)
    case 2 => r.(phase := f.phase)
    case 3 => r.(checksum := Checksum(f.error, f.phase))
    case 4 => r.(inverse := !FAN_FAULT_MAGIC)
    case _ => r.(magic := FAN_FAULT_MAGIC)
  }

  function AfterStores(r: Record, k: nat, f: Fault): Record {
    if k == 0 then r else Store(AfterStores(r, k - 1, f), k - 1, f)
  }

  /** Wherever a reset cuts the latching, the record decodes to the old fault, to none or to the
      new one: old before the first store, new after the last, none in between. */
  lemma LatchIsCrashConsistent(r: Record, k: nat, f: Fault)
    requires k <= STORES
    ensures Retained(AfterStores(r, k, f)) ==
            if k == 0 then Retained(r) else if k < STORES then None else Some(f)
  {
    var r1 := AfterStores(r, 1, f);
    var r2 := AfterStores(r, 2, f);
    var r3 := AfterStores(r, 3, f);
    var r4 := AfterStores(r, 4, f);
    var r5 := AfterStores(r, 5, f);
    assert r5 == Record(0, !FAN_FAULT_MAGIC, f.error, f.phase, Checksum(f.error, f.phase));
  }

  /** The five words of the record. */
  datatype RecordWord = MagicWord | InverseWord | ErrorWord | PhaseWord | SumWord

  function WithWord(r: Record, field: RecordWord, word: bv32): Record {
    match field
    case MagicWord => r.(magic := word)
    case InverseWord => r.(inverse := word)
    case ErrorWord => r.(error := word)
    case PhaseWord => r.(phase := word)
    case SumWord => r.(checksum := word)
  }

  /** One wrong word in a whole record, whichever it is, and the record holds nothing. */
  lemma OneWrongWordIsSeen(r: Record, field: RecordWord, word: bv32)
    requires Retained(r).Some? && WithWord(r, field, word) != r
    ensures Retained(WithWord(r, field, word)) == None
  {
    match field
    case ErrorWord => SumTellsError(r.error, word, r.phase);
    case PhaseWord => SumTellsPhase(r.error, r.phase, word);
    case _ =>
  }

  const SUM_SALT: bv32 := 0xe31beb1c // FAN_FAULT_MAGIC ^ 0xa55aa55a

  /** The checksum and one of its words give back the other. */
  lemma ErrorFromSum(error: bv32, phase: bv32)
    ensures Checksum(error, phase) ^ phase ^ SUM_SALT == error
  {
  }

  lemma PhaseFromSum(error: bv32, phase: bv32)
    ensures Checksum(error, phase) ^ error ^ SUM_SALT == phase
  {
  }

  lemma SumTellsError(error: bv32, other: bv32, phase: bv32)
    ensures error != other ==> Checksum(error, phase) != Checksum(other, phase)
  {
    ErrorFromSum(error, phase);
    ErrorFromSum(other, phase);
  }

  lemma SumTellsPhase(error: bv32, phase: bv32, other: bv32)
    ensures phase != other ==> Checksum(error, phase) != Checksum(error, other)
  {
    PhaseFromSum(error, phase);
    PhaseFromSum(error, other);
  }

  /** The words a complete latching leaves. */
  lemma LatchedWords(r: Record, f: Fault)
    ensures AfterStores(r, 6, f) ==
            Record(0x46414e46, 0xb9beb1b9, f.error, f.phase, 0xe31beb1c ^ f.error ^ f.phase)
  {
    LatchIsCrashConsistent(r, 6, f);
    var r5 := AfterStores(r, 5, f);
    var r4 := AfterStores(r, 4, f);
    var r3 := AfterStores(r, 3, f);
    var r2 := AfterStores(r, 2, f);
    assert r2.error == f.error && r3.phase == f.phase && r4.checksum == Checksum(f.error, f.phase);
    assert !(0x46414e46 as bv32) == 0xb9beb1b9 && (0x46414e46 as bv32) ^ 0xa55aa55a == 0xe31beb1c;
    assert Checksum(f.error, f.phase) == 0xe31beb1c ^ f.error ^ f.phase;
  }

  /** What the first k stores have established. */
  predicate Written(r: Record, k: nat, f: Fault) {
    && (1 <= k < STORES ==> r.magic == 0)
    && (2 <= k ==> r.error == f.error)
    && (3 <= k ==> r.phase == f.phase)
    && (4 <= k ==> r.checksum == Checksum(f.error, f.phase))
    && (5 <= k ==> r.inverse == !FAN_FAULT_MAGIC)
    && (6 <= k ==> r.magic == FAN_FAULT_MAGIC)
  }

  lemma WrittenRetains(r: Record, k: nat, f: Fault)
    requires 0 < k <= STORES && Written(r, k, f)
    ensures Retained(r) == if k < STORES then None else Some(f)
  {
  }
}
