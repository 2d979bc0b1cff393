/** The planned-restart marker in RTC memory (main/diagnostics.c), store by store. */
module RestartMarker {
  import opened Esp

  const RESTART_MARKER_MAGIC: Word := 0x48504133

  /** DIAGNOSTICS_RESTART_NONE is 0; OTA, ROLLBACK and PROVISIONING follow. */
  const NONE: Word := 0
  const PROVISIONING: Word := 3

  datatype Marker = Marker(magic: Word, magicInverse: Word, reason: Word, reasonInverse: Word)

  const ZERO: Marker := Marker(0, 0, 0, 0)

  /** What marker_is_valid makes of the marker. */
  function Planned(m: Marker): Option<Word> {
    if m.magic != RESTART_MARKER_MAGIC || m.magicInverse != Complement(RESTART_MARKER_MAGIC)
       || m.reason != Complement(m.reasonInverse) || m.reason <= NONE || m.reason > PROVISIONING
    then None
    else Some(m.reason)
  }

  const STORES: nat := 4

  predicate Markable(reason: Word) {
    NONE < reason <= PROVISIONING
  }

  /** The k-th store of diagnostics_mark_planned_restart. */
  function Store(m: Marker, k: nat, reason: Word): Marker {
    match k
    case 0 => m.(reason := reason)
    case 1 => m.(reasonInverse := Complement(reason))
    case 2 => m.(magicInverse := Complement(RESTART_MARKER_MAGIC))
    case _ => m.(magic := RESTART_MARKER_MAGIC)
  }

  function AfterStores(m: Marker, k: nat, reason: Word): Marker {
    if k == 0 then m else Store(AfterStores(m, k - 1, reason), k - 1, reason)
  }

  /** A call of diagnostics_mark_planned_restart, and how many of its stores take place. */
  datatype Mark = Mark(reason: Word, stores: nat)

  function Marked(m: Marker, mark: Mark): Marker {
    if Markable(mark.reason) then AfterStores(m, if mark.stores < STORES then mark.stores else STORES, mark.reason)
      else m
  }

  /** From any contents whatever, a marking cut anywhere decodes to what it was, to none, or to the
      new reason; a complete one to the new reason. */
  lemma MarkIsCrashConsistent(m: Marker, k: nat, reason: Word)
    requires Markable(reason) && k <= STORES
    ensures Planned(AfterStores(m, k, reason)) in {Planned(m), None, Some(reason)}
    ensures k == STORES ==> Planned(AfterStores(m, k, reason)) == Some(reason)
  {
    var m1, m2, m3 := AfterStores(m, 1, reason), AfterStores(m, 2, reason), AfterStores(m, 3, reason);
    assert m1 == Store(AfterStores(m, 0, reason), 0, reason) == m.(reason := reason);
    assert m2 == m1.(reasonInverse := Complement(reason));
    assert m3 == m2.(magicInverse := Complement(RESTART_MARKER_MAGIC));
    assert AfterStores(m, 4, reason) == m3.(magic := RESTART_MARKER_MAGIC);
  }

  datatype Field = Magic | MagicInverse | Reason | ReasonInverse

  /** The marker with some of its words zeroed already. */
  function Zeroed(m: Marker, fields: set<Field>): Marker {
    Marker(if Magic in fields then 0 else m.magic,
           if MagicInverse in fields then 0 else m.magicInverse,
           if Reason in fields then 0 else m.reason,
           if ReasonInverse in fields then 0 else m.reasonInverse)
  }

  /** diagnostics_init consumes the marker with its very first store, whichever word that zeroes. */
  lemma ConsumedAtOnce(m: Marker, fields: set<Field>)
    requires fields != {}
    ensures Planned(Zeroed(m, fields)) == None
  {
    var f :| f in fields;
    match f
    case Magic =>
    case MagicInverse =>
    case Reason =>
    case ReasonInverse =>
  }

  function MarkedBy(m: Marker, marks: seq<Mark>): Marker {
    if marks == [] then m else Marked(MarkedBy(m, marks[..|marks| - 1]), marks[|marks| - 1])
  }

  /** A boot that finds a planned reason after the boot before it called for `marks`: one of them
      gave that reason. What an earlier boot intended is never reported. */
  lemma {:induction false} PlannedWasMarked(marks: seq<Mark>) returns (k: nat)
    ensures Planned(MarkedBy(ZERO, marks)).Some? ==>
              k < |marks| && Markable(marks[k].reason) && Planned(MarkedBy(ZERO, marks)) == Some(marks[k].reason)
  {
    k := 0;
    if marks != [] {
      var n := |marks| - 1;
      k := PlannedWasMarked(marks[..n]);
      if Markable(marks[n].reason) {
        MarkIsCrashConsistent(MarkedBy(ZERO, marks[..n]), if marks[n].stores < STORES then marks[n].stores
          else STORES, marks[n].reason);
        if Planned(MarkedBy(ZERO, marks)) == Some(marks[n].reason) {
          k := n;
        }
      }
    }
  }

  /** And the last complete marking wins. */
  lemma LastMarkWins(marks: seq<Mark>)
    requires marks != [] && Markable(marks[|marks| - 1].reason) && marks[|marks| - 1].stores >= STORES
    ensures Planned(MarkedBy(ZERO, marks)) == Some(marks[|marks| - 1].reason)
  {
    var n := |marks| - 1;
    MarkIsCrashConsistent(MarkedBy(ZERO, marks[..n]), STORES, marks[n].reason);
  }
}
