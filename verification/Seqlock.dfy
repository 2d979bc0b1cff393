/** The published snapshot of main/fan_control.c (publish_snapshot, fan_control_get_snapshot): one
    writer, any number of readers, every load and store of a shared word a step of its own. The
    structure copies go word by word in any order, as a compiler may arrange them. */
module Seqlock {
  import opened Esp

  /** A snapshot is so many words; nothing below depends on how many. */
  type Snapshot = seq<Word>

  const ATTEMPTS: nat := 4

  /** publish_snapshot: `local` is its own copy of the sequence number. */
  datatype Writer =
    | Idle
    | Bumped(value: Snapshot, local: Word)
    | Copying(value: Snapshot, local: Word, todo: set<nat>)

  /** One call of fan_control_get_snapshot. `since` is the number of publications finished when it
      began, `from` their number at the first load of the attempt, `until` at its end. */
  datatype Reader =
    | Attempt(tries: nat, since: nat)
    | Reading(tries: nat, since: nat, before: Word, from: nat, copy: Snapshot, todo: set<nat>)
    | Returned(result: Option<Snapshot>, since: nat, until: nat)

  /** `published` lists every snapshot whose publication is complete, the initial one first. */
  datatype System = System(sequence: Word, memory: Snapshot, writer: Writer, readers: map<nat, Reader>,
        published: seq<Snapshot>)

  predicate Initial(s: System) {
    s.sequence == 0 && s.writer == Idle && s.readers == map[] && s.published == [s.memory]
  }

  function Finished(s: System): nat {
    if |s.published| == 0 then 0 else |s.published| - 1
  }

  function Indices(n: nat): (s: set<nat>)
    ensures forall i: nat :: i in s <==> i < n
  {
    if n == 0 then {} else Indices(n - 1) + {n - 1}
  }

  datatype Step =
    | Publish(value: Snapshot) // the first increment
    | Settle // decide whether it left an odd number
    | Store(word: nat)
    | Finish // the last store of the sequence number
    | Call(r: nat)
    | LoadBefore(r: nat)
    | Load(r: nat, word: nat)
    | LoadAfter(r: nat)

  predicate Enabled(s: System, step: Step) {
    match step
    case Publish(value) => s.writer.Idle? && |value| == |s.memory|
    case Settle => s.writer.Bumped?
    case Store(word) => s.writer.Copying? && word in s.writer.todo && word < |s.memory| == |s.writer.value|
    case Finish => s.writer.Copying? && s.writer.todo == {}
    case Call(r) => r !in s.readers
    case LoadBefore(r) => r in s.readers && s.readers[r].Attempt?
    case Load(r, word) => r in s.readers && s.readers[r].Reading? && word in s.readers[r].todo
      && word < |s.memory| == |s.readers[r].copy|
    case LoadAfter(r) => r in s.readers && s.readers[r].Reading? && s.readers[r].todo == {}
  }

  /** The loop goes round or gives up with ESP_ERR_TIMEOUT. */
  function Again(tries: nat, since: nat, finished: nat): Reader {
    if tries + 1 < ATTEMPTS then Attempt(tries + 1, since) else Returned(None, since, finished)
  }

  function AfterLoadBefore(s: System, d: Reader): Reader
    requires d.Attempt?
  {
    if s.sequence % 2 == 1 then Again(d.tries, d.since, Finished(s))
    else Reading(d.tries, d.since, s.sequence, Finished(s), s.memory, Indices(|s.memory|))
  }

  function AfterLoad(s: System, d: Reader, word: nat): Reader
    requires d.Reading? && word < |s.memory| == |d.copy|
  {
    d.(copy := d.copy[word := s.memory[word]], todo := d.todo - {word})
  }

  function AfterLoadAfter(s: System, d: Reader): Reader
    requires d.Reading?
  {
    if d.before == s.sequence && s.sequence % 2 == 0 then Returned(Some(d.copy), d.since, Finished(s))
    else Again(d.tries, d.since, Finished(s))
  }

  function Bump(s: System, value: Snapshot): System {
    var local := Wrap(s.sequence + 1);
    s.(sequence := local, writer := Bumped(value, local))
  }

  function Next(s: System, step: Step): System
    requires Enabled(s, step)
  {
    match step
    case Publish(value) => Bump(s, value)
    case Settle =>
      if s.writer.local % 2 == 0 then Bump(s, s.writer.value)
      else s.(writer := Copying(s.writer.value, s.writer.local, Indices(|s.memory|)))
    case Store(word) => s.(memory := s.memory[word := s.writer.value[word]],
      writer := s.writer.(todo := s.writer.todo - {word}))
    case Finish => s.(sequence := Wrap(s.writer.local + 1), writer := Idle, published := s.published + [s.writer.value])
    case Call(r) => s.(readers := s.readers[r := Attempt(0, Finished(s))])
    case LoadBefore(r) => s.(readers := s.readers[r := AfterLoadBefore(s, s.readers[r])])
    case Load(r, word) => s.(readers := s.readers[r := AfterLoad(s, s.readers[r], word)])
    case LoadAfter(r) => s.(readers := s.readers[r := AfterLoadAfter(s, s.readers[r])])
  }

  // --- The invariant -----------------------------------------------------------------------------

  /** The sequence number before it wraps: two per publication, and one more while one is under way. */
  function Epoch(s: System): nat {
    2 * Finished(s) + if s.writer.Idle? then 0 else 1
  }

  predicate WriterInv(s: System) {
    && s.published != [] && |s.published[Finished(s)]| == |s.memory|
    && s.sequence == Wrap(Epoch(s))
    && match s.writer {
         case Idle => s.memory == s.published[Finished(s)]
         case Bumped(value, local) => local == s.sequence && |value| == |s.memory|
           && s.memory == s.published[Finished(s)]
         case Copying(value, local, todo) =>
           && local == s.sequence && |value| == |s.memory|
           && (forall i | 0 <= i < |value| && i !in todo :: s.memory[i] == value[i])
       }
  }

  /** As long as the epoch has not moved since the first load, the words read so far are those of
      the snapshot that was current then. */
  predicate ReadingInv(s: System, d: Reader)
    requires d.Reading?
  {
    && d.since <= d.from <= Finished(s) && d.before == Wrap(2 * d.from) && |d.copy| == |s.memory|
    && (Epoch(s) == 2 * d.from ==> forall i | 0 <= i < |d.copy| && i !in d.todo :: d.copy[i] == s.memory[i])
  }

  /** A returned snapshot, unless the writer lapped the call. */
  ghost predicate WholeAndRecent(s: System, d: Reader)
    requires d.Returned?
  {
    && d.since <= d.until <= Finished(s) < |s.published|
    && (d.result.Some? && d.until - d.since < 0x8000_0000 ==>
          exists k | d.since <= k <= d.until :: s.published[k] == d.result.value)
  }

  ghost predicate ReaderInv(s: System, d: Reader) {
    match d
    case Attempt(_, since) => since <= Finished(s)
    case Reading(_, _, _, _, _, _) => ReadingInv(s, d)
    case Returned(_, _, _) => WholeAndRecent(s, d)
  }

  ghost predicate Inv(s: System) {
    WriterInv(s) && forall r | r in s.readers :: ReaderInv(s, s.readers[r])
  }

  lemma OddMeansBusy(s: System)
    requires WriterInv(s)
    ensures s.sequence % 2 == 0 <==> s.writer.Idle?
  {
  }

  /** Equal sequence numbers at both ends of an attempt mean equal epochs, unless the writer went
      all the way round. */
  lemma SameSequenceSameEpoch(s: System, d: Reader)
    requires WriterInv(s) && d.Reading? && ReadingInv(s, d)
    requires d.before == s.sequence && Finished(s) - d.from < 0x8000_0000
    ensures Epoch(s) == 2 * d.from
  {
    var moved := Epoch(s) - 2 * d.from;
    assert 0 <= moved < WORD;
    SinceIsTrueTime(Epoch(s), 2 * d.from);
  }

  lemma LoadAfterIsWhole(s: System, d: Reader)
    requires WriterInv(s) && d.Reading? && ReadingInv(s, d) && d.todo == {}
    ensures ReaderInv(s, AfterLoadAfter(s, d))
  {
    var t := AfterLoadAfter(s, d);
    if t.Returned? && t.result.Some? && t.until - t.since < 0x8000_0000 {
      SameSequenceSameEpoch(s, d);
      assert d.copy == s.memory == s.published[Finished(s)];
    }
  }

  lemma WriterKeepsReader(s: System, step: Step, d: Reader)
    requires WriterInv(s) && ReaderInv(s, d) && Enabled(s, step)
    requires step.Publish? || step.Settle? || step.Store? || step.Finish?
    ensures ReaderInv(Next(s, step), d)
  {
    if d.Returned? && d.result.Some? && d.until - d.since < 0x8000_0000 {
      var k :| d.since <= k <= d.until && s.published[k] == d.result.value;
      assert Next(s, step).published[k] == d.result.value;
    }
  }

  lemma WriterKeepsInv(s: System, step: Step)
    requires WriterInv(s) && Enabled(s, step)
    ensures WriterInv(Next(s, step))
  {
    OddMeansBusy(s);
  }

  lemma StepKeepsInv(s: System, step: Step)
    requires Inv(s) && Enabled(s, step)
    ensures Inv(Next(s, step))
  {
    WriterKeepsInv(s, step);
    var t := Next(s, step);
    forall r | r in t.readers ensures ReaderInv(t, t.readers[r]) {
      if step.Publish? || step.Settle? || step.Store? || step.Finish? {
        WriterKeepsReader(s, step, s.readers[r]);
      } else if step.r == r {
        ReaderStep(s, step);
      } else {
        assert ReaderInv(s, s.readers[r]);
      }
    }
  }

  lemma ReaderStep(s: System, step: Step)
    requires Inv(s) && Enabled(s, step) && (step.Call? || step.LoadBefore? || step.Load? || step.LoadAfter?)
    ensures ReaderInv(Next(s, step), Next(s, step).readers[step.r])
  {
    if step.LoadAfter? {
      LoadAfterIsWhole(s, s.readers[step.r]);
    } else if step.LoadBefore? {
      OddMeansBusy(s);
    }
  }

  // --- Executions ----------------------------------------------------------------------------------

  /** `steps` lead from `s` to `t`, each enabled where it is taken. */
  predicate Leads(s: System, steps: seq<Step>, t: System)
    decreases |steps|
  {
    if steps == [] then s == t
    else Enabled(s, steps[0]) && Leads(Next(s, steps[0]), steps[1..], t)
  }

  lemma {:induction false} LeadsKeepsInv(s: System, steps: seq<Step>, t: System)
    requires Inv(s) && Leads(s, steps, t)
    ensures Inv(t)
    decreases |steps|
  {
    if steps != [] {
      StepKeepsInv(s, steps[0]);
      LeadsKeepsInv(Next(s, steps[0]), steps[1..], t);
    }
  }

  /** Whatever the interleaving: a call that returns ESP_OK has one whole published snapshot, never
      a mix, and none older than the last publication finished before the call began - provided
      fewer than 2^31 publications finish during the call. */
  lemma ReadsAreWholeAndRecent(s: System, steps: seq<Step>, t: System, r: nat)
    requires Initial(s) && Leads(s, steps, t)
    requires r in t.readers && t.readers[r].Returned? && t.readers[r].result.Some?
    requires t.readers[r].until - t.readers[r].since < 0x8000_0000
    ensures exists k | t.readers[r].since <= k <= t.readers[r].until < |t.published| ::
              t.published[k] == t.readers[r].result.value
  {
    LeadsKeepsInv(s, steps, t);
    assert ReaderInv(t, t.readers[r]);
  }

  // --- And reads succeed -----------------------------------------------------------------------------

  predicate OfWriter(step: Step) {
    step.Publish? || step.Settle? || step.Store? || step.Finish?
  }

  /** Steps of the other readers, or of this one's copying. */
  predicate LeavesAttempt(step: Step, r: nat) {
    !OfWriter(step) && step != LoadAfter(r)
  }

  lemma QuietStep(s: System, step: Step, r: nat)
    requires Enabled(s, step) && LeavesAttempt(step, r) && r in s.readers && s.readers[r].Reading?
    ensures var t := Next(s, step);
            && t.writer == s.writer && t.sequence == s.sequence && t.published == s.published && t.memory == s.memory
            && r in t.readers && t.readers[r].Reading?
            && t.readers[r].before == s.readers[r].before && t.readers[r].since == s.readers[r].since
            && t.readers[r].from == s.readers[r].from
  {
  }

  lemma {:induction false} QuietSteps(s: System, steps: seq<Step>, t: System, r: nat)
    requires Leads(s, steps, t) && r in s.readers && s.readers[r].Reading?
    requires forall k | 0 <= k < |steps| :: LeavesAttempt(steps[k], r)
    ensures t.writer == s.writer && t.sequence == s.sequence && t.published == s.published && t.memory == s.memory
    ensures r in t.readers && t.readers[r].Reading? && t.readers[r].from == s.readers[r].from
    ensures t.readers[r].before == s.readers[r].before && t.readers[r].since == s.readers[r].since
    decreases |steps|
  {
    if steps != [] {
      QuietStep(s, steps[0], r);
      QuietSteps(Next(s, steps[0]), steps[1..], t, r);
    }
  }

  /** An attempt that begins while nothing is being published, and during which nothing is, ends the
      call with the newest snapshot. */
  lemma UndisturbedReadReturns(s: System, before: seq<Step>, u: System, steps: seq<Step>, v: System, r: nat)
    requires Initial(s) && Leads(s, before, u) && Enabled(u, LoadBefore(r)) && u.writer.Idle?
    requires Leads(Next(u, LoadBefore(r)), steps, v) && Enabled(v, LoadAfter(r))
    requires forall k | 0 <= k < |steps| :: LeavesAttempt(steps[k], r)
    ensures u.published != []
    ensures Next(v, LoadAfter(r)).readers[r] ==
            Returned(Some(u.published[|u.published| - 1]), u.readers[r].since, |u.published| - 1)
  {
    LeadsKeepsInv(s, before, u);
    OddMeansBusy(u);
    var w := Next(u, LoadBefore(r));
    QuietSteps(w, steps, v, r);
    StepKeepsInv(u, LoadBefore(r));
    LeadsKeepsInv(w, steps, v);
    assert ReaderInv(v, v.readers[r]);
    assert v.readers[r].copy == v.memory;
  }

  /** A load that ends an attempt in vain: something is being published, or has been since the first. */
  predicate Disturbed(s: System, step: Step, r: nat)
    requires Enabled(s, step)
  {
    || (step == LoadBefore(r) && !s.writer.Idle?)
    || (step == LoadAfter(r) && s.sequence != s.readers[r].before)
  }

  /** How many such loads a call has made. */
  function Disturbances(s: System, steps: seq<Step>, t: System, r: nat): nat
    requires Leads(s, steps, t)
    decreases |steps|
  {
    if steps == [] then 0
    else (if Disturbed(s, steps[0], r) then 1 else 0) + Disturbances(Next(s, steps[0]), steps[1..], t, r)
  }

  function Tries(s: System, r: nat): nat {
    if r !in s.readers then 0
    else match s.readers[r]
         case Attempt(tries, _) => tries
         case Reading(tries, _, _, _, _, _) => tries
         case Returned(result, _, _) => if result.None? then 4 else 0
  }

  predicate TriesInv(s: System, r: nat) {
    r in s.readers && !s.readers[r].Returned? ==>
      Tries(s, r) < 4 && (s.readers[r].Reading? ==> s.readers[r].before % 2 == 0)
  }

  predicate Succeeded(s: System, r: nat) {
    r in s.readers && s.readers[r].Returned? && s.readers[r].result.Some?
  }

  lemma TriesStep(s: System, step: Step, r: nat)
    requires WriterInv(s) && TriesInv(s, r) && Enabled(s, step)
    ensures var t := Next(s, step);
            && TriesInv(t, r)
            && (!Succeeded(t, r) ==> Tries(t, r) == Tries(s, r) + if Disturbed(s, step, r) then 1 else 0)
            && (Succeeded(s, r) ==> Succeeded(t, r))
  {
    OddMeansBusy(s);
  }

  lemma {:induction false} TriesAreDisturbances(s: System, steps: seq<Step>, t: System, r: nat)
    requires Inv(s) && TriesInv(s, r) && Leads(s, steps, t) && !Succeeded(t, r)
    ensures !Succeeded(s, r) && Tries(t, r) == Tries(s, r) + Disturbances(s, steps, t, r)
    ensures TriesInv(t, r)
    decreases |steps|
  {
    if steps != [] {
      StepKeepsInv(s, steps[0]);
      TriesStep(s, steps[0], r);
      TriesAreDisturbances(Next(s, steps[0]), steps[1..], t, r);
    }
  }

  /** A call gives up with ESP_ERR_TIMEOUT exactly after its fourth disturbed attempt; until then each
      disturbance makes it try again. */
  lemma TimeoutIsFourDisturbances(s: System, steps: seq<Step>, t: System, r: nat)
    requires Initial(s) && Leads(s, steps, t) && r in t.readers && !Succeeded(t, r)
    ensures t.readers[r].Returned? <==> Disturbances(s, steps, t, r) >= 4
    ensures Disturbances(s, steps, t, r) <= 4
  {
    TriesAreDisturbances(s, steps, t, r);
  }

  // --- The bound is needed -------------------------------------------------------------------------

  const OLD: Snapshot := [0, 0]
  const NEW: Snapshot := [1, 1]

  lemma {:induction false} LeadsConcat(s: System, a: seq<Step>, t: System, b: seq<Step>, u: System)
    requires Leads(s, a, t) && Leads(t, b, u)
    ensures Leads(s, a + b, u)
    decreases |a|
  {
    if a == [] {
      assert a + b == b;
    } else {
      assert (a + b)[1..] == a[1..] + b;
      LeadsConcat(Next(s, a[0]), a[1..], t, b, u);
    }
  }

  lemma Prepend(s: System, step: Step, steps: seq<Step>, t: System)
    requires Enabled(s, step) && Leads(Next(s, step), steps, t)
    ensures Leads(s, [step] + steps, t)
  {
    assert ([step] + steps)[1..] == steps;
  }

  /** Where one complete publication of NEW leads. */
  function Published(s: System): System {
    s.(sequence := Wrap(s.sequence + 2), memory := NEW, published := s.published + [NEW])
  }

  lemma PublishOnce(s: System) returns (steps: seq<Step>)
    requires s.writer == Idle && s.sequence % 2 == 0 && |s.memory| == 2
    ensures Leads(s, steps, Published(s))
  {
    var s1 := Next(s, Publish(NEW));
    var s2 := Next(s1, Settle);
    assert s2.writer == Copying(NEW, Wrap(s.sequence + 1), {0, 1});
    var s3 := Next(s2, Store(0));
    var s4 := Next(s3, Store(1));
    assert s4.memory == NEW && s4.writer.todo == {};
    var s5 := Next(s4, Finish);
    assert s5 == Published(s);
    Prepend(s4, Finish, [], s5);
    Prepend(s3, Store(1), [Finish], s5);
    Prepend(s2, Store(0), [Store(1)] + [Finish], s5);
    Prepend(s1, Settle, [Store(0)] + ([Store(1)] + [Finish]), s5);
    steps := [Publish(NEW)] + ([Settle] + ([Store(0)] + ([Store(1)] + [Finish])));
    Prepend(s, Publish(NEW), [Settle] + ([Store(0)] + ([Store(1)] + [Finish])), s5);
  }

  function PublishedMany(s: System, n: nat): System
    decreases n
  {
    if n == 0 then s else PublishedMany(Published(s), n - 1)
  }

  lemma {:induction false} PublishMany(s: System, n: nat) returns (steps: seq<Step>)
    requires s.writer == Idle && s.sequence % 2 == 0 && |s.memory| == 2
    ensures Leads(s, steps, PublishedMany(s, n))
    decreases n
  {
    if n == 0 {
      steps := [];
    } else {
      var first := PublishOnce(s);
      var rest := PublishMany(Published(s), n - 1);
      LeadsConcat(s, first, Published(s), rest, PublishedMany(s, n));
      steps := first + rest;
    }
  }

  lemma {:induction false} ManyLater(s: System, n: nat)
    ensures var t := PublishedMany(s, n);
            && t == s.(sequence := t.sequence, memory := t.memory, published := t.published)
            && t.sequence == Wrap(s.sequence + 2 * n) && (n > 0 ==> t.memory == NEW)
            && |t.published| == |s.published| + n
    decreases n
  {
    if n > 0 {
      ManyLater(Published(s), n - 1);
      WrapAdds(s.sequence, 2, 2 * (n - 1));
    }
  }

  lemma WrapAdds(a: nat, b: nat, c: nat)
    ensures Wrap(Wrap(a + b) + c) == Wrap(a + b + c)
  {
  }

  lemma {:induction false} ManyPublished(s: System, n: nat, v: Snapshot)
    requires v !in s.published && v != NEW
    ensures v !in PublishedMany(s, n).published
    decreases n
  {
    if n > 0 {
      ManyPublished(Published(s), n - 1, v);
    }
  }

  const START: System := System(0, OLD, Idle, map[], [OLD])
  const HALF_READ: Reader := Reading(0, 0, 0, 0, OLD, {1})

  lemma TornReadBegins() returns (steps: seq<Step>)
    ensures Leads(START, steps, START.(readers := map[0 := HALF_READ]))
  {
    var s1 := Next(START, Call(0));
    var s2 := Next(s1, LoadBefore(0));
    assert Indices(2) == {0, 1};
    assert s2.readers[0] == Reading(0, 0, 0, 0, OLD, {0, 1});
    var s3 := Next(s2, Load(0, 0));
    assert {0, 1} - {0} == {1} && OLD[0 := 0] == OLD;
    assert s3.readers == map[0 := HALF_READ];
    Prepend(s2, Load(0, 0), [], s3);
    Prepend(s1, LoadBefore(0), [Load(0, 0)], s3);
    Prepend(START, Call(0), [LoadBefore(0)] + [Load(0, 0)], s3);
    steps := [Call(0)] + ([LoadBefore(0)] + [Load(0, 0)]);
  }

  lemma TornReadEnds(s: System) returns (steps: seq<Step>)
    requires s.readers == map[0 := HALF_READ] && s.memory == NEW && s.sequence == 0
    ensures Leads(s, steps, s.(readers := map[0 := Returned(Some([0, 1]), 0, Finished(s))]))
  {
    var s1 := Next(s, Load(0, 1));
    assert HALF_READ.todo - {1} == {};
    assert s1.readers[0] == Reading(0, 0, 0, 0, [0, 1], {});
    var s2 := Next(s1, LoadAfter(0));
    assert s2.readers == map[0 := Returned(Some([0, 1]), 0, Finished(s))];
    Prepend(s1, LoadAfter(0), [], s2);
    Prepend(s, Load(0, 1), [LoadAfter(0)], s2);
    steps := [Load(0, 1)] + [LoadAfter(0)];
  }

  /** With exactly 2^31 publications between the two halves of its copy, a call returns ESP_OK with
      a mix of two snapshots that was never published. */
  lemma LappedReadIsTorn() returns (s: System, steps: seq<Step>, t: System)
    ensures Initial(s) && Leads(s, steps, t)
    ensures 0 in t.readers && t.readers[0] == Returned(Some([0, 1]), 0, 0x8000_0000)
    ensures [0, 1] !in t.published
  {
    s := START;
    var half := s.(readers := map[0 := HALF_READ]);
    assert OLD[1] != [0, 1][1] && NEW[0] != [0, 1][0];
    var first := TornReadBegins();
    var middle := PublishMany(half, 0x8000_0000);
    var lapped := PublishedMany(half, 0x8000_0000);
    ManyLater(half, 0x8000_0000);
    ManyPublished(half, 0x8000_0000, [0, 1]);
    var last := TornReadEnds(lapped);
    t := lapped.(readers := map[0 := Returned(Some([0, 1]), 0, Finished(lapped))]);
    LeadsConcat(s, first, half, middle, lapped);
    LeadsConcat(s, first + middle, lapped, last, t);
    steps := first + middle + last;
  }
}
