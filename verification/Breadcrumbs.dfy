/** The breadcrumb ring in RTC memory (main/diagnostics.c), store by store. */
module Breadcrumbs {
  import opened Esp

  const BREADCRUMB_MAGIC: Word := 0x42524352
  const BREADCRUMB_COUNT: nat := 16

  /** The numbers 1, ..., 2^32 - 1 make a turn. */
  const TURN: nat := WORD - 1

  datatype Data = Data(event: Word, uptime: Word, value: Word, detail: bv32)
  datatype Event = Event(sequence: Word, data: Data)
  datatype Slot = Slot(commit: Word, inverse: Word, value: Event)
  datatype Ring = Ring(magic: Word, magicInverse: Word, next: Word, slots: seq<Slot>)

  const EMPTY_SLOT: Slot := Slot(0, 0, Event(0, Data(0, 0, 0, 0)))

  function EmptySlots(): (s: seq<Slot>)
    ensures |s| == BREADCRUMB_COUNT && forall i | 0 <= i < |s| :: s[i] == EMPTY_SLOT
  {
    seq(BREADCRUMB_COUNT, _ => EMPTY_SLOT)
  }

  /** What diagnostics_init makes of a ring that is not valid, or after a power-on reset. */
  const FRESH: Ring := Ring(BREADCRUMB_MAGIC, Complement(BREADCRUMB_MAGIC), 1, EmptySlots())

  /** breadcrumb_ring_is_valid */
  predicate IsValid(r: Ring) {
    r.magic == BREADCRUMB_MAGIC && r.magicInverse == Complement(BREADCRUMB_MAGIC)
  }

  /** The event a slot holds for a reader that trusts only its commit word and the inverse. */
  function Held(s: Slot): Option<Event> {
    if s.commit != 0 && s.inverse == Complement(s.commit) then Some(s.value) else None
  }

  predicate Tidy(s: Slot) {
    Held(s).Some? ==> s.commit == s.value.sequence
  }

  // --- One recording --------------------------------------------------------------------------

  datatype Store =
    | Next(word: Word)
    | Commit(word: Word)
    | CommitInverse(word: Word)
    | Sequence(word: Word)
    | Kind(word: Word)
    | Uptime(word: Word)
    | Value(word: Word)
    | Detail(code: bv32)

  function Place(sequence: Word): nat {
    if sequence == 0 then 0 else (sequence - 1) % BREADCRUMB_COUNT
  }

  /** The number the next event gets. */
  function Number(next: Word): Word {
    if next == 0 then 1 else next
  }

  /** Increments of next_sequence before the slot is touched. */
  function Header(next: Word): seq<Store> {
    if next == 0 then [Next(1), Next(2)] else [Next(Wrap(next + 1))]
  }

  /** The stores of diagnostics_record_event, in order. */
  function Program(next: Word, d: Data): seq<Store> {
    var n := Number(next);
    Header(next) + [Commit(0), CommitInverse(Complement(0)),
      Sequence(n), Kind(d.event), Uptime(d.uptime), Value(d.value), Detail(d.detail),
      CommitInverse(Complement(n)), Commit(n)]
  }

  function Put(s: Slot, store: Store): Slot {
    match store
    case Next(_) => s
    case Commit(w) => s.(commit := w)
    case CommitInverse(w) => s.(inverse := w)
    case Sequence(w) => s.(value := s.value.(sequence := w))
    case Kind(w) => s.(value := s.value.(data := s.value.data.(event := w)))
    case Uptime(w) => s.(value := s.value.(data := s.value.data.(uptime := w)))
    case Value(w) => s.(value := s.value.(data := s.value.data.(value := w)))
    case Detail(w) => s.(value := s.value.(data := s.value.data.(detail := w)))
  }

  function Perform(r: Ring, place: nat, store: Store): Ring
    requires place < |r.slots|
  {
    if store.Next? then r.(next := store.word) else r.(slots := r.slots[place := Put(r.slots[place], store)])
  }

  function PerformAll(r: Ring, place: nat, stores: seq<Store>): (q: Ring)
    requires place < |r.slots|
    ensures |q.slots| == |r.slots|
  {
    if stores == [] then r
    else Perform(PerformAll(r, place, stores[..|stores| - 1]), place, stores[|stores| - 1])
  }

  /** An event to record, and how many stores of the recording take place before a reset. */
  datatype Attempt = Attempt(data: Data, stores: nat)

  predicate Complete(next: Word, a: Attempt) {
    a.stores >= |Program(next, a.data)|
  }

  function Cut<T>(s: seq<T>, n: nat): seq<T> {
    if n < |s| then s[..n] else s
  }

  function Record(r: Ring, a: Attempt): (q: Ring)
    requires |r.slots| == BREADCRUMB_COUNT
    ensures |q.slots| == BREADCRUMB_COUNT
  {
    PerformAll(r, Place(Number(r.next)), Cut(Program(r.next, a.data), a.stores))
  }

  // --- Crash consistency ------------------------------------------------------------------------

  /** next_sequence after some stores of a recording. */
  function Advance(next: Word, stores: nat): Word {
    if stores == 0 then next
    else if next != 0 then Wrap(next + 1)
    else if stores == 1 then 1 else 2
  }

  /** What the slot being written holds after some stores of a recording. */
  function SlotShows(s: Option<Event>, next: Word, a: Attempt): Option<Event> {
    if a.stores <= |Header(next)| then s
    else if Complete(next, a) then Some(Event(Number(next), a.data))
    else None
  }

  /** The state of slot and counter after `k` stores. */
  predicate Progress(s: Slot, t: Slot, next: Word, d: Data, k: nat)
    requires |Program(next, d)| == |Header(next)| + 9
  {
    var h, n := |Header(next)|, Number(next);
    && (k <= h ==> t == s)
    && (h < k < h + 9 ==> t.commit == 0)
    && (h + 2 <= k < h + 8 ==> t.inverse == 0xffff_ffff)
    && (h + 3 <= k ==> t.value.sequence == n)
    && (h + 4 <= k ==> t.value.data.event == d.event)
    && (h + 5 <= k ==> t.value.data.uptime == d.uptime)
    && (h + 6 <= k ==> t.value.data.value == d.value)
    && (h + 7 <= k ==> t.value.data.detail == d.detail)
    && (h + 8 <= k ==> t.inverse == Complement(n))
    && (h + 9 <= k ==> t.commit == n)
  }

  lemma {:induction false} StoresProgress(r: Ring, d: Data, k: nat)
    requires |r.slots| == BREADCRUMB_COUNT && k <= |Program(r.next, d)|
    ensures var q, place := PerformAll(r, Place(Number(r.next)), Program(r.next, d)[..k]), Place(Number(r.next));
            && Progress(r.slots[place], q.slots[place], r.next, d, k)
            && q.next == Advance(r.next, k)
            && q == Ring(r.magic, r.magicInverse, q.next, r.slots[place := q.slots[place]])
  {
    var place, p := Place(Number(r.next)), Program(r.next, d);
    if k > 0 {
      StoresProgress(r, d, k - 1);
      assert p[..k][..k - 1] == p[..k - 1];
      var before := PerformAll(r, place, p[..k - 1]);
      assert PerformAll(r, place, p[..k]) == Perform(before, place, p[k - 1]);
    }
  }

  /** A recording cut anywhere leaves every other slot alone, and its own slot with the old event,
      with none, or with the whole new one. */
  lemma RecordIsCrashConsistent(r: Ring, a: Attempt)
    requires |r.slots| == BREADCRUMB_COUNT
    ensures var q, place := Record(r, a), Place(Number(r.next));
            && q.next == Advance(r.next, a.stores) && (Tidy(r.slots[place]) ==> Tidy(q.slots[place]))
            && Held(q.slots[place]) == SlotShows(Held(r.slots[place]), r.next, a)
            && (forall i | 0 <= i < BREADCRUMB_COUNT && i != place :: q.slots[i] == r.slots[i])
            && q.magic == r.magic && q.magicInverse == r.magicInverse
            && (|Header(r.next)| + 2 <= a.stores < |Header(r.next)| + 8 ==>
                  q.slots[place].commit == 0 && q.slots[place].inverse == 0xffff_ffff)
  {
    var p := Program(r.next, a.data);
    var k := if a.stores < |p| then a.stores else |p|;
    assert Cut(p, a.stores) == p[..k];
    StoresProgress(r, a.data, k);
  }

  // --- Any history of recordings and resets -------------------------------------------------------

  function Replay(attempts: seq<Attempt>): (r: Ring)
    ensures |r.slots| == BREADCRUMB_COUNT
  {
    if attempts == [] then FRESH
    else Record(Replay(attempts[..|attempts| - 1]), attempts[|attempts| - 1])
  }

  function NextAfter(attempts: seq<Attempt>): Word {
    if attempts == [] then 1
    else Advance(NextAfter(attempts[..|attempts| - 1]), attempts[|attempts| - 1].stores)
  }

  /** What place `i` should hold: the last event recorded there, or none if that recording was cut
      after it began to write the slot. */
  function Remembered(attempts: seq<Attempt>, i: nat): Option<Event> {
    if attempts == [] then None
    else
      var before, a := attempts[..|attempts| - 1], attempts[|attempts| - 1];
      var next := NextAfter(before);
      if Place(Number(next)) == i then SlotShows(Remembered(before, i), next, a) else Remembered(before, i)
  }

  lemma {:induction false} RingRemembers(attempts: seq<Attempt>)
    ensures Replay(attempts).next == NextAfter(attempts) && IsValid(Replay(attempts))
    ensures forall i | 0 <= i < BREADCRUMB_COUNT ::
              Held(Replay(attempts).slots[i]) == Remembered(attempts, i) && Tidy(Replay(attempts).slots[i])
  {
    if attempts != [] {
      var n := |attempts| - 1;
      RingRemembers(attempts[..n]);
      RecordIsCrashConsistent(Replay(attempts[..n]), attempts[n]);
    }
  }

  /** Whatever resets fell between whatever stores: a slot with a non-zero commit word and a
      matching inverse holds one whole event, recorded to the end, under its own number. */
  lemma {:induction false} HeldEventsAreWhole(attempts: seq<Attempt>, i: nat) returns (k: nat)
    requires i < BREADCRUMB_COUNT && Held(Replay(attempts).slots[i]).Some?
    ensures k < |attempts| && Complete(NextAfter(attempts[..k]), attempts[k])
    ensures Held(Replay(attempts).slots[i]).value == Event(Number(NextAfter(attempts[..k])), attempts[k].data)
    ensures Place(Number(NextAfter(attempts[..k]))) == i
  {
    RingRemembers(attempts);
    k := LastComplete(attempts, i);
  }

  lemma {:induction false} LastComplete(attempts: seq<Attempt>, i: nat) returns (k: nat)
    requires i < BREADCRUMB_COUNT && Remembered(attempts, i).Some?
    ensures k < |attempts| && Complete(NextAfter(attempts[..k]), attempts[k])
    ensures Remembered(attempts, i).value == Event(Number(NextAfter(attempts[..k])), attempts[k].data)
    ensures Place(Number(NextAfter(attempts[..k]))) == i
  {
    var n := |attempts| - 1;
    var next := NextAfter(attempts[..n]);
    if Place(Number(next)) == i && Complete(next, attempts[n]) {
      k := n;
    } else {
      k := LastComplete(attempts[..n], i);
      assert attempts[..n][..k] == attempts[..k];
    }
  }

  // --- Without resets -----------------------------------------------------------------------------

  const ALL: nat := 11

  /** Every one of these events is recorded to the end. */
  function Uncut(log: seq<Data>): (a: seq<Attempt>)
    ensures |a| == |log|
  {
    seq(|log|, k requires 0 <= k < |log| => Attempt(log[k], ALL))
  }

  /** The p-th event as it is numbered. */
  function Numbered(log: seq<Data>, p: nat): Event
    requires p < |log|
  {
    Event(p % TURN + 1, log[p])
  }

  /** The position after the one numbered 2^32 - 1 is numbered 1 again. */
  lemma TurnSuccessor(p: nat)
    ensures (p + 1) % TURN == if p % TURN == TURN - 1 then 0 else p % TURN + 1
  {
  }

  lemma {:induction false} UncutNext(log: seq<Data>)
    ensures Number(NextAfter(Uncut(log))) == |log| % TURN + 1
    ensures NextAfter(Uncut(log)) == if |log| > 0 && |log| % TURN == 0 then 0 else |log| % TURN + 1
  {
    if log != [] {
      var n := |log| - 1;
      assert Uncut(log)[..n] == Uncut(log[..n]);
      UncutNext(log[..n]);
      TurnSuccessor(n);
      AdvanceTurns(n % TURN, NextAfter(Uncut(log[..n])), (n + 1) % TURN);
    }
  }

  /** One complete recording, `m` events into the turn. */
  lemma AdvanceTurns(m: nat, next: Word, after: nat)
    requires m < TURN && after == (if m == TURN - 1 then 0 else m + 1)
    requires Number(next) == m + 1
    ensures Number(Advance(next, ALL)) == after + 1 && Advance(next, ALL) == (if after == 0 then 0 else after + 1)
  {
  }

  /** Where the p-th event goes. */
  function PlaceOf(p: nat): nat {
    p % TURN % BREADCRUMB_COUNT
  }

  /** The last position before `n` whose event goes to place `i`, if any. */
  function LastAt(n: nat, i: nat): Option<nat> {
    if n == 0 then None else if PlaceOf(n - 1) == i then Some(n - 1) else LastAt(n - 1, i)
  }

  lemma {:induction false} LastAtBound(n: nat, i: nat)
    ensures LastAt(n, i).Some? ==> LastAt(n, i).value < n
  {
    if n > 0 {
      LastAtBound(n - 1, i);
    }
  }

  lemma {:induction false} UncutRemembers(log: seq<Data>, i: nat)
    requires i < BREADCRUMB_COUNT
    ensures var p := LastAt(|log|, i);
            && (p.Some? ==> p.value < |log|)
            && Remembered(Uncut(log), i) == if p.Some? then Some(Numbered(log, p.value)) else None
  {
    LastAtBound(|log|, i);
    if log != [] {
      var n := |log| - 1;
      assert Uncut(log)[..n] == Uncut(log[..n]);
      UncutRemembers(log[..n], i);
      LastAtBound(n, i);
      UncutNext(log[..n]);
    }
  }

  lemma {:induction false} LastAtIs(n: nat, p: nat)
    requires p < n && forall q :: p < q < n ==> PlaceOf(q) != PlaceOf(p)
    ensures LastAt(n, PlaceOf(p)) == Some(p)
    decreases n
  {
    if p != n - 1 {
      assert PlaceOf(n - 1) != PlaceOf(p);
      LastAtIs(n - 1, p);
    }
  }

  /** Positions less than sixteen apart share a place only across the turn. */
  lemma NearbyPlacesDiffer(p: nat, q: nat)
    requires p < q < p + BREADCRUMB_COUNT && p % TURN < q % TURN
    ensures PlaceOf(q) != PlaceOf(p)
  {
    assert q % TURN - p % TURN == q - p by {
      assert q / TURN == p / TURN by { SameTurn(p, q); }
    }
  }

  lemma SameTurn(p: nat, q: nat)
    requires p < q < p + BREADCRUMB_COUNT && p % TURN < q % TURN
    ensures q / TURN == p / TURN
  {
    var a, b := p / TURN, q / TURN;
    assert p == a * TURN + p % TURN && q == b * TURN + q % TURN;
  }

  /** At least sixteen events are numbered since the numbers last started over, or they never did. */
  predicate WindowIsPlain(n: nat) {
    n <= TURN || (n - 1) % TURN + 1 >= BREADCRUMB_COUNT
  }

  predicate InWindow(p: nat, n: nat) {
    p < n <= p + BREADCRUMB_COUNT
  }

  ghost predicate HoldsExactlyTheNewest(r: Ring, log: seq<Data>)
    requires |r.slots| == BREADCRUMB_COUNT
  {
    && (forall p | InWindow(p, |log|) :: Held(r.slots[PlaceOf(p)]) == Some(Numbered(log, p)))
    && (forall i | 0 <= i < BREADCRUMB_COUNT && Held(r.slots[i]).Some? ::
          exists p | InWindow(p, |log|) :: Held(r.slots[i]) == Some(Numbered(log, p)))
  }

  lemma WindowRises(n: nat, p: nat, q: nat)
    requires WindowIsPlain(n) && InWindow(p, n) && p < q < n
    ensures p % TURN < q % TURN
  {
    if n > TURN {
      var last := n - 1;
      assert last == last / TURN * TURN + last % TURN;
      ModOfShift(last / TURN, last % TURN - (last - p));
      ModOfShift(last / TURN, last % TURN - (last - q));
    }
  }

  lemma ModOfShift(a: nat, r: nat)
    requires r < TURN
    ensures (a * TURN + r) % TURN == r
  {
  }

  lemma WindowPlacesDiffer(n: nat, p: nat)
    requires WindowIsPlain(n) && InWindow(p, n)
    ensures LastAt(n, PlaceOf(p)) == Some(p)
  {
    forall q | p < q < n ensures PlaceOf(q) != PlaceOf(p) {
      WindowRises(n, p, q);
      NearbyPlacesDiffer(p, q);
    }
    LastAtIs(n, p);
  }

  lemma ReachResidue(b: nat, i: nat)
    requires i < BREADCRUMB_COUNT
    ensures (b + (i - b) % BREADCRUMB_COUNT) % BREADCRUMB_COUNT == i
  {
  }

  lemma PlaceInWindow(n: nat, i: nat) returns (p: nat)
    requires WindowIsPlain(n) && n > BREADCRUMB_COUNT && i < BREADCRUMB_COUNT
    ensures InWindow(p, n) && PlaceOf(p) == i
  {
    var base := n - BREADCRUMB_COUNT;
    var b := base % TURN;
    p := base + (i - b) % BREADCRUMB_COUNT;
    ReachResidue(b, i);
    if p != base {
      WindowRises(n, base, p);
      SameTurn(base, p);
      assert p % TURN == b + (p - base);
    }
  }

  /** Every place that holds anything at all is the place of an event in the window. */
  lemma LastAtInWindow(n: nat, i: nat)
    requires WindowIsPlain(n) && i < BREADCRUMB_COUNT && LastAt(n, i).Some?
    ensures InWindow(LastAt(n, i).value, n)
  {
    LastAtBound(n, i);
    if n > BREADCRUMB_COUNT {
      var p := PlaceInWindow(n, i);
      WindowPlacesDiffer(n, p);
    }
  }

  /** Uninterrupted, the ring holds exactly the sixteen newest events - all of them while there are
      fewer - as long as the numbers have not started over within the last fifteen. */
  lemma RingHoldsTheNewest(log: seq<Data>)
    requires WindowIsPlain(|log|)
    ensures HoldsExactlyTheNewest(Replay(Uncut(log)), log)
  {
    var r := Replay(Uncut(log));
    RingRemembers(Uncut(log));
    forall p | InWindow(p, |log|) ensures Held(r.slots[PlaceOf(p)]) == Some(Numbered(log, p)) {
      WindowPlacesDiffer(|log|, p);
      UncutRemembers(log, PlaceOf(p));
    }
    forall i | 0 <= i < BREADCRUMB_COUNT && Held(r.slots[i]).Some?
      ensures exists p | InWindow(p, |log|) :: Held(r.slots[i]) == Some(Numbered(log, p))
    {
      UncutRemembers(log, i);
      LastAtInWindow(|log|, i);
      assert InWindow(LastAt(|log|, i).value, |log|);
    }
  }

  lemma OldestSharesPlace(n: nat)
    requires !WindowIsPlain(n)
    ensures n >= BREADCRUMB_COUNT && PlaceOf(n - BREADCRUMB_COUNT) == PlaceOf(n - 1)
    ensures (n - BREADCRUMB_COUNT) % TURN != (n - 1) % TURN
  {
    var last := n - 1;
    assert last / TURN >= 1 && last == last / TURN * TURN + last % TURN;
    ModOfShift(last / TURN - 1, TURN + last % TURN - 15);
  }

  /** Otherwise a place was skipped at the turn, and the oldest of the sixteen has been overwritten
      by the newest: it is in no slot. */
  lemma TurnLosesOne(log: seq<Data>)
    requires !WindowIsPlain(|log|)
    ensures InWindow(|log| - BREADCRUMB_COUNT, |log|)
    ensures forall i | 0 <= i < BREADCRUMB_COUNT ::
              Held(Replay(Uncut(log)).slots[i]) != Some(Numbered(log, |log| - BREADCRUMB_COUNT))
  {
    var n := |log|;
    var oldest := n - BREADCRUMB_COUNT;
    var last := n - 1;
    RingRemembers(Uncut(log));
    OldestSharesPlace(n);
    assert LastAt(n, PlaceOf(oldest)) == Some(last);
    forall i | 0 <= i < BREADCRUMB_COUNT
      ensures Held(Replay(Uncut(log)).slots[i]) != Some(Numbered(log, oldest))
    {
      UncutRemembers(log, i);
      LastAtPlace(n, i);
    }
  }

  lemma {:induction false} LastAtPlace(n: nat, i: nat)
    ensures LastAt(n, i).Some? ==> PlaceOf(LastAt(n, i).value) == i
  {
    if n > 0 {
      LastAtPlace(n - 1, i);
    }
  }

  /** diagnostics_get_latest_event */
  function Latest(r: Ring): Option<Event>
    requires |r.slots| == BREADCRUMB_COUNT
  {
    if !IsValid(r) || r.next <= 1 then None
    else
      var n := r.next - 1;
      var s := r.slots[(n - 1) % BREADCRUMB_COUNT];
      if s.commit != n || s.inverse != Complement(n) || s.value.sequence != n then None else Some(s.value)
  }

  /** The newest event is found - except right after the one numbered 2^32 - 1, when none is. */
  lemma LatestIsTheNewest(log: seq<Data>)
    requires log != []
    ensures Latest(Replay(Uncut(log))) ==
            if |log| % TURN == 0 then None else Some(Numbered(log, |log| - 1))
  {
    var r, last := Replay(Uncut(log)), |log| - 1;
    RingRemembers(Uncut(log));
    UncutNext(log);
    TurnSuccessor(last);
    if |log| % TURN != 0 {
      assert LastAt(|log|, PlaceOf(last)) == Some(last);
      UncutRemembers(log, PlaceOf(last));
      assert Held(r.slots[PlaceOf(last)]) == Some(Numbered(log, last));
    }
  }
}
