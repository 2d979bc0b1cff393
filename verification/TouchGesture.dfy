/** components/touch_gesture/touch_gesture.c: the recogniser, and what its answers say about the
    stream of edges, polls and overflow discards it was given. */
module TouchGesture {
  import opened Esp

  const ACTIVE_STABLE_MS: Word := 40
  const RELEASE_STABLE_MS: Word := 120
  const KEY_COUNT: nat := 6

  /** The struct; `mask` is the set of keys whose bit is set, and candidate 0 means none. */
  datatype Gesture = Gesture(mask: set<nat>, candidateStarted: Word, releaseStarted: Word,
                             candidate: nat, armed: bool, releasePending: bool)

  const FRESH: Gesture := Gesture({}, 0, 0, 0, true, false)

  predicate IsKey(key: nat) {
    1 <= key <= KEY_COUNT
  }

  function Activated(g: Gesture, key: nat, now: Word): Gesture {
    if key in g.mask then g
    else
      var h := g.(mask := g.mask + {key}, releasePending := false);
      if !h.armed then h
      else if h.mask == {key} && h.candidate == 0 then h.(candidate := key, candidateStarted := now)
      else h.(candidate := 0, armed := false)
  }

  function Deactivated(g: Gesture, key: nat, now: Word): Gesture {
    var h := g.(mask := g.mask - {key});
    var h := if h.armed && h.candidate == key then h.(candidate := 0) else h;
    if !h.armed && h.mask == {} then h.(releasePending := true, releaseStarted := now) else h
  }

  /** touch_gesture_edge */
  function AfterEdge(g: Gesture, key: nat, active: bool, now: Word): Gesture {
    if !IsKey(key) then g
    else if active then Activated(g, key, now)
    else Deactivated(g, key, now)
  }

  /** The answer of touch_gesture_poll; 0 for none. */
  function Accepts(g: Gesture, now: Word): nat {
    if g.armed && g.candidate != 0 && g.mask == {g.candidate} && Since(now, g.candidateStarted) >= ACTIVE_STABLE_MS
    then g.candidate else 0
  }

  function AfterPoll(g: Gesture, now: Word): Gesture {
    if !g.armed then
      if g.releasePending && g.mask == {} && Since(now, g.releaseStarted) >= RELEASE_STABLE_MS
      then g.(armed := true, releasePending := false) else g
    else if Accepts(g, now) != 0 then g.(candidate := 0, armed := false, releasePending := false)
    else g
  }

  /** touch_gesture_discard_until_quiet */
  function Discarded(now: Word): Gesture {
    Gesture({}, 0, now, 0, false, true)
  }

  /** The same, in place. */
  class Recogniser {
    var mask: set<nat>
    var candidateStarted: Word
    var releaseStarted: Word
    var candidate: nat
    var armed: bool
    var releasePending: bool

    function View(): Gesture
      reads this
    {
      Gesture(mask, candidateStarted, releaseStarted, candidate, armed, releasePending)
    }

    /** touch_gesture_init */
    constructor ()
      ensures View() == FRESH
    {
      mask, candidateStarted, releaseStarted, candidate, armed, releasePending := {}, 0, 0, 0, true, false;
    }

    method Edge(key: nat, active: bool, now: Word)
      modifies this
      ensures View() == AfterEdge(old(View()), key, active, now)
    {
      if key < 1 || key > KEY_COUNT {
        return;
      }
      if active {
        if key in mask {
          return;
        }
        mask := mask + {key};
        releasePending := false;
        if !armed {
          return;
        }
        if mask == {key} && candidate == 0 {
          candidate := key;
          candidateStarted := now;
        } else {
          candidate := 0;
          armed := false;
        }
        return;
      }
      mask := mask - {key};
      if armed && candidate == key {
        candidate := 0;
      }
      if !armed && mask == {} {
        releasePending := true;
        releaseStarted := now;
      }
    }

    method Poll(now: Word) returns (accepted: nat)
      modifies this
      ensures View() == AfterPoll(old(View()), now) && accepted == Accepts(old(View()), now)
    {
      if !armed {
        if releasePending && mask == {} && Since(now, releaseStarted) >= RELEASE_STABLE_MS {
          armed := true;
          releasePending := false;
        }
        return 0;
      }
      if candidate == 0 || mask != {candidate} || Since(now, candidateStarted) < ACTIVE_STABLE_MS {
        return 0;
      }
      accepted := candidate;
      candidate := 0;
      armed := false;
      releasePending := false;
    }

    method DiscardUntilQuiet(now: Word)
      modifies this
      ensures View() == Discarded(now)
    {
      mask, candidateStarted, releaseStarted, candidate, armed, releasePending := {}, 0, now, 0, false, true;
    }
  }

  // --- Streams ---------------------------------------------------------------------------------

  /** What the recogniser is given, at true, unbounded times. */
  datatype Event =
    | Edge(key: nat, active: bool, at: nat)
    | Poll(at: nat)
    | Discard(at: nat)

  /** The six pads. */
  predicate IsPad(key: nat) {
    1 <= key <= 6
  }

  predicate Ordered(events: seq<Event>) {
    forall i, j | 0 <= i <= j < |events| :: events[i].at <= events[j].at
  }

  function After(g: Gesture, e: Event): Gesture {
    match e
    case Edge(key, active, at) => AfterEdge(g, key, active, Wrap(at))
    case Poll(at) => AfterPoll(g, Wrap(at))
    case Discard(at) => Discarded(Wrap(at))
  }

  /** The recogniser after the first `n` events. */
  function At(events: seq<Event>, n: nat): Gesture
    requires n <= |events|
  {
    if n == 0 then FRESH else After(At(events, n - 1), events[n - 1])
  }

  /** The pads that are active after the first `n` events, as the stream tells it. */
  function Active(events: seq<Event>, n: nat): set<nat>
    requires n <= |events|
  {
    if n == 0 then {}
    else match events[n - 1]
         case Edge(key, active, _) =>
           if !IsPad(key) then Active(events, n - 1)
           else if active then Active(events, n - 1) + {key} else Active(events, n - 1) - {key}
         case Poll(_) => Active(events, n - 1)
         case Discard(_) => {}
  }

  /** The key accepted by the event at `n`, or 0. */
  function AcceptedAt(events: seq<Event>, n: nat): nat
    requires n < |events|
  {
    if events[n].Poll? then Accepts(At(events, n), Wrap(events[n].at)) else 0
  }

  predicate Shape(g: Gesture) {
    if g.armed then !g.releasePending && (if g.candidate == 0 then g.mask == {} else g.mask == {g.candidate})
    else g.candidate == 0 && (g.releasePending <==> g.mask == {})
  }

  /** The machine is never stuck: disarmed, it waits for a release exactly when every pad is up. */
  lemma {:induction false} NeverStuck(events: seq<Event>, n: nat)
    requires n <= |events|
    ensures At(events, n).mask == Active(events, n) && Shape(At(events, n))
    ensures !At(events, n).armed ==> (At(events, n).releasePending <==> Active(events, n) == {})
  {
    if n > 0 {
      NeverStuck(events, n - 1);
    }
  }

  /** `key` went down at event `i` with no other pad active, and has been the only one since. */
  predicate AloneSince(events: seq<Event>, i: nat, n: nat, key: nat) {
    && i < n <= |events| && IsPad(key)
    && events[i] == Edge(key, true, events[i].at) && Active(events, i) == {}
    && (forall j | i < j <= n :: Active(events, j) == {key})
  }

  /** No pad has been active since event `p`. */
  predicate QuietSince(events: seq<Event>, p: nat, n: nat) {
    && p < n <= |events|
    && (forall j | p < j <= n :: Active(events, j) == {})
  }

  /** Where the current candidate began. */
  lemma {:induction false} CandidateSince(events: seq<Event>, n: nat) returns (i: nat)
    requires n <= |events| && At(events, n).armed && At(events, n).candidate != 0
    ensures AloneSince(events, i, n, At(events, n).candidate)
    ensures At(events, n).candidateStarted == Wrap(events[i].at)
    ensures forall j | i <= j <= n :: At(events, j).armed
  {
    NeverStuck(events, n);
    NeverStuck(events, n - 1);
    var g, h := At(events, n - 1), At(events, n);
    if g.armed && g.candidate == h.candidate {
      i := CandidateSince(events, n - 1);
    } else {
      i := n - 1;
    }
  }

  /** A release, real or repeated, or a discard: the wait for quiet starts here. */
  predicate StartsQuiet(e: Event) {
    e.Discard? || (e.Edge? && IsPad(e.key) && !e.active)
  }

  /** Where the wait for a release began. */
  lemma {:induction false} ReleaseSince(events: seq<Event>, n: nat) returns (p: nat)
    requires n <= |events| && !At(events, n).armed && At(events, n).releasePending
    ensures QuietSince(events, p, n) && At(events, n).releaseStarted == Wrap(events[p].at)
    ensures StartsQuiet(events[p]) && forall j | p < j < n :: !StartsQuiet(events[j])
  {
    NeverStuck(events, n);
    NeverStuck(events, n - 1);
    var g, h := At(events, n - 1), At(events, n);
    if events[n - 1].Poll? || (events[n - 1].Edge? && !IsPad(events[n - 1].key)) {
      p := ReleaseSince(events, n - 1);
    } else {
      p := n - 1;
    }
  }

  /** An accepted key was the only active pad for at least 40 ms, whatever the clock did. */
  lemma AcceptedWasAlone(events: seq<Event>, n: nat) returns (i: nat)
    requires n < |events| && Ordered(events) && AcceptedAt(events, n) != 0
    ensures AloneSince(events, i, n, AcceptedAt(events, n))
    ensures events[n].at - events[i].at >= 40
    ensures forall j | i <= j <= n :: At(events, j).armed
  {
    i := CandidateSince(events, n);
    SinceIsTrueTime(events[n].at, events[i].at);
  }

  /** Between disarmed and armed again lies a poll that saw a long enough release. */
  lemma {:induction false} RearmedBetween(events: seq<Event>, m: nat, n: nat) returns (q: nat)
    requires m < n <= |events| && !At(events, m).armed && At(events, n).armed
    ensures m <= q < n && events[q].Poll? && !At(events, q).armed && At(events, q).releasePending
    ensures Since(Wrap(events[q].at), At(events, q).releaseStarted) >= 120
    decreases n
  {
    if At(events, n - 1).armed {
      q := RearmedBetween(events, m, n - 1);
    } else {
      q := n - 1;
    }
  }

  /** Between two accepts every pad was up for a stretch of at least 120 ms, and only after it did
      the second key go down: the accepts are at least 160 ms apart. */
  lemma AcceptsAreSpaced(events: seq<Event>, a: nat, b: nat) returns (p: nat, q: nat, i: nat)
    requires a < b < |events| && Ordered(events) && AcceptedAt(events, a) != 0 && AcceptedAt(events, b) != 0
    ensures a < p < q < i < b && QuietSince(events, p, q) && events[q].at - events[p].at >= 120
    ensures AloneSince(events, i, b, AcceptedAt(events, b)) && events[b].at - events[i].at >= 40
    ensures events[b].at - events[a].at >= 160
  {
    i := AcceptedWasAlone(events, b);
    NeverStuck(events, a);
    assert !At(events, a + 1).armed;
    q := RearmedBetween(events, a + 1, i);
    p := ReleaseSince(events, q);
    SinceIsTrueTime(events[q].at, events[p].at);
    var k := AcceptedWasAlone(events, a);
    assert Active(events, a + 1) == Active(events, a) == {AcceptedAt(events, a)};
  }

  // --- When it is armed ------------------------------------------------------------------------------

  /** Event `q` is a poll to which the 32-bit clock shows event `n` to be that old. */
  predicate Aged(events: seq<Event>, n: nat, q: nat, ms: Word)
    requires n < |events| && q < |events|
  {
    events[q].Poll? && (events[q].at - events[n].at) % WORD >= ms
  }

  lemma AgedBySince(events: seq<Event>, n: nat, q: nat)
    requires n < q < |events| && Ordered(events)
    ensures Since(Wrap(events[q].at), Wrap(events[n].at)) == (events[q].at - events[n].at) % WORD
  {
    SinceIsTrueTime(events[q].at, events[n].at);
  }

  /** A second pad goes down. */
  predicate SecondPad(events: seq<Event>, k: nat)
    requires k < |events|
  {
    && events[k].Edge? && IsPad(events[k].key) && events[k].active
    && Active(events, k) != {} && events[k].key !in Active(events, k)
  }

  /** What disarms: an accept, a second pad going down, a discard. */
  predicate Disarms(events: seq<Event>, k: nat)
    requires k < |events|
  {
    AcceptedAt(events, k) != 0 || SecondPad(events, k) || events[k].Discard?
  }

  predicate QuietFrom(events: seq<Event>, p: nat, q: nat)
    requires q < |events|
  {
    && QuietSince(events, p, q) && StartsQuiet(events[p])
    && (forall j | p < j < q :: !StartsQuiet(events[j]))
  }

  /** What rearms: a poll to which the clock shows the last release or discard 120 ms old, with no
      pad active since. */
  predicate Rearms(events: seq<Event>, q: nat)
    requires q < |events|
  {
    exists p | 0 <= p < q :: QuietFrom(events, p, q) && Aged(events, p, q, 120)
  }

  /** As the stream and the answers tell it: whatever disarmed has been followed by what rearms. */
  predicate Ready(events: seq<Event>, n: nat)
    requires n <= |events|
  {
    forall k | 0 <= k < n && Disarms(events, k) :: RearmedIn(events, k, n)
  }

  predicate RearmedIn(events: seq<Event>, k: nat, n: nat)
    requires n <= |events|
  {
    exists q | k < q < n :: Rearms(events, q)
  }

  lemma DisarmingDisarms(events: seq<Event>, k: nat)
    requires k < |events| && Disarms(events, k)
    ensures !At(events, k + 1).armed && !Rearms(events, k)
  {
    NeverStuck(events, k);
    assert At(events, k + 1) == After(At(events, k), events[k]);
    if AcceptedAt(events, k) != 0 {
      assert Active(events, k) != {};
    }
  }

  /** Nothing else does: in particular not an early release, however often the pad bounces. */
  lemma OnlyThatDisarms(events: seq<Event>, k: nat)
    requires k < |events| && !Disarms(events, k) && At(events, k).armed
    ensures At(events, k + 1).armed
  {
    NeverStuck(events, k);
    var g, e := At(events, k), events[k];
    assert At(events, k + 1) == After(g, e);
    if e.Edge? && IsPad(e.key) && e.active && e.key !in g.mask {
      assert {} + {e.key} == {e.key};
    }
  }

  /** A disarmed recogniser is armed by exactly such a poll. */
  lemma ArmsExactly(events: seq<Event>, q: nat)
    requires q < |events| && Ordered(events) && !At(events, q).armed
    ensures At(events, q + 1).armed <==> Rearms(events, q)
  {
    NeverStuck(events, q);
    assert At(events, q + 1) == After(At(events, q), events[q]);
    if At(events, q).releasePending {
      var p := ReleaseSince(events, q);
      AgedBySince(events, p, q);
      assert QuietFrom(events, p, q);
      assert forall r: nat :: QuietFrom(events, r, q) ==> r == p;
    } else {
      assert Active(events, q) != {};
    }
  }

  /** When it is armed, from the stream and its own answers alone. */
  lemma {:induction false} ArmedExactly(events: seq<Event>, n: nat)
    requires n <= |events| && Ordered(events)
    ensures At(events, n).armed <==> Ready(events, n)
    decreases n
  {
    if n > 0 {
      var k := n - 1;
      ArmedExactly(events, k);
      ReadyOneMore(events, k);
      if Disarms(events, k) {
        DisarmingDisarms(events, k);
      } else if At(events, k).armed {
        OnlyThatDisarms(events, k);
      } else {
        ArmsExactly(events, k);
      }
    }
  }

  lemma ReadyOneMore(events: seq<Event>, k: nat)
    requires k < |events|
    ensures Ready(events, k + 1) <==> !Disarms(events, k) && (Ready(events, k) || Rearms(events, k))
  {
    forall j | 0 <= j < k ensures RearmedIn(events, j, k + 1) <==> RearmedIn(events, j, k) || Rearms(events, k) {
    }
    assert !RearmedIn(events, k, k + 1);
  }

  // --- And it does answer --------------------------------------------------------------------------

  /** One event that leaves the pad alone. */
  lemma AloneStep(g: Gesture, e: Event, key: nat)
    requires Shape(g) && g.mask == {key} == After(g, e).mask
    ensures var h := After(g, e);
            if g.armed && !(e.Poll? && Since(Wrap(e.at), g.candidateStarted) >= 40) then h == g
            else !h.armed
  {
    if e.Edge? && IsPad(e.key) && !e.active {
      assert e.key != key && {key} - {e.key} == {key};
    }
  }

  predicate AgedBetween(events: seq<Event>, n: nat, p: nat, ms: Word)
    requires n < p <= |events|
  {
    exists q | n < q < p :: Aged(events, n, q, ms)
  }

  lemma AgedBetweenStep(events: seq<Event>, n: nat, p: nat, ms: Word)
    requires n + 1 < p <= |events|
    ensures AgedBetween(events, n, p, ms) <==> AgedBetween(events, n, p - 1, ms) || Aged(events, n, p - 1, ms)
  {
  }

  /** While the pad stays alone its press is a candidate up to the first poll that finds it old
      enough, and the recogniser is disarmed from then on. */
  lemma {:induction false} PressStays(events: seq<Event>, n: nat, p: nat, key: nat)
    requires p < |events| && Ordered(events) && AloneSince(events, n, p, key) && At(events, n).armed
    ensures var g := At(events, p);
            if AgedBetween(events, n, p, 40) then !g.armed
            else g.armed && g.candidate == key && g.candidateStarted == Wrap(events[n].at)
    decreases p
  {
    NeverStuck(events, p);
    NeverStuck(events, p - 1);
    assert Active(events, p) == {key};
    if n + 1 < p {
      assert Active(events, p - 1) == {key};
      PressStays(events, n, p - 1, key);
      AgedBySince(events, n, p - 1);
      AgedBetweenStep(events, n, p, 40);
      AloneStep(At(events, p - 1), events[p - 1], key);
    } else {
      assert {} + {key} == {key};
    }
  }

  /** A press of one pad is accepted, while the pad stays alone, by the first poll to which the 32-bit
      clock shows it 40 ms old, and by no other - if whatever disarmed before it has been followed by
      120 ms of quiet. */
  lemma LonePressIsAccepted(events: seq<Event>, n: nat, p: nat, key: nat)
    requires p < |events| && Ordered(events) && AloneSince(events, n, p, key) && Ready(events, n)
    ensures var first := Aged(events, n, p, 40) && !AgedBetween(events, n, p, 40);
            AcceptedAt(events, p) == if first then key else 0
  {
    ArmedExactly(events, n);
    PressStays(events, n, p, key);
    AgedBySince(events, n, p);
    NeverStuck(events, p);
    assert Active(events, p) == {key};
  }

  /** A disarmed recogniser is armed again, while no pad is active, by the first poll to which the
      32-bit clock shows the last release 120 ms old. */
  lemma {:induction false} ReleaseRearms(events: seq<Event>, n: nat, p: nat)
    requires Ordered(events) && QuietSince(events, n, p) && !At(events, n + 1).armed
    requires StartsQuiet(events[n]) && forall j | n < j < p :: !StartsQuiet(events[j])
    ensures var g := At(events, p);
            if AgedBetween(events, n, p, 120) then g.armed
            else !g.armed && g.releaseStarted == Wrap(events[n].at)
    decreases p
  {
    NeverStuck(events, p);
    NeverStuck(events, p - 1);
    assert Active(events, p) == {};
    if n + 1 < p {
      assert Active(events, p - 1) == {};
      ReleaseRearms(events, n, p - 1);
      AgedBySince(events, n, p - 1);
      AgedBetweenStep(events, n, p, 120);
    }
  }
}
