/** The 4, 5, 4, 5 matcher that opens network setup (service_setup_sequence in main/main.c). */
module SetupSequence {
  import opened Esp
  import FanControl

  const PATTERN: seq<nat> := [4, 5, 4, 5]
  const SETUP_TIMEOUT: Word := FanControl.MsToTicks(10000)

  datatype Matcher = Matcher(position: nat, started: Word)

  /** A delivered key, at a true, unbounded time. */
  datatype Press = Press(key: nat, at: nat)

  const FRESH: Matcher := Matcher(0, 0)

  /** The position left by the timeout check. */
  function Effective(m: Matcher, now: Word): nat {
    if m.position != 0 && Since(now, m.started) > SETUP_TIMEOUT then 0 else m.position
  }

  /** The matcher after a key, and whether network setup is opened. */
  function After(m: Matcher, key: nat, now: Word): (Matcher, bool)
    requires m.position < 4
  {
    var p := Effective(m, now);
    if key == PATTERN[p] then
      if p == 3 then (Matcher(0, m.started), true)
      else (Matcher(p + 1, if p == 0 then now else m.started), false)
    else if key == PATTERN[0] then (Matcher(1, now), false)
    else (Matcher(0, m.started), false)
  }

  class SetupMatcher {
    var position: nat
    var started: Word

    ghost predicate Valid()
      reads this
    {
      position < 4
    }

    constructor ()
      ensures Valid() && Matcher(position, started) == FRESH
    {
      position, started := 0, 0;
    }

    /** service_setup_sequence */
    method Service(key: nat, now: Word) returns (opens: bool)
      requires Valid()
      modifies this
      ensures Valid()
      ensures (Matcher(position, started), opens) == After(old(Matcher(position, started)), key, now)
    {
      opens := false;
      if position != 0 && Since(now, started) > SETUP_TIMEOUT {
        position := 0;
      }
      if key == PATTERN[position] {
        if position == 0 {
          started := now;
        }
        position := position + 1;
        if position == |PATTERN| {
          opens := true;
          position := 0;
        }
      } else {
        position := if key == PATTERN[0] then 1 else 0;
        if position == 1 {
          started := now;
        }
      }
    }
  }

  // --- Streams of keys ------------------------------------------------------------------------------

  function At(s: seq<Press>, n: nat): (m: Matcher)
    requires n <= |s|
    ensures m.position < 4
  {
    if n == 0 then FRESH else After(At(s, n - 1), s[n - 1].key, Wrap(s[n - 1].at)).0
  }

  /** The n-th key opens network setup. */
  predicate Opens(s: seq<Press>, n: nat)
    requires n < |s|
  {
    After(At(s, n), s[n].key, Wrap(s[n].at)).1
  }

  predicate Ordered(s: seq<Press>) {
    forall i, j | 0 <= i <= j < |s| :: s[i].at <= s[j].at
  }

  /** The four keys ending with the n-th are 4, 5, 4, 5, none later after the first than the
      timeout as the 32-bit clock shows it. */
  predicate MatchesInTime(s: seq<Press>, n: nat)
    requires n < |s|
  {
    && n >= 3
    && s[n - 3].key == 4 && s[n - 2].key == 5 && s[n - 1].key == 4 && s[n].key == 5
    && InTime(s, n - 3, n - 2) && InTime(s, n - 3, n - 1) && InTime(s, n - 3, n)
  }

  predicate InTime(s: seq<Press>, m: nat, n: nat)
    requires m <= n < |s|
  {
    Since(Wrap(s[n].at), Wrap(s[m].at)) <= 10 * FanControl.HZ
  }

  function Before(s: seq<Press>, n: nat): nat
    requires n < |s|
  {
    Effective(At(s, n), Wrap(s[n].at))
  }

  /** Reaching position k + 1 in the middle of a match takes the right key, in time. */
  lemma Advances(s: seq<Press>, n: nat, k: nat)
    requires n < |s| && 1 <= k < 3
    ensures At(s, n + 1).position == k + 1 <==> (Before(s, n) == k && s[n].key == PATTERN[k])
    ensures At(s, n + 1).position == k + 1 ==> At(s, n + 1).started == At(s, n).started
  {
    assert At(s, n + 1) == After(At(s, n), s[n].key, Wrap(s[n].at)).0;
  }

  lemma Begins(s: seq<Press>, n: nat)
    requires n < |s|
    ensures At(s, n + 1).position == 1 <==> (s[n].key == 4 && Before(s, n) != 2)
    ensures At(s, n + 1).position == 1 ==> At(s, n + 1).started == Wrap(s[n].at)
  {
    assert At(s, n + 1) == After(At(s, n), s[n].key, Wrap(s[n].at)).0;
  }

  lemma TooEarly(s: seq<Press>, n: nat)
    requires n < |s| && n < 4
    ensures At(s, n).position <= n
  {
    if n > 0 {
      TooEarly(s, n - 1);
    }
  }

  /** The two keys before the m-th are 4, 5, and in time with it. */
  predicate PairBefore(s: seq<Press>, m: nat)
    requires m < |s|
  {
    m >= 2 && s[m - 2].key == 4 && s[m - 1].key == 5 && InTime(s, m - 2, m - 1) && InTime(s, m - 2, m)
  }

  /** How many such pairs follow one another up to the m-th key, each in time with the next. */
  function PairsBefore(s: seq<Press>, m: nat): nat
    requires m < |s|
  {
    if PairBefore(s, m) then 1 + PairsBefore(s, m - 2) else 0
  }

  lemma TwoMatched(s: seq<Press>, m: nat)
    requires m < |s|
    ensures Before(s, m) == 2 <==> m >= 2 && PairBefore(s, m) && Before(s, m - 2) != 2
  {
    if m < 2 {
      TooEarly(s, m);
    } else {
      Begins(s, m - 2);
      Advances(s, m - 1, 1);
    }
  }

  lemma OnePairMore(s: seq<Press>, m: nat)
    requires m < |s|
    ensures PairsBefore(s, m) % 2 == 1 <==> m >= 2 && PairBefore(s, m) && PairsBefore(s, m - 2) % 2 == 0
  {
  }

  /** The m-th key finds two keys matched exactly if an odd number of pairs leads up to it. */
  lemma {:induction false} OddPairsAreTwoMatched(s: seq<Press>, m: nat)
    requires m < |s|
    ensures Before(s, m) == 2 <==> PairsBefore(s, m) % 2 == 1
    decreases m
  {
    TwoMatched(s, m);
    OnePairMore(s, m);
    if m >= 2 {
      OddPairsAreTwoMatched(s, m - 2);
    }
  }

  /** Exactly when setup opens: on the last of four keys 4, 5, 4, 5 in time, unless an odd number of
      pairs 4, 5 leads up to them - then the first was taken for the third of an older sequence. */
  lemma OpensExactly(s: seq<Press>, n: nat)
    requires n < |s|
    ensures Opens(s, n) <==> MatchesInTime(s, n) && PairsBefore(s, n - 3) % 2 == 0
  {
    if n >= 3 {
      OddPairsAreTwoMatched(s, n - 3);
      Begins(s, n - 3);
      Advances(s, n - 2, 1);
      Advances(s, n - 1, 2);
    } else {
      TooEarly(s, n);
    }
  }

  /** In time by the clock is within ten seconds exactly if less than one turn of the clock has
      passed since the first key. */
  lemma InTimeIsTenSeconds(s: seq<Press>, n: nat)
    requires n < |s| && Ordered(s) && MatchesInTime(s, n)
    ensures s[n].at - s[n - 3].at <= 10 * FanControl.HZ <==> s[n].at - s[n - 3].at < WORD
  {
    SinceIsTrueTime(s[n].at, s[n - 3].at);
  }

  /** Which is so while keys come less than a turn minus the timeout apart. */
  lemma SteadyKeysAreInTime(s: seq<Press>, n: nat)
    requires n < |s| && Ordered(s) && MatchesInTime(s, n)
    requires forall i | n - 3 < i <= n :: s[i].at - s[i - 1].at < WORD - 10 * FanControl.HZ
    ensures s[n].at - s[n - 3].at <= 10 * FanControl.HZ
  {
    SinceIsTrueTime(s[n - 2].at, s[n - 3].at);
    SinceIsTrueTime(s[n - 1].at, s[n - 3].at);
    SinceIsTrueTime(s[n].at, s[n - 3].at);
  }

  /** The bound is needed: after a pause of one whole turn of the clock the first key still counts. */
  lemma OldKeyCountsAfterATurn()
    ensures var s := [Press(4, 0), Press(5, WORD), Press(4, WORD), Press(5, WORD)]; Opens(s, 3)
  {
    var s := [Press(4, 0), Press(5, WORD), Press(4, WORD), Press(5, WORD)];
    assert MatchesInTime(s, 3);
    OpensExactly(s, 3);
  }

  lemma SoonIsInTime(s: seq<Press>, m: nat, n: nat)
    requires m <= n < |s| && s[m].at <= s[n].at <= s[m].at + 10 * FanControl.HZ
    ensures InTime(s, m, n)
  {
    SinceIsTrueTime(s[n].at, s[m].at);
  }

  lemma OnePairMisses(s: seq<Press>)
    requires |s| > 5 && PairBefore(s, 2)
    ensures !Opens(s, 5)
  {
    assert PairsBefore(s, 2) == 1 + PairsBefore(s, 0);
    OpensExactly(s, 5);
  }

  /** The exception is real: the last four of these keys are 4, 5, 4, 5 within three seconds, and
      setup stays closed, because the timeout drops the usable end of what came before. */
  lemma MissedMatch()
    ensures var s := [Press(4, 0), Press(5, 100), Press(4, 900), Press(5, 1050), Press(4, 1100), Press(5, 1200)];
            MatchesInTime(s, 5) && !Opens(s, 5)
  {
    var s := [Press(4, 0), Press(5, 100), Press(4, 900), Press(5, 1050), Press(4, 1100), Press(5, 1200)];
    SoonIsInTime(s, 0, 1);
    SoonIsInTime(s, 0, 2);
    SoonIsInTime(s, 2, 3);
    SoonIsInTime(s, 2, 4);
    SoonIsInTime(s, 2, 5);
    OnePairMisses(s);
  }

  // --- Without timeouts -------------------------------------------------------------------------------

  /** The keys since setup was last opened. */
  function SinceOpened(s: seq<Press>, n: nat): seq<nat>
    requires n <= |s|
  {
    if n == 0 then []
    else
      var keys := SinceOpened(s, n - 1) + [s[n - 1].key];
      if EndsWith(keys, 4) then [] else keys
  }

  /** The last k keys are the first k of the pattern. */
  predicate EndsWith(keys: seq<nat>, k: nat)
    requires k <= 4
  {
    k == 0 || (|keys| > 0 && keys[|keys| - 1] == PATTERN[k - 1] && EndsWith(keys[..|keys| - 1], k - 1))
  }

  predicate IsLongest(keys: seq<nat>, k: nat) {
    k < 4 && EndsWith(keys, k) && forall j | k < j < 4 :: !EndsWith(keys, j)
  }

  /** No key comes so late that the position is dropped. */
  predicate Prompt(s: seq<Press>) {
    forall i | 0 <= i < |s| :: Before(s, i) == At(s, i).position
  }

  /** One more key extends exactly the matches one shorter. */
  lemma EndsWithOneMore(keys: seq<nat>, key: nat, k: nat)
    requires 1 <= k <= 4
    ensures EndsWith(keys + [key], k) <==> EndsWith(keys, k - 1) && key == PATTERN[k - 1]
  {
    assert (keys + [key])[..|keys|] == keys;
  }

  lemma LongestDetermines(keys: seq<nat>, k: nat)
    requires IsLongest(keys, k)
    ensures EndsWith(keys, 1) <==> k == 1 || k == 3
    ensures EndsWith(keys, 2) <==> k == 2
    ensures EndsWith(keys, 3) <==> k == 3
  {
  }

  /** While no key comes late, the hand-written fallback is longest-suffix matching, started over
      after each hit: setup opens exactly when the keys since the last opening end in the whole
      pattern, and the position is always the length of the longest partial match at their end. */
  lemma {:induction false} FallbackIsLongestSuffix(s: seq<Press>, n: nat)
    requires n <= |s| && Prompt(s)
    ensures IsLongest(SinceOpened(s, n), At(s, n).position)
    ensures n < |s| ==> (Opens(s, n) <==> EndsWith(SinceOpened(s, n) + [s[n].key], 4))
  {
    if n == 0 {
      assert EndsWith([], 0);
    } else {
      FallbackIsLongestSuffix(s, n - 1);
      OneKey(SinceOpened(s, n - 1), At(s, n - 1).position, s[n - 1].key);
    }
    if n < |s| {
      OneKey(SinceOpened(s, n), At(s, n).position, s[n].key);
    }
  }

  function Fallback(p: nat, key: nat): nat
    requires p < 4
  {
    if key == PATTERN[p] then p + 1 else if key == PATTERN[0] then 1 else 0
  }

  lemma OneKey(keys: seq<nat>, p: nat, key: nat)
    requires IsLongest(keys, p)
    ensures EndsWith(keys + [key], 4) <==> Fallback(p, key) == 4
    ensures if Fallback(p, key) == 4 then IsLongest([], 0) else IsLongest(keys + [key], Fallback(p, key))
  {
    LongestDetermines(keys, p);
    EndsWithOneMore(keys, key, 1);
    EndsWithOneMore(keys, key, 2);
    EndsWithOneMore(keys, key, 3);
    EndsWithOneMore(keys, key, 4);
  }
}
