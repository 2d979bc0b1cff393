/** The probation of a freshly installed image in the main loop (main/main.c): when the image is
    confirmed, and when it is rolled back. */
module Probation {
  import opened Esp
  import FanControl

  const OTA_BOOT_PROBATION: Word := FanControl.MsToTicks(30000)

  /** The loop's locals. */
  datatype Watch = Watch(pending: bool, seen: bool, started: Word)

  /** One pass of the loop: when it is, what network_is_connected says at the top and, if the
      window is over, once more; and what the worker answers if asked to confirm. Rollbacks that
      come back to the loop did not reboot. */
  datatype Pass = Pass(at: nat, connected: bool, stillConnected: bool, answer: EspErr)

  datatype Request = Confirm | Rollback

  /** The first block: remember a connection, or roll back when one is lost. */
  function Look(w: Watch, connected: bool, now: Word): (Watch, seq<Request>) {
    if w.pending && connected then (w.(seen := true), [])
    else if w.pending && w.seen then (w.(seen := false, started := now), [Rollback])
    else (w, [])
  }

  predicate WindowOver(w: Watch, now: Word) {
    w.pending && Since(now, w.started) >= OTA_BOOT_PROBATION
  }

  /** The second block: the end of the window. */
  function Decide(w: Watch, p: Pass): (Watch, seq<Request>) {
    var now := Wrap(p.at);
    if !WindowOver(w, now) then (w, [])
    else if !p.stillConnected then (w.(started := now), [Rollback])
    else if p.answer == OK then (w.(pending := false), [Confirm])
    else if p.answer == TIMEOUT then (w.(started := now), [Confirm])
    else (w, [Confirm, Rollback])
  }

  function After(w: Watch, p: Pass): (Watch, seq<Request>) {
    var (v, first) := Look(w, p.connected, Wrap(p.at));
    var (u, second) := Decide(v, p);
    (u, first + second)
  }

  class Supervisor {
    var otaPending: bool
    var otaNetworkSeen: bool
    var otaProbationStarted: Word

    constructor (pending: bool, now: Word)
      ensures View() == Watch(pending, false, now)
    {
      otaPending, otaNetworkSeen, otaProbationStarted := pending, false, now;
    }

    function View(): Watch
      reads this
    {
      Watch(otaPending, otaNetworkSeen, otaProbationStarted)
    }

    /** The two blocks of one pass; the requests made, in order. */
    method Service(p: Pass) returns (requests: seq<Request>)
      modifies this
      ensures (View(), requests) == After(old(View()), p)
    {
      var first := CheckNetwork(p.connected, Wrap(p.at));
      var second := EndWindow(p);
      requests := first + second;
    }

    method CheckNetwork(connected: bool, now: Word) returns (requests: seq<Request>)
      modifies this
      ensures (View(), requests) == Look(old(View()), connected, now)
    {
      if otaPending && connected {
        otaNetworkSeen := true;
      } else if otaPending && otaNetworkSeen {
        otaNetworkSeen := false;
        otaProbationStarted := now;
        return [Rollback];
      }
      return [];
    }

    method EndWindow(p: Pass) returns (requests: seq<Request>)
      modifies this
      ensures (View(), requests) == Decide(old(View()), p)
    {
      var now := Wrap(p.at);
      if !otaPending || Since(now, otaProbationStarted) < OTA_BOOT_PROBATION {
        return [];
      }
      if !p.stillConnected {
        otaProbationStarted := now;
        return [Rollback];
      }
      if p.answer != OK {
        if p.answer == TIMEOUT {
          otaProbationStarted := now;
        } else {
          return [Confirm, Rollback];
        }
      } else {
        otaPending := false;
      }
      return [Confirm];
    }
  }

  // --- Whole probations ---------------------------------------------------------------------------

  /** The locals before pass n, having booted at time `boot` with a pending image. */
  function At(boot: nat, passes: seq<Pass>, n: nat): Watch
    requires n <= |passes|
  {
    if n == 0 then Watch(true, false, Wrap(boot)) else After(At(boot, passes, n - 1), passes[n - 1]).0
  }

  predicate Requests(boot: nat, passes: seq<Pass>, n: nat, r: Request)
    requires n < |passes|
  {
    r in After(At(boot, passes, n), passes[n]).1
  }

  predicate Ordered(boot: nat, passes: seq<Pass>) {
    && (forall i | 0 <= i < |passes| :: boot <= passes[i].at)
    && (forall i, j | 0 <= i <= j < |passes| :: passes[i].at <= passes[j].at)
  }

  /** When the window began that the passes from `m` on belong to. */
  function Opening(boot: nat, passes: seq<Pass>, m: nat): nat
    requires m <= |passes|
  {
    if m == 0 then boot else passes[m - 1].at
  }

  /** From pass m on no pass before n saw the network go, and `seen` remembers whether it came. */
  predicate Steady(passes: seq<Pass>, m: nat, n: nat) {
    && m <= n <= |passes|
    && (forall i, j | m <= i <= j < n && passes[i].connected :: passes[j].connected)
  }

  /** While the image is pending, the window began at some pass m, and since then the first
      observations of the passes are false, then true. */
  lemma {:induction false} WindowIsSteady(boot: nat, passes: seq<Pass>, n: nat) returns (m: nat)
    requires n <= |passes| && At(boot, passes, n).pending
    ensures Steady(passes, m, n)
    ensures At(boot, passes, n).started == Wrap(Opening(boot, passes, m))
    ensures !At(boot, passes, n).seen ==> forall i | m <= i < n :: !passes[i].connected
    ensures At(boot, passes, n).seen && m < n ==> passes[n - 1].connected
  {
    if n == 0 {
      m := 0;
    } else {
      var w, p := At(boot, passes, n - 1), passes[n - 1];
      var (v, _) := Look(w, p.connected, Wrap(p.at));
      if v.started == w.started && At(boot, passes, n).started == w.started && !(w.seen && !p.connected) {
        m := WindowIsSteady(boot, passes, n - 1);
      } else {
        m := n;
      }
    }
  }

  /** Confirmation is asked for only at the end of a full window whose observations - the first of
      each pass and the deciding one last - are false for a while and then true. */
  lemma ConfirmedAfterSteadyWindow(boot: nat, passes: seq<Pass>, n: nat) returns (m: nat)
    requires n < |passes| && Ordered(boot, passes) && Requests(boot, passes, n, Confirm)
    ensures Steady(passes, m, n + 1) && passes[n].stillConnected
    ensures passes[n].at - Opening(boot, passes, m) >= 30 * FanControl.HZ
    ensures At(boot, passes, n).pending
  {
    var w, p := At(boot, passes, n), passes[n];
    m := WindowIsSteady(boot, passes, n);
    var (v, _) := Look(w, p.connected, Wrap(p.at));
    SinceIsTrueTime(p.at, Opening(boot, passes, m));
    SinceIsTrueTime(p.at, p.at);
    assert v.started == w.started;
  }

  /** If the two observations of the confirming pass agree, the window was seen connected at its
      end: false, then at least once true. */
  lemma ConfirmedWhileConnected(boot: nat, passes: seq<Pass>, n: nat) returns (m: nat, k: nat)
    requires n < |passes| && Ordered(boot, passes) && Requests(boot, passes, n, Confirm)
    requires passes[n].connected == passes[n].stillConnected
    ensures m <= k <= n && passes[n].at - Opening(boot, passes, m) >= 30 * FanControl.HZ
    ensures (forall i | m <= i < k :: !passes[i].connected) && (forall i | k <= i <= n :: passes[i].connected)
  {
    m := ConfirmedAfterSteadyWindow(boot, passes, n);
    k := n;
    while k > m && passes[k - 1].connected
      invariant m <= k <= n && forall i | k <= i <= n :: passes[i].connected
    {
      k := k - 1;
    }
    if k > m {
      assert forall i | m <= i < k :: passes[i].connected ==> passes[k - 1].connected;
    }
  }

  /** Exactly when it is asked for, in the loop's terms: pending, not just lost, window over, and
      connected at the end. */
  lemma ConfirmRequestedExactly(boot: nat, passes: seq<Pass>, n: nat)
    requires n < |passes|
    ensures var w, p := At(boot, passes, n), passes[n];
            Requests(boot, passes, n, Confirm) <==>
              w.pending && p.stillConnected && (p.connected || !w.seen)
                && Since(Wrap(p.at), w.started) >= 30 * FanControl.HZ
  {
    var p := passes[n];
    assert Since(Wrap(p.at), Wrap(p.at)) == 0;
  }

  // --- What is requested, from the observations alone ----------------------------------------------

  /** Pass k was answered that the image is marked valid. */
  predicate Confirmed(boot: nat, passes: seq<Pass>, k: nat)
    requires k < |passes|
  {
    Requests(boot, passes, k, Confirm) && passes[k].answer == OK
  }

  /** The connection the last pass saw has gone. */
  predicate Lost(passes: seq<Pass>, n: nat)
    requires n < |passes|
  {
    0 < n && passes[n - 1].connected && !passes[n].connected
  }

  /** Pass k has begun a new window: a rollback came back without rebooting, or the fan could not be
      quiesced for the confirmation. */
  predicate Restarts(boot: nat, passes: seq<Pass>, k: nat)
    requires k < |passes|
  {
    var requests := After(At(boot, passes, k), passes[k]).1;
    requests == [Rollback] || (Confirm in requests && passes[k].answer == TIMEOUT)
  }

  /** The window of pass n began with pass m. */
  predicate WindowFrom(boot: nat, passes: seq<Pass>, m: nat, n: nat) {
    && m <= n <= |passes| && (m == 0 || Restarts(boot, passes, m - 1))
    && (forall k | m <= k < n :: !Restarts(boot, passes, k))
  }

  lemma EveryPassHasAWindow(boot: nat, passes: seq<Pass>, n: nat) returns (m: nat)
    requires n <= |passes|
    ensures WindowFrom(boot, passes, m, n)
  {
    m := n;
    while m > 0 && !Restarts(boot, passes, m - 1)
      invariant m <= n && forall k | m <= k < n :: !Restarts(boot, passes, k)
    {
      m := m - 1;
    }
  }

  /** By the clock, pass n is less than 30 seconds into the window that began with pass m. */
  predicate Early(boot: nat, passes: seq<Pass>, m: nat, n: nat)
    requires m <= n < |passes|
  {
    (passes[n].at - Opening(boot, passes, m)) % WORD < 30 * FanControl.HZ
  }

  /** The image is pending until a confirmation goes through. */
  lemma {:induction false} PendingUntilConfirmed(boot: nat, passes: seq<Pass>, n: nat)
    requires n <= |passes|
    ensures At(boot, passes, n).pending <==> forall k | 0 <= k < n :: !Confirmed(boot, passes, k)
  {
    if n > 0 {
      PendingUntilConfirmed(boot, passes, n - 1);
      ConfirmsExactly(At(boot, passes, n - 1), passes[n - 1]);
      assert At(boot, passes, n).pending
        <==> At(boot, passes, n - 1).pending && !Confirmed(boot, passes, n - 1);
    }
  }

  /** One pass. */
  lemma ConfirmsExactly(w: Watch, p: Pass)
    ensures var (v, requests) := After(w, p);
            && (v.pending <==> w.pending && !(Confirm in requests && p.answer == OK))
            && (Confirm in requests ==> w.pending)
    ensures var (v, requests) := After(w, p);
            w.pending ==>
              && (v.pending ==> v.seen == p.connected)
              && v.started == if requests == [Rollback] || (Confirm in requests && p.answer == TIMEOUT)
                              then Wrap(p.at) else w.started
  {
    assert Since(Wrap(p.at), Wrap(p.at)) == 0;
  }

  /** While the image is pending the locals remember just this: whether the last pass was connected,
      and when the window began. */
  lemma {:induction false} WatchRemembers(boot: nat, passes: seq<Pass>, m: nat, n: nat)
    requires WindowFrom(boot, passes, m, n) && At(boot, passes, n).pending
    ensures At(boot, passes, n).seen <==> 0 < n && passes[n - 1].connected
    ensures At(boot, passes, n).started == Wrap(Opening(boot, passes, m))
    decreases n
  {
    if n > 0 {
      var w, p := At(boot, passes, n - 1), passes[n - 1];
      ConfirmsExactly(w, p);
      if m < n {
        WatchRemembers(boot, passes, m, n - 1);
        assert !Restarts(boot, passes, n - 1);
      } else {
        assert Restarts(boot, passes, n - 1);
      }
    }
  }

  /** Everything a pass requests, from what was observed: nothing once a confirmation has gone
      through; a rollback if the connection has just gone; once the window has lasted 30 seconds by
      the clock, a rollback without a network, and else a confirmation, followed by a rollback if it
      comes back neither OK nor TIMEOUT; and nothing otherwise. */
  lemma RequestedExactly(boot: nat, passes: seq<Pass>, m: nat, n: nat)
    requires n < |passes| && Ordered(boot, passes) && WindowFrom(boot, passes, m, n)
    ensures var p := passes[n];
            After(At(boot, passes, n), p).1 ==
              if exists k | 0 <= k < n :: Confirmed(boot, passes, k) then []
              else if Lost(passes, n) then [Rollback]
              else if Early(boot, passes, m, n) then []
              else if !p.stillConnected then [Rollback]
              else if p.answer == OK || p.answer == TIMEOUT then [Confirm]
              else [Confirm, Rollback]
  {
    PendingUntilConfirmed(boot, passes, n);
    PassRequests(At(boot, passes, n), passes[n]);
    if At(boot, passes, n).pending {
      WatchSays(boot, passes, m, n);
    }
  }

  /** What the locals say, in terms of the observations. */
  lemma WatchSays(boot: nat, passes: seq<Pass>, m: nat, n: nat)
    requires n < |passes| && Ordered(boot, passes) && WindowFrom(boot, passes, m, n) && At(boot, passes, n).pending
    ensures At(boot, passes, n).seen && !passes[n].connected <==> Lost(passes, n)
    ensures Since(Wrap(passes[n].at), At(boot, passes, n).started) < 30 * FanControl.HZ <==> Early(boot, passes, m, n)
  {
    WatchRemembers(boot, passes, m, n);
    SinceIsTrueTime(passes[n].at, Opening(boot, passes, m));
  }

  /** The same for one pass, in the loop's terms. */
  lemma PassRequests(w: Watch, p: Pass)
    ensures After(w, p).1 ==
            if !w.pending then []
            else if w.seen && !p.connected then [Rollback]
            else if Since(Wrap(p.at), w.started) < 30 * FanControl.HZ then []
            else if !p.stillConnected then [Rollback]
            else if p.answer == OK || p.answer == TIMEOUT then [Confirm]
            else [Confirm, Rollback]
  {
    assert Since(Wrap(p.at), Wrap(p.at)) == 0;
  }

  /** From pass m to pass n nothing is connected, and the last pass before was not either. */
  predicate Unconnected(passes: seq<Pass>, m: nat, n: nat) {
    && m <= n < |passes| && (m > 0 ==> !passes[m - 1].connected)
    && (forall k | m <= k <= n :: !passes[k].connected && !passes[k].stillConnected)
  }

  /** What happens at pass k of such a window. */
  lemma UnconnectedPass(boot: nat, passes: seq<Pass>, m: nat, k: nat)
    requires k < |passes| && Ordered(boot, passes) && Unconnected(passes, m, k) && WindowFrom(boot, passes, m, k)
    requires forall j | 0 <= j < k :: !Confirmed(boot, passes, j)
    ensures After(At(boot, passes, k), passes[k]).1 == if Early(boot, passes, m, k) then [] else [Rollback]
  {
    RequestedExactly(boot, passes, m, k);
    assert !passes[k].stillConnected && !Lost(passes, k);
  }

  lemma EarlyInTrueTime(boot: nat, passes: seq<Pass>, m: nat, k: nat)
    requires m <= k < |passes| && Opening(boot, passes, m) <= passes[k].at
    requires passes[k].at - Opening(boot, passes, m) < WORD
    ensures Early(boot, passes, m, k) <==> passes[k].at - Opening(boot, passes, m) < 30 * FanControl.HZ
  {
  }

  lemma NothingRequested(boot: nat, passes: seq<Pass>, k: nat)
    requires k < |passes| && After(At(boot, passes, k), passes[k]).1 == []
    ensures !Restarts(boot, passes, k) && !Confirmed(boot, passes, k)
  {
  }

  /** So far so quiet. */
  lemma {:induction false} NothingRequestedYet(boot: nat, passes: seq<Pass>, m: nat, n: nat)
    requires Ordered(boot, passes) && Unconnected(passes, m, n) && WindowFrom(boot, passes, m, m)
    requires forall k | 0 <= k < m :: !Confirmed(boot, passes, k)
    requires forall k | m <= k < n :: passes[k].at - Opening(boot, passes, m) < 30 * FanControl.HZ
    ensures WindowFrom(boot, passes, m, n) && forall k | 0 <= k < n :: !Confirmed(boot, passes, k)
    decreases n
  {
    if m < n {
      NothingRequestedYet(boot, passes, m, n - 1);
      QuietPass(boot, passes, m, n - 1);
    }
  }

  lemma QuietPass(boot: nat, passes: seq<Pass>, m: nat, k: nat)
    requires k < |passes| && Ordered(boot, passes) && Unconnected(passes, m, k) && WindowFrom(boot, passes, m, k)
    requires forall j | 0 <= j < k :: !Confirmed(boot, passes, j)
    requires passes[k].at - Opening(boot, passes, m) < 30 * FanControl.HZ
    ensures !Restarts(boot, passes, k) && !Confirmed(boot, passes, k)
  {
    UnconnectedPass(boot, passes, m, k);
    EarlyInTrueTime(boot, passes, m, k);
    NothingRequested(boot, passes, k);
  }

  /** So an image that never gets a network is rolled back by the first pass 30 seconds on, and
      nothing is requested before. */
  lemma NoNetworkRollsBack(boot: nat, passes: seq<Pass>, m: nat, n: nat)
    requires Ordered(boot, passes) && Unconnected(passes, m, n) && WindowFrom(boot, passes, m, m)
    requires forall k | 0 <= k < m :: !Confirmed(boot, passes, k)
    requires forall k | m <= k < n :: passes[k].at - Opening(boot, passes, m) < 30 * FanControl.HZ
    ensures var waited := passes[n].at - Opening(boot, passes, m);
            var requests := After(At(boot, passes, n), passes[n]).1;
            && (waited < 30 * FanControl.HZ ==> requests == [])
            && (30 * FanControl.HZ <= waited < WORD ==> requests == [Rollback])
  {
    NothingRequestedYet(boot, passes, m, n);
    UnconnectedPass(boot, passes, m, n);
    if passes[n].at - Opening(boot, passes, m) < WORD {
      EarlyInTrueTime(boot, passes, m, n);
    }
  }

  /** A connection lost in the window is answered with a rollback in the same pass. */
  lemma LossRollsBack(boot: nat, passes: seq<Pass>, n: nat)
    requires n < |passes| && At(boot, passes, n).pending && Lost(passes, n)
    ensures After(At(boot, passes, n), passes[n]).1 == [Rollback]
  {
    ConfirmsExactly(At(boot, passes, n - 1), passes[n - 1]);
    assert Since(Wrap(passes[n].at), Wrap(passes[n].at)) == 0;
  }
}
