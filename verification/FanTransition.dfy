/** The disable/address/enable transaction (components/fan_transition_core) and the fan speeds it
    serves (main/fan_select.c). */
module FanTransition {
  import opened Esp
  import opened FanPolicy
  import opened Hc238
  import opened Hc238Arming
  import Hc238Driver

  datatype Phase = NONE | DISABLE | ADDRESS | ENABLE

  datatype Outcome = Outcome(board: Board, err: EspErr, phase: Phase)

  /** fan_transition_execute on the decoder driver. Each failing phase ends with one more attempt
      to disable, whose own result is ignored. */
  function Execute(b: Board, fails: nat -> bool, turnOff: bool, address: nat): Outcome {
    if address > 7 then Outcome(b, INVALID_ARG, NONE)
    else
      var (b1, e1) := Enable(b, fails, false);
      if e1 != OK then Outcome(Enable(b1, fails, false).0, e1, DISABLE)
      else if turnOff then Outcome(b1, OK, NONE)
      else
        var (b2, e2) := SetAddress(b1, fails, address);
        if e2 != OK then Outcome(Enable(b2, fails, false).0, e2, ADDRESS)
        else
          var (b3, e3) := Enable(b2, fails, true);
          if e3 != OK then Outcome(Enable(b3, fails, false).0, e3, ENABLE)
          else Outcome(b3, OK, NONE)
  }

  /** Any attempt to disable keeps a settling log settling. */
  lemma DisableSettles(b: Board, fails: nat -> bool, first: Output, from: nat)
    requires Calm(b, first, from) && Ready(b)
    ensures var (q, err) := Enable(b, fails, false);
            && Calm(q, first, from) && Ready(q)
            && q.cfg == b.cfg && q.initialized == b.initialized
            && (q.Out() == Off || q.Out() == b.Out())
            && (b.initialized && err == OK ==> Driven(q) && Disarmed(q) && q.Out() == Off)
            && (!b.initialized ==> q == b && err == INVALID_STATE)
  {
    if b.initialized {
      DisableIsCalm(b, fails, first, from);
      SettlesFrom(b, fails);
      var (q, err) := Enable(b, fails, false);
      if err == OK {
        DisarmedIsOff(q);
      }
    }
  }

  lemma SettlesFrom(b: Board, fails: nat -> bool)
    requires Wired(b)
    ensures var q := SetEnables(Run(b, true), fails, false).board; q.Out() == Off || q.Out() == b.Out()
  {
    DisableIsCalm(b, fails, b.Out(), |b.log|);
    SettlingEnds(b.cfg, b.Out(), SetEnables(Run(b, true), fails, false).board.log, |b.log|);
  }

  /** A settling output ends off or where it began, and once off it stays off. */
  lemma {:induction false} SettlingEnds(cfg: Config, first: Output, log: seq<Entry>, from: nat)
    requires from <= |log| && Settles(cfg, first, log, from)
    ensures Last(first, log, from) == Off || Last(first, log, from) == first
    decreases |log|
  {
    if |log| != from {
      SettlingEnds(cfg, first, log[..|log| - 1], from);
    }
  }

  lemma AddressPhase(b: Board, fails: nat -> bool, index: nat, first: Output, from: nat)
    requires Calm(b, first, from) && Driven(b) && Disarmed(b) && index <= 7
    ensures var (q, err) := SetAddress(b, fails, index);
            && Calm(q, first, from) && q.Out() == Off && Driven(q) && Disarmed(q)
            && q.cfg == b.cfg && q.initialized == b.initialized
            && (err == OK ==> Address(q) == index && Reachable(b.cfg, index))
            && (b.initialized && !Reachable(b.cfg, index) ==> q == b && err == INVALID_STATE)
  {
    DisarmedIsOff(b);
    if b.initialized && Reachable(b.cfg, index) {
      PutAddressIsCalm(b, fails, index, first, from);
      var (q, err) := SetAddress(b, fails, index);
      if err == OK {
        BitsAreTheAddress(q, index);
      }
    }
  }

  /** How a transition leaves the decoder, and what it showed on the way. */
  predicate Transacts(b: Board, o: Outcome, turnOff: bool, address: nat) {
    && |b.log| <= |o.board.log| && Ready(o.board)
    && o.board.cfg == b.cfg && |o.board.pads| == |b.pads| && o.board.initialized == b.initialized
    && (o.err == OK <==> o.phase == NONE)
    && (o.err == OK ==> b.initialized && (turnOff ==> o.board.Out() == Off))
    && (if o.err == OK && !turnOff then
          Makes(b.cfg, b.Out(), Y(address), o.board.log, |b.log|) && o.board.Out() == Y(address)
        else
          && Settles(b.cfg, b.Out(), o.board.log, |b.log|)
          && o.board.Out() == Last(b.Out(), o.board.log, |b.log|)
          && (o.board.Out() == Off || (o.phase == DISABLE && o.board.Out() == b.Out())))
  }

  lemma EnablePhase(b: Board, fails: nat -> bool, address: nat, first: Output, from: nat)
    requires Calm(b, first, from) && Driven(b) && Disarmed(b) && b.initialized && Address(b) == address
    ensures var (q, err) := Enable(b, fails, true);
            && Ready(q) && q.cfg == b.cfg && q.initialized && |q.log| >= from
            && if err == OK then Makes(b.cfg, first, Y(address), q.log, from) && q.Out() == Y(address)
               else Calm(q, first, from) && q.Out() == Off
  {
    EnableMakes(b, fails, first, from);
  }

  /** Break before make, for every accepted wiring and every pattern of failed writes: the
      output is the old one, then none, then - only in a successful transition, and only after
      its last write - the new one; after an error it is none, or still the old one if the
      failure was in the disable phase. */
  lemma TransitionTransacts(b: Board, fails: nat -> bool, turnOff: bool, address: nat)
    requires Ready(b) && address <= 7
    ensures var o := Execute(b, fails, turnOff, address);
            && Transacts(b, o, turnOff, address)
            && (!b.initialized ==> o == Outcome(b, INVALID_STATE, DISABLE))
            && (o.err == OK ==> turnOff || Reachable(b.cfg, address))
  {
    if b.initialized {
      var first, from := b.Out(), |b.log|;
      var (b1, e1) := Enable(b, fails, false);
      DisableSettles(b, fails, first, from);
      if e1 != OK {
        DisableSettles(b1, fails, first, from);
      } else if !turnOff {
        AddressPhase(b1, fails, address, first, from);
        var (b2, e2) := SetAddress(b1, fails, address);
        if e2 != OK {
          DisableSettles(b2, fails, first, from);
        } else {
          EnablePhase(b2, fails, address, first, from);
          var (b3, e3) := Enable(b2, fails, true);
          if e3 != OK {
            DisableSettles(b3, fails, first, from);
          }
        }
      }
    }
  }

  /** What a transition that fails on an open driver comes to. The decoder is disarmed, with no output
      selected, unless two of its own writes failed; and its last write was an attempt to disable. */
  predicate FailsSafely(b: Board, o: Outcome) {
    o.err != OK && b.initialized ==>
      && |b.log| <= |o.board.log| && o.board.log[..|b.log|] == b.log
      && ((Disarmed(o.board) && o.board.Out() == Off) || FailedTwice(o.board.log, |b.log|))
      && EndsDisabling(o.board, |b.log|)
  }

  /** A failed call, and then an attempt to disable. */
  lemma SecondAttempt(b: Board, from: nat, fails: nat -> bool)
    requires Wired(b) && Driven(b) && b.initialized && from < |b.log| && !b.log[|b.log| - 1].ok
    ensures var (q, err) := Enable(b, fails, false);
            && |b.log| <= |q.log| && q.log[..|b.log|] == b.log
            && ((Disarmed(q) && q.Out() == Off) || FailedTwice(q.log, from)) && EndsDisabling(q, from)
  {
    var (q, err) := Enable(b, fails, false);
    EnableStops(b, fails, false);
    DisableEndsDisabling(b, fails);
    if err == OK {
      DisableIsCalm(b, fails, b.Out(), |b.log|);
      DisarmedIsOff(q);
    } else {
      var j, k := |b.log| - 1, |q.log| - 1;
      assert q.log[j] == q.log[..|b.log|][j];
      assert !q.log[j].ok && !q.log[k].ok;
    }
  }

  lemma SafeAfterAddress(b: Board, fails: nat -> bool, from: nat)
    requires Wired(b) && Driven(b) && Disarmed(b) && b.initialized && from <= |b.log|
    ensures var q := Enable(b, fails, false).0;
            && |b.log| <= |q.log| && q.log[..|b.log|] == b.log
            && Disarmed(q) && q.Out() == Off && EndsDisabling(q, from)
  {
    EnableStops(b, fails, false);
    DisableKeepsDisarmed(b, fails);
    DisableEndsDisabling(b, fails);
    DisableIsCalm(b, fails, b.Out(), |b.log|);
    DisarmedIsOff(Enable(b, fails, false).0);
  }

  /** For every accepted wiring and every pattern of failed writes. */
  lemma TransitionFailsSafely(b: Board, fails: nat -> bool, turnOff: bool, address: nat)
    requires Ready(b) && address <= 7
    ensures FailsSafely(b, Execute(b, fails, turnOff, address))
  {
    if b.initialized {
      var first, from := b.Out(), |b.log|;
      var (b1, e1) := Enable(b, fails, false);
      DisableSettles(b, fails, first, from);
      EnableStops(b, fails, false);
      if e1 != OK {
        SecondAttempt(b1, from, fails);
        Prefixes(b.log, b1.log, Enable(b1, fails, false).0.log);
      } else if !turnOff {
        AddressFailsSafely(b, b1, fails, address);
      }
    }
  }

  /** From the end of the first phase on. */
  lemma AddressFailsSafely(b: Board, b1: Board, fails: nat -> bool, address: nat)
    requires Ready(b) && b.initialized && address <= 7 && (b1, OK) == Enable(b, fails, false)
    ensures FailsSafely(b, Execute(b, fails, false, address))
  {
    var first, from := b.Out(), |b.log|;
    DisableSettles(b, fails, first, from);
    EnableStops(b, fails, false);
    AddressPhase(b1, fails, address, first, from);
    var (b2, e2) := SetAddress(b1, fails, address);
    if Reachable(b1.cfg, address) {
      SetAddressStops(b1, fails, address);
    }
    Prefixes(b.log, b1.log, b2.log);
    if e2 != OK {
      SafeAfterAddress(b2, fails, from);
      Prefixes(b.log, b2.log, Enable(b2, fails, false).0.log);
    } else {
      EnableFailsSafely(b, b2, fails, address);
    }
  }

  lemma EnableFailsSafely(b: Board, b2: Board, fails: nat -> bool, address: nat)
    requires Calm(b2, b.Out(), |b.log|) && Driven(b2) && Disarmed(b2) && b2.initialized && Address(b2) == address
    requires |b.log| <= |b2.log| && b2.log[..|b.log|] == b.log
    ensures var (b3, e3) := Enable(b2, fails, true);
            e3 != OK ==> FailsSafely(b, Outcome(Enable(b3, fails, false).0, e3, ENABLE))
  {
    var (b3, e3) := Enable(b2, fails, true);
    EnablePhase(b2, fails, address, b.Out(), |b.log|);
    EnableStops(b2, fails, true);
    if e3 != OK {
      SecondAttempt(b3, |b.log|, fails);
      Prefixes(b.log, b2.log, b3.log);
      Prefixes(b.log, b3.log, Enable(b3, fails, false).0.log);
    }
  }

  // --- What the phase tells -------------------------------------------------------------------------

  /** The first write since `from` that failed. */
  predicate FirstFailure(log: seq<Entry>, from: nat, j: nat) {
    from <= j < |log| && !log[j].ok && forall k | from <= k < j :: log[k].ok
  }

  /** What such a write was doing. */
  predicate Doing(cfg: Config, op: Op, phase: Phase) {
    match phase
    case NONE => false
    case DISABLE => SetsEnable(cfg, op, false)
    case ADDRESS => IsAddressPin(cfg, op.gpio)
    case ENABLE => SetsEnable(cfg, op, true)
  }

  /** Turning an open driver off succeeds exactly if its first pass makes no failing write, and an error
      is always the disable phase's. */
  lemma TurningOffFails(b: Board, fails: nat -> bool)
    requires b.initialized
    ensures var o := Transition(b, fails, OFF);
            && |b.log| <= |o.board.log| && o.board.log[..|b.log|] == b.log
            && (o.err == OK <==> !FailedOnce(o.board.log, |b.log|))
            && (o.err != OK ==> o.err == FAIL && o.phase == DISABLE)
  {
    var (b1, e1) := Enable(b, fails, false);
    EnableStops(b, fails, false);
    if e1 != OK {
      EnableFails(b, fails, false);
      EnableStops(b1, fails, false);
      var log := Enable(b1, fails, false).0.log;
      Prefixes(b.log, b1.log, log);
      assert log[|b1.log| - 1] == log[..|b1.log|][|b1.log| - 1];
    }
  }

  lemma CallFails(before: seq<Entry>, q: Board, later: seq<Entry>, from: nat, phase: Phase)
    requires from <= |before| < |q.log| <= |later| && later[..|q.log|] == q.log && q.log[..|before|] == before
    requires forall k | from <= k < |before| :: before[k].ok
    requires StopsAtFailure(Run(q, false), |before|) && Doing(q.cfg, q.log[|q.log| - 1].op, phase)
    ensures FirstFailure(later, from, |q.log| - 1) && Doing(q.cfg, later[|q.log| - 1].op, phase)
  {
    var j := |q.log| - 1;
    forall k | from <= k <= j ensures later[k] == q.log[k] && (k < |before| ==> q.log[k] == before[k]) {
      assert later[k] == later[..|q.log|][k];
      assert k < |before| ==> q.log[k] == q.log[..|before|][k];
    }
  }

  /** A transition that fails on an open driver names what its first failing write was doing: setting
      an enable inactive, an address input, or an enable active. */
  lemma PhaseNamesTheFailure(b: Board, fails: nat -> bool, turnOff: bool, address: nat) returns (j: nat)
    requires Ready(b) && b.initialized && address <= 7 && (turnOff || Reachable(b.cfg, address))
    requires Execute(b, fails, turnOff, address).err != OK
    ensures var o := Execute(b, fails, turnOff, address);
            o.err == FAIL && FirstFailure(o.board.log, |b.log|, j) && Doing(b.cfg, o.board.log[j].op, o.phase)
  {
    var (b1, e1) := Enable(b, fails, false);
    DisableSettles(b, fails, b.Out(), |b.log|);
    EnableStops(b, fails, false);
    if e1 != OK {
      EnableFails(b, fails, false);
      EnableStops(b1, fails, false);
      j := |b1.log| - 1;
      CallFails(b.log, b1, Enable(b1, fails, false).0.log, |b.log|, DISABLE);
    } else {
      j := LaterPhaseNamesTheFailure(b, b1, fails, address);
    }
  }

  lemma LaterPhaseNamesTheFailure(b: Board, b1: Board, fails: nat -> bool, address: nat) returns (j: nat)
    requires Ready(b) && b.initialized && address <= 7 && Reachable(b.cfg, address)
    requires (b1, OK) == Enable(b, fails, false) && Execute(b, fails, false, address).err != OK
    ensures var o := Execute(b, fails, false, address);
            o.err == FAIL && FirstFailure(o.board.log, |b.log|, j) && Doing(b.cfg, o.board.log[j].op, o.phase)
  {
    EnableStops(b, fails, false);
    SetAddressStops(b1, fails, address);
    var (b2, e2) := SetAddress(b1, fails, address);
    if e2 != OK {
      SetAddressFails(b1, fails, address);
      EnableStops(b2, fails, false);
      j := |b2.log| - 1;
      CallFails(b1.log, b2, Enable(b2, fails, false).0.log, |b.log|, ADDRESS);
    } else {
      AllWell(b1.log, b2.log, |b.log|);
      j := EnableNamesTheFailure(b2, fails, |b.log|);
    }
  }

  lemma AllWell(first: seq<Entry>, log: seq<Entry>, from: nat)
    requires from <= |first| <= |log| && log[..|first|] == first
    requires (forall k | from <= k < |first| :: first[k].ok) && (forall k | |first| <= k < |log| :: log[k].ok)
    ensures forall k | from <= k < |log| :: log[k].ok
  {
    assert forall k | 0 <= k < |first| :: log[k] == log[..|first|][k];
  }

  lemma EnableNamesTheFailure(b2: Board, fails: nat -> bool, from: nat) returns (j: nat)
    requires b2.initialized && from <= |b2.log| && forall k | from <= k < |b2.log| :: b2.log[k].ok
    requires Enable(b2, fails, true).1 != OK
    ensures var log := Enable(Enable(b2, fails, true).0, fails, false).0.log;
            FirstFailure(log, from, j) && Doing(b2.cfg, log[j].op, ENABLE)
    ensures Enable(b2, fails, true).1 == FAIL
  {
    var (b3, e3) := Enable(b2, fails, true);
    EnableStops(b2, fails, true);
    EnableFails(b2, fails, true);
    EnableStops(b3, fails, false);
    j := |b3.log| - 1;
    CallFails(b2.log, b3, Enable(b3, fails, false).0.log, from, ENABLE);
  }

  /** Nothing but a failing write or an output the wiring cannot select makes a transition fail. */
  lemma TransitionWorks(b: Board, fails: nat -> bool, turnOff: bool, address: nat)
    requires Ready(b) && b.initialized && Works(fails) && address <= 7
    ensures Execute(b, fails, turnOff, address).err ==
            if turnOff || Reachable(b.cfg, address) then OK else INVALID_STATE
  {
    var (b1, e1) := Enable(b, fails, false);
    EnableWorks(b, fails, false);
    DisableSettles(b, fails, b.Out(), |b.log|);
    if !turnOff {
      var (b2, e2) := SetAddress(b1, fails, address);
      SetAddressWorks(b1, fails, address);
      AddressPhase(b1, fails, address, b.Out(), |b.log|);
      if e2 == OK {
        EnableWorks(b2, fails, true);
      }
    }
  }

  // --- The trace, read forwards ---------------------------------------------------------------

  /** The outputs seen after each write from entry `from` on. */
  function Shown(log: seq<Entry>, from: nat): (s: seq<Output>)
    requires from <= |log|
    ensures |s| == |log| - from
  {
    seq(|log| - from, k requires 0 <= k < |log| - from => log[from + k].after)
  }

  predicate BreakBeforeMake(first: Output, next: Output, shown: seq<Output>) {
    exists i, j | 0 <= i <= j <= |shown| :: Stages(first, next, shown, i, j)
  }

  predicate Stages(first: Output, next: Output, shown: seq<Output>, i: nat, j: nat)
    requires i <= j <= |shown|
  {
    && (forall k | 0 <= k < i :: shown[k] == first)
    && (forall k | i <= k < j :: shown[k] == Off)
    && (forall k | j <= k < |shown| :: shown[k] == next)
  }

  /** Where the output goes off: everything before is `first`, everything after is off. */
  lemma {:induction false} SettlingPoint(cfg: Config, first: Output, log: seq<Entry>, from: nat) returns (i: nat)
    requires from <= |log| && Settles(cfg, first, log, from)
    ensures from <= i <= |log|
    ensures forall k | from <= k < i :: log[k].after == first
    ensures forall k | i <= k < |log| :: log[k].after == Off
    ensures forall k | from <= k < |log| && IsAddressPin(cfg, log[k].op.gpio) :: log[k].before == Off
    ensures i < |log| ==> Last(first, log, from) == Off
    decreases |log|
  {
    i := |log|;
    if |log| != from {
      var n := |log| - 1;
      i := SettlingPoint(cfg, first, log[..n], from);
      assert forall k | from <= k < n :: log[..n][k] == log[k];
      if i == n {
        assert Last(first, log[..n], from) == first;
        i := if log[n].after == first then |log| else n;
      }
    }
  }

  lemma TransactionTrace(b: Board, o: Outcome, turnOff: bool, address: nat)
    requires Transacts(b, o, turnOff, address)
    ensures BreakBeforeMake(b.Out(), Y(address), Shown(o.board.log, |b.log|))
    ensures forall k | |b.log| <= k < |o.board.log| && IsAddressPin(b.cfg, o.board.log[k].op.gpio) ::
              o.board.log[k].before == Off
  {
    var log, from := o.board.log, |b.log|;
    var shown := Shown(log, from);
    if o.err == OK && !turnOff {
      var n := |log| - 1;
      var i := SettlingPoint(b.cfg, b.Out(), log[..n], from);
      assert forall k | from <= k < n :: log[..n][k] == log[k];
      assert Stages(b.Out(), Y(address), shown, i - from, n - from);
    } else {
      var i := SettlingPoint(b.cfg, b.Out(), log, from);
      assert Stages(b.Out(), Y(address), shown, i - from, |shown|);
    }
  }

  /** The guarantee in the words of the design: old outputs, then none, then new ones; address
      pins move only while no output is selected. */
  lemma TransitionTrace(b: Board, fails: nat -> bool, turnOff: bool, address: nat)
    requires Ready(b) && address <= 7
    ensures var o := Execute(b, fails, turnOff, address);
            && |b.log| <= |o.board.log|
            && BreakBeforeMake(b.Out(), Y(address), Shown(o.board.log, |b.log|))
            && (forall k | |b.log| <= k < |o.board.log| && IsAddressPin(b.cfg, o.board.log[k].op.gpio) ::
                  o.board.log[k].before == Off)
  {
    TransitionTransacts(b, fails, turnOff, address);
    TransactionTrace(b, Execute(b, fails, turnOff, address), turnOff, address);
  }

  /** How often the output comes on along `shown`, starting from `prev`. */
  function Rises(prev: Output, shown: seq<Output>): nat
    decreases |shown|
  {
    if shown == [] then 0
    else (if prev == Off && shown[0] != Off then 1 else 0) + Rises(shown[0], shown[1..])
  }

  function Final(prev: Output, shown: seq<Output>): Output {
    if shown == [] then prev else shown[|shown| - 1]
  }

  lemma {:induction false} RisesOfSettling(first: Output, prev: Output, shown: seq<Output>, i: nat)
    requires i <= |shown| && (prev == first || (i == 0 && prev == Off))
    requires (forall k | 0 <= k < i :: shown[k] == first) && (forall k | i <= k < |shown| :: shown[k] == Off)
    ensures Rises(prev, shown) == 0
    decreases |shown|
  {
    if shown != [] {
      RisesOfSettling(first, shown[0], shown[1..], if i == 0 then 0 else i - 1);
    }
  }

  /** The output only ever goes off. */
  predicate Sinks(prev: Output, shown: seq<Output>)
    decreases |shown|
  {
    shown == [] || ((shown[0] == Off || shown[0] == prev) && Sinks(shown[0], shown[1..]))
  }

  lemma {:induction false} SinkingNeverRises(prev: Output, shown: seq<Output>)
    requires Sinks(prev, shown)
    ensures Rises(prev, shown) == 0
    ensures prev == Off ==> forall k | 0 <= k < |shown| :: shown[k] == Off
    decreases |shown|
  {
    if shown != [] {
      SinkingNeverRises(shown[0], shown[1..]);
    }
  }

  lemma {:induction false} StagesSink(first: Output, prev: Output, shown: seq<Output>, i: nat)
    requires i <= |shown| && (prev == first || (i == 0 && prev == Off))
    requires (forall k | 0 <= k < i :: shown[k] == first) && (forall k | i <= k < |shown| :: shown[k] == Off)
    ensures Sinks(prev, shown)
    decreases |shown|
  {
    if shown != [] {
      StagesSink(first, shown[0], shown[1..], if i == 0 then 0 else i - 1);
    }
  }

  /** A settling log shows outputs that only go off. */
  lemma SettlingSinks(cfg: Config, first: Output, log: seq<Entry>, from: nat)
    requires from <= |log| && Settles(cfg, first, log, from)
    ensures Sinks(first, Shown(log, from)) && Final(first, Shown(log, from)) == Last(first, log, from)
  {
    var i := SettlingPoint(cfg, first, log, from);
    StagesSink(first, first, Shown(log, from), i - from);
  }

  lemma {:induction false} RisesConcat(prev: Output, s: seq<Output>, t: seq<Output>)
    ensures Rises(prev, s + t) == Rises(prev, s) + Rises(Final(prev, s), t)
    decreases |s|
  {
    if s == [] {
      assert s + t == t;
    } else {
      assert (s + t)[1..] == s[1..] + t;
      RisesConcat(s[0], s[1..], t);
    }
  }

  /** Counted on the enable side: a transition switches an output on exactly once if it completes
      at a speed, and never otherwise. */
  lemma TransactionRises(b: Board, o: Outcome, turnOff: bool, address: nat)
    requires Transacts(b, o, turnOff, address)
    ensures Rises(b.Out(), Shown(o.board.log, |b.log|)) == (if o.err == OK && !turnOff then 1 else 0)
    ensures Final(b.Out(), Shown(o.board.log, |b.log|)) == o.board.Out()
  {
    var log, from, first := o.board.log, |b.log|, b.Out();
    var shown := Shown(log, from);
    if o.err == OK && !turnOff {
      var n := |log| - 1;
      var i := SettlingPoint(b.cfg, first, log[..n], from);
      assert forall k | from <= k < n :: log[..n][k] == log[k];
      var s := shown[..n - from];
      assert shown == s + [Y(address)];
      RisesOfSettling(first, first, s, i - from);
      RisesConcat(first, s, [Y(address)]);
      assert Final(first, s) == Last(first, log[..n], from);
      assert Rises(Off, [Y(address)]) == 1 + Rises(Y(address), [Y(address)][1..]);
    } else {
      var i := SettlingPoint(b.cfg, first, log, from);
      RisesOfSettling(first, first, shown, i - from);
    }
  }

  // --- Fan speeds -----------------------------------------------------------------------------

  /** components/board/include/board.h: A0, E1 and E2 are wired to ground. */
  const BOARD: Config := [Line(-1, 0), Line(18, -1), Line(17, -1), Line(-1, 0), Line(-1, 0), Line(16, -1)]

  function OutputMap(speed: Speed): nat {
    match speed
    case 0 => 0
    case 1 => 0
    case 2 => 2
    case 3 => 4
    case 4 => 6
  }

  /** The output a fan speed stands for. */
  function SpeedOutput(speed: Speed): Output {
    if speed == OFF then Off else Y(OutputMap(speed))
  }

  /** On this board every speed is reachable, different speeds select different outputs, and the
      two wired address lines carry the speed less one in binary. */
  lemma SpeedsAreDistinctAndReachable(s: Speed, t: Speed)
    ensures s != OFF ==> Reachable(BOARD, OutputMap(s))
    ensures SpeedOutput(s) == SpeedOutput(t) ==> s == t
    ensures s != OFF ==> Weight(Bit(OutputMap(s), A1), 1) + Weight(Bit(OutputMap(s), A2), 2) == s - 1
  {
    assert BOARD[A1].Controlled() && BOARD[A2].Controlled();
  }

  /** fan_transition */
  function Transition(b: Board, fails: nat -> bool, speed: int): Outcome {
    if speed < 0 || speed > 4 then Outcome(b, INVALID_ARG, NONE)
    else Execute(b, fails, speed == OFF, OutputMap(speed))
  }

  /** Turning off, in as many attempts as it takes, writes no enable active. */
  lemma TurningOffArmsNothing(b: Board, fails: nat -> bool)
    requires PinsDistinct(b.cfg)
    ensures var o := Transition(b, fails, OFF); o.board.cfg == b.cfg && ArmsNothing(b.cfg, o.board.log, |b.log|)
  {
    DisableArmsNothing(b, fails, b.cfg, |b.log|);
    DisableArmsNothing(Enable(b, fails, false).0, fails, b.cfg, |b.log|);
  }

  /** fan_transition_execute on the real driver. */
  method ExecuteOn(driver: Hc238Driver.Driver, turnOff: bool, address: nat) returns (err: EspErr, phase: Phase)
    requires driver.Valid()
    modifies driver`writes, driver`log, driver.pads
    ensures var o := Execute(old(driver.View()), driver.fails, turnOff, address);
            driver.View() == o.board && err == o.err && phase == o.phase
    ensures driver.Valid()
    ensures address > 7 ==> err == INVALID_ARG && phase == NONE && driver.View() == old(driver.View())
    ensures address <= 7 ==> (err == OK <==> phase == NONE)
    ensures err == OK ==> driver.View().Out() == if turnOff then Off else Y(address)
    ensures err != OK && address <= 7 && driver.initialized && driver.View().Out() != Off ==>
              FailedTwice(driver.log, old(|driver.log|))
  {
    phase := NONE;
    if address > 7 {
      return INVALID_ARG, phase;
    }
    TransitionTransacts(driver.View(), driver.fails, turnOff, address);
    TransitionFailsSafely(driver.View(), driver.fails, turnOff, address);
    phase := DISABLE;
    err := Disable(driver);
    if err != OK {
      var _ := Disable(driver);
      return;
    }
    if turnOff {
      phase := NONE;
      return;
    }
    err, phase := SelectOn(driver, address, old(driver.View()));
  }

  /** The address and enable phases, once the disable phase has succeeded from `b`. */
  method SelectOn(driver: Hc238Driver.Driver, address: nat, ghost b: Board) returns (err: EspErr, phase: Phase)
    requires driver.Valid() && Ready(b) && address <= 7 && (driver.View(), OK) == Enable(b, driver.fails, false)
    modifies driver`writes, driver`log, driver.pads
    ensures driver.Valid()
    ensures Outcome(driver.View(), err, phase) == Execute(b, driver.fails, false, address)
  {
    phase := ADDRESS;
    DisableKeepsReady(b, driver.fails);
    AddressKeepsReady(b, driver.fails, address);
    err := driver.SetAddress(address);
    if err != OK {
      var _ := Disable(driver);
      return;
    }
    phase := ENABLE;
    EnableKeepsReady(driver.View(), driver.fails);
    err := driver.Enable(true);
    if err != OK {
      var _ := Disable(driver);
      return;
    }
    phase := NONE;
  }

  /** backend->enable(context, false) */
  method Disable(driver: Hc238Driver.Driver) returns (err: EspErr)
    requires driver.Valid()
    modifies driver`writes, driver`log, driver.pads
    ensures driver.Valid()
    ensures (driver.View(), err) == Enable(old(driver.View()), driver.fails, false)
  {
    DisableKeepsReady(driver.View(), driver.fails);
    err := driver.Enable(false);
  }

  lemma DisableKeepsReady(b: Board, fails: nat -> bool)
    requires Ready(b)
    ensures Ready(Enable(b, fails, false).0)
  {
    if b.initialized {
      DisableSettles(b, fails, b.Out(), |b.log|);
    }
  }

  lemma AddressKeepsReady(b: Board, fails: nat -> bool, address: nat)
    requires Ready(b) && Enable(b, fails, false).1 == OK && address <= 7
    ensures Ready(SetAddress(Enable(b, fails, false).0, fails, address).0)
  {
    if b.initialized {
      DisableSettles(b, fails, b.Out(), |b.log|);
      AddressPhase(Enable(b, fails, false).0, fails, address, b.Out(), |b.log|);
    }
  }

  lemma EnableKeepsReady(b: Board, fails: nat -> bool)
    requires Ready(b)
    ensures Ready(Enable(b, fails, true).0)
  {
    if b.initialized {
      var r1 := Put(Run(b, true), fails, E1, false);
      var r2 := Put(r1, fails, E2, false);
      PutKeepsReady(Run(b, true), fails, E1, false);
      PutKeepsReady(r1, fails, E2, false);
      PutKeepsReady(r2, fails, E3, true);
    }
  }

  lemma PutKeepsReady(r: Run, fails: nat -> bool, i: nat, level: bool)
    requires Wired(r.board) && Driven(r.board) && i < 6
    ensures var q := Put(r, fails, i, level).board; Wired(q) && Driven(q)
  {
    if r.ok && r.board.cfg[i].Controlled() {
      WriteIsLocal(r.board, fails, i, SetLevel(r.board.cfg[i].gpio, level));
    }
  }

  /** fan_transition on the real driver. */
  method TransitionOn(driver: Hc238Driver.Driver, speed: int) returns (err: EspErr, phase: Phase)
    requires driver.Valid()
    modifies driver`writes, driver`log, driver.pads
    ensures driver.Valid()
    ensures var o := Transition(old(driver.View()), driver.fails, speed);
            driver.View() == o.board && err == o.err && phase == o.phase
    ensures !(0 <= speed <= 4) ==> err == INVALID_ARG && phase == NONE && driver.View() == old(driver.View())
    ensures err == OK ==> 0 <= speed <= 4 && driver.View().Out() == SpeedOutput(speed)
  {
    if speed < 0 || speed > 4 {
      return INVALID_ARG, NONE;
    }
    err, phase := ExecuteOn(driver, speed == OFF, OutputMap(speed));
  }
}
