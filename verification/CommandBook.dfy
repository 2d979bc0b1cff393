/** Where submitted commands go: conservation, order, numbering and the counters' arithmetic. */
module CommandBook {
  import opened Esp
  import opened FanPolicy
  import opened FanControl
  import opened FanExecutions
  import FanRefinement
  import FanTransition
  import Hc238

  function Occupied(s: Shared): nat {
    if s.mailbox.Some? then 1 else 0
  }

  /** Every numbered command was interpreted, coalesced, or waits in the mailbox - which holds the
      newest. */
  ghost predicate CountInv(s: System) {
    var b := s.book;
    && |b.submitted| == |b.taken| + b.dropped + Occupied(s.shared)
    && (s.shared.mailbox.Some? ==> s.shared.mailbox.value == b.submitted[|b.submitted| - 1])
    && s.shared.coalesced == Wrap(b.dropped) && s.shared.rejected == Wrap(b.refused)
  }

  /** Interpreted commands appear in submission order, each at most once. */
  ghost predicate OrderInv(s: System) {
    var b := s.book;
    && (forall i | 0 <= i < |b.taken| :: 1 <= b.taken[i] <= |b.submitted| - Occupied(s.shared))
    && (forall i, j | 0 <= i < j < |b.taken| :: b.taken[i] < b.taken[j])
  }

  ghost predicate NumberInv(s: System) {
    var b := s.book;
    && s.shared.sequence == Nth(|b.submitted|)
    && (forall k | 0 <= k < |b.submitted| :: b.submitted[k].sequence == Nth(k + 1))
    && s.actor.fan.accepted == LastTaken(b)
  }

  function LastTaken(b: Book): Word {
    if b.taken == [] then 0 else Nth(b.taken[|b.taken| - 1])
  }

  /** In the cycle that took a speed command, the command still has to be counted. */
  ghost predicate FreshInv(s: System) {
    var f, b := s.actor.fan, s.book;
    s.actor.pc.Decide? ==>
      && (f.fault ==> !b.newCommand)
      && (!f.fault && !b.newCommand ==> f.accepted == f.appliedSeq)
      && (b.newCommand && b.burstsOk ==> f.accepted != 0 && f.accepted != f.appliedSeq)
  }

  /** Transitions attempted and duplicates found add up to the speed commands interpreted, plus
      the transitions the actor began on its own. */
  ghost predicate TallyInv(s: System) {
    var b := s.book;
    && s.actor.fan.attempted == Wrap(b.attempts) && s.actor.fan.duplicates == Wrap(b.duplicates)
    && (b.burstsOk ==>
          b.attempts + b.duplicates + (if s.actor.pc.Decide? && b.newCommand then 1 else 0)
          == b.handled + b.spontaneous)
  }

  /** A boot begins with empty books. */
  ghost predicate BlankInv(s: System) {
    s.actor.pc.Start? ==> s.actor.fan == BOOT_FAN
  }

  ghost predicate Inv(s: System) {
    BlankInv(s) && CountInv(s) && OrderInv(s) && NumberInv(s) && FreshInv(s) && TallyInv(s)
  }

  // --- Preservation --------------------------------------------------------------------------------

  lemma SubmitKeepsCount(s: System, c: Command, seen: Fan)
    requires CountInv(s) && OrderInv(s)
    ensures CountInv(DoSubmit(s, c, seen)) && OrderInv(DoSubmit(s, c, seen))
  {
  }

  lemma SubmitKeepsNumber(s: System, c: Command, seen: Fan)
    requires NumberInv(s)
    ensures NumberInv(DoSubmit(s, c, seen))
  {
  }

  lemma SubmitKeepsInv(s: System, c: Command, seen: Fan)
    requires Inv(s)
    ensures Inv(DoSubmit(s, c, seen))
  {
    SubmitKeepsCount(s, c, seen);
    SubmitKeepsNumber(s, c, seen);
    var t := DoSubmit(s, c, seen);
    assert t.actor == s.actor;
  }

  lemma QuiesceSetKeepsInv(s: System, q: nat)
    requires Inv(s)
    ensures Inv(DoQuiesceSet(s, q))
  {
    QuiesceSetKeepsCount(s, q);
    var t := DoQuiesceSet(s, q);
    assert t.actor == s.actor && t.book == s.book.(dropped := t.book.dropped);
  }

  lemma QuiesceSetKeepsCount(s: System, q: nat)
    requires CountInv(s) && OrderInv(s)
    ensures CountInv(DoQuiesceSet(s, q)) && OrderInv(DoQuiesceSet(s, q))
  {
  }

  /** Taking: the command's number is fresh, since its predecessor's is less than a turn away. */
  lemma TakenIsFresh(s: System)
    requires Inv(s) && s.shared.mailbox.Some?
    ensures var n := |s.book.submitted|;
            && s.shared.mailbox.value.sequence == Nth(n) != 0
            && (s.book.taken == [] || n - s.book.taken[|s.book.taken| - 1] < WORD - 1 ==>
              Nth(n) != s.actor.fan.accepted)
  {
    var n := |s.book.submitted|;
    NthClosedForm(n);
    if s.book.taken != [] {
      var m := s.book.taken[|s.book.taken| - 1];
      if n - m < WORD - 1 {
        NthDistinct(m, n);
      }
    }
  }

  lemma TakeKeepsBooks(s: System)
    requires Inv(s) && s.actor.pc.Receive?
    ensures CountInv(DoTake(s)) && OrderInv(DoTake(s)) && NumberInv(DoTake(s))
  {
    if s.shared.mailbox.Some? {
      TakenIsFresh(s);
    }
  }

  lemma TakeKeepsFresh(s: System)
    requires Inv(s) && s.actor.pc.Receive?
    requires !s.actor.fan.fault ==> s.actor.fan.accepted == s.actor.fan.appliedSeq
    ensures FreshInv(At(DoTake(s), Decide))
  {
    if s.shared.mailbox.Some? {
      TakenIsFresh(s);
    }
    FreshAfterTake(s);
  }

  /** A command whose number differs from the last accepted one is still to be settled. */
  lemma FreshAfterTake(s: System)
    requires s.actor.pc.Receive? && (!s.actor.fan.fault ==> s.actor.fan.accepted == s.actor.fan.appliedSeq)
    requires s.shared.mailbox.Some? ==>
               var n, next := |s.book.submitted|, s.shared.mailbox.value.sequence;
               && next != 0
               && (s.book.taken == [] || n - s.book.taken[|s.book.taken| - 1] < WORD - 1 ==>
                 next != s.actor.fan.accepted)
    ensures FreshInv(At(DoTake(s), Decide))
  {
  }

  lemma TakeKeepsTally(s: System)
    requires TallyInv(s) && s.actor.pc.Receive?
    ensures TallyInv(At(DoTake(s), Decide))
  {
  }

  /** Looking at the timer changes nothing that is booked. */
  lemma ExpireKeepsInv(t: System)
    requires Inv(At(t, Decide))
    ensures Inv(WithFan(t, Expire(t.actor.fan, t.actor.now, t.actor.started), Decide))
  {
  }

  lemma ReceiveKeepsInv(s: System, env: Env)
    requires Inv(s) && s.actor.pc.Receive? && s.hw.todo == []
    requires !s.actor.fan.fault ==> s.actor.fan.accepted == s.actor.fan.appliedSeq
    ensures Inv(ActorStep(s, env))
  {
    TakeKeepsBooks(s);
    TakeKeepsFresh(s);
    TakeKeepsTally(s);
    var t := At(DoTake(s), Decide);
    if !t.actor.fan.fault && !t.actor.maintenance {
      ExpireKeepsInv(DoTake(s));
    }
    assert Inv(DoReceive(s));
  }

  ghost predicate Moving(s: System) {
    !s.actor.fan.fault && TransitionRequired(s.actor.fan.applied, s.actor.fan.desired)
  }

  lemma MoveKeepsInv(s: System, o: FanTransition.Outcome)
    requires Inv(s) && s.actor.pc.Decide? && Moving(s) && |s.hw.board.log| <= |o.board.log|
    ensures Inv(DoDecide(s, o))
  {
    MoveKeepsTally(s, o);
    var t := DoDecide(s, o);
    assert t.shared == s.shared && t.book == s.book.(attempts := t.book.attempts, spontaneous := t.book.spontaneous);
    assert t.actor.fan.accepted == s.actor.fan.accepted;
  }

  lemma MoveKeepsTally(s: System, o: FanTransition.Outcome)
    requires TallyInv(s) && s.actor.pc.Decide? && Moving(s) && |s.hw.board.log| <= |o.board.log|
    ensures TallyInv(DoDecide(s, o)) && DoDecide(s, o).actor.pc.Writes?
  {
  }

  lemma SettleKeepsTally(s: System, o: FanTransition.Outcome)
    requires FreshInv(s) && TallyInv(s) && s.actor.pc.Decide? && !Moving(s)
    ensures FreshInv(DoDecide(s, o)) && TallyInv(DoDecide(s, o))
  {
  }

  lemma SettleKeepsBooks(s: System, o: FanTransition.Outcome)
    requires CountInv(s) && OrderInv(s) && NumberInv(s) && s.actor.pc.Decide? && !Moving(s)
    ensures var t := DoDecide(s, o); CountInv(t) && OrderInv(t) && NumberInv(t)
  {
  }

  ghost predicate Books(pc: Pc) {
    pc.Receive? || pc.Decide? || pc.Start?
  }

  lemma OthersKeepBook(s: System, env: Env)
    requires !Books(s.actor.pc)
    ensures var t := ActorStep(s, env); t.book == s.book && !t.actor.pc.Decide? && !t.actor.pc.Start?
  {
  }

  lemma OthersKeepMailbox(s: System, env: Env)
    requires !Books(s.actor.pc)
    ensures var t := ActorStep(s, env).shared;
            t.mailbox == s.shared.mailbox && t.sequence == s.shared.sequence && t.coalesced == s.shared.coalesced
  {
  }

  ghost predicate SameCounters(f: Fan, g: Fan) {
    g.accepted == f.accepted && g.attempted == f.attempted && g.duplicates == f.duplicates
  }

  lemma WakeKeepsCounters(s: System)
    ensures SameCounters(s.actor.fan, DoReadFlag(s).actor.fan) && SameCounters(s.actor.fan, DoWake(s).actor.fan)
  {
  }

  lemma EndKeepsCounters(s: System, err: EspErr, phase: FanTransition.Phase)
    ensures SameCounters(s.actor.fan, DoEndWrites(s, err, phase).actor.fan)
        && SameCounters(s.actor.fan, DoSetAck(s).actor.fan)
  {
  }

  lemma OthersKeepCounters(s: System, env: Env)
    requires !Books(s.actor.pc)
    ensures SameCounters(s.actor.fan, ActorStep(s, env).actor.fan)
  {
    if s.hw.todo == [] {
      if s.actor.pc.Sleep? || s.actor.pc.ReadFlag? {
        WakeKeepsCounters(s);
      } else if s.actor.pc.Writes? {
        EndKeepsCounters(s, s.actor.pc.err, s.actor.pc.phase);
      } else if s.actor.pc.SetAck? {
        EndKeepsCounters(s, OK, FanTransition.NONE);
      }
    }
  }

  lemma ActorKeepsInv(s: System, env: Env)
    requires Inv(s) && FanRefinement.Inv(s) && Legit(s, env)
    ensures Inv(ActorStep(s, env))
  {
    if s.hw.todo != [] || !Books(s.actor.pc) {
      PlainKeepsInv(s, env);
    } else if s.actor.pc.Receive? {
      ReceiveKeepsInv(s, env);
    } else if s.actor.pc.Decide? {
      OutcomeGrows(s, env);
      DecideKeepsInv(s, env.outcome);
    } else {
      StartKeepsInv(s, env);
    }
  }

  lemma OutcomeGrows(s: System, env: Env)
    requires FanRefinement.Inv(s) && Legit(s, env) && s.actor.pc.Decide?
    ensures |s.hw.board.log| <= |env.outcome.board.log|
  {
    FanRefinement.TransitionMoves(s.hw.board, env.fails, s.actor.fan.desired);
  }

  lemma DecideKeepsInv(s: System, o: FanTransition.Outcome)
    requires Inv(s) && FanRefinement.Inv(s) && s.actor.pc.Decide? && s.hw.todo == []
        && |s.hw.board.log| <= |o.board.log|
    ensures Inv(DoDecide(s, o))
  {
    if Moving(s) {
      MoveKeepsInv(s, o);
    } else {
      SettleKeepsTally(s, o);
      SettleKeepsBooks(s, o);
    }
  }

  lemma PlainKeepsInv(s: System, env: Env)
    requires Inv(s) && FanRefinement.WritesInv(s) && (s.hw.todo != [] || !Books(s.actor.pc))
    ensures Inv(ActorStep(s, env))
  {
    OthersKeepBook(s, env);
    OthersKeepMailbox(s, env);
    OthersKeepCounters(s, env);
  }

  lemma StartKeepsInv(s: System, env: Env)
    requires Inv(s) && s.actor.pc.Start? && s.hw.todo == []
    ensures Inv(ActorStep(s, env))
  {
  }

  lemma ResetKeepsInv(s: System, powerOn: bool, pads: seq<Hc238.Pad>)
    ensures Inv(DoReset(s, powerOn, pads))
  {
  }

  lemma SameBooksKeepInv(s: System, t: System)
    requires Inv(s) && t.book == s.book && t.actor == s.actor
    requires t.shared == s.shared.(flag := t.shared.flag)
    ensures Inv(t)
  {
  }

  lemma StepKeepsInv(s: System, step: Step)
    requires Inv(s) && FanRefinement.Inv(s) && Enabled(s, step)
    ensures Inv(Next(s, step))
  {
    match step
    case ActorRuns(env) => ActorKeepsInv(s, env);
    case Submit(c, seen) => SubmitKeepsInv(s, c, s.effects.published[seen]);
    case QuiesceSet(q) => QuiesceSetKeepsInv(s, q);
    case Reset(powerOn, pads) => ResetKeepsInv(s, powerOn, pads);
    case _ => SameBooksKeepInv(s, Next(s, step));
  }

  lemma {:induction false} RunKeepsInv(states: seq<System>, steps: seq<Step>, i: nat)
    requires Run(states, steps) && i < |states|
    ensures Inv(states[i])
  {
    if i > 0 {
      RunKeepsInv(states, steps, i - 1);
      FanRefinement.RunKeepsInv(states, steps, i - 1);
      assert StepAt(states, steps, i - 1);
      StepKeepsInv(states[i - 1], steps[i - 1]);
    }
  }

  // --- The theorems ---------------------------------------------------------------------------------

  /** At all times: commands numbered = interpreted + coalesced + waiting; the interpreted ones are
      in submission order; the k-th was given the k-th number. */
  lemma CommandsAreConserved(states: seq<System>, steps: seq<Step>, i: nat)
    requires Run(states, steps) && i < |states|
    ensures var b := states[i].book;
            && |b.submitted| == |b.taken| + b.dropped + Occupied(states[i].shared)
            && states[i].shared.coalesced == Wrap(b.dropped) && states[i].shared.rejected == Wrap(b.refused)
            && (forall j, k | 0 <= j < k < |b.taken| :: 1 <= b.taken[j] < b.taken[k] <= |b.submitted|)
            && (forall k | 0 <= k < |b.submitted| :: b.submitted[k].sequence == k % (WORD - 1) + 1)
    ensures var b, s := states[i].book, states[i];
            && (s.shared.mailbox.Some? ==>
                  b.submitted != [] && s.shared.mailbox.value == b.submitted[|b.submitted| - 1])
            && (b.taken != [] ==>
                  var last := b.taken[|b.taken| - 1];
                  1 <= last <= |b.submitted| && s.actor.fan.accepted == b.submitted[last - 1].sequence)
  {
    RunKeepsInv(states, steps, i);
    forall k | 0 <= k < |states[i].book.submitted|
      ensures states[i].book.submitted[k].sequence == k % (WORD - 1) + 1
    {
      NthClosedForm(k + 1);
    }
  }

  /** Each interpreted speed command adds to exactly one of attempted transitions and duplicates;
      every other attempt is the actor's own (the timer's, or maintenance's). */
  lemma CommandsAreCountedOnce(states: seq<System>, steps: seq<Step>, i: nat)
    requires Run(states, steps) && i < |states| && states[i].book.burstsOk && !states[i].actor.pc.Decide?
    ensures var b, f := states[i].book, states[i].actor.fan;
            && b.attempts + b.duplicates == b.handled + b.spontaneous
            && f.attempted == Wrap(b.attempts) && f.duplicates == Wrap(b.duplicates)
  {
    RunKeepsInv(states, steps, i);
  }

  lemma {:induction false} StaysDeciding(states: seq<System>, steps: seq<Step>, i: nat, j: nat)
    requires Run(states, steps) && i < j < |states| && Untouched(steps, i, j)
    ensures states[j].actor == states[i + 1].actor && states[j].hw == states[i + 1].hw
    ensures states[j].book.newCommand == states[i + 1].book.newCommand
    ensures states[j].book.burstsOk == states[i + 1].book.burstsOk
    decreases j
  {
    if j > i + 1 {
      StaysDeciding(states, steps, i, j - 1);
      assert StepAt(states, steps, j - 1);
    }
  }

  /** The actor takes this command out of the mailbox. */
  ghost predicate Takes(s: System, c: Command) {
    s.actor.pc.Receive? && s.hw.todo == [] && !s.actor.fan.fault && !s.actor.maintenance && s.shared.mailbox == Some(c)
  }

  lemma TakingMarks(s: System, env: Env, c: Command)
    requires Takes(s, c) && !c.action.CycleTimer?
    ensures var t := ActorStep(s, env);
            t.actor.pc.Decide? && t.hw == s.hw && t.book.newCommand && !t.actor.fan.fault
              && t.actor.fan.accepted == c.sequence
  {
  }

  /** One more transition attempted, and no more duplicates. */
  predicate CountsAttempt(f: Fan, g: Fan) {
    g.attempted == Wrap(f.attempted + 1) && g.duplicates == f.duplicates
  }

  predicate CountsDuplicate(f: Fan, g: Fan) {
    g.attempted == f.attempted && g.duplicates == Wrap(f.duplicates + 1)
  }

  lemma DecidingCounts(s: System, o: FanTransition.Outcome)
    requires s.actor.pc.Decide? && !s.actor.fan.fault && |s.hw.board.log| <= |o.board.log|
    requires s.actor.fan.accepted != 0 && s.actor.fan.accepted != s.actor.fan.appliedSeq
    ensures var f, g := s.actor.fan, DoDecide(s, o).actor.fan;
            if f.applied != f.desired then CountsAttempt(f, g) else CountsDuplicate(f, g)
  {
  }

  /** Each speed command the actor takes adds one, in the actor's next step, to exactly one of the
      two counters: to the attempted transitions if it asks for another speed, else to the
      duplicates. */
  lemma EachCommandIsCountedOnce(states: seq<System>, steps: seq<Step>, i: nat, j: nat, c: Command)
    requires Run(states, steps) && i < j < |steps| && Untouched(steps, i, j)
    requires steps[i].ActorRuns? && Takes(states[i], c) && !c.action.CycleTimer?
    requires steps[j].ActorRuns? && states[j].book.burstsOk
    ensures var f, g := states[j].actor.fan, states[j + 1].actor.fan;
            && f.accepted == c.sequence
            && (if f.applied != f.desired then CountsAttempt(f, g) else CountsDuplicate(f, g))
  {
    assert StepAt(states, steps, i) && StepAt(states, steps, j);
    TakingMarks(states[i], steps[i].env, c);
    StaysDeciding(states, steps, i, j);
    RunKeepsInv(states, steps, j);
    FanRefinement.RunKeepsInv(states, steps, j);
    OutcomeGrows(states[j], steps[j].env);
    DecidingCounts(states[j], steps[j].env.outcome);
    assert states[j + 1] == DoDecide(states[j], steps[j].env.outcome);
  }
}
