/** Which driver writes could switch the decoder on at all. */
module Hc238Arming {
  import opened Hc238

  /** Sets a controlled enable to its active level. */
  predicate Arms(cfg: Config, op: Op) {
    op.SetLevel? && exists i | E1 <= i <= E3 :: cfg[i].Controlled() && cfg[i].gpio == op.gpio && op.level == (i == E3)
  }

  predicate ArmsNothing(cfg: Config, log: seq<Entry>, from: nat) {
    from <= |log| && forall k | from <= k < |log| :: !Arms(cfg, log[k].op)
  }

  predicate Unarmed(b: Board, cfg: Config, from: nat) {
    b.cfg == cfg && PinsDistinct(cfg) && ArmsNothing(cfg, b.log, from)
  }

  lemma PutArmsNothing(r: Run, fails: nat -> bool, i: nat, level: bool, cfg: Config, from: nat)
    requires Unarmed(r.board, cfg, from) && i < 6 && (E1 <= i ==> level == (i != E3))
    ensures Unarmed(Put(r, fails, i, level).board, cfg, from)
  {
    if r.ok && cfg[i].Controlled() {
      assert !Arms(cfg, SetLevel(cfg[i].gpio, level));
    }
  }

  lemma ConfigureArmsNothing(r: Run, fails: nat -> bool, i: nat, level: bool, cfg: Config, from: nat)
    requires Unarmed(r.board, cfg, from) && i < 6 && (E1 <= i ==> level == (i != E3))
    ensures Unarmed(Configure(r, fails, i, level).board, cfg, from)
  {
    PutArmsNothing(r, fails, i, level, cfg, from);
  }

  /** Initialisation, complete or cut short, sets no enable to its active level ... */
  lemma InitArmsNothing(b: Board, outputs: set<int>, fails: nat -> bool)
    ensures var q := Init(b, outputs, fails).0; q.cfg == b.cfg && ArmsNothing(b.cfg, q.log, |b.log|)
  {
    if ValidConfig(outputs, b.cfg) {
      var cfg, from := b.cfg, |b.log|;
      var r0 := Run(b.(initialized := false), true);
      var r1 := Configure(r0, fails, E3, false);
      var r2 := Configure(r1, fails, E1, true);
      var r3 := Configure(r2, fails, E2, true);
      var r4 := Configure(r3, fails, A0, false);
      var r5 := Configure(r4, fails, A1, false);
      ConfigureArmsNothing(r0, fails, E3, false, cfg, from);
      ConfigureArmsNothing(r1, fails, E1, true, cfg, from);
      ConfigureArmsNothing(r2, fails, E2, true, cfg, from);
      ConfigureArmsNothing(r3, fails, A0, false, cfg, from);
      ConfigureArmsNothing(r4, fails, A1, false, cfg, from);
      ConfigureArmsNothing(r5, fails, A2, false, cfg, from);
    }
  }

  /** ... and neither does disabling. */
  lemma DisableArmsNothing(b: Board, fails: nat -> bool, cfg: Config, from: nat)
    requires Unarmed(b, cfg, from)
    ensures Unarmed(Enable(b, fails, false).0, cfg, from)
  {
    var r0 := Run(b, true);
    var r1 := Put(r0, fails, E3, false);
    var r2 := Put(r1, fails, E1, true);
    PutArmsNothing(r0, fails, E3, false, cfg, from);
    PutArmsNothing(r1, fails, E1, true, cfg, from);
    PutArmsNothing(r2, fails, E2, true, cfg, from);
  }
}
