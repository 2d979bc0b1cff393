/** components/fan_policy/fan_policy.c */
module FanPolicy {
  import opened Esp

  type Speed = n: nat | n <= 4
  const OFF: Speed := 0

  predicate TransitionRequired(applied: Speed, desired: Speed) {
    applied != desired
  }

  function NextNormalSpeed(speed: Speed): Speed {
    match speed
    case 0 => 1
    case 1 => 2
    case 2 => 3
    case _ => 0
  }

  function ToggleTurbo(speed: Speed): Speed {
    if speed == 4 then 0 else 4
  }

  predicate TickElapsed(now: Word, started: Word, duration: Word) {
    Since(now, started) >= duration
  }

  function NextSequence(current: Word): Word {
    var next := Wrap(current + 1);
    if next == 0 then 1 else next
  }

  /** The n-th number handed out by a counter that starts at 0. */
  function Nth(n: nat): Word {
    if n == 0 then 0 else NextSequence(Nth(n - 1))
  }

  lemma ModSuccessor(a: nat)
    ensures (a + 1) % (WORD - 1) == if a % (WORD - 1) == WORD - 2 then 0 else a % (WORD - 1) + 1
  {
  }

  lemma ModDistinct(a: nat, b: nat)
    requires a < b < a + (WORD - 1)
    ensures a % (WORD - 1) != b % (WORD - 1)
  {
  }

  /** The numbers run 1, 2, ..., 2^32 - 1 and start over: no command is ever numbered 0 ... */
  lemma {:induction false} NthClosedForm(n: nat)
    ensures n > 0 ==> Nth(n) == (n - 1) % (WORD - 1) + 1
  {
    if n > 1 {
      NthClosedForm(n - 1);
      ModSuccessor(n - 2);
    }
  }

  /** ... and numbers repeat only after a full turn. */
  lemma NthDistinct(m: nat, n: nat)
    requires 0 < m < n < m + (WORD - 1)
    ensures Nth(m) != Nth(n)
  {
    NthClosedForm(m);
    NthClosedForm(n);
    ModDistinct(m - 1, n - 1);
  }
}
