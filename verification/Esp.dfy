/** Machine words, free-running clocks and error codes shared by every component. */
module Esp {

  const WORD: nat := 0x1_0000_0000

  /** A `uint32_t`. */
  type Word = n: nat | n < 0x1_0000_0000

  /** Conversion of a mathematical integer to `uint32_t`. */
  function Wrap(n: int): Word {
    n % WORD
  }

  /** `(uint32_t)(now - started)` */
  function Since(now: Word, started: Word): Word {
    Wrap(now - started)
  }

  /** `~n` on a `uint32_t` */
  function Complement(n: Word): Word {
    WORD - 1 - n
  }

  datatype EspErr =
    | OK
    | FAIL
    | INVALID_ARG
    | INVALID_STATE
    | INVALID_SIZE
    | NOT_ALLOWED
    | NOT_FOUND
    | TIMEOUT
    | VALIDATE_FAILED
    | ROLLBACK_INVALID_STATE

  datatype Option<T> = None | Some(value: T)

  /** What a wrapped difference says about unbounded time: it never overstates how much time
      has passed, and it is exact while less than one wrap has gone by. */
  lemma SinceIsTrueTime(now: nat, started: nat)
    requires started <= now
    ensures Since(Wrap(now), Wrap(started)) == (now - started) % WORD
    ensures Since(Wrap(now), Wrap(started)) <= now - started
    ensures now - started < WORD ==> Since(Wrap(now), Wrap(started)) == now - started
  {
    var a, b := now / WORD, started / WORD;
    assert now - started == (a - b) * WORD + (Wrap(now) - Wrap(started));
  }
}
