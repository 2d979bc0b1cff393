/** The 74HC238 decoder and what its driver (components/hc238/hc238.c) does to it: the pads, the
    decoder's reaction to them and the driver's writes as values. Any GPIO write may fail, and a
    failed write leaves its pad as it was: `fails(n)` says whether the n-th write of the boot
    fails. Module `Hc238Driver` holds the driver itself. */
module Hc238 {
  import opened Esp

  /** Decoder inputs, in the order of the validator's arrays. */
  const A0: nat := 0
  const A1: nat := 1
  const A2: nat := 2
  const E1: nat := 3
  const E2: nat := 4
  const E3: nat := 5

  /** `fixed` is -1 when `gpio` drives the input, else the hard-wired level. */
  datatype Line = Line(gpio: int, fixed: int) {
    predicate Controlled() {
      fixed < 0
    }
  }

  type Config = c: seq<Line> | |c| == 6
    witness [Line(0, 0), Line(0, 0), Line(0, 0), Line(0, 0), Line(0, 0), Line(0, 0)]

  /** Output latch and direction of one GPIO. */
  datatype Pad = Pad(level: bool, driven: bool)

  /** The decoder output that is high, if any. */
  datatype Output = Off | Y(index: nat)

  /** An input that no pad drives is pulled low. */
  function Level(cfg: Config, pads: seq<Pad>, i: nat): bool
    requires i < 6
  {
    if !cfg[i].Controlled() then cfg[i].fixed == 1
    else 0 <= cfg[i].gpio < |pads| && pads[cfg[i].gpio].driven && pads[cfg[i].gpio].level
  }

  /** E1 and E2 are active low, E3 is active high. */
  predicate Active(cfg: Config, pads: seq<Pad>, i: nat)
    requires E1 <= i <= E3
  {
    Level(cfg, pads, i) == (i == E3)
  }

  function Weight(high: bool, w: nat): nat {
    if high then w else 0
  }

  function Decode(cfg: Config, pads: seq<Pad>): Output {
    if Active(cfg, pads, E1) && Active(cfg, pads, E2) && Active(cfg, pads, E3) then
      Y(Weight(Level(cfg, pads, A0), 1) + Weight(Level(cfg, pads, A1), 2) + Weight(Level(cfg, pads, A2), 4))
    else
      Off
  }

  // --- Configurations ---------------------------------------------------------------

  predicate PinValid(outputs: set<int>, line: Line) {
    -1 <= line.fixed <= 1 && (line.Controlled() ==> line.gpio in outputs)
  }

  predicate PinsDistinct(cfg: Config) {
    forall i, j | 0 <= i < j < 6 :: cfg[i].Controlled() && cfg[j].Controlled() ==> cfg[i].gpio != cfg[j].gpio
  }

  /** What the validator promises of an accepted configuration. */
  predicate ValidConfig(outputs: set<int>, cfg: Config) {
    && (forall i | 0 <= i < 6 :: PinValid(outputs, cfg[i]))
    && PinsDistinct(cfg)
    && (forall i | E1 <= i <= E3 :: cfg[i].Controlled() || cfg[i].fixed == (if i == E3 then 1 else 0))
    && (exists i | E1 <= i <= E3 :: cfg[i].Controlled())
  }

  /** The pads on which every controlled enable is driven to (in)activity. */
  function Steered(cfg: Config, size: nat, on: bool): (pads: seq<Pad>)
    ensures |pads| == size
  {
    seq(size, g => Pad((exists i | E1 <= i <= E3 :: cfg[i].Controlled() && cfg[i].gpio == g && on == (i == E3)), true))
  }

  /** Each input is wired to a level, or to an output pin. */
  predicate WellFormed(outputs: set<int>, cfg: Config) {
    forall i | 0 <= i < 6 ::
      cfg[i].fixed == 0 || cfg[i].fixed == 1 || (cfg[i].fixed == -1 && cfg[i].gpio in outputs)
  }

  /** The validator accepts exactly the wirings with well-formed and distinct pins that software can
      both switch on and switch off. */
  lemma AcceptedMeansControllable(outputs: set<int>, cfg: Config, size: nat)
    requires forall g | g in outputs :: 0 <= g < size
    ensures ValidConfig(outputs, cfg) <==>
            && WellFormed(outputs, cfg) && PinsDistinct(cfg)
            && (exists pads: seq<Pad> :: |pads| == size && Decode(cfg, pads) != Off)
            && (exists pads: seq<Pad> :: |pads| == size && Decode(cfg, pads) == Off)
  {
    var on, off := Steered(cfg, size, true), Steered(cfg, size, false);
    if ValidConfig(outputs, cfg) {
      forall i | E1 <= i <= E3 ensures Active(cfg, on, i) && (cfg[i].Controlled() ==> !Active(cfg, off, i)) {
        assert cfg[i].Controlled() ==> PinValid(outputs, cfg[i]);
        if cfg[i].Controlled() {
          assert forall j | E1 <= j <= E3 && cfg[j].Controlled() && cfg[j].gpio == cfg[i].gpio :: j == i;
          assert on[cfg[i].gpio] == Pad(i == E3, true) && off[cfg[i].gpio] == Pad(i != E3, true);
        }
      }
      assert Decode(cfg, on) != Off && Decode(cfg, off) == Off;
    }
    if pads: seq<Pad>, quiet: seq<Pad> :| Decode(cfg, pads) != Off && Decode(cfg, quiet) == Off {
      assert Active(cfg, pads, E1) && Active(cfg, pads, E2) && Active(cfg, pads, E3);
      assert exists i | E1 <= i <= E3 :: !Active(cfg, quiet, i);
      assert forall i | E1 <= i <= E3 :: !cfg[i].Controlled() ==> Level(cfg, pads, i) == Level(cfg, quiet, i);
    }
  }

  // --- Writes -------------------------------------------------------------------------

  datatype Op = SetLevel(gpio: int, level: bool) | Drive(gpio: int)

  /** One attempted write, the decoder output around it, and whether it succeeded. */
  datatype Entry = Entry(op: Op, before: Output, after: Output, ok: bool)

  datatype Board = Board(cfg: Config, pads: seq<Pad>, initialized: bool, log: seq<Entry>) {
    function Out(): Output {
      Decode(cfg, pads)
    }
  }

  /** A board in the middle of a call; once `ok` is false the call does no more writes. */
  datatype Run = Run(board: Board, ok: bool)

  function Effect(pads: seq<Pad>, op: Op): (r: seq<Pad>)
    ensures |r| == |pads|
  {
    if !(0 <= op.gpio < |pads|) then pads
    else match op
      case SetLevel(g, level) => pads[g := pads[g].(level := level)]
      case Drive(g) => pads[g := pads[g].(driven := true)]
  }

  function Perform(b: Board, fails: nat -> bool, op: Op): (q: Run)
    ensures |q.board.pads| == |b.pads|
  {
    var pads := if fails(|b.log|) then b.pads else Effect(b.pads, op);
    var ok := !fails(|b.log|);
    Run(b.(pads := pads, log := b.log + [Entry(op, b.Out(), Decode(b.cfg, pads), ok)]), ok)
  }

  /** Sets the level of input `i` unless the input is hard-wired or the call already failed. */
  function Put(r: Run, fails: nat -> bool, i: nat, level: bool): (q: Run)
    requires i < 6
    ensures |q.board.pads| == |r.board.pads|
  {
    var line := r.board.cfg[i];
    if r.ok && line.Controlled() then Perform(r.board, fails, SetLevel(line.gpio, level)) else r
  }

  /** Preloads the latch of input `i`, then turns its pad into an output. */
  function Configure(r: Run, fails: nat -> bool, i: nat, level: bool): Run
    requires i < 6
  {
    var p := Put(r, fails, i, level);
    var line := p.board.cfg[i];
    if p.ok && line.Controlled() then Perform(p.board, fails, Drive(line.gpio)) else p
  }

  /** E3 is the final gate: first to go when disabling, last when enabling. */
  function SetEnables(r: Run, fails: nat -> bool, enabled: bool): (q: Run)
    ensures |q.board.pads| == |r.board.pads|
  {
    if enabled then
      Put(Put(Put(r, fails, E1, false), fails, E2, false), fails, E3, true)
    else
      Put(Put(Put(r, fails, E3, false), fails, E1, true), fails, E2, true)
  }

  function Bit(index: nat, i: nat): bool {
    (if i == 0 then index else if i == 1 then index / 2 else index / 4) % 2 == 1
  }

  function PutAddress(r: Run, fails: nat -> bool, index: nat): (q: Run)
    ensures |q.board.pads| == |r.board.pads|
  {
    Put(Put(Put(r, fails, A0, Bit(index, 0)), fails, A1, Bit(index, 1)), fails, A2, Bit(index, 2))
  }

  function ConfigureEnables(r: Run, fails: nat -> bool): Run {
    Configure(Configure(Configure(r, fails, E3, false), fails, E1, true), fails, E2, true)
  }

  function ConfigureAddress(r: Run, fails: nat -> bool): Run {
    Configure(Configure(Configure(r, fails, A0, false), fails, A1, false), fails, A2, false)
  }

  function Code(r: Run): EspErr {
    if r.ok then OK else FAIL
  }

  function Init(b: Board, outputs: set<int>, fails: nat -> bool): (Board, EspErr) {
    var b := b.(initialized := false);
    if !ValidConfig(outputs, b.cfg) then (b, INVALID_ARG)
    else
      var r := ConfigureAddress(ConfigureEnables(Run(b, true), fails), fails);
      (r.board.(initialized := r.ok), Code(r))
  }

  function Enable(b: Board, fails: nat -> bool, enabled: bool): (Board, EspErr) {
    if !b.initialized then (b, INVALID_STATE)
    else
      var r := SetEnables(Run(b, true), fails, enabled);
      (r.board, Code(r))
  }

  /** No address input is hard-wired against the requested output. */
  predicate Reachable(cfg: Config, index: nat) {
    forall i | A0 <= i <= A2 :: cfg[i].Controlled() || cfg[i].fixed == (if Bit(index, i) then 1 else 0)
  }

  function SetAddress(b: Board, fails: nat -> bool, index: nat): (Board, EspErr) {
    if !b.initialized then (b, INVALID_STATE)
    else if index > 7 then (b, INVALID_ARG)
    else if !Reachable(b.cfg, index) then (b, INVALID_STATE)
    else
      var r := PutAddress(Run(b, true), fails, index);
      (r.board, Code(r))
  }

  // --- What the writes do to the decoder output -------------------------------------------

  /** Controlled inputs have pads of their own, and hard-wired enables are active. */
  predicate Wired(b: Board) {
    && PinsDistinct(b.cfg)
    && (forall i | 0 <= i < 6 :: b.cfg[i].Controlled() ==> 0 <= b.cfg[i].gpio < |b.pads|)
    && (exists i | E1 <= i <= E3 :: b.cfg[i].Controlled())
    && (forall i | E1 <= i <= E3 :: b.cfg[i].Controlled() || b.cfg[i].fixed == (if i == E3 then 1 else 0))
  }

  /** Input `i` is latched at its inactive level (low, for an address input). */
  predicate Idle(b: Board, i: nat)
    requires i < 6
  {
    b.cfg[i].Controlled() ==> 0 <= b.cfg[i].gpio < |b.pads| && b.pads[b.cfg[i].gpio].level == (i == E1 || i == E2)
  }

  predicate DrivenLine(b: Board, i: nat)
    requires i < 6
  {
    b.cfg[i].Controlled() ==> 0 <= b.cfg[i].gpio < |b.pads| && b.pads[b.cfg[i].gpio].driven
  }

  predicate Driven(b: Board) {
    forall i | 0 <= i < 6 :: DrivenLine(b, i)
  }

  predicate Disarmed(b: Board) {
    Idle(b, E1) && Idle(b, E2) && Idle(b, E3)
  }

  /** Some enable is off at its pad, whatever else happens. */
  lemma InactiveIsOff(b: Board, i: nat)
    requires Wired(b) && E1 <= i <= E3 && b.cfg[i].Controlled() && Idle(b, i) && DrivenLine(b, i)
    ensures b.Out() == Off
  {
  }

  lemma DisarmedIsOff(b: Board)
    requires Wired(b) && Driven(b) && Disarmed(b)
    ensures b.Out() == Off
  {
    var i :| E1 <= i <= E3 && b.cfg[i].Controlled();
    InactiveIsOff(b, i);
  }

  predicate IsAddressPin(cfg: Config, gpio: int) {
    exists i | A0 <= i <= A2 :: cfg[i].Controlled() && cfg[i].gpio == gpio
  }

  function Last(first: Output, log: seq<Entry>, from: nat): Output
    requires from <= |log|
  {
    if |log| == from then first else log[|log| - 1].after
  }

  /** From entry `from` on, the output is `first` for a while and then off for good, and address
      pins are written only once it is off. */
  predicate Settles(cfg: Config, first: Output, log: seq<Entry>, from: nat)
    requires from <= |log|
    decreases |log|
  {
    if |log| == from then true
    else
      var n := |log| - 1;
      && Settles(cfg, first, log[..n], from)
      && log[n].before == Last(first, log[..n], from)
      && (log[n].after == Off || log[n].after == log[n].before)
      && (IsAddressPin(cfg, log[n].op.gpio) ==> log[n].before == Off)
  }

  predicate Calm(b: Board, first: Output, from: nat) {
    && Wired(b) && from <= |b.log|
    && Settles(b.cfg, first, b.log, from)
    && b.Out() == Last(first, b.log, from)
  }

  /** The frame of one write: it changes at most its own pad, and nothing if it fails. */
  lemma WriteIsLocal(b: Board, fails: nat -> bool, i: nat, op: Op)
    requires Wired(b) && i < 6 && b.cfg[i].Controlled() && op.gpio == b.cfg[i].gpio
    ensures var q := Perform(b, fails, op).board;
            && Wired(q) && q.cfg == b.cfg && |q.pads| == |b.pads| && q.initialized == b.initialized
            && |q.log| == |b.log| + 1 && q.log[..|b.log|] == b.log
            && q.log[|b.log|] == Entry(op, b.Out(), q.Out(), !fails(|b.log|))
            && (forall j | 0 <= j < 6 && j != i ::
                  && Level(b.cfg, q.pads, j) == Level(b.cfg, b.pads, j)
                  && (Idle(b, j) ==> Idle(q, j)) && (DrivenLine(b, j) ==> DrivenLine(q, j)))
            && (DrivenLine(b, i) ==> DrivenLine(q, i))
  {
    var q := Perform(b, fails, op).board;
    assert q.log[..|b.log|] == b.log;
    forall j | 0 <= j < 6 && j != i
      ensures b.cfg[j].Controlled() ==> b.cfg[j].gpio != b.cfg[i].gpio
    {
    }
  }

  /** Moving an enable towards inactivity can only switch the decoder off. */
  lemma EnableWriteIsCalm(b: Board, fails: nat -> bool, i: nat, op: Op, first: Output, from: nat)
    requires Calm(b, first, from) && E1 <= i <= E3 && b.cfg[i].Controlled()
    requires op == SetLevel(b.cfg[i].gpio, i != E3) || (op == Drive(b.cfg[i].gpio) && Idle(b, i))
    ensures var q := Perform(b, fails, op);
            && Calm(q.board, first, from)
            && (q.ok || op.Drive? ==> Idle(q.board, i))
            && (q.ok && op.Drive? ==> DrivenLine(q.board, i))
  {
    WriteIsLocal(b, fails, i, op);
    var q := Perform(b, fails, op).board;
    assert !IsAddressPin(b.cfg, op.gpio);
    assert q.Out() == Off || q.Out() == b.Out();
  }

  /** Address writes keep an off decoder off. */
  lemma AddressWriteIsCalm(b: Board, fails: nat -> bool, i: nat, op: Op, first: Output, from: nat)
    requires Calm(b, first, from) && A0 <= i <= A2 && b.cfg[i].Controlled() && op.gpio == b.cfg[i].gpio
    requires b.Out() == Off
    ensures var q := Perform(b, fails, op);
            && Calm(q.board, first, from) && q.board.Out() == Off
            && (q.ok && op.Drive? ==> DrivenLine(q.board, i))
  {
    WriteIsLocal(b, fails, i, op);
  }

  // --- Disabling ----------------------------------------------------------------------------

  lemma PutInactive(r: Run, fails: nat -> bool, i: nat, first: Output, from: nat)
    requires Calm(r.board, first, from) && E1 <= i <= E3
    ensures var q := Put(r, fails, i, i != E3);
            && Calm(q.board, first, from)
            && q.board.cfg == r.board.cfg && q.board.initialized == r.board.initialized
            && (q.ok ==> r.ok && Idle(q.board, i))
            && (forall j | 0 <= j < 6 && j != i && Idle(r.board, j) :: Idle(q.board, j))
            && (Driven(r.board) ==> Driven(q.board))
  {
    if r.ok && r.board.cfg[i].Controlled() {
      var op := SetLevel(r.board.cfg[i].gpio, i != E3);
      WriteIsLocal(r.board, fails, i, op);
      EnableWriteIsCalm(r.board, fails, i, op, first, from);
    }
  }

  /** Disabling, complete or cut short by a failed write, only ever switches the decoder off. */
  lemma DisableIsCalm(b: Board, fails: nat -> bool, first: Output, from: nat)
    requires Calm(b, first, from)
    ensures var q := SetEnables(Run(b, true), fails, false);
            && Calm(q.board, first, from) && (q.ok ==> Disarmed(q.board)) && (Driven(b) ==> Driven(q.board))
            && q.board.cfg == b.cfg && q.board.initialized == b.initialized
  {
    var r1 := Put(Run(b, true), fails, E3, false);
    var r2 := Put(r1, fails, E1, true);
    PutInactive(Run(b, true), fails, E3, first, from);
    PutInactive(r1, fails, E1, first, from);
    PutInactive(r2, fails, E2, first, from);
  }

  // --- Changing the address -------------------------------------------------------------------

  lemma PutAddressLine(r: Run, fails: nat -> bool, i: nat, level: bool, first: Output, from: nat)
    requires Calm(r.board, first, from) && A0 <= i <= A2 && r.board.Out() == Off
    ensures var q := Put(r, fails, i, level);
            && Calm(q.board, first, from) && q.board.Out() == Off
            && q.board.cfg == r.board.cfg && q.board.initialized == r.board.initialized
            && (q.ok ==> r.ok)
            && (Disarmed(r.board) ==> Disarmed(q.board)) && (Driven(r.board) ==> Driven(q.board))
            && (q.ok && r.board.cfg[i].Controlled() && Driven(r.board) ==> Level(q.board.cfg, q.board.pads, i) == level)
            && (forall j | 0 <= j < 6 && j != i ::
                  Level(q.board.cfg, q.board.pads, j) == Level(r.board.cfg, r.board.pads, j))
  {
    if r.ok && r.board.cfg[i].Controlled() {
      var op := SetLevel(r.board.cfg[i].gpio, level);
      WriteIsLocal(r.board, fails, i, op);
      AddressWriteIsCalm(r.board, fails, i, op, first, from);
      assert Driven(r.board) ==> DrivenLine(r.board, i);
    }
  }

  /** The address inputs up to `last` carry the bits of `index`. */
  predicate AddressBits(b: Board, index: nat, last: nat) {
    forall i | A0 <= i <= A2 && i <= last :: Level(b.cfg, b.pads, i) == Bit(index, i)
  }

  function Address(b: Board): nat {
    Weight(Level(b.cfg, b.pads, A0), 1) + Weight(Level(b.cfg, b.pads, A1), 2) + Weight(Level(b.cfg, b.pads, A2), 4)
  }

  lemma BitsAreTheAddress(b: Board, index: nat)
    requires index <= 7 && AddressBits(b, index, A2)
    ensures Address(b) == index
  {
    assert Level(b.cfg, b.pads, A0) == Bit(index, A0);
    assert Level(b.cfg, b.pads, A1) == Bit(index, A1);
    assert Level(b.cfg, b.pads, A2) == Bit(index, A2);
  }

  lemma PutAddressIsCalm(b: Board, fails: nat -> bool, index: nat, first: Output, from: nat)
    requires Calm(b, first, from) && b.Out() == Off && Driven(b) && Disarmed(b) && Reachable(b.cfg, index)
    ensures var q := PutAddress(Run(b, true), fails, index);
            && Calm(q.board, first, from) && q.board.Out() == Off
            && q.board.cfg == b.cfg && q.board.initialized == b.initialized
            && Driven(q.board) && Disarmed(q.board) && (q.ok ==> AddressBits(q.board, index, A2))
  {
    var r1 := Put(Run(b, true), fails, A0, Bit(index, 0));
    var r2 := Put(r1, fails, A1, Bit(index, 1));
    PutAddressLine(Run(b, true), fails, A0, Bit(index, 0), first, from);
    assert r1.ok ==> AddressBits(r1.board, index, A0);
    PutAddressLine(r1, fails, A1, Bit(index, 1), first, from);
    assert r2.ok ==> AddressBits(r2.board, index, A1);
    PutAddressLine(r2, fails, A2, Bit(index, 2), first, from);
  }

  // --- Enabling -----------------------------------------------------------------------------

  /** Settled down to off and then switched on by one last write, not to an address pin. */
  predicate Makes(cfg: Config, first: Output, next: Output, log: seq<Entry>, from: nat)
    requires from <= |log|
  {
    var n := |log| - 1;
    && from < |log|
    && Settles(cfg, first, log[..n], from) && Last(first, log[..n], from) == Off
    && log[n].before == Off && log[n].after == next && !IsAddressPin(cfg, log[n].op.gpio)
  }

  /** The writes that arm the enables from `i` on. */
  function ArmFrom(r: Run, fails: nat -> bool, i: nat): Run
    requires E1 <= i <= E3 + 1
    decreases E3 + 1 - i
  {
    if i > E3 then r else ArmFrom(Put(r, fails, i, i == E3), fails, i + 1)
  }

  lemma {:induction false} NothingLeftToArm(r: Run, fails: nat -> bool, i: nat)
    requires E1 <= i <= E3 + 1
    requires !r.ok || forall j | i <= j <= E3 :: !r.board.cfg[j].Controlled()
    ensures ArmFrom(r, fails, i) == r
    decreases E3 + 1 - i
  {
    if i <= E3 {
      NothingLeftToArm(r, fails, i + 1);
    }
  }

  /** Enables below `i` are armed, the others that software controls are not. */
  predicate ArmedBelow(b: Board, i: nat) {
    && Driven(b)
    && (forall j | E1 <= j <= E3 && j < i :: Active(b.cfg, b.pads, j))
    && (forall j | E1 <= j <= E3 && i <= j :: Idle(b, j))
  }

  lemma ArmOne(b: Board, fails: nat -> bool, i: nat)
    requires Wired(b) && ArmedBelow(b, i) && E1 <= i <= E3 && b.cfg[i].Controlled()
    ensures var q := Perform(b, fails, SetLevel(b.cfg[i].gpio, i == E3));
            && Driven(q.board) && Address(q.board) == Address(b)
            && (if q.ok then ArmedBelow(q.board, i + 1) else q.board.Out() == Off)
  {
    var q := Perform(b, fails, SetLevel(b.cfg[i].gpio, i == E3));
    WriteIsLocal(b, fails, i, SetLevel(b.cfg[i].gpio, i == E3));
    assert DrivenLine(b, i) && Idle(b, i);
    if q.ok {
      forall j | E1 <= j <= i ensures Active(q.board.cfg, q.board.pads, j) {
        assert j < i ==> Active(b.cfg, b.pads, j);
      }
    } else {
      InactiveIsOff(q.board, i);
    }
  }

  predicate MoreToArm(cfg: Config, i: nat) {
    exists j | i < j <= E3 :: E1 <= j && cfg[j].Controlled()
  }

  /** One arming write leaves the decoder off unless it is the last and succeeds. */
  lemma ArmStep(b: Board, fails: nat -> bool, i: nat, first: Output, from: nat)
    requires Calm(b, first, from) && b.Out() == Off && E1 <= i <= E3 && ArmedBelow(b, i) && b.cfg[i].Controlled()
    ensures var q := Perform(b, fails, SetLevel(b.cfg[i].gpio, i == E3));
            && Wired(q.board) && Driven(q.board) && Address(q.board) == Address(b)
            && (q.ok ==> ArmedBelow(q.board, i + 1))
            && (!q.ok || MoreToArm(b.cfg, i) ==> Calm(q.board, first, from) && q.board.Out() == Off)
            && (q.ok && !MoreToArm(b.cfg, i) ==> Makes(b.cfg, first, q.board.Out(), q.board.log, from))
  {
    var op := SetLevel(b.cfg[i].gpio, i == E3);
    var q := Perform(b, fails, op);
    WriteIsLocal(b, fails, i, op);
    ArmOne(b, fails, i);
    assert !IsAddressPin(b.cfg, op.gpio);
    if q.ok && MoreToArm(b.cfg, i) {
      var j :| i < j <= E3 && E1 <= j && b.cfg[j].Controlled();
      assert DrivenLine(q.board, j);
      InactiveIsOff(q.board, j);
    }
  }

  lemma AllArmedIsOn(b: Board)
    requires Wired(b) && forall j | E1 <= j <= E3 :: b.cfg[j].Controlled() ==> Active(b.cfg, b.pads, j)
    ensures b.Out() == Y(Address(b))
  {
    assert Active(b.cfg, b.pads, E1) && Active(b.cfg, b.pads, E2) && Active(b.cfg, b.pads, E3);
  }

  /** The end of an enabling: on after one last write, or still off. */
  predicate Enabled(q: Run, address: nat, first: Output, from: nat) {
    && Wired(q.board) && Driven(q.board) && |q.board.log| >= from
    && if q.ok then Makes(q.board.cfg, first, Y(address), q.board.log, from) && q.board.Out() == Y(address)
       else Calm(q.board, first, from) && q.board.Out() == Off
  }

  lemma ArmingEnds(b: Board, fails: nat -> bool, i: nat, first: Output, from: nat)
    requires Calm(b, first, from) && b.Out() == Off && E1 <= i <= E3 && ArmedBelow(b, i) && b.cfg[i].Controlled()
    requires !(Perform(b, fails, SetLevel(b.cfg[i].gpio, i == E3)).ok && MoreToArm(b.cfg, i))
    ensures var q := ArmFrom(Run(b, true), fails, i);
            Enabled(q, Address(b), first, from) && q.board.cfg == b.cfg && q.board.initialized == b.initialized
  {
    var q := Perform(b, fails, SetLevel(b.cfg[i].gpio, i == E3));
    ArmStep(b, fails, i, first, from);
    NothingLeftToArm(q, fails, i + 1);
    if q.ok {
      AllArmedIsOn(q.board);
    }
  }

  lemma {:induction false} ArmingMakes(b: Board, fails: nat -> bool, i: nat, first: Output, from: nat)
    requires Calm(b, first, from) && b.Out() == Off && E1 <= i <= E3 && ArmedBelow(b, i)
    requires exists j | i <= j <= E3 :: b.cfg[j].Controlled()
    ensures var q := ArmFrom(Run(b, true), fails, i);
            Enabled(q, Address(b), first, from) && q.board.cfg == b.cfg && q.board.initialized == b.initialized
    decreases E3 - i
  {
    if b.cfg[i].Controlled() {
      var q := Perform(b, fails, SetLevel(b.cfg[i].gpio, i == E3));
      ArmStep(b, fails, i, first, from);
      if q.ok && MoreToArm(b.cfg, i) {
        ArmingMakes(q.board, fails, i + 1, first, from);
      } else {
        ArmingEnds(b, fails, i, first, from);
      }
    } else {
      ArmingMakes(b, fails, i + 1, first, from);
    }
  }

  /** The decoder comes on with the last write of a successful enabling and with no other. */
  lemma EnableMakes(b: Board, fails: nat -> bool, first: Output, from: nat)
    requires Calm(b, first, from) && Driven(b) && Disarmed(b)
    ensures var q := SetEnables(Run(b, true), fails, true);
            Enabled(q, Address(b), first, from) && q.board.cfg == b.cfg && q.board.initialized == b.initialized
  {
    var r := Run(b, true);
    var r1 := Put(r, fails, E1, false);
    var r2 := Put(r1, fails, E2, false);
    assert ArmFrom(r, fails, E1) == ArmFrom(r1, fails, E2) == ArmFrom(r2, fails, E3);
    assert ArmFrom(r2, fails, E3) == Put(r2, fails, E3, true);
    DisarmedIsOff(b);
    ArmingMakes(b, fails, E1, first, from);
  }

  // --- Initialisation ---------------------------------------------------------------------

  /** Enable `i` is a driven output latched at its inactive level, unless hard-wired. */
  predicate Parked(b: Board, i: nat)
    requires i < 6
  {
    Idle(b, i) && DrivenLine(b, i)
  }

  lemma ParkedIsOff(b: Board)
    requires Wired(b) && Parked(b, E1) && Parked(b, E2) && Parked(b, E3)
    ensures b.Out() == Off
  {
    var i :| E1 <= i <= E3 && b.cfg[i].Controlled();
    assert Parked(b, i);
    InactiveIsOff(b, i);
  }

  lemma ConfigureEnable(r: Run, fails: nat -> bool, i: nat, first: Output, from: nat)
    requires Calm(r.board, first, from) && E1 <= i <= E3
    ensures var q := Configure(r, fails, i, i != E3);
            && Calm(q.board, first, from)
            && q.board.cfg == r.board.cfg && |q.board.pads| == |r.board.pads|
              && q.board.initialized == r.board.initialized
            && (q.ok ==> r.ok && Parked(q.board, i))
            && (forall j | E1 <= j <= E3 && j != i && Parked(r.board, j) :: Parked(q.board, j))
  {
    if r.ok && r.board.cfg[i].Controlled() {
      var gpio := r.board.cfg[i].gpio;
      var p := Perform(r.board, fails, SetLevel(gpio, i != E3));
      WriteIsLocal(r.board, fails, i, SetLevel(gpio, i != E3));
      EnableWriteIsCalm(r.board, fails, i, SetLevel(gpio, i != E3), first, from);
      if p.ok {
        WriteIsLocal(p.board, fails, i, Drive(gpio));
        EnableWriteIsCalm(p.board, fails, i, Drive(gpio), first, from);
      }
    }
  }

  predicate EnablesParked(b: Board) {
    Parked(b, E1) && Parked(b, E2) && Parked(b, E3)
  }

  lemma ConfigureAddressLine(r: Run, fails: nat -> bool, i: nat, first: Output, from: nat)
    requires Calm(r.board, first, from) && A0 <= i <= A2 && (r.ok ==> EnablesParked(r.board))
    ensures var q := Configure(r, fails, i, false);
            && Calm(q.board, first, from)
            && q.board.cfg == r.board.cfg && |q.board.pads| == |r.board.pads|
              && q.board.initialized == r.board.initialized
            && (q.ok ==> r.ok && EnablesParked(q.board) && DrivenLine(q.board, i))
            && (forall j | 0 <= j < 6 && DrivenLine(r.board, j) :: DrivenLine(q.board, j))
  {
    if r.ok && r.board.cfg[i].Controlled() {
      ParkedIsOff(r.board);
      var gpio := r.board.cfg[i].gpio;
      var p := Perform(r.board, fails, SetLevel(gpio, false));
      WriteIsLocal(r.board, fails, i, SetLevel(gpio, false));
      AddressWriteIsCalm(r.board, fails, i, SetLevel(gpio, false), first, from);
      if p.ok {
        WriteIsLocal(p.board, fails, i, Drive(gpio));
        AddressWriteIsCalm(p.board, fails, i, Drive(gpio), first, from);
      }
    }
  }

  /** The board as any later call may rely on it. */
  predicate Ready(b: Board) {
    b.initialized ==> Wired(b) && Driven(b)
  }

  lemma ConfigureEnablesIsCalm(b: Board, fails: nat -> bool, first: Output, from: nat)
    requires Calm(b, first, from)
    ensures var q := ConfigureEnables(Run(b, true), fails);
            && Calm(q.board, first, from) && q.board.cfg == b.cfg && |q.board.pads| == |b.pads|
            && (q.ok ==> EnablesParked(q.board))
  {
    var r1 := Configure(Run(b, true), fails, E3, false);
    var r2 := Configure(r1, fails, E1, true);
    ConfigureEnable(Run(b, true), fails, E3, first, from);
    ConfigureEnable(r1, fails, E1, first, from);
    ConfigureEnable(r2, fails, E2, first, from);
  }

  lemma ConfigureAddressIsCalm(r: Run, fails: nat -> bool, first: Output, from: nat)
    requires Calm(r.board, first, from) && (r.ok ==> EnablesParked(r.board))
    ensures var q := ConfigureAddress(r, fails);
            && Calm(q.board, first, from) && q.board.cfg == r.board.cfg && |q.board.pads| == |r.board.pads|
            && (q.ok ==> EnablesParked(q.board) && Driven(q.board))
  {
    var a1 := Configure(r, fails, A0, false);
    var a2 := Configure(a1, fails, A1, false);
    ConfigureAddressLine(r, fails, A0, first, from);
    ConfigureAddressLine(a1, fails, A1, first, from);
    ConfigureAddressLine(a2, fails, A2, first, from);
  }

  lemma ConfigureIsCalm(b: Board, fails: nat -> bool, first: Output, from: nat)
    requires Calm(b, first, from)
    ensures var q := ConfigureAddress(ConfigureEnables(Run(b, true), fails), fails);
            && Calm(q.board, first, from) && q.board.cfg == b.cfg && |q.board.pads| == |b.pads|
            && (q.ok ==> EnablesParked(q.board) && Driven(q.board))
  {
    ConfigureEnablesIsCalm(b, fails, first, from);
    ConfigureAddressIsCalm(ConfigureEnables(Run(b, true), fails), fails, first, from);
  }

  lemma OpenDriver(b: Board, ok: bool, first: Output, from: nat)
    requires Calm(b, first, from) && (ok ==> EnablesParked(b) && Driven(b))
    ensures var q := b.(initialized := ok);
            && Settles(b.cfg, first, q.log, from) && q.Out() == Last(first, q.log, from)
            && Ready(q) && (ok ==> Disarmed(q) && q.Out() == Off)
  {
    var q := b.(initialized := ok);
    assert Wired(q);
    if ok {
      ParkedIsOff(q);
      forall i | 0 <= i < 6 ensures DrivenLine(q, i) {
        assert DrivenLine(b, i);
      }
    }
  }

  lemma ValidIsWired(b: Board, outputs: set<int>)
    requires ValidConfig(outputs, b.cfg) && forall g | g in outputs :: 0 <= g < |b.pads|
    ensures Wired(b)
  {
    assert forall i | 0 <= i < 6 :: PinValid(outputs, b.cfg[i]);
  }

  /** From whatever state the pads are in, initialisation only ever switches the decoder off,
      and it leaves address pins alone until it is; a failed attempt leaves the driver closed. */
  lemma InitOnlySwitchesOff(b: Board, outputs: set<int>, fails: nat -> bool)
    requires forall g | g in outputs :: 0 <= g < |b.pads|
    ensures var (q, err) := Init(b, outputs, fails);
            && |b.log| <= |q.log| && Settles(b.cfg, b.Out(), q.log, |b.log|) && q.Out() == Last(b.Out(), q.log, |b.log|)
            && Ready(q) && q.cfg == b.cfg && |q.pads| == |b.pads|
            && (err == OK <==> q.initialized)
            && (err == OK ==> ValidConfig(outputs, q.cfg) && Disarmed(q) && q.Out() == Off)
            && (!ValidConfig(outputs, b.cfg) ==> q == b.(initialized := false) && err == INVALID_ARG)
  {
    if ValidConfig(outputs, b.cfg) {
      var c := b.(initialized := false);
      ValidIsWired(c, outputs);
      var r := ConfigureAddress(ConfigureEnables(Run(c, true), fails), fails);
      ConfigureIsCalm(c, fails, b.Out(), |b.log|);
      OpenDriver(r.board, r.ok, b.Out(), |b.log|);
    }
  }

  // --- What a failing write means to its call ---------------------------------------------------

  /** Some write from entry `from` on has failed. */
  predicate FailedOnce(log: seq<Entry>, from: nat) {
    exists j | from <= j < |log| :: !log[j].ok
  }

  predicate FailedTwice(log: seq<Entry>, from: nat) {
    exists j, k | from <= j < k < |log| :: !log[j].ok && !log[k].ok
  }

  /** A call that has written since `from`: it stops at the first write that fails. */
  predicate StopsAtFailure(r: Run, from: nat) {
    && from <= |r.board.log|
    && (forall k | from <= k < |r.board.log| - 1 :: r.board.log[k].ok)
    && (if r.ok then forall k | from <= k < |r.board.log| :: r.board.log[k].ok
        else from < |r.board.log| && !r.board.log[|r.board.log| - 1].ok)
  }

  lemma PutStops(r: Run, fails: nat -> bool, i: nat, level: bool, from: nat)
    requires StopsAtFailure(r, from) && i < 6
    ensures var q := Put(r, fails, i, level);
            && StopsAtFailure(q, from) && q.board.log[..|r.board.log|] == r.board.log
            && q.board.cfg == r.board.cfg && q.board.initialized == r.board.initialized
  {
  }

  lemma EnableStops(b: Board, fails: nat -> bool, enabled: bool)
    requires b.initialized
    ensures var (q, err) := Enable(b, fails, enabled);
            && StopsAtFailure(Run(q, err == OK), |b.log|) && q.log[..|b.log|] == b.log
            && q.initialized && q.cfg == b.cfg
  {
    var r0 := Run(b, true);
    var first := if enabled then E1 else E3;
    var second := if enabled then E2 else E1;
    var r1 := Put(r0, fails, first, false);
    var r2 := Put(r1, fails, second, !enabled);
    PutStops(r0, fails, first, false, |b.log|);
    PutStops(r1, fails, second, !enabled, |b.log|);
    PutStops(r2, fails, if enabled then E3 else E2, true, |b.log|);
    Prefixes(b.log, r1.board.log, r2.board.log);
    Prefixes(b.log, r2.board.log, Enable(b, fails, enabled).0.log);
  }

  lemma Prefixes<T>(s: seq<T>, t: seq<T>, u: seq<T>)
    requires |s| <= |t| <= |u| && t[..|s|] == s && u[..|t|] == t
    ensures u[..|s|] == s
  {
    assert u[..|s|] == u[..|t|][..|s|];
  }

  lemma SetAddressStops(b: Board, fails: nat -> bool, index: nat)
    requires b.initialized && index <= 7 && Reachable(b.cfg, index)
    ensures var (q, err) := SetAddress(b, fails, index);
            && StopsAtFailure(Run(q, err == OK), |b.log|) && q.log[..|b.log|] == b.log
            && q.initialized && q.cfg == b.cfg
  {
    var r0 := Run(b, true);
    var r1 := Put(r0, fails, A0, Bit(index, 0));
    var r2 := Put(r1, fails, A1, Bit(index, 1));
    PutStops(r0, fails, A0, Bit(index, 0), |b.log|);
    PutStops(r1, fails, A1, Bit(index, 1), |b.log|);
    PutStops(r2, fails, A2, Bit(index, 2), |b.log|);
    Prefixes(b.log, r1.board.log, r2.board.log);
    Prefixes(b.log, r2.board.log, SetAddress(b, fails, index).0.log);
  }

  lemma ConfigureStops(r: Run, fails: nat -> bool, i: nat, level: bool, from: nat)
    requires StopsAtFailure(r, from) && i < 6
    ensures var q := Configure(r, fails, i, level);
            && StopsAtFailure(q, from) && |r.board.log| <= |q.board.log|
            && q.board.cfg == r.board.cfg && q.board.initialized == r.board.initialized
  {
    PutStops(r, fails, i, level, from);
  }

  /** On a wiring it accepts, initialisation succeeds exactly if none of its writes fails. */
  lemma InitStops(b: Board, outputs: set<int>, fails: nat -> bool)
    requires ValidConfig(outputs, b.cfg)
    ensures var (q, err) := Init(b, outputs, fails);
            && StopsAtFailure(Run(q, err == OK), |b.log|) && (err != OK ==> err == FAIL)
  {
    var n := |b.log|;
    var r0 := Run(b.(initialized := false), true);
    var r1 := Configure(r0, fails, E3, false);
    var r2 := Configure(r1, fails, E1, true);
    var r3 := Configure(r2, fails, E2, true);
    var r4 := Configure(r3, fails, A0, false);
    var r5 := Configure(r4, fails, A1, false);
    ConfigureStops(r0, fails, E3, false, n);
    ConfigureStops(r1, fails, E1, true, n);
    ConfigureStops(r2, fails, E2, true, n);
    ConfigureStops(r3, fails, A0, false, n);
    ConfigureStops(r4, fails, A1, false, n);
    ConfigureStops(r5, fails, A2, false, n);
  }

  /** The write that fails in a call is one of the call's own, and its last. */
  lemma PutFails(r: Run, fails: nat -> bool, i: nat, level: bool)
    requires r.ok && i < 6
    ensures var q := Put(r, fails, i, level);
            !q.ok ==>
              && r.board.cfg[i].Controlled() && |q.board.log| > 0
              && q.board.log[|q.board.log| - 1].op == SetLevel(r.board.cfg[i].gpio, level)
    ensures Put(r, fails, i, level).board.cfg == r.board.cfg
  {
  }

  /** A write of an enable's level: active or inactive. */
  predicate SetsEnable(cfg: Config, op: Op, active: bool) {
    exists i | E1 <= i <= E3 :: cfg[i].Controlled() && op == SetLevel(cfg[i].gpio, if active then i == E3 else i != E3)
  }

  lemma EnableFails(b: Board, fails: nat -> bool, enabled: bool)
    requires b.initialized && Enable(b, fails, enabled).1 != OK
    ensures var (q, err) := Enable(b, fails, enabled);
            err == FAIL && |q.log| > 0 && SetsEnable(b.cfg, q.log[|q.log| - 1].op, enabled)
  {
    var r0 := Run(b, true);
    var first := if enabled then E1 else E3;
    var second := if enabled then E2 else E1;
    var third := if enabled then E3 else E2;
    var r1 := Put(r0, fails, first, false);
    var r2 := Put(r1, fails, second, !enabled);
    PutFails(r0, fails, first, false);
    if r1.ok {
      PutFails(r1, fails, second, !enabled);
      if r2.ok {
        PutFails(r2, fails, third, true);
      }
    }
  }

  lemma SetAddressFails(b: Board, fails: nat -> bool, index: nat)
    requires b.initialized && index <= 7 && Reachable(b.cfg, index) && SetAddress(b, fails, index).1 != OK
    ensures var (q, err) := SetAddress(b, fails, index);
            err == FAIL && |q.log| > 0 && IsAddressPin(b.cfg, q.log[|q.log| - 1].op.gpio)
  {
    var r0 := Run(b, true);
    var r1 := Put(r0, fails, A0, Bit(index, 0));
    var r2 := Put(r1, fails, A1, Bit(index, 1));
    PutFails(r0, fails, A0, Bit(index, 0));
    if r1.ok {
      PutFails(r1, fails, A1, Bit(index, 1));
      if r2.ok {
        PutFails(r2, fails, A2, Bit(index, 2));
      }
    }
  }

  /** One more attempt to disable does a disarmed decoder no harm, whatever fails. */
  lemma DisableKeepsDisarmed(b: Board, fails: nat -> bool)
    requires Wired(b) && Disarmed(b)
    ensures Disarmed(Enable(b, fails, false).0)
  {
    if b.initialized {
      var r0 := Run(b, true);
      var r1 := Put(r0, fails, E3, false);
      var r2 := Put(r1, fails, E1, true);
      PutKeepsDisarmed(r0, fails, E3);
      PutKeepsDisarmed(r1, fails, E1);
      PutKeepsDisarmed(r2, fails, E2);
    }
  }

  lemma PutKeepsDisarmed(r: Run, fails: nat -> bool, i: nat)
    requires Wired(r.board) && Disarmed(r.board) && E1 <= i <= E3
    ensures var q := Put(r, fails, i, i != E3); Wired(q.board) && Disarmed(q.board)
  {
    if r.ok && r.board.cfg[i].Controlled() {
      WriteIsLocal(r.board, fails, i, SetLevel(r.board.cfg[i].gpio, i != E3));
    }
  }

  /** The last write since `from` sets an enable to its inactive level. */
  predicate EndsDisabling(b: Board, from: nat) {
    && from < |b.log|
    && (exists i | E1 <= i <= E3 :: b.cfg[i].Controlled() && b.log[|b.log| - 1].op == SetLevel(b.cfg[i].gpio, i != E3))
  }

  lemma DisableEndsDisabling(b: Board, fails: nat -> bool)
    requires Wired(b) && b.initialized
    ensures EndsDisabling(Enable(b, fails, false).0, |b.log|)
  {
    var r0 := Run(b, true);
    var r1 := Put(r0, fails, E3, false);
    var r2 := Put(r1, fails, E1, true);
    var r3 := Put(r2, fails, E2, true);
    PutDisables(r0, fails, E3, |b.log|);
    PutDisables(r1, fails, E1, |b.log|);
    PutDisables(r2, fails, E2, |b.log|);
    assert r3.board == Enable(b, fails, false).0;
  }

  lemma PutDisables(r: Run, fails: nat -> bool, i: nat, from: nat)
    requires E1 <= i <= E3 && from <= |r.board.log|
    ensures var q := Put(r, fails, i, i != E3);
            && from <= |q.board.log| && q.board.cfg == r.board.cfg
            && (EndsDisabling(r.board, from) || (r.ok && r.board.cfg[i].Controlled()) ==> EndsDisabling(q.board, from))
            && (!q.ok && r.ok ==> r.board.cfg[i].Controlled())
  {
    var q := Put(r, fails, i, i != E3);
    if r.ok && r.board.cfg[i].Controlled() {
      assert q.board.log[|q.board.log| - 1].op == SetLevel(q.board.cfg[i].gpio, i != E3);
    }
  }

  // --- Without failing writes -------------------------------------------------------------------

  ghost predicate Works(fails: nat -> bool) {
    forall n :: !fails(n)
  }

  lemma PutWorks(r: Run, fails: nat -> bool, i: nat, level: bool)
    requires Works(fails) && r.ok && i < 6
    ensures var q := Put(r, fails, i, level); q.ok && q.board.initialized == r.board.initialized
    ensures var q := Configure(r, fails, i, level); q.ok
  {
  }

  lemma EnableWorks(b: Board, fails: nat -> bool, enabled: bool)
    requires Works(fails) && b.initialized
    ensures Enable(b, fails, enabled).1 == OK
  {
    var r0 := Run(b, true);
    var first := if enabled then E1 else E3;
    var second := if enabled then E2 else E1;
    PutWorks(r0, fails, first, false);
    var r1 := Put(r0, fails, first, false);
    PutWorks(r1, fails, second, !enabled);
    var r2 := Put(r1, fails, second, !enabled);
    PutWorks(r2, fails, if enabled then E3 else E2, true);
  }

  lemma SetAddressWorks(b: Board, fails: nat -> bool, index: nat)
    requires Works(fails) && b.initialized && index <= 7
    ensures SetAddress(b, fails, index).1 == if Reachable(b.cfg, index) then OK else INVALID_STATE
  {
    var r0 := Run(b, true);
    PutWorks(r0, fails, A0, Bit(index, 0));
    var r1 := Put(r0, fails, A0, Bit(index, 0));
    PutWorks(r1, fails, A1, Bit(index, 1));
    PutWorks(Put(r1, fails, A1, Bit(index, 1)), fails, A2, Bit(index, 2));
  }

  /** Nothing but a bad wiring or a failing write keeps the driver from opening. */
  lemma InitWorks(b: Board, outputs: set<int>, fails: nat -> bool)
    requires Works(fails)
    ensures Init(b, outputs, fails).1 == if ValidConfig(outputs, b.cfg) then OK else INVALID_ARG
  {
    var r0 := Run(b.(initialized := false), true);
    PutWorks(r0, fails, E3, false);
    var r1 := Configure(r0, fails, E3, false);
    PutWorks(r1, fails, E1, true);
    var r2 := Configure(r1, fails, E1, true);
    PutWorks(r2, fails, E2, true);
    var r3 := Configure(r2, fails, E2, true);
    PutWorks(r3, fails, A0, false);
    var r4 := Configure(r3, fails, A0, false);
    PutWorks(r4, fails, A1, false);
    PutWorks(Configure(r4, fails, A1, false), fails, A2, false);
  }

  // --- Where initialisation parks the address ---------------------------------------------------------

  lemma ConfigureParks(r: Run, fails: nat -> bool, i: nat)
    requires Wired(r.board) && i < 6
    ensures var q := Configure(r, fails, i, i == E1 || i == E2);
            && Wired(q.board) && q.board.cfg == r.board.cfg && (q.ok ==> r.ok && Parked(q.board, i))
            && (forall j | 0 <= j < 6 && j != i && Parked(r.board, j) :: Parked(q.board, j))
  {
    var level := i == E1 || i == E2;
    var p := Put(r, fails, i, level);
    if r.ok && r.board.cfg[i].Controlled() {
      WriteIsLocal(r.board, fails, i, SetLevel(r.board.cfg[i].gpio, level));
      if p.ok {
        WriteIsLocal(p.board, fails, i, Drive(p.board.cfg[i].gpio));
      }
    }
  }

  lemma EnablesPark(c: Board, fails: nat -> bool)
    requires Wired(c)
    ensures var q := ConfigureEnables(Run(c, true), fails);
            && Wired(q.board) && (q.ok ==> Parked(q.board, E1) && Parked(q.board, E2) && Parked(q.board, E3))
  {
    var r1 := Configure(Run(c, true), fails, E3, false);
    var r2 := Configure(r1, fails, E1, true);
    ConfigureParks(Run(c, true), fails, E3);
    ConfigureParks(r1, fails, E1);
    ConfigureParks(r2, fails, E2);
  }

  lemma AddressParks(r: Run, fails: nat -> bool)
    requires Wired(r.board)
    ensures var q := ConfigureAddress(r, fails);
            && (q.ok ==> r.ok && Parked(q.board, A0) && Parked(q.board, A1) && Parked(q.board, A2))
            && (forall j | E1 <= j <= E3 && Parked(r.board, j) :: Parked(q.board, j))
  {
    var r1 := Configure(r, fails, A0, false);
    var r2 := Configure(r1, fails, A1, false);
    ConfigureParks(r, fails, A0);
    ConfigureParks(r1, fails, A1);
    ConfigureParks(r2, fails, A2);
  }

  predicate AllParked(b: Board) {
    forall i | 0 <= i < 6 :: Parked(b, i)
  }

  lemma ConfigurationParks(c: Board, fails: nat -> bool, open: bool)
    requires Wired(c)
    ensures var q := ConfigureAddress(ConfigureEnables(Run(c, true), fails), fails);
            q.ok ==> AllParked(q.board.(initialized := open))
  {
    var r := ConfigureEnables(Run(c, true), fails);
    EnablesPark(c, fails);
    AddressParks(r, fails);
    var q := ConfigureAddress(r, fails);
    OpeningParks(q.board, open);
  }

  lemma OpeningParks(b: Board, open: bool)
    ensures Parked(b, A0) && Parked(b, A1) && Parked(b, A2) && Parked(b, E1) && Parked(b, E2) && Parked(b, E3) ==>
              AllParked(b.(initialized := open))
  {
  }

  /** Once initialised, every controlled input is driven: the enables at their inactive levels, the
      address inputs low. */
  lemma InitParksEverything(b: Board, outputs: set<int>, fails: nat -> bool)
    requires forall g | g in outputs :: 0 <= g < |b.pads|
    ensures var (q, err) := Init(b, outputs, fails); err == OK ==> AllParked(q)
  {
    if ValidConfig(outputs, b.cfg) {
      var c := b.(initialized := false);
      ValidIsWired(c, outputs);
      ConfigurationParks(c, fails, true);
    }
  }
}
