/** components/hc238/hc238.c, proved against the values of module `Hc238`. */
module Hc238Driver {
  import opened Esp
  import opened Hc238

  lemma FailedStaysPut(r: Run, fails: nat -> bool)
    requires !r.ok
    ensures ConfigureAddress(r, fails) == r
  {
  }

  lemma InitConfigures(b: Board, outputs: set<int>, fails: nat -> bool)
    requires !b.initialized && ValidConfig(outputs, b.cfg)
    ensures var r := ConfigureAddress(ConfigureEnables(Run(b, true), fails), fails);
            Hc238.Init(b, outputs, fails) == (r.board.(initialized := r.ok), Code(r))
  {
    assert b.(initialized := false) == b;
  }

  lemma InitLeavesReady(b: Board, outputs: set<int>, fails: nat -> bool)
    requires forall g | g in outputs :: 0 <= g < |b.pads|
    ensures Ready(Hc238.Init(b, outputs, fails).0)
  {
    InitOnlySwitchesOff(b, outputs, fails);
  }

  /** The driver with its globals as fields. `wiring` is how the decoder is really
      connected; callers pass a configuration that describes it. */
  class Driver {
    const pads: array<Pad>
    const outputs: set<int> // GPIO_IS_VALID_OUTPUT_GPIO
    const fails: nat -> bool
    ghost const wiring: Config
    var cfg: Config // g_cfg
    var initialized: bool // g_initialized
    var writes: nat
    ghost var log: seq<Entry>

    ghost predicate Valid()
      reads this, pads
    {
      && writes == |log|
      && (forall g | g in outputs :: 0 <= g < pads.Length)
      && (initialized ==> cfg == wiring)
      && Ready(View())
    }

    ghost function View(): Board
      reads this, pads
    {
      Board(wiring, pads[..], initialized, log)
    }

    constructor (pads: array<Pad>, outputs: set<int>, fails: nat -> bool, ghost wiring: Config)
      requires forall g | g in outputs :: 0 <= g < pads.Length
      ensures Valid() && View() == Board(wiring, pads[..], false, [])
      ensures this.pads == pads && this.outputs == outputs && this.fails == fails && this.wiring == wiring
    {
      this.pads, this.outputs, this.fails, this.wiring := pads, outputs, fails, wiring;
      cfg := [Line(0, 0), Line(0, 0), Line(0, 0), Line(0, 0), Line(0, 0), Line(0, 0)];
      initialized, writes, log := false, 0, [];
    }

    /** gpio_set_level */
    method GpioSetLevel(gpio: int, level: bool) returns (err: EspErr)
      requires writes == |log| && 0 <= gpio < pads.Length
      modifies this`writes, this`log, pads
      ensures writes == |log|
      ensures var r := Perform(old(View()), fails, SetLevel(gpio, level)); View() == r.board && err == Code(r)
    {
      ghost var before := View();
      if fails(writes) {
        err := FAIL;
      } else {
        pads[gpio] := pads[gpio].(level := level);
        err := OK;
      }
      assert pads[..] == Perform(before, fails, SetLevel(gpio, level)).board.pads;
      log := log + [Entry(SetLevel(gpio, level), before.Out(), Decode(wiring, pads[..]), err == OK)];
      writes := writes + 1;
    }

    /** gpio_set_direction(gpio, GPIO_MODE_OUTPUT) */
    method GpioSetOutput(gpio: int) returns (err: EspErr)
      requires writes == |log| && 0 <= gpio < pads.Length
      modifies this`writes, this`log, pads
      ensures writes == |log|
      ensures var r := Perform(old(View()), fails, Drive(gpio)); View() == r.board && err == Code(r)
    {
      ghost var before := View();
      if fails(writes) {
        err := FAIL;
      } else {
        pads[gpio] := pads[gpio].(driven := true);
        err := OK;
      }
      assert pads[..] == Perform(before, fails, Drive(gpio)).board.pads;
      log := log + [Entry(Drive(gpio), before.Out(), Decode(wiring, pads[..]), err == OK)];
      writes := writes + 1;
    }

    /** validate_pin for each line, the fixed enable levels, and the pairwise pin check. */
    static method ValidateConfig(outputs: set<int>, cfg: Config) returns (err: EspErr)
      ensures err == (if ValidConfig(outputs, cfg) then OK else INVALID_ARG)
      ensures err == OK ==>
                forall i | 0 <= i < 6 ::
                  cfg[i].fixed == 0 || cfg[i].fixed == 1 || (cfg[i].fixed == -1 && cfg[i].gpio in outputs)
    {
      var n := 0;
      while n < 6
        invariant 0 <= n <= 6
        invariant forall i | 0 <= i < n :: PinValid(outputs, cfg[i])
      {
        if !(-1 <= cfg[n].fixed <= 1) || (cfg[n].Controlled() && cfg[n].gpio !in outputs) {
          assert !PinValid(outputs, cfg[n]);
          return INVALID_ARG;
        }
        n := n + 1;
      }
      if !(cfg[E1].fixed < 0 || cfg[E1].fixed == 0) || !(cfg[E2].fixed < 0 || cfg[E2].fixed == 0)
         || !(cfg[E3].fixed < 0 || cfg[E3].fixed == 1) {
        return INVALID_ARG;
      }
      if !(cfg[E1].fixed < 0 || cfg[E2].fixed < 0 || cfg[E3].fixed < 0) {
        return INVALID_ARG;
      }
      var i := 0;
      while i < 6
        invariant 0 <= i <= 6
        invariant forall a, b | 0 <= a < i && a < b < 6 :: cfg[a].Controlled() && cfg[b].Controlled() ==>
            cfg[a].gpio != cfg[b].gpio
      {
        if cfg[i].fixed < 0 {
          var j := i + 1;
          while j < 6
            invariant i < j <= 6
            invariant forall b | i < b < j :: cfg[b].Controlled() ==> cfg[i].gpio != cfg[b].gpio
          {
            if !(cfg[j].fixed >= 0 || cfg[i].gpio != cfg[j].gpio) {
              return INVALID_ARG;
            }
            j := j + 1;
          }
        }
        i := i + 1;
      }
      assert forall k | E1 <= k <= E3 :: cfg[k].Controlled() || cfg[k].fixed == (if k == E3 then 1 else 0);
      return OK;
    }

    /** set_enable_levels */
    method SetEnableLevels(enabled: bool) returns (err: EspErr)
      requires Valid() && initialized
      modifies this`writes, this`log, pads
      ensures writes == |log|
      ensures var r := SetEnables(Run(old(View()), true), fails, enabled); View() == r.board && err == Code(r)
    {
      err := OK;
      if !enabled && cfg[E3].fixed < 0 {
        err := GpioSetLevel(cfg[E3].gpio, false);
        if err != OK {
          return;
        }
      }
      if cfg[E1].fixed < 0 {
        err := GpioSetLevel(cfg[E1].gpio, !enabled);
        if err != OK {
          return;
        }
      }
      if cfg[E2].fixed < 0 {
        err := GpioSetLevel(cfg[E2].gpio, !enabled);
        if err != OK {
          return;
        }
      }
      if enabled && cfg[E3].fixed < 0 {
        err := GpioSetLevel(cfg[E3].gpio, true);
      }
    }

    /** configure_output */
    method ConfigureOutput(gpio: int, level: bool) returns (err: EspErr)
      requires writes == |log| && 0 <= gpio < pads.Length
      modifies this`writes, this`log, pads
      ensures writes == |log|
      ensures var p := Perform(old(View()), fails, SetLevel(gpio, level));
              var r := if p.ok then Perform(p.board, fails, Drive(gpio)) else p;
              View() == r.board && err == Code(r)
    {
      err := GpioSetLevel(gpio, level);
      if err == OK {
        err := GpioSetOutput(gpio);
      }
    }

    /** hc238_init */
    method Init(config: Config) returns (err: EspErr)
      requires Valid() && config == wiring
      modifies this, pads
      ensures Valid()
      ensures (View(), err) == Hc238.Init(old(View()), outputs, fails)
    {
      InitLeavesReady(View(), outputs, fails);
      initialized := false;
      err := ValidateConfig(outputs, config);
      if err != OK {
        return;
      }
      ValidIsWired(View(), outputs);
      InitConfigures(View(), outputs, fails);
      err := Open(config);
    }

    /** hc238_init on an accepted configuration. */
    method Open(config: Config) returns (err: EspErr)
      requires writes == |log| && config == wiring && !initialized && Wired(View())
      modifies this, pads
      ensures writes == |log| && (initialized ==> cfg == wiring)
      ensures var r := ConfigureAddress(ConfigureEnables(Run(old(View()), true), fails), fails);
              View() == r.board.(initialized := r.ok) && err == Code(r)
    {
      err := ConfigureLines(config);
      if err == OK {
        cfg := config;
        initialized := true;
      }
    }

    /** The pin writes of hc238_init. */
    method ConfigureLines(config: Config) returns (err: EspErr)
      requires writes == |log| && config == wiring && Wired(View())
      modifies this`writes, this`log, pads
      ensures writes == |log|
      ensures var r := ConfigureAddress(ConfigureEnables(Run(old(View()), true), fails), fails);
              View() == r.board && err == Code(r)
    {
      ghost var before := Run(View(), true);
      err := ConfigureEnableLines(config);
      if err == OK {
        err := ConfigureAddressLines(config);
      } else {
        FailedStaysPut(ConfigureEnables(before, fails), fails);
      }
    }

    /** The enables of hc238_init: E3, E1, E2. */
    method ConfigureEnableLines(config: Config) returns (err: EspErr)
      requires writes == |log| && config == wiring && Wired(View())
      modifies this`writes, this`log, pads
      ensures writes == |log| && Wired(View())
      ensures var r := ConfigureEnables(Run(old(View()), true), fails); View() == r.board && err == Code(r)
    {
      err := ConfigureLine(config, E3, false);
      if err == OK {
        err := ConfigureLine(config, E1, true);
      }
      if err == OK {
        err := ConfigureLine(config, E2, true);
      }
    }

    /** The addresses of hc238_init. */
    method ConfigureAddressLines(config: Config) returns (err: EspErr)
      requires writes == |log| && config == wiring && Wired(View())
      modifies this`writes, this`log, pads
      ensures writes == |log| && Wired(View())
      ensures var r := ConfigureAddress(Run(old(View()), true), fails); View() == r.board && err == Code(r)
    {
      err := ConfigureLine(config, A0, false);
      if err == OK {
        err := ConfigureLine(config, A1, false);
      }
      if err == OK {
        err := ConfigureLine(config, A2, false);
      }
    }

    /** One `if (FIXED < 0)` block of hc238_init. */
    method ConfigureLine(config: Config, i: nat, level: bool) returns (err: EspErr)
      requires writes == |log| && config == wiring && i < 6 && Wired(View())
      modifies this`writes, this`log, pads
      ensures writes == |log| && Wired(View())
      ensures var r := Configure(Run(old(View()), true), fails, i, level); View() == r.board && err == Code(r)
    {
      err := OK;
      if config[i].fixed < 0 {
        err := ConfigureOutput(config[i].gpio, level);
      }
    }

    /** hc238_enable */
    method Enable(enabled: bool) returns (err: EspErr)
      requires Valid()
      modifies this`writes, this`log, pads
      ensures writes == |log|
      ensures (View(), err) == Hc238.Enable(old(View()), fails, enabled)
      ensures !initialized ==> err == INVALID_STATE && View() == old(View())
    {
      if !initialized {
        return INVALID_STATE;
      }
      err := SetEnableLevels(enabled);
    }

    /** hc238_set_address */
    method SetAddress(index: nat) returns (err: EspErr)
      requires Valid()
      modifies this`writes, this`log, pads
      ensures writes == |log|
      ensures (View(), err) == Hc238.SetAddress(old(View()), fails, index)
      ensures !initialized ==> err == INVALID_STATE && View() == old(View())
      ensures initialized && index > 7 ==> err == INVALID_ARG && View() == old(View())
      ensures initialized && index <= 7 && !Reachable(wiring, index) ==> err == INVALID_STATE && View() == old(View())
    {
      if !initialized {
        return INVALID_STATE;
      }
      if index > 7 {
        return INVALID_ARG;
      }
      var bit0, bit1, bit2 := index % 2, index / 2 % 2, index / 4 % 2;
      if !(cfg[A0].fixed < 0 || cfg[A0].fixed == bit0) || !(cfg[A1].fixed < 0 || cfg[A1].fixed == bit1)
         || !(cfg[A2].fixed < 0 || cfg[A2].fixed == bit2) {
        return INVALID_STATE;
      }
      assert Reachable(wiring, index);
      err := OK;
      if cfg[A0].fixed < 0 {
        err := GpioSetLevel(cfg[A0].gpio, bit0 == 1);
        if err != OK {
          return;
        }
      }
      if cfg[A1].fixed < 0 {
        err := GpioSetLevel(cfg[A1].gpio, bit1 == 1);
        if err != OK {
          return;
        }
      }
      if cfg[A2].fixed < 0 {
        err := GpioSetLevel(cfg[A2].gpio, bit2 == 1);
      }
    }
  }
}
