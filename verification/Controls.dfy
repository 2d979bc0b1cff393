/** What the controls promise, over any sequence of interpreted commands (interpret_command in
    main/fan_control.c, the speed policy, and the shutoff durations). */
module Controls {
  import opened Esp
  import opened FanPolicy
  import opened FanControl

  /** A command, and the tick at which the actor interprets it. */
  datatype Input = Input(command: Command, now: Word)

  /** The actor's state and timer start after some commands. */
  function After(f: Fan, started: Word, inputs: seq<Input>): (Fan, Word)
    decreases |inputs|
  {
    if inputs == [] then (f, started)
    else
      var n := |inputs| - 1;
      var (g, s) := After(f, started, inputs[..n]);
      Interpret(g, inputs[n].command, inputs[n].now, s)
  }

  predicate AllAre(inputs: seq<Input>, action: Action) {
    forall i | 0 <= i < |inputs| :: inputs[i].command.action == action
  }

  /** Key 1 goes round off, 1, 2, 3. */
  lemma {:induction false} NormalPressesCycle(f: Fan, started: Word, inputs: seq<Input>)
    requires f.desired == OFF && AllAre(inputs, CycleNormal)
    ensures After(f, started, inputs).0.desired == |inputs| % 4
    decreases |inputs|
  {
    if inputs != [] {
      NormalPressesCycle(f, started, inputs[..|inputs| - 1]);
    }
  }

  /** From the top speed it selects off first. */
  lemma {:induction false} NormalPressesFromTop(f: Fan, started: Word, inputs: seq<Input>)
    requires f.desired == 4 && inputs != [] && AllAre(inputs, CycleNormal)
    ensures After(f, started, inputs).0.desired == (|inputs| - 1) % 4
    decreases |inputs|
  {
    if |inputs| > 1 {
      NormalPressesFromTop(f, started, inputs[..|inputs| - 1]);
    } else {
      assert After(f, started, inputs[..0]) == (f, started);
    }
  }

  /** Key 2 toggles the top speed and off, whatever speed it starts from. */
  lemma {:induction false} TurboPressesToggle(f: Fan, started: Word, inputs: seq<Input>)
    requires inputs != [] && AllAre(inputs, Action.ToggleTurbo)
    ensures After(f, started, inputs).0.desired == if (|inputs| % 2 == 1) == (f.desired != 4) then 4 else OFF
    decreases |inputs|
  {
    if |inputs| > 1 {
      TurboPressesToggle(f, started, inputs[..|inputs| - 1]);
    } else {
      assert After(f, started, inputs[..0]) == (f, started);
    }
  }

  const ROUND: seq<Mode> := [AlwaysOn, H2, H4, H8]

  /** Key 6, while the fan is on, goes round 2, 4 and 8 hours and always-on; each press restarts
      the countdown. */
  lemma {:induction false} TimerPressesCycle(f: Fan, started: Word, inputs: seq<Input>)
    requires f.desired != OFF && f.mode == AlwaysOn && !f.active && AllAre(inputs, CycleTimer)
    ensures var (g, s) := After(f, started, inputs);
            && g.desired == f.desired && g.mode == ROUND[|inputs| % 4] && (g.active <==> |inputs| % 4 != 0)
            && s == if inputs == [] then started else inputs[|inputs| - 1].now
    decreases |inputs|
  {
    if inputs != [] {
      TimerPressesCycle(f, started, inputs[..|inputs| - 1]);
    }
  }

  /** With the fan off it only settles its own numbers, however often it is pressed. */
  lemma {:induction false} TimerPressesOff(f: Fan, started: Word, inputs: seq<Input>)
    requires f.desired == OFF && inputs != [] && AllAre(inputs, CycleTimer)
    ensures var last := inputs[|inputs| - 1].command.sequence;
            After(f, started, inputs) == (f.(accepted := last, appliedSeq := last), started)
    decreases |inputs|
  {
    if |inputs| > 1 {
      TimerPressesOff(f, started, inputs[..|inputs| - 1]);
    } else {
      assert After(f, started, inputs[..0]) == (f, started);
    }
  }

  /** After each of these commands the fan is wanted on. */
  predicate StaysOn(f: Fan, started: Word, inputs: seq<Input>) {
    forall n | 0 <= n <= |inputs| :: After(f, started, inputs[..n]).0.desired != OFF
  }

  predicate TouchesTimer(c: Command) {
    c.action.CycleTimer? || (c.action.SetSpeed? && c.cancelTimer)
  }

  /** Changing between active speeds preserves the running timer. */
  lemma {:induction false} SpeedChangesKeepTimer(f: Fan, started: Word, inputs: seq<Input>)
    requires StaysOn(f, started, inputs) && forall i | 0 <= i < |inputs| :: !TouchesTimer(inputs[i].command)
    ensures var (g, s) := After(f, started, inputs); g.mode == f.mode && g.active == f.active && s == started
    decreases |inputs|
  {
    if inputs != [] {
      var n := |inputs| - 1;
      var before := inputs[..n];
      forall k | 0 <= k <= n ensures After(f, started, before[..k]).0.desired != OFF {
        assert before[..k] == inputs[..k];
      }
      SpeedChangesKeepTimer(f, started, before);
      assert inputs[..n + 1] == inputs;
    }
  }

  /** controller_set_remote_fan_speed, which is how the REST interface asks for a speed. */
  function RestRequest(speed: Speed): Command {
    Command(SetSpeed, speed, REST, true, 0)
  }

  predicate Untimed(f: Fan) {
    f.mode == AlwaysOn && !f.active
  }

  /** Reaching off cancels the timer, after any commands ... */
  lemma {:induction false} OffIsUntimed(f: Fan, started: Word, inputs: seq<Input>)
    requires f.desired == OFF ==> Untimed(f)
    ensures var g := After(f, started, inputs).0; g.desired == OFF ==> Untimed(g)
    decreases |inputs|
  {
    if inputs != [] {
      var n := |inputs| - 1;
      OffIsUntimed(f, started, inputs[..n]);
      var (g, s) := After(f, started, inputs[..n]);
      OneCommandOffIsUntimed(g, inputs[n].command, inputs[n].now, s);
    }
  }

  lemma OneCommandOffIsUntimed(g: Fan, c: Command, now: Word, started: Word)
    requires g.desired == OFF ==> Untimed(g)
    ensures var h := Interpret(g, c, now, started).0; h.desired == OFF ==> Untimed(h)
  {
  }

  predicate IsRest(c: Command) {
    c == RestRequest(c.speed).(sequence := c.sequence)
  }

  /** ... and so does a request through the REST interface: only key 6 starts one again. */
  lemma {:induction false} RestCancelsTimer(f: Fan, started: Word, inputs: seq<Input>, k: nat)
    requires k < |inputs| && IsRest(inputs[k].command)
    requires forall i | k < i < |inputs| :: !inputs[i].command.action.CycleTimer?
    ensures var g := After(f, started, inputs).0;
            Untimed(g) && (k == |inputs| - 1 ==> g.desired == inputs[k].command.speed)
    decreases |inputs|
  {
    if k < |inputs| - 1 {
      RestCancelsTimer(f, started, inputs[..|inputs| - 1], k);
    }
  }

  /** Whom a speed command comes from: both speed keys are touch keys. */
  function Sender(c: Command): Source {
    if c.action.SetSpeed? then c.source else TOUCH
  }

  /** The source shown is that of the last command that was about the speed; key 6 is not. */
  lemma {:induction false} SourceIsLastSender(f: Fan, started: Word, inputs: seq<Input>, k: nat)
    requires k < |inputs| && !inputs[k].command.action.CycleTimer?
    requires forall i | k < i < |inputs| :: inputs[i].command.action.CycleTimer?
    ensures After(f, started, inputs).0.source == Sender(inputs[k].command)
    decreases |inputs|
  {
    if k < |inputs| - 1 {
      SourceIsLastSender(f, started, inputs[..|inputs| - 1], k);
    }
  }

  /** pdMS_TO_TICKS at a given tick rate */
  function TicksAt(ms: nat, hz: nat): Word {
    Wrap(ms * hz) / 1000
  }

  lemma ConversionFits(ms: nat, hz: nat)
    ensures TicksAt(ms * 1000, hz) == ms * hz <==> ms * 1000 * hz < WORD
  {
    if ms * 1000 * hz >= WORD {
      assert Wrap(ms * 1000 * hz) < WORD;
    } else {
      assert ms * 1000 * hz == (ms * hz) * 1000;
    }
  }

  /** The durations are exactly two, four and eight hours at this tick rate; the conversion is done
      in 32 bits, and at others eight hours come out right exactly up to 149 Hz. */
  lemma EightHoursFitExactly(hz: nat)
    ensures Duration(H2) == 2 * 3600 * HZ && Duration(H4) == 4 * 3600 * HZ && Duration(H8) == 8 * 3600 * HZ
    ensures TicksAt(8 * 3600 * 1000, hz) == 8 * 3600 * hz <==> hz <= 149
  {
    ConversionFits(2 * 3600, HZ);
    ConversionFits(4 * 3600, HZ);
    ConversionFits(8 * 3600, HZ);
    ConversionFits(8 * 3600, hz);
  }
}
