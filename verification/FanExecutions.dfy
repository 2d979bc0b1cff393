/** Executions of the fan system: sequences of steps that lead from one state to another, and the
    states that some run reaches. */
module FanExecutions {
  import opened FanControl

  /** A sequence of steps, each enabled where it is taken, leads from `s` to `t`. */
  predicate Leads(s: System, steps: seq<Step>, t: System)
    decreases |steps|
  {
    if steps == [] then s == t
    else Enabled(s, steps[0]) && Leads(Next(s, steps[0]), steps[1..], t)
  }

  predicate OnlyActor(steps: seq<Step>) {
    forall k | 0 <= k < |steps| :: steps[k].ActorRuns?
  }

  /** No actor step and no reset between steps i and j. */
  predicate Untouched(steps: seq<Step>, i: nat, j: nat) {
    forall k | i < k < j && k < |steps| :: !steps[k].ActorRuns? && !steps[k].Reset?
  }

  lemma {:induction false} LeadsConcat(s: System, a: seq<Step>, t: System, b: seq<Step>, u: System)
    requires Leads(s, a, t) && Leads(t, b, u)
    ensures Leads(s, a + b, u)
    decreases |a|
  {
    if a == [] {
      assert a + b == b;
    } else {
      assert (a + b)[1..] == a[1..] + b;
      LeadsConcat(Next(s, a[0]), a[1..], t, b, u);
    }
  }

  lemma Chain(a: System, ab: seq<Step>, b: System, bc: seq<Step>, c: System) returns (steps: seq<Step>)
    requires Leads(a, ab, b) && Leads(b, bc, c) && OnlyActor(ab) && OnlyActor(bc)
    ensures Leads(a, steps, c) && OnlyActor(steps)
  {
    LeadsConcat(a, ab, b, bc, c);
    steps := ab + bc;
  }

  /** A run goes on with any steps enabled from its last state. */
  lemma {:induction false} Extend(states: seq<System>, steps: seq<Step>, more: seq<Step>, t: System)
      returns (all: seq<System>)
    requires Run(states, steps) && Leads(states[|steps|], more, t)
    ensures Run(all, steps + more) && all[|steps + more|] == t
    ensures |states| <= |all| && all[..|states|] == states
    decreases |more|
  {
    if more == [] {
      assert steps + more == steps;
      all := states;
    } else {
      var next := Next(states[|steps|], more[0]);
      var longer, taken := states + [next], steps + [more[0]];
      forall i | 0 <= i < |taken| ensures StepAt(longer, taken, i) {
        if i < |steps| {
          assert StepAt(states, steps, i);
        }
      }
      all := Extend(longer, taken, more[1..], t);
      assert taken + more[1..] == steps + more;
      assert all[..|states|] == all[..|longer|][..|states|] == states;
    }
  }

  ghost predicate Reaches(states: seq<System>, steps: seq<Step>, s: System) {
    Run(states, steps) && states[|steps|] == s
  }

  /** Some run from power-on reaches this state. */
  ghost predicate Reached(s: System) {
    exists states, steps :: Reaches(states, steps, s)
  }

  lemma PowerOnIsReached(s: System)
    requires Initial(s)
    ensures Reached(s)
  {
    assert Reaches([s], [], s);
  }

  lemma LeadsStaysReached(s: System, more: seq<Step>, t: System)
    requires Reached(s) && Leads(s, more, t)
    ensures Reached(t)
  {
    var states, steps :| Reaches(states, steps, s);
    var all := Extend(states, steps, more, t);
    assert Reaches(all, steps + more, t);
  }

  lemma StepStaysReached(s: System, step: Step)
    requires Reached(s) && Enabled(s, step)
    ensures Reached(Next(s, step))
  {
    var more := [step];
    assert Leads(Next(s, more[0]), more[1..], Next(s, step));
    LeadsStaysReached(s, more, Next(s, step));
  }
}
