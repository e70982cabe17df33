/** A run of the closed loop in which a nested trap without write-back loses the interrupted program's state. */
module NestingSample {
  import opened Bits
  import opened Options
  import opened IbexFixture
  import opened FixtureSample
  import opened HybridMachine
  import opened HybridInvariants
  import opened TrapMachine
  import opened TrapNesting

  /** Trap, trap again in the first cycle of the handler, and two returns. */
  function CycleAt(t: nat): Cycle {
    Presents(t < 2, t == 2 || t == 3, None, Zeros(32))
  }

  function TheCycles(): CoreRun {
    (t: nat) => CycleAt(t)
  }

  lemma Nests(seen: Seen)
    ensures NestsUnguarded(TheCycles(), seen, 0, [], [], [])
  {
    assert Lengths([]) == 0;
    assert FollowsAll(TheCycles(), seen, [], 2, true);
  }

  /** An unguarded nesting that starts in M mode cannot come out right. */
  lemma LosesFromMachineMode(run: CoreRun, vs: TrapRun, t: nat, b: nat, u: nat)
    requires Restores(run, vs, t, u) <==> HappensToMatch(run, vs, t, b)
    requires vs(t).priv == MACHINE
    ensures !Restores(run, vs, t, u)
  {
  }

  lemma Loses(
    x: Ibex, run: CoreRun, ms: Trace, t: nat, before: seq<Shape>, inner: seq<Shape>, after: seq<Shape>, b: nat, u: nat)
    requires Fixture(x) && HybridInvariants.IsRun(x, run, ms) && TrapStates(x, ms)(t).priv == MACHINE
    requires NestsUnguarded(run, ReadsOf(x, run, ms), t, before, inner, after)
    requires b == t + 1 + Lengths(before) && u == OuterReturn(t, before, inner, after)
    ensures !Restores(run, TrapStates(x, ms), t, u)
  {
    WriteBackNeeded(x, run, ms, t, before, inner, after);
    LosesFromMachineMode(run, TrapStates(x, ms), t, b, u);
  }

  /** On the sample fixture, the run nests without write-back, and its outer return does not restore. */
  lemma UnguardedNestingLoses() returns (x: Ibex, ms: Trace)
    ensures var run := TheCycles();
            && Fixture(x) && HybridInvariants.IsRun(x, run, ms)
            && NestsUnguarded(run, ReadsOf(x, run, ms), 0, [], [], [])
            && !Restores(run, TrapStates(x, ms), 0, OuterReturn(0, [], [], []))
  {
    var p;
    x, p := FixtureIsMet();
    ms := EveryInputRuns(x, TheCycles());
    Nests(ReadsOf(x, TheCycles(), ms));
    Loses(x, TheCycles(), ms, 0, [], [], [], 1 + Lengths([]), OuterReturn(0, [], [], []));
  }
}
