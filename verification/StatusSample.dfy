/** Runs of the closed loop: bus writes overrule a trap and a return, and a return reaches an illegal privilege. */
module StatusSample {
  import opened Bits
  import opened Options
  import opened CsrLayout
  import opened IbexFixture
  import opened FixtureSample
  import opened HybridMachine
  import opened HybridInvariants
  import opened TrapMachine
  import opened StatusLaws

  /** The word whose only one is bit `k`. */
  function OneAt(k: nat): Word
    requires k < 32
  {
    seq(32, j => j == k)
  }

  // ----- Writes against a trap and a return -----

  /** A trap, a second trap with a write of 4 to mepc, and a return with a write of `mie` to mstatus. */
  function CollidingAt(t: nat): Cycle {
    if t == 0 then Presents(true, false, None, Zeros(32))
    else if t == 1 then Presents(true, false, Some(0x341), OneAt(2))
    else if t == 2 then Presents(false, true, Some(0x300), OneAt(3))
    else Presents(false, false, None, Zeros(32))
  }

  function Colliding(): CoreRun {
    (t: nat) => CollidingAt(t)
  }

  lemma DataIs(x: Ibex, run: CoreRun, ms: Trace, t: nat)
    requires !run(t).mtvecInit && run(t).op == 1
    ensures BusData(x, run, ms, t) == run(t).wdata
  {
    DirectData(x.design, ms(t).csr, run(t));
  }

  lemma WordsDiffer()
    ensures Aligned(OneAt(2)) != Aligned(Zeros(32)) && Slice(OneAt(3), 3, 3) == [true]
    ensures Slice(OneAt(11), 12, 11) == [true, false]
  {
    assert Aligned(OneAt(2))[2] && !Aligned(Zeros(32))[2];
  }

  lemma CollisionValues(
    c0: Cycle, c1: Cycle, c2: Cycle, data: BitVec, prv: BitVec,
    v0: TrapState, v1: TrapState, v2: TrapState, v3: TrapState)
    requires c0 == CollidingAt(0) && c1 == CollidingAt(1) && c2 == CollidingAt(2)
    requires AfterTrap(c0, data, v0, v1) && AfterTrap(c1, c1.wdata, v1, v2) && AfterReturn(c2, c2.wdata, v2, prv, v3)
    ensures v2.epc != Aligned(ExceptionPc(c1)) && v3.mie != v2.mpie
  {
    WordsDiffer();
  }

  /** The trap state after two trap cycles and a return cycle, the last two with a plain write. */
  lemma TwoTrapsAndReturn(x: Ibex, run: CoreRun, ms: Trace, t: nat)
    requires Fixture(x) && IsRun(x, run, ms)
    requires run(t).saveCause && run(t + 1).saveCause && run(t + 2).mret && !run(t + 2).saveCause
    requires !run(t + 1).mtvecInit && run(t + 1).op == 1 && !run(t + 2).mtvecInit && run(t + 2).op == 1
    ensures var vs := TrapStates(x, ms);
            && AfterTrap(run(t), BusData(x, run, ms, t), vs(t), vs(t + 1))
            && AfterTrap(run(t + 1), run(t + 1).wdata, vs(t + 1), vs(t + 2))
            && AfterReturn(run(t + 2), run(t + 2).wdata, vs(t + 2), Stored(ms(t + 2).csr, x.dcsr, x.prv), vs(t + 3))
  {
    BusWinsOverTrap(x, run, ms, t);
    BusWinsOverTrap(x, run, ms, t + 1);
    DataIs(x, run, ms, t + 1);
    BusWinsOverReturn(x, run, ms, t + 2);
    DataIs(x, run, ms, t + 2);
  }

  /** A cycle that traps with a write to mepc, and one that returns with a write to mstatus. */
  ghost predicate Collides(run: CoreRun, t: nat) {
    run(t) == CollidingAt(0) && run(t + 1) == CollidingAt(1) && run(t + 2) == CollidingAt(2)
  }

  /** The trap of cycle `t` loses against a write, and so does the return of the next cycle. */
  ghost predicate Overruled(run: CoreRun, vs: TrapRun, t: nat) {
    && run(t).saveCause && vs(t + 1).epc != Aligned(ExceptionPc(run(t)))
    && run(t + 1).mret && !run(t + 1).saveCause && vs(t + 2).mie != vs(t + 1).mpie
  }

  lemma CollidingOverrules(x: Ibex, run: CoreRun, ms: Trace, t: nat)
    requires Fixture(x) && IsRun(x, run, ms) && Collides(run, t)
    ensures Overruled(run, TrapStates(x, ms), t + 1)
  {
    var vs := TrapStates(x, ms);
    TwoTrapsAndReturn(x, run, ms, t);
    CollisionValues(
      run(t), run(t + 1), run(t + 2), BusData(x, run, ms, t), Stored(ms(t + 2).csr, x.dcsr, x.prv),
      vs(t), vs(t + 1), vs(t + 2), vs(t + 3));
  }

  lemma CollidingCollides()
    ensures Collides(Colliding(), 0)
  {
  }

  /** On the sample fixture: mepc does not hold the trapped address, and mie not what the trap had saved in mpie. */
  lemma WritesOverrule() returns (x: Ibex, run: CoreRun, ms: Trace, t: nat)
    ensures Fixture(x) && IsRun(x, run, ms) && Overruled(run, TrapStates(x, ms), t)
  {
    var p;
    x, p := FixtureIsMet();
    run, t := Colliding(), 0;
    CollidingCollides();
    ms := EveryInputRuns(x, run);
    CollidingOverrules(x, run, ms, t);
    t := t + 1;
  }

  // ----- A privilege that does not exist -----

  /** A write of 1 to mpp, and a return. */
  function DegradingAt(t: nat): Cycle {
    if t == 0 then Presents(false, false, Some(0x300), OneAt(11)) else Presents(false, t == 1, None, Zeros(32))
  }

  function Degrading(): CoreRun {
    (t: nat) => DegradingAt(t)
  }

  lemma DegradingValues(c0: Cycle, c1: Cycle, v0: TrapState, r0: BitVec, v1: TrapState, r1: BitVec, v2: TrapState)
    requires c0 == DegradingAt(0) && c1 == DegradingAt(1) && TrapEdge(c0, v0, r0, v1) && TrapEdge(c1, v1, r1, v2)
    ensures v2.priv == [true, false]
  {
    WordsDiffer();
  }

  ghost predicate Degrades(run: CoreRun, t: nat) {
    run(t) == DegradingAt(0) && run(t + 1) == DegradingAt(1)
  }

  lemma ReturnsToNowhere(run: CoreRun, vs: TrapRun, seen: Seen, t: nat)
    requires IsTrapRun(run, vs, seen) && Degrades(run, t)
    ensures vs(t + 2).priv == [true, false]
  {
    assert TrapEdgeAt(run, vs, seen, t) && TrapEdgeAt(run, vs, seen, t + 1);
    DegradingValues(run(t), run(t + 1), vs(t), seen(t), vs(t + 1), seen(t + 1), vs(t + 2));
  }

  /** The running privilege is neither U nor M. */
  ghost predicate Nowhere(v: TrapState) {
    v.priv == [true, false] && !LegalPrivilege(v)
  }

  lemma IsNowhere(v: TrapState)
    requires v.priv == [true, false]
    ensures Nowhere(v)
  {
  }

  lemma DegradingRuns(x: Ibex, run: CoreRun, ms: Trace, t: nat)
    requires Fixture(x) && IsRun(x, run, ms) && Degrades(run, t)
    ensures Nowhere(TrapStates(x, ms)(t + 2))
  {
    ClosedLoopIsTrapRun(x, run, ms);
    ReturnsToNowhere(run, TrapStates(x, ms), ReadsOf(x, run, ms), t);
    IsNowhere(TrapStates(x, ms)(t + 2));
  }

  lemma DegradingDegrades()
    ensures Degrades(Degrading(), 0)
  {
  }

  /** On the sample fixture, whose mpp resets to U: two cycles, and the core runs neither in U nor in M mode. */
  lemma IllegalPrivilege() returns (x: Ibex, run: CoreRun, ms: Trace, t: nat)
    ensures Fixture(x) && IsRun(x, run, ms) && Nowhere(TrapStates(x, ms)(t))
  {
    var p;
    x, p := FixtureIsMet();
    run, t := Degrading(), 0;
    DegradingDegrades();
    ms := EveryInputRuns(x, run);
    DegradingRuns(x, run, ms, t);
    t := t + 2;
  }
}
