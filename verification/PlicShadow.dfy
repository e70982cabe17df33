/** A run in which the first of two claim reads falls into a shadow cycle, and both return the same ID. */
module PlicShadow {
  import opened Bits
  import opened Options
  import opened PlicArbiter
  import opened PlicMachine
  import opened PlicSafety

  const ONE: Cfg := Cfg(1, 1)

  function Write(t: Target, data: nat): Bus { Bus(true, true, t, data, true, false, Unmapped, true) }

  function Read(t: Target): Bus { Bus(false, false, Unmapped, 0, true, true, t, true) }

  function NoAccess(): Bus { Bus(false, false, Unmapped, 0, true, false, Unmapped, true) }

  /** Enables source 1, completes it without a claim, then reads the claim register in cycles 3 and 5. */
  function BusAt(t: nat): Bus {
    if t == 0 then Write(Enable(0), 2)
    else if t == 2 then Write(Claim(0), 1)
    else if t == 3 || t == 5 then Read(Claim(0))
    else NoAccess()
  }

  function InputAt(t: nat): Input {
    Input(BusAt(t), [false, true], [0, 1])
  }

  function StateAt(t: nat): State {
    if t == 0 then Init(ONE) else Step(ONE, StateAt(t - 1), InputAt(t - 1))
  }

  function TheRun(): Run {
    Run(ONE, (t: nat) => InputAt(t), (t: nat) => StateAt(t))
  }

  lemma TheRunRuns()
    ensures IsRun(TheRun())
  {
    forall t: nat ensures StepsAt(TheRun(), t) {
      assert StateAt(t + 1) == Step(ONE, StateAt(t), InputAt(t));
    }
  }

  /** The state, when nothing is in service. */
  ghost predicate Shows(s: State, enabled: bool, claim: nat, wrPulseD: bool, bresp: bool, rresp: bool) {
    && s.ctx == [Ctx([false, enabled], 0, claim, [false, false], wrPulseD)]
    && s.bresp == bresp && s.rresp == rresp
  }

  lemma WinnerIsOne(enabled: bool)
    ensures Winner(1, Request([false, true], [false, enabled], [0, 1], 0, [false, false])) == if enabled then 1 else 0
  {
    var q := Request([false, true], [false, enabled], [0, 1], 0, [false, false]);
    assert Running(q, 0) == (0, 0);
    assert Cand(q, 1) == enabled;
  }

  lemma Next(s: State, bus: Bus, enabled: bool, claim: nat, wrPulseD: bool, bresp: bool, rresp: bool)
    requires Shows(s, enabled, claim, wrPulseD, bresp, rresp)
    ensures var n, a := Step(ONE, s, Input(bus, [false, true], [0, 1])), AccessOf(s, bus, 0);
            && (a.enable.None? && a.threshold.None? && a.claim.None? && !a.readClaim ==>
                  Shows(n, enabled, if enabled then 1 else 0, false, n.bresp, n.rresp))
            && (a == Access(false, None, Some(2), None) ==>
                  Shows(n, true, if enabled then 1 else 0, false, n.bresp, n.rresp))
            && (a == Access(false, Some(1), None, None) ==> Shows(n, enabled, 1, true, n.bresp, n.rresp))
            && (a == Access(true, None, None, None) && wrPulseD ==>
                  Shows(n, enabled, if enabled then 1 else 0, false, n.bresp, n.rresp))
            && n.bresp == (WrFire(s, bus) || (bresp && !bus.bReady))
            && n.rresp == (RdFire(s, bus) || (rresp && !bus.rReady))
  {
    var n := Step(ONE, s, Input(bus, [false, true], [0, 1]));
    WinnerIsOne(enabled);
    assert FromNat(2, 2) == [false, true];
    assert IdWidth(1) == 1 && ClaimField(1, 1) == 1;
    assert n.ctx == [n.ctx[0]];
    var next := n.ctx[0].claimed;
    assert |next| == 2 && next == [next[0], next[1]];
  }

  lemma FirstCycles()
    ensures Shows(StateAt(0), false, 0, false, false, false)
    ensures Shows(StateAt(1), true, 0, false, true, false)
    ensures Shows(StateAt(2), true, 1, false, false, false)
  {
    assert Zeros(2) == [false, false];
    assert Init(ONE).ctx == [InitCtx(1)];
    Next(StateAt(0), BusAt(0), false, 0, false, false, false);
    Next(StateAt(1), BusAt(1), true, 0, false, true, false);
  }

  lemma LastCycles()
    ensures Shows(StateAt(3), true, 1, true, true, false)
    ensures Shows(StateAt(4), true, 1, false, false, true)
    ensures Shows(StateAt(5), true, 1, false, false, false)
  {
    FirstCycles();
    Next(StateAt(2), BusAt(2), true, 1, false, false, false);
    Next(StateAt(3), BusAt(3), true, 1, true, true, false);
    Next(StateAt(4), BusAt(4), true, 1, false, false, true);
  }

  /**
   * The first read must be outside the shadow: here both reads return ID 1, the second one outside the shadow,
   * and no completion is written from the first read on.
   */
  lemma ShadowReadRepeats()
    ensures var r := TheRun();
            && IsRun(r) && ClaimRead(r, 0, 3, 1) && Shadow(r, 0, 3) && ClaimRead(r, 0, 5, 1) && !Shadow(r, 0, 5)
            && forall w: nat, v: nat :: 3 <= w < 5 ==> !Completion(r, 0, w, v)
  {
    TheRunRuns();
    FirstCycles();
    LastCycles();
  }
}
