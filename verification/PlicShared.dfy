/** One source on two contexts: in-service status is kept per context, and only disjoint enables keep it apart. */
module PlicShared {
  import opened Bits
  import opened Options
  import opened PlicArbiter
  import opened PlicMachine
  import opened PlicSafety
  import PlicShadow

  predicate EnabledAt(r: Run, c: nat, t: nat, v: nat) {
    Bit(CtxAt(r, c, t).enable, v)
  }

  /** An ID in service was taken by a claim, and its context had enabled it before. */
  lemma {:induction false} ServiceNeedsEnable(r: Run, c: nat, t: nat, v: nat) returns (u: nat)
    requires IsRun(r) && c < r.cfg.ctxs && InService(r, c, t, v)
    ensures u < t && EnabledAt(r, c, u, v)
  {
    ServiceStep(r, c, if t == 0 then 0 else t - 1, v);
    if InService(r, c, t - 1, v) {
      u := ServiceNeedsEnable(r, c, t - 1, v);
    } else {
      u := ClaimNeedsEnable(r, c, t - 1, v);
    }
  }

  lemma ClaimNeedsEnable(r: Run, c: nat, t: nat, v: nat) returns (u: nat)
    requires IsRun(r) && c < r.cfg.ctxs && ClaimRead(r, c, t, v) && v != 0
    requires !(Shadow(r, c, t) && Completion(r, c, t - 1, v))
    ensures u < t && EnabledAt(r, c, u, v)
  {
    if Shadow(r, c, t) { ShadowShowsCompletion(r, c, t, v); }
    ClaimTakes(r, c, t, v);
    u := t - 1;
    CtxSteps(r, c, u);
    var x, i := CtxAt(r, c, u), r.ins(u);
    RunningIsCandidate(CtxRequest(x, i.source, i.prio), r.cfg.n);
  }

  /** Before `t`, no two cycles have `v` enabled on one context and on the other. */
  ghost predicate EnablesApart(r: Run, c: nat, d: nat, t: nat, v: nat) {
    forall a: nat, b: nat :: a < t && b < t ==> !(EnabledAt(r, c, a, v) && EnabledAt(r, d, b, v))
  }

  /** Contexts whose enables never share an ID never hold it together. */
  lemma ApartEnablesApartService(r: Run, c: nat, d: nat, t: nat, v: nat)
    requires IsRun(r) && c < r.cfg.ctxs && d < r.cfg.ctxs && EnablesApart(r, c, d, t, v)
    ensures !(InService(r, c, t, v) && InService(r, d, t, v))
  {
    if InService(r, c, t, v) && InService(r, d, t, v) {
      var a := ServiceNeedsEnable(r, c, t, v);
      var b := ServiceNeedsEnable(r, d, t, v);
    }
  }

  // ----- A run in which both contexts hold the one source -----

  const TWO: Cfg := Cfg(1, 2)

  /** Enables source 1 on both contexts, then reads both claim registers. */
  function BusAt(t: nat): Bus {
    if t == 0 then PlicShadow.Write(Enable(0), 2)
    else if t == 2 then PlicShadow.Write(Enable(1), 2)
    else if t == 4 then PlicShadow.Read(Claim(0))
    else if t == 6 then PlicShadow.Read(Claim(1))
    else PlicShadow.NoAccess()
  }

  function InputAt(t: nat): Input {
    Input(BusAt(t), [false, true], [0, 1])
  }

  function StateAt(t: nat): State {
    if t == 0 then Init(TWO) else Step(TWO, StateAt(t - 1), InputAt(t - 1))
  }

  function TheRun(): Run {
    Run(TWO, (t: nat) => InputAt(t), (t: nat) => StateAt(t))
  }

  lemma TheRunRuns()
    ensures IsRun(TheRun())
  {
    forall t: nat ensures StepsAt(TheRun(), t) {
      assert StateAt(t + 1) == Step(TWO, StateAt(t), InputAt(t));
    }
  }

  /** A context with source 1 enabled or not, in service or not. */
  function Holding(enabled: bool, claim: nat, held: bool): Ctx {
    Ctx([false, enabled], 0, claim, [false, held], false)
  }

  ghost predicate Shows(s: State, x: Ctx, y: Ctx, bresp: bool, rresp: bool) {
    s.ctx == [x, y] && s.bresp == bresp && s.rresp == rresp
  }

  /** One context's edge, for the three accesses of the run. */
  lemma HoldingStep(enabled: bool, claim: nat, held: bool)
    ensures var x, source, prio := Holding(enabled, claim, held), [false, true], [0, 1];
            var shown := if enabled && !held then 1 else 0;
            && CtxNext(1, x, source, prio, Access(false, None, None, None)) == Holding(enabled, shown, held)
            && CtxNext(1, x, source, prio, Access(false, None, Some(2), None)) == Holding(true, shown, held)
            && CtxNext(1, x, source, prio, Access(true, None, None, None))
               == Holding(enabled, shown, held || claim == 1)
  {
    var q := CtxRequest(Holding(enabled, claim, held), [false, true], [0, 1]);
    assert Running(q, 0) == (0, 0);
    assert Cand(q, 1) == (enabled && !held);
    assert FromNat(2, 2) == [false, true];
    var kept := ClaimedNext(1, [false, held], claim, false, false);
    assert kept == [kept[0], kept[1]];
    var taken := ClaimedNext(1, [false, held], claim, true, false);
    assert taken == [taken[0], taken[1]];
  }

  /** A run under these inputs. */
  ghost predicate Scheduled(r: Run) {
    IsRun(r) && r.cfg == TWO && forall t: nat :: r.ins(t) == InputAt(t)
  }

  lemma Next(r: Run, t: nat, bus: Bus, x: Ctx, y: Ctx, bresp: bool, rresp: bool)
    requires Scheduled(r) && bus == BusAt(t) && Shows(r.ss(t), x, y, bresp, rresp)
    ensures Shows(
      r.ss(t + 1),
      CtxNext(1, x, [false, true], [0, 1], AccessOf(r.ss(t), bus, 0)),
      CtxNext(1, y, [false, true], [0, 1], AccessOf(r.ss(t), bus, 1)),
      WrFire(r.ss(t), bus) || (bresp && !bus.bReady), RdFire(r.ss(t), bus) || (rresp && !bus.rReady))
  {
    assert StepsAt(r, t) && r.ins(t) == InputAt(t);
    var n := r.ss(t + 1);
    assert n.ctx == [n.ctx[0], n.ctx[1]];
  }

  lemma EnablingFirst(r: Run)
    requires Scheduled(r)
    ensures Shows(r.ss(2), Holding(true, 1, false), Holding(false, 0, false), false, false)
  {
    assert Zeros(2) == [false, false];
    assert Init(TWO).ctx == [InitCtx(1), InitCtx(1)];
    HoldingStep(false, 0, false);
    HoldingStep(true, 0, false);
    Next(r, 0, BusAt(0), Holding(false, 0, false), Holding(false, 0, false), false, false);
    Next(r, 1, BusAt(1), Holding(true, 0, false), Holding(false, 0, false), true, false);
  }

  lemma EnablingSecond(r: Run)
    requires Scheduled(r) && Shows(r.ss(2), Holding(true, 1, false), Holding(false, 0, false), false, false)
    ensures Shows(r.ss(3), Holding(true, 1, false), Holding(true, 0, false), true, false)
  {
    HoldingStep(false, 0, false);
    HoldingStep(true, 1, false);
    Next(r, 2, BusAt(2), Holding(true, 1, false), Holding(false, 0, false), false, false);
  }

  lemma Enabling(r: Run)
    requires Scheduled(r)
    ensures Shows(r.ss(4), Holding(true, 1, false), Holding(true, 1, false), false, false)
  {
    EnablingFirst(r);
    EnablingSecond(r);
    HoldingStep(true, 0, false);
    HoldingStep(true, 1, false);
    Next(r, 3, BusAt(3), Holding(true, 1, false), Holding(true, 0, false), true, false);
  }

  lemma Claiming(r: Run)
    requires Scheduled(r) && Shows(r.ss(4), Holding(true, 1, false), Holding(true, 1, false), false, false)
    ensures Shows(r.ss(6), Holding(true, 0, true), Holding(true, 1, false), false, false)
    ensures Shows(r.ss(7), Holding(true, 0, true), Holding(true, 1, true), false, true)
  {
    HoldingStep(true, 1, false);
    HoldingStep(true, 1, true);
    HoldingStep(true, 0, true);
    Next(r, 4, BusAt(4), Holding(true, 1, false), Holding(true, 1, false), false, false);
    Next(r, 5, BusAt(5), Holding(true, 1, true), Holding(true, 1, false), false, true);
    Next(r, 6, BusAt(6), Holding(true, 0, true), Holding(true, 1, false), false, false);
  }

  lemma BothHold(r: Run)
    requires Scheduled(r)
    ensures ClaimRead(r, 0, 4, 1) && ClaimRead(r, 1, 6, 1) && InService(r, 0, 7, 1) && InService(r, 1, 7, 1)
  {
    Enabling(r);
    Claiming(r);
    assert r.ins(4) == InputAt(4) && r.ins(6) == InputAt(6);
  }

  /** The one source is claimed on both contexts, and both hold it in service at once. */
  lemma HeldTwice()
    ensures var r := TheRun();
            && IsRun(r) && ClaimRead(r, 0, 4, 1) && ClaimRead(r, 1, 6, 1)
            && InService(r, 0, 7, 1) && InService(r, 1, 7, 1)
  {
    TheRunRuns();
    BothHold(TheRun());
  }
}
